// What the encoder writes, the decoder reads: with the same descriptor it gives back the
// message, and with another that agrees on the fields the two share, just those fields,
// or an error if a field that the reader requires was never sent.
module ProtoRoundTrip {
  import opened Keys
  import opened Coding
  import opened Protos
  import opened ProtoIter
  import opened ProtoEncoder
  import opened ProtoWire
  import opened ProtoMessages

  // ----- numbers -----

  lemma {:induction false} SignedRoundTrip(n: int)
    requires -(TWO_64 / 2) <= n < TWO_64 / 2
    ensures TwosComplement(n) < TWO_64 && SignedOf(TwosComplement(n), TWO_64) == n
    ensures 0 <= n + TWO_31 < TWO_32 ==> SignedOf(TwosComplement(n) % TWO_32, TWO_32) == n
  {
    if 0 <= n + TWO_31 < TWO_31 {
      assert TwosComplement(n) == (TWO_32 - 1) * TWO_32 + (TWO_32 + n);
      assert TwosComplement(n) % TWO_32 == TWO_32 + n;
    }
  }

  lemma {:induction false} ZigZagRoundTrip(n: int)
    requires -(TWO_64 / 2) <= n < TWO_64 / 2
    ensures ZigZagged(n) < TWO_64 && UnZigZag(ZigZagged(n)) == n
  {
  }

  lemma {:induction false} SpanBounds(size: nat)
    ensures Span(size) <= TWO_64 && Span(size) % 2 == 0 && (size != 8 ==> Span(size) <= TWO_32)
  {
  }

  lemma {:induction false} NumberRoundTrip(f: Field, v: Val, rest: Bytes)
    requires FieldOk(f) && IsNumber(f.kind) && ValOk(f, v)
    ensures DecodeNumber(f, EncVal(f, v) + rest) == Some((v, rest))
  {
    SpanBounds(f.dataSize);
    match f.kind
    case Bool => Varint32RoundTrip(v.n, rest);
    case Varying =>
      SignedRoundTrip(v.n);
      GetVarint64RoundTrip(TwosComplement(v.n), rest);
    case Unsigned => GetVarint64RoundTrip(v.n, rest);
    case ZigZag =>
      ZigZagRoundTrip(v.n);
      GetVarint64RoundTrip(ZigZagged(v.n), rest);
    case Fix32 => FixedTrip(f, v, rest);
    case Fix64 => FixedTrip(f, v, rest);
  }

  lemma {:induction false} FixedTrip(f: Field, v: Val, rest: Bytes)
    requires FieldOk(f) && (f.kind.Fix32? || f.kind.Fix64?) && ValOk(f, v)
    ensures DecodeNumber(f, EncVal(f, v) + rest) == Some((v, rest))
  {
    if f.kind.Fix32? {
      Fixed32RoundTrip(v.n);
      assert (Fixed(4, v.n) + rest)[..4] == Fixed(4, v.n) && (Fixed(4, v.n) + rest)[4..] == rest;
    } else {
      Fixed64RoundTrip(v.n);
      assert (Fixed(8, v.n) + rest)[..8] == Fixed(8, v.n) && (Fixed(8, v.n) + rest)[8..] == rest;
    }
  }

  // ----- skipping -----

  lemma {:induction false} SkipVarintRoundTrip(v: nat, rest: Bytes)
    ensures SkipVarint(Varint(v) + rest) == Some(rest)
  {
    var all := Varint(v) + rest;
    VarintStep(v);
    if v < 128 {
      assert all[1..] == rest;
    } else {
      assert all[1..] == Varint(v / 128) + rest;
      SkipVarintRoundTrip(v / 128, rest);
    }
  }

  lemma {:induction false} SkipPrefixed(bs: Bytes, rest: Bytes)
    requires |bs| < TWO_32
    ensures SkipField(LengthPrefixed(bs) + rest, WT_STRING) == Some(rest)
  {
    assert LengthPrefixed(bs) + rest == Varint(|bs|) + (bs + rest);
    Varint32RoundTrip(|bs|, bs + rest);
    assert (bs + rest)[|bs|..] == rest;
  }

  /** A decoder that does not know a field passes over just its value. */
  lemma {:induction false} SkipRoundTrip(f: Field, v: Val, rest: Bytes)
    requires ValOk(f, v) && |EncVal(f, v)| < TWO_32
    ensures SkipField(EncVal(f, v) + rest, WireType(f.kind)) == Some(rest)
  {
    match f.kind
    case Bool => SkipVarintRoundTrip(v.n, rest);
    case Varying =>
      SpanBounds(f.dataSize);
      SkipVarintRoundTrip(TwosComplement(v.n), rest);
    case Unsigned => SkipVarintRoundTrip(v.n, rest);
    case ZigZag => SkipVarintRoundTrip(ZigZagged(v.n), rest);
    case Fix32 => assert (Fixed(4, v.n) + rest)[4..] == rest;
    case Fix64 => assert (Fixed(8, v.n) + rest)[8..] == rest;
    case Bytestring => SkipPrefixed(v.bs, rest);
    case Text => SkipPrefixed(v.bs, rest);
    case Inline => SkipPrefixed(v.bs, rest);
    case Message(fields) => SkipPrefixed(EncSlots(fields, v.slots, 0), rest);
  }

  // ----- another descriptor -----

  /** `s` describes field `f`, a submessage perhaps with other fields. */
  ghost predicate AgreeField(s: Field, f: Field)
    decreases s
  {
    && s.tag == f.tag && s.rule == f.rule && s.dataSize == f.dataSize && s.arraySize == f.arraySize
    && if s.kind.Message? then f.kind.Message? && Agree(s.kind.fields, f.kind.fields) else s.kind == f.kind
  }

  /** A field of ours with the tag of one of theirs describes that field. */
  ghost predicate Agree(ours: seq<Field>, theirs: seq<Field>)
    decreases ours
  {
    forall p :: 0 <= p < |ours| ==> Of(ours, theirs, p) < |theirs| ==> AgreeField(ours[p], theirs[Of(ours, theirs, p)])
  }

  /** Where field `p` of ours is among theirs; past the end if it is not there. */
  function Of(ours: seq<Field>, theirs: seq<Field>, p: nat): (i: nat)
    requires p < |ours|
    ensures i <= |theirs| && (i < |theirs| ==> theirs[i].tag == ours[p].tag)
    ensures i == |theirs| ==> forall j :: 0 <= j < |theirs| ==> theirs[j].tag != ours[p].tag
  {
    match FindTag(theirs, ours[p].tag, 0) case Some(i) => i case None => |theirs|
  }

  /** What arrives of a value, a slot, a message: a field that was not sent has its default value. */
  ghost function KeptVal(s: Field, f: Field, v: Val): Val
    requires AgreeField(s, f) && ValOk(f, v)
    decreases v
  {
    if s.kind.Message? then Struct(Kept(s.kind.fields, f.kind.fields, v.slots)) else v
  }

  ghost function KeptSlot(s: Field, f: Field, slot: Slot): Slot
    requires AgreeField(s, f) && SlotOk(f, slot)
    decreases slot
  {
    match f.rule
    case Required => One(KeptVal(s, f, slot.v))
    case Singular => One(KeptVal(s, f, slot.v))
    case Optional => if slot.has then Opt(true, KeptVal(s, f, slot.v)) else Opt(false, DefaultVal(s))
    case Repeated => Many(KeptItems(s, f, slot.items))
    case Oneof(_) => Which(if slot.choice.Some? then Some(KeptVal(s, f, slot.choice.value)) else None)
  }

  ghost function KeptItems(s: Field, f: Field, items: seq<Val>): (r: seq<Val>)
    requires AgreeField(s, f) && forall i :: 0 <= i < |items| ==> ValOk(f, items[i])
    ensures |r| == |items| && forall i :: 0 <= i < |items| ==> r[i] == KeptVal(s, f, items[i])
    decreases items
  {
    seq(|items|, i requires 0 <= i < |items| => KeptVal(s, f, items[i]))
  }

  ghost function Kept(ours: seq<Field>, theirs: seq<Field>, slots: seq<Slot>): (r: seq<Slot>)
    requires Agree(ours, theirs) && SlotsOk(theirs, slots)
    ensures |r| == |ours|
    ensures forall p :: 0 <= p < |ours| && Of(ours, theirs, p) == |theirs| ==> r[p] == DefaultSlot(ours[p])
    ensures forall p :: 0 <= p < |ours| && Of(ours, theirs, p) < |theirs| ==>
      r[p] == KeptSlot(ours[p], theirs[Of(ours, theirs, p)], slots[Of(ours, theirs, p)])
    decreases slots
  {
    seq(|ours|, p requires 0 <= p < |ours| =>
      if Of(ours, theirs, p) == |theirs| then DefaultSlot(ours[p])
      else KeptSlot(ours[p], theirs[Of(ours, theirs, p)], slots[Of(ours, theirs, p)]))
  }

  /** One of the first 64 fields that we require is not one of theirs. */
  ghost predicate Missing(ours: seq<Field>, theirs: seq<Field>, p: nat)
    requires p < |ours|
  {
    && ours[p].rule.Required? && RequiredBefore(ours, p) < 64
    && forall j :: 0 <= j < |theirs| ==> theirs[j].tag != ours[p].tag
  }

  /** Nothing we require is missing, and no string fills its buffer to the last byte: the decoder
      insists on room for a terminator, the encoder does not.  Only what is sent and wanted matters. */
  ghost predicate ValReadable(s: Field, f: Field, v: Val)
    requires AgreeField(s, f) && ValOk(f, v)
    decreases v
  {
    match s.kind
    case Text => |v.bs| + 1 <= s.dataSize
    case Message(fields) => Readable(fields, f.kind.fields, v.slots)
    case _ => true
  }

  ghost predicate ItemsReadable(s: Field, f: Field, items: seq<Val>)
    requires AgreeField(s, f) && forall i :: 0 <= i < |items| ==> ValOk(f, items[i])
    decreases items
  {
    forall i :: 0 <= i < |items| ==> ValReadable(s, f, items[i])
  }

  ghost predicate SlotReadable(s: Field, f: Field, slot: Slot)
    requires AgreeField(s, f) && SlotOk(f, slot)
    decreases slot
  {
    match f.rule
    case Required => ValReadable(s, f, slot.v)
    case Singular => IsZero(f, slot.v) || ValReadable(s, f, slot.v)
    case Optional => slot.has ==> ValReadable(s, f, slot.v)
    case Repeated => ItemsReadable(s, f, slot.items)
    case Oneof(_) => slot.choice.Some? ==> ValReadable(s, f, slot.choice.value)
  }

  ghost predicate Readable(ours: seq<Field>, theirs: seq<Field>, slots: seq<Slot>)
    requires Agree(ours, theirs) && SlotsOk(theirs, slots)
    decreases slots
  {
    forall p :: 0 <= p < |ours| ==>
      if Of(ours, theirs, p) == |theirs| then !Missing(ours, theirs, p)
      else SlotReadable(ours[p], theirs[Of(ours, theirs, p)], slots[Of(ours, theirs, p)])
  }

  // ----- what is kept fits our descriptor -----

  lemma {:induction false} KeptValOk(s: Field, f: Field, v: Val)
    requires FieldOk(s) && FieldOk(f) && AgreeField(s, f) && ValOk(f, v)
    ensures ValOk(s, KeptVal(s, f, v))
    decreases v, 0
  {
    if s.kind.Message? {
      KeptOk(s.kind.fields, f.kind.fields, v.slots);
    }
  }

  lemma {:induction false} KeptSlotOk(s: Field, f: Field, slot: Slot)
    requires FieldOk(s) && FieldOk(f) && AgreeField(s, f) && SlotOk(f, slot)
    ensures SlotOk(s, KeptSlot(s, f, slot))
    decreases slot, 0
  {
    DefaultValOk(s);
    match f.rule
    case Required => KeptValOk(s, f, slot.v);
    case Singular => KeptValOk(s, f, slot.v);
    case Optional => KeptValOk(s, f, slot.v);
    case Repeated =>
      forall i | 0 <= i < |slot.items| ensures ValOk(s, KeptVal(s, f, slot.items[i])) {
        KeptValOk(s, f, slot.items[i]);
      }
    case Oneof(_) =>
      if slot.choice.Some? {
        KeptValOk(s, f, slot.choice.value);
      }
  }

  /** Different fields of ours are different fields of theirs. */
  lemma {:induction false} OfDiffers(ours: seq<Field>, theirs: seq<Field>, p: nat, q: nat)
    requires FieldsOk(ours) && p < |ours| && q < |ours| && Of(ours, theirs, p) < |theirs|
    ensures Of(ours, theirs, p) == Of(ours, theirs, q) <==> p == q
  {
  }

  lemma {:induction false} KeptOk(ours: seq<Field>, theirs: seq<Field>, slots: seq<Slot>)
    requires FieldsOk(ours) && FieldsOk(theirs) && Agree(ours, theirs) && SlotsOk(theirs, slots)
    ensures SlotsOk(ours, Kept(ours, theirs, slots))
    decreases slots, 0
  {
    var to := Kept(ours, theirs, slots);
    forall p | 0 <= p < |ours| ensures SlotOk(ours[p], to[p]) {
      DefaultSlotOk(ours[p]);
      if Of(ours, theirs, p) < |theirs| {
        assert AgreeField(ours[p], theirs[Of(ours, theirs, p)]) && SlotOk(theirs[Of(ours, theirs, p)], slots[Of(ours, theirs, p)]);
        KeptSlotOk(ours[p], theirs[Of(ours, theirs, p)], slots[Of(ours, theirs, p)]);
      }
    }
    forall p, q | 0 <= p < q < |ours| && ours[p].rule.Oneof? && ours[p].rule == ours[q].rule && to[p].Which? && to[q].Which?
      ensures to[p].choice == None || to[q].choice == None
    {
      if Of(ours, theirs, p) < |theirs| && Of(ours, theirs, q) < |theirs| {
        OneOfTwo(ours, theirs, slots, p, q);
      }
    }
  }

  /** Of two members of a union at most one is there, in whichever order they come. */
  lemma {:induction false} OneOfTwo(ours: seq<Field>, theirs: seq<Field>, slots: seq<Slot>, p: nat, q: nat)
    requires FieldsOk(ours) && FieldsOk(theirs) && Agree(ours, theirs) && SlotsOk(theirs, slots)
    requires p < |ours| && q < |ours| && p != q && ours[p].rule.Oneof? && ours[p].rule == ours[q].rule
    requires Of(ours, theirs, p) < |theirs| && Of(ours, theirs, q) < |theirs|
    ensures var i, j := Of(ours, theirs, p), Of(ours, theirs, q);
      slots[i].Which? && slots[j].Which? && (slots[i].choice == None || slots[j].choice == None)
  {
    var i, j := Of(ours, theirs, p), Of(ours, theirs, q);
    OfDiffers(ours, theirs, p, q);
    assert AgreeField(ours[p], theirs[i]) && AgreeField(ours[q], theirs[j]);
    assert SlotOk(theirs[i], slots[i]) && SlotOk(theirs[j], slots[j]);
  }

  /** What the encoder leaves out because it is zero, the decoder's defaults put back. */
  lemma {:induction false} ZeroKept(s: Field, f: Field, v: Val)
    requires FieldOk(s) && FieldOk(f) && AgreeField(s, f) && s.initial == None && ValOk(f, v) && IsZero(f, v)
    ensures KeptVal(s, f, v) == DefaultVal(s)
    decreases v
  {
    if s.kind.Message? {
      var ours, theirs := s.kind.fields, f.kind.fields;
      assert AllZero(theirs, v.slots);
      forall p | 0 <= p < |ours| ensures Kept(ours, theirs, v.slots)[p] == DefaultSlot(ours[p]) {
        var i := Of(ours, theirs, p);
        if i < |theirs| {
          assert FieldOk(ours[p]) && FieldOk(theirs[i]) && AgreeField(ours[p], theirs[i]);
          assert SlotOk(theirs[i], v.slots[i]) && SlotIsZero(theirs[i], v.slots[i]);
          if theirs[i].rule.Singular? {
            ZeroKept(ours[p], theirs[i], v.slots[i].v);
          }
        }
      }
      assert Kept(ours, theirs, v.slots) == DefaultSlots(ours);
    }
  }

  // ----- the state of the decoder on the way -----

  ghost function PartialSlot(ours: seq<Field>, theirs: seq<Field>, slots: seq<Slot>, i: nat, p: nat): Slot
    requires Agree(ours, theirs) && SlotsOk(theirs, slots) && p < |ours| && i <= |theirs|
  {
    if Of(ours, theirs, p) < i then KeptSlot(ours[p], theirs[Of(ours, theirs, p)], slots[Of(ours, theirs, p)]) else DefaultSlot(ours[p])
  }

  /** The message when the decoder has read the first `i` fields of the sender's. */
  ghost function Partial(ours: seq<Field>, theirs: seq<Field>, slots: seq<Slot>, i: nat): (r: seq<Slot>)
    requires Agree(ours, theirs) && SlotsOk(theirs, slots) && i <= |theirs|
    ensures |r| == |ours| && forall p :: 0 <= p < |ours| ==> r[p] == PartialSlot(ours, theirs, slots, i, p)
  {
    seq(|ours|, p requires 0 <= p < |ours| => PartialSlot(ours, theirs, slots, i, p))
  }

  lemma {:induction false} PartialOk(ours: seq<Field>, theirs: seq<Field>, slots: seq<Slot>, i: nat)
    requires FieldsOk(ours) && FieldsOk(theirs) && Agree(ours, theirs) && SlotsOk(theirs, slots) && i <= |theirs|
    ensures SlotsOk(ours, Partial(ours, theirs, slots, i))
  {
    var to := Partial(ours, theirs, slots, i);
    forall p | 0 <= p < |ours| ensures SlotOk(ours[p], to[p]) {
      DefaultSlotOk(ours[p]);
      if Of(ours, theirs, p) < i {
        assert AgreeField(ours[p], theirs[Of(ours, theirs, p)]) && SlotOk(theirs[Of(ours, theirs, p)], slots[Of(ours, theirs, p)]);
        KeptSlotOk(ours[p], theirs[Of(ours, theirs, p)], slots[Of(ours, theirs, p)]);
      }
    }
    forall p, q | 0 <= p < q < |ours| && ours[p].rule.Oneof? && ours[p].rule == ours[q].rule && to[p].Which? && to[q].Which?
      ensures to[p].choice == None || to[q].choice == None
    {
      if Of(ours, theirs, p) < i && Of(ours, theirs, q) < i {
        OneOfTwo(ours, theirs, slots, p, q);
      }
    }
  }

  /** The required fields among the first `i` of the sender's. */
  ghost function SeenAt(ours: seq<Field>, theirs: seq<Field>, i: nat): set<nat> {
    set p | 0 <= p < |ours| && ours[p].rule.Required? && Of(ours, theirs, p) < i && RequiredBefore(ours, p) < MAX_REQUIRED_FIELDS
      :: RequiredBefore(ours, p)
  }

  /** The one field of ours that field `i` of the sender is, if any. */
  lemma {:induction false} Landing(ours: seq<Field>, theirs: seq<Field>, i: nat)
    requires FieldsOk(ours) && FieldsOk(theirs) && Agree(ours, theirs) && i < |theirs|
    ensures match FindTag(ours, theirs[i].tag, 0)
      case Some(p) => Of(ours, theirs, p) == i && AgreeField(ours[p], theirs[i]) && forall q :: 0 <= q < |ours| && Of(ours, theirs, q) == i ==> q == p
      case None => forall q :: 0 <= q < |ours| ==> Of(ours, theirs, q) != i
  {
    forall q | 0 <= q < |ours| && Of(ours, theirs, q) == i ensures FindTag(ours, theirs[i].tag, 0) == Some(q) {
      assert AgreeField(ours[q], theirs[i]);
    }
    if FindTag(ours, theirs[i].tag, 0).Some? {
      var p := FindTag(ours, theirs[i].tag, 0).value;
      assert AgreeField(ours[p], theirs[Of(ours, theirs, p)]);
    }
  }

  // ----- one value with its tag -----

  lemma {:induction false} HeaderRead(ours: seq<Field>, at: seq<Slot>, seen: set<nat>, tag: nat, wireType: nat,
      rest: Bytes)
    requires FieldsOk(ours) && SlotsOk(ours, at) && 0 < tag < TAG_LIMIT && wireType < 8
    ensures DecodeLoop(ours, at, seen, Header(tag, wireType) + rest) == OnField(ours, at, seen, tag, wireType, rest)
  {
    Varint32RoundTrip(tag * 8 + wireType, rest);
    assert (tag * 8 + wireType) / 8 == tag && (tag * 8 + wireType) % 8 == wireType;
  }

  lemma {:induction false} Unwanted(ours: seq<Field>, at: seq<Slot>, seen: set<nat>, f: Field, v: Val, rest: Bytes)
    requires FieldsOk(ours) && SlotsOk(ours, at) && FieldOk(f) && ValOk(f, v) && |EncVal(f, v)| < TWO_32
    requires FindTag(ours, f.tag, 0) == None
    ensures DecodeLoop(ours, at, seen, (Header(f.tag, WireType(f.kind)) + EncVal(f, v)) + rest) == DecodeLoop(ours, at, seen, rest)
  {
    Regroup(Header(f.tag, WireType(f.kind)), EncVal(f, v), rest);
    HeaderRead(ours, at, seen, f.tag, WireType(f.kind), EncVal(f, v) + rest);
    SkipRoundTrip(f, v, rest);
  }

  /** What the decoder should make of `v`: the value kept of it, or an error for a string without room. */
  ghost function Expected(s: Field, f: Field, v: Val, rest: Bytes): Option<(Val, Bytes)>
    requires AgreeField(s, f) && ValOk(f, v)
  {
    if ValReadable(s, f, v) then Some((KeptVal(s, f, v), rest)) else None
  }

  lemma {:induction false} Wanted(ours: seq<Field>, at: seq<Slot>, seen: set<nat>, p: nat, f: Field, v: Val, rest: Bytes)
    requires FieldsOk(ours) && SlotsOk(ours, at) && FieldOk(f) && ValOk(f, v)
    requires FindTag(ours, f.tag, 0) == Some(p) && AgreeField(ours[p], f)
    requires SlotOk(ours[p], at[p])
    requires ours[p].rule.Repeated? ==> !IsNumber(ours[p].kind) && |at[p].items| < ours[p].arraySize
    requires DecodeVal(ours[p], Beneath(ours[p], at[p]), EncVal(f, v) + rest) == Expected(ours[p], f, v, rest)
    ensures ValReadable(ours[p], f, v) ==> SlotsOk(ours, Stored(ours, at, p, KeptVal(ours[p], f, v)))
    ensures DecodeLoop(ours, at, seen, (Header(f.tag, WireType(f.kind)) + EncVal(f, v)) + rest) ==
      if ValReadable(ours[p], f, v) then DecodeLoop(ours, Stored(ours, at, p, KeptVal(ours[p], f, v)), Seen(ours, p, seen), rest) else None
  {
    Regroup(Header(f.tag, WireType(f.kind)), EncVal(f, v), rest);
    HeaderRead(ours, at, seen, f.tag, WireType(f.kind), EncVal(f, v) + rest);
    KeptValOk(ours[p], f, v);
    StoredOk(ours, at, p, KeptVal(ours[p], f, v));
  }

  // ----- blobs and arrays of numbers -----

  lemma {:induction false} PrefixRead(bs: Bytes, rest: Bytes)
    requires |bs| < TWO_32
    ensures Varint32(LengthPrefixed(bs) + rest) == Some((|bs|, bs + rest))
    ensures (bs + rest)[..|bs|] == bs && (bs + rest)[|bs|..] == rest
  {
    assert LengthPrefixed(bs) + rest == Varint(|bs|) + (bs + rest);
    Varint32RoundTrip(|bs|, bs + rest);
  }

  lemma {:induction false} BlobTrip(s: Field, f: Field, v: Val, base: Val, rest: Bytes)
    requires FieldOk(s) && FieldOk(f) && AgreeField(s, f) && ValOk(f, v) && ValOk(s, base) && ValFits(f, v)
    requires s.kind.Bytestring? || s.kind.Text? || s.kind.Inline?
    ensures DecodeVal(s, base, EncVal(f, v) + rest) == Expected(s, f, v, rest)
  {
    PrefixRead(v.bs, rest);
    if s.kind.Inline? && |v.bs| == 0 {
      assert Zeros(0) == v.bs;
    }
  }

  lemma {:induction false} PackedTrip(s: Field, items: seq<Val>, k: nat)
    requires FieldOk(s) && IsNumber(s.kind) && k <= |items| <= s.arraySize
    requires forall i :: 0 <= i < |items| ==> ValOk(s, items[i])
    ensures DecodePacked(s, items[..k], EncItems(s, items, k)) == Some(items)
    decreases |items| - k
  {
    if k == |items| {
      assert items[..k] == items;
    } else {
      NumberRoundTrip(s, items[k], EncItems(s, items, k + 1));
      assert |EncVal(s, items[k]) + EncItems(s, items, k + 1)| > 0;
      assert items[..k] + [items[k]] == items[..k + 1];
      PackedTrip(s, items, k + 1);
    }
  }

  /** Numbers are encoded alike for both descriptors. */
  lemma {:induction false} SameItems(s: Field, f: Field, items: seq<Val>, k: nat)
    requires AgreeField(s, f) && IsNumber(s.kind) && k <= |items|
    requires forall i :: 0 <= i < |items| ==> ValOk(f, items[i])
    ensures forall i :: 0 <= i < |items| ==> ValOk(s, items[i])
    ensures EncItems(s, items, k) == EncItems(f, items, k)
    ensures KeptItems(s, f, items) == items && ItemsReadable(s, f, items)
    decreases |items| - k
  {
    if k < |items| {
      SameItems(s, f, items, k + 1);
    }
  }

  // ----- from one field of the sender to the next -----

  /** Nothing of field `i` was sent, and nothing needed to be. */
  ghost predicate Absent(f: Field, slot: Slot)
    requires SlotOk(f, slot)
  {
    match f.rule
    case Required => false
    case Singular => IsZero(f, slot.v)
    case Optional => !slot.has
    case Repeated => |slot.items| == 0
    case Oneof(_) => slot.choice == None
  }

  lemma {:induction false} AbsentKept(s: Field, f: Field, slot: Slot)
    requires FieldOk(s) && FieldOk(f) && AgreeField(s, f) && SlotOk(f, slot) && Absent(f, slot)
    ensures KeptSlot(s, f, slot) == DefaultSlot(s) && EncSlot(f, slot) == [] && SlotReadable(s, f, slot)
  {
    if f.rule.Singular? {
      ZeroKept(s, f, slot.v);
    }
  }

  /** The slot of the field read is set, the others stay. */
  lemma {:induction false} PartialNext(ours: seq<Field>, theirs: seq<Field>, slots: seq<Slot>, i: nat, p: nat)
    requires FieldsOk(ours) && FieldsOk(theirs) && Agree(ours, theirs) && SlotsOk(theirs, slots) && i < |theirs|
    requires p < |ours| && Of(ours, theirs, p) == i
    ensures AgreeField(ours[p], theirs[i]) && SlotOk(theirs[i], slots[i])
    ensures Partial(ours, theirs, slots, i)[p] == DefaultSlot(ours[p])
    ensures Partial(ours, theirs, slots, i + 1) == Partial(ours, theirs, slots, i)[p := KeptSlot(ours[p], theirs[i], slots[i])]
  {
    assert AgreeField(ours[p], theirs[Of(ours, theirs, p)]);
    var a, b := Partial(ours, theirs, slots, i), Partial(ours, theirs, slots, i + 1);
    forall q | 0 <= q < |ours| && q != p ensures a[q] == b[q] {
      OfDiffers(ours, theirs, p, q);
    }
  }

  lemma {:induction false} PartialSame(ours: seq<Field>, theirs: seq<Field>, slots: seq<Slot>, i: nat)
    requires Agree(ours, theirs) && SlotsOk(theirs, slots) && i < |theirs| && forall q :: 0 <= q < |ours| ==> Of(ours, theirs, q) != i
    ensures Partial(ours, theirs, slots, i + 1) == Partial(ours, theirs, slots, i) && SeenAt(ours, theirs, i + 1) == SeenAt(ours, theirs, i)
  {
    forall q | 0 <= q < |ours| ensures Partial(ours, theirs, slots, i + 1)[q] == Partial(ours, theirs, slots, i)[q] {
      assert PartialSlot(ours, theirs, slots, i + 1, q) == PartialSlot(ours, theirs, slots, i, q);
    }
    forall r ensures r in SeenAt(ours, theirs, i + 1) <==> r in SeenAt(ours, theirs, i) {
    }
  }

  lemma {:induction false} SeenNext(ours: seq<Field>, theirs: seq<Field>, i: nat, p: nat)
    requires FieldsOk(ours) && p < |ours| && Of(ours, theirs, p) == i < |theirs|
    ensures Seen(ours, p, SeenAt(ours, theirs, i)) == SeenAt(ours, theirs, i + 1)
  {
    forall r ensures r in Seen(ours, p, SeenAt(ours, theirs, i)) <==> r in SeenAt(ours, theirs, i + 1) {
      if r in SeenAt(ours, theirs, i + 1) {
        var q :| 0 <= q < |ours| && ours[q].rule.Required? && Of(ours, theirs, q) < i + 1 && RequiredBefore(ours, q) < MAX_REQUIRED_FIELDS && RequiredBefore(ours, q) == r;
        OfDiffers(ours, theirs, p, q);
      }
    }
  }

  /** Choosing a member of a union unsets nothing that a well-formed message has set. */
  lemma {:induction false} ChosenIsNext(ours: seq<Field>, theirs: seq<Field>, slots: seq<Slot>, i: nat, p: nat)
    requires FieldsOk(ours) && FieldsOk(theirs) && Agree(ours, theirs) && SlotsOk(theirs, slots) && i < |theirs|
    requires p < |ours| && Of(ours, theirs, p) == i && ours[p].rule.Oneof? && SlotOk(theirs[i], slots[i]) && AgreeField(ours[p], theirs[i])
    requires slots[i].choice.Some?
    ensures Chosen(ours, Partial(ours, theirs, slots, i), p, KeptVal(ours[p], theirs[i], slots[i].choice.value)) == Partial(ours, theirs, slots, i + 1)
  {
    PartialNext(ours, theirs, slots, i, p);
    var a, b := Partial(ours, theirs, slots, i), Partial(ours, theirs, slots, i + 1);
    var c := Chosen(ours, a, p, KeptVal(ours[p], theirs[i], slots[i].choice.value));
    forall q | 0 <= q < |ours| ensures c[q] == b[q] {
      if q != p && ours[q].rule == ours[p].rule {
        if Of(ours, theirs, q) < |theirs| {
          OneOfTwo(ours, theirs, slots, p, q);
          assert AgreeField(ours[q], theirs[Of(ours, theirs, q)]);
        }
        assert a[q] == PartialSlot(ours, theirs, slots, i, q);
      }
    }
  }

  // ----- the round trip, by induction over the message -----

  lemma {:induction false} ValTrip(s: Field, f: Field, v: Val, base: Val, rest: Bytes)
    requires FieldOk(s) && FieldOk(f) && AgreeField(s, f) && ValOk(f, v) && ValOk(s, base) && ValFits(f, v)
    requires |EncVal(f, v)| < TWO_32 && (s.kind.Message? ==> base == DefaultVal(s))
    ensures DecodeVal(s, base, EncVal(f, v) + rest) == Expected(s, f, v, rest)
    decreases v, 0
  {
    if IsNumber(s.kind) {
      NumberRoundTrip(f, v, rest);
      assert DecodeNumber(s, EncVal(f, v) + rest) == DecodeNumber(f, EncVal(f, v) + rest);
    } else if s.kind.Message? {
      PrefixRead(EncSlots(f.kind.fields, v.slots, 0), rest);
      MessageTrip(s.kind.fields, f.kind.fields, v.slots);
    } else {
      BlobTrip(s, f, v, base, rest);
    }
  }

  /** A whole message: kept field by field, or refused for a string that fills its buffer or a
      required field that was not sent. */
  lemma {:induction false} MessageTrip(ours: seq<Field>, theirs: seq<Field>, slots: seq<Slot>)
    requires FieldsOk(ours) && FieldsOk(theirs) && Agree(ours, theirs) && SlotsOk(theirs, slots) && SlotsFit(theirs, slots, 0)
    requires |EncSlots(theirs, slots, 0)| < TWO_32
    ensures SlotsOk(ours, DefaultSlots(ours))
    ensures DecodeMessage(ours, DefaultSlots(ours), EncSlots(theirs, slots, 0)) ==
      if Readable(ours, theirs, slots) then Some((Kept(ours, theirs, slots), [])) else None
    decreases slots, |theirs| + 1
  {
    DefaultSlotsOk(ours);
    assert Partial(ours, theirs, slots, 0) == DefaultSlots(ours);
    assert SeenAt(ours, theirs, 0) == {};
    LoopTrip(ours, theirs, slots, 0);
    AllSeenAtEnd(ours, theirs);
  }

  /** At the end every required field was seen, but for those that were not sent. */
  lemma {:induction false} AllSeenAtEnd(ours: seq<Field>, theirs: seq<Field>)
    ensures AllSeen(ours, SeenAt(ours, theirs, |theirs|)) <==>
      forall p :: 0 <= p < |ours| ==> !Missing(ours, theirs, p)
  {
    forall r | 0 <= r < RequiredBefore(ours, |ours|) && r < MAX_REQUIRED_FIELDS && r !in SeenAt(ours, theirs, |theirs|)
      ensures exists p :: 0 <= p < |ours| && Missing(ours, theirs, p)
    {
      var p := RequiredNumbered(ours, |ours|, r);
      assert Missing(ours, theirs, p);
    }
    forall p | 0 <= p < |ours| && Missing(ours, theirs, p) ensures !AllSeen(ours, SeenAt(ours, theirs, |theirs|)) {
      MissingIsUnseen(ours, theirs, p);
    }
  }

  lemma {:induction false} MissingIsUnseen(ours: seq<Field>, theirs: seq<Field>, p: nat)
    requires p < |ours| && Missing(ours, theirs, p)
    ensures RequiredBefore(ours, p) < RequiredBefore(ours, |ours|)
    ensures RequiredBefore(ours, p) !in SeenAt(ours, theirs, |theirs|)
  {
    RequiredNumbersDiffer(ours, p, |ours|);
    if RequiredBefore(ours, p) in SeenAt(ours, theirs, |theirs|) {
      var q :| 0 <= q < |ours| && ours[q].rule.Required? && Of(ours, theirs, q) < |theirs| && RequiredBefore(ours, q) == RequiredBefore(ours, p);
      if p < q {
        RequiredNumbersDiffer(ours, p, q);
      } else if q < p {
        RequiredNumbersDiffer(ours, q, p);
      }
    }
  }

  ghost predicate ReadableFrom(ours: seq<Field>, theirs: seq<Field>, slots: seq<Slot>, i: nat)
    requires Agree(ours, theirs) && SlotsOk(theirs, slots)
  {
    forall p :: 0 <= p < |ours| && i <= Of(ours, theirs, p) < |theirs| ==> SlotReadable(ours[p], theirs[Of(ours, theirs, p)], slots[Of(ours, theirs, p)])
  }

  lemma {:induction false} LoopTrip(ours: seq<Field>, theirs: seq<Field>, slots: seq<Slot>, i: nat)
    requires FieldsOk(ours) && FieldsOk(theirs) && Agree(ours, theirs) && SlotsOk(theirs, slots) && i <= |theirs| && SlotsFit(theirs, slots, i)
    requires |EncSlots(theirs, slots, i)| < TWO_32
    ensures SlotsOk(ours, Partial(ours, theirs, slots, i))
    ensures DecodeLoop(ours, Partial(ours, theirs, slots, i), SeenAt(ours, theirs, i), EncSlots(theirs, slots, i)) ==
      if ReadableFrom(ours, theirs, slots, i) then Some((Kept(ours, theirs, slots), SeenAt(ours, theirs, |theirs|), [])) else None
    decreases slots, |theirs| - i
  {
    PartialOk(ours, theirs, slots, i);
    if i == |theirs| {
      assert Partial(ours, theirs, slots, i) == Kept(ours, theirs, slots);
    } else {
      var rest := EncSlots(theirs, slots, i + 1);
      LoopTrip(ours, theirs, slots, i + 1);
      SlotTrip(ours, theirs, slots, i, rest);
      Landing(ours, theirs, i);
      assert ReadableFrom(ours, theirs, slots, i) <==> ReadableFrom(ours, theirs, slots, i + 1) && WantedReadable(ours, theirs, slots, i);
    }
  }

  /** Field `i` can be read, if the decoder wants it. */
  ghost predicate WantedReadable(ours: seq<Field>, theirs: seq<Field>, slots: seq<Slot>, i: nat)
    requires Agree(ours, theirs) && SlotsOk(theirs, slots) && i < |theirs|
  {
    forall p :: 0 <= p < |ours| && Of(ours, theirs, p) == i ==> SlotReadable(ours[p], theirs[Of(ours, theirs, p)], slots[Of(ours, theirs, p)])
  }

  lemma {:induction false} SlotTrip(ours: seq<Field>, theirs: seq<Field>, slots: seq<Slot>, i: nat, rest: Bytes)
    requires FieldsOk(ours) && FieldsOk(theirs) && Agree(ours, theirs) && SlotsOk(theirs, slots) && i < |theirs|
    requires SlotOk(theirs[i], slots[i]) && SlotFits(theirs[i], slots[i]) && |EncSlot(theirs[i], slots[i])| < TWO_32
    requires SlotsOk(ours, Partial(ours, theirs, slots, i)) && SlotsOk(ours, Partial(ours, theirs, slots, i + 1))
    ensures DecodeLoop(ours, Partial(ours, theirs, slots, i), SeenAt(ours, theirs, i), EncSlot(theirs[i], slots[i]) + rest) ==
      if WantedReadable(ours, theirs, slots, i) then DecodeLoop(ours, Partial(ours, theirs, slots, i + 1), SeenAt(ours, theirs, i + 1), rest) else None
    decreases slots[i], 1
  {
    Landing(ours, theirs, i);
    match FindTag(ours, theirs[i].tag, 0)
    case None =>
      PartialSame(ours, theirs, slots, i);
      UnwantedSlot(ours, Partial(ours, theirs, slots, i), SeenAt(ours, theirs, i), theirs[i], slots[i], rest);
    case Some(p) =>
      PartialNext(ours, theirs, slots, i, p);
      SeenNext(ours, theirs, i, p);
      WantedSlot(ours, theirs, slots, i, p, rest);
  }

  lemma {:induction false} UnwantedSlot(ours: seq<Field>, at: seq<Slot>, seen: set<nat>, f: Field, slot: Slot,
      rest: Bytes)
    requires FieldsOk(ours) && SlotsOk(ours, at) && FieldOk(f) && SlotOk(f, slot) && |EncSlot(f, slot)| < TWO_32
    requires FindTag(ours, f.tag, 0) == None
    ensures DecodeLoop(ours, at, seen, EncSlot(f, slot) + rest) == DecodeLoop(ours, at, seen, rest)
  {
    if EncSlot(f, slot) == [] {
      assert EncSlot(f, slot) + rest == rest;
    } else {
      match f.rule
      case Required => Unwanted(ours, at, seen, f, slot.v, rest);
      case Singular => Unwanted(ours, at, seen, f, slot.v, rest);
      case Optional => Unwanted(ours, at, seen, f, slot.v, rest);
      case Oneof(_) => Unwanted(ours, at, seen, f, slot.choice.value, rest);
      case Repeated =>
        if IsNumber(f.kind) {
          var body := EncItems(f, slot.items, 0);
          Regroup(Header(f.tag, WT_STRING), LengthPrefixed(body), rest);
          HeaderRead(ours, at, seen, f.tag, WT_STRING, LengthPrefixed(body) + rest);
          SkipPrefixed(body, rest);
        } else {
          UnwantedEach(ours, at, seen, f, slot.items, 0, rest);
        }
    }
  }

  lemma {:induction false} UnwantedEach(ours: seq<Field>, at: seq<Slot>, seen: set<nat>, f: Field,
      items: seq<Val>, k: nat, rest: Bytes)
    requires FieldsOk(ours) && SlotsOk(ours, at) && FieldOk(f) && k <= |items| && (forall j :: 0 <= j < |items| ==> ValOk(f, items[j]))
    requires FindTag(ours, f.tag, 0) == None && |EncTagged(f, items, k)| < TWO_32
    ensures DecodeLoop(ours, at, seen, EncTagged(f, items, k) + rest) == DecodeLoop(ours, at, seen, rest)
    decreases |items| - k
  {
    if k == |items| {
      assert EncTagged(f, items, k) + rest == rest;
    } else {
      var head, tail := Header(f.tag, WireType(f.kind)) + EncVal(f, items[k]), EncTagged(f, items, k + 1);
      Regroup(head, tail, rest);
      Unwanted(ours, at, seen, f, items[k], tail + rest);
      UnwantedEach(ours, at, seen, f, items, k + 1, rest);
    }
  }

  lemma {:induction false} WantedSlot(ours: seq<Field>, theirs: seq<Field>, slots: seq<Slot>, i: nat, p: nat, rest: Bytes)
    requires FieldsOk(ours) && FieldsOk(theirs) && Agree(ours, theirs) && SlotsOk(theirs, slots) && i < |theirs|
    requires p < |ours| && Of(ours, theirs, p) == i && FindTag(ours, theirs[i].tag, 0) == Some(p) && AgreeField(ours[p], theirs[i])
    requires SlotOk(theirs[i], slots[i]) && SlotFits(theirs[i], slots[i]) && |EncSlot(theirs[i], slots[i])| < TWO_32
    requires SlotsOk(ours, Partial(ours, theirs, slots, i)) && SlotsOk(ours, Partial(ours, theirs, slots, i + 1))
    ensures DecodeLoop(ours, Partial(ours, theirs, slots, i), SeenAt(ours, theirs, i), EncSlot(theirs[i], slots[i]) + rest) ==
      if SlotReadable(ours[p], theirs[i], slots[i])
      then DecodeLoop(ours, Partial(ours, theirs, slots, i + 1), Seen(ours, p, SeenAt(ours, theirs, i)), rest) else None
    decreases slots[i], 0
  {
    var s, f, slot := ours[p], theirs[i], slots[i];
    var at, seen := Partial(ours, theirs, slots, i), SeenAt(ours, theirs, i);
    PartialNext(ours, theirs, slots, i, p);
    if Absent(f, slot) {
      AbsentKept(s, f, slot);
      assert EncSlot(f, slot) + rest == rest;
      assert at[p := DefaultSlot(s)] == at;
    } else if f.rule.Repeated? {
      WantedArray(ours, at, seen, p, f, slot.items, rest);
    } else {
      var v := if f.rule.Oneof? then slot.choice.value else slot.v;
      DefaultSlotOk(s);
      DefaultValOk(s);
      ValTrip(s, f, v, Beneath(s, at[p]), rest);
      Wanted(ours, at, seen, p, f, v, rest);
      if f.rule.Oneof? {
        ChosenIsNext(ours, theirs, slots, i, p);
      }
    }
  }

  lemma {:induction false} WantedArray(ours: seq<Field>, at: seq<Slot>, seen: set<nat>, p: nat, f: Field,
      items: seq<Val>, rest: Bytes)
    requires FieldsOk(ours) && SlotsOk(ours, at) && FieldOk(f) && f.rule.Repeated? && p < |ours|
    requires FindTag(ours, f.tag, 0) == Some(p) && AgreeField(ours[p], f) && at[p] == Many([])
    requires SlotOk(f, Many(items)) && SlotFits(f, Many(items)) && |EncSlot(f, Many(items))| < TWO_32
    requires SlotsOk(ours, at[p := Many(KeptItems(ours[p], f, items))])
    ensures DecodeLoop(ours, at, seen, EncSlot(f, Many(items)) + rest) ==
      if ItemsReadable(ours[p], f, items) then DecodeLoop(ours, at[p := Many(KeptItems(ours[p], f, items))], Seen(ours, p, seen), rest) else None
    decreases items, 1
  {
    var s := ours[p];
    if |items| == 0 {
      assert at[p := Many(KeptItems(s, f, items))] == at;
      assert EncSlot(f, Many(items)) + rest == rest;
    } else if IsNumber(f.kind) {
      var body := EncItems(f, items, 0);
      Regroup(Header(f.tag, WT_STRING), LengthPrefixed(body), rest);
      HeaderRead(ours, at, seen, f.tag, WT_STRING, LengthPrefixed(body) + rest);
      PrefixRead(body, rest);
      SameItems(s, f, items, 0);
      assert items[..0] == [];
      PackedTrip(s, items, 0);
    } else {
      assert at[p := Many(KeptItems(s, f, items)[..0])] == at;
      EachTrip(ours, at, seen, p, f, items, 0, rest);
    }
  }

  lemma {:induction false} EachTrip(ours: seq<Field>, at: seq<Slot>, seen: set<nat>, p: nat, f: Field,
      items: seq<Val>, k: nat, rest: Bytes)
    requires FieldsOk(ours) && FieldOk(f) && f.rule.Repeated? && p < |ours| == |at| && k <= |items| <= f.arraySize
    requires FindTag(ours, f.tag, 0) == Some(p) && AgreeField(ours[p], f) && !IsNumber(f.kind)
    requires (forall j :: 0 <= j < |items| ==> ValOk(f, items[j])) && ItemsFit(f, items, k) && |EncTagged(f, items, k)| < TWO_32
    requires SlotsOk(ours, at[p := Many(KeptItems(ours[p], f, items)[..k])])
    requires SlotsOk(ours, at[p := Many(KeptItems(ours[p], f, items))])
    ensures DecodeLoop(ours, at[p := Many(KeptItems(ours[p], f, items)[..k])], seen, EncTagged(f, items, k) + rest) ==
      if ReadableOnward(ours[p], f, items, k)
      then DecodeLoop(ours, at[p := Many(KeptItems(ours[p], f, items))], seen, rest) else None
    decreases items, 0, |items| - k
  {
    if k == |items| {
      assert KeptItems(ours[p], f, items)[..k] == KeptItems(ours[p], f, items);
      assert EncTagged(f, items, k) + rest == rest;
    } else {
      var head, tail := Header(f.tag, WireType(f.kind)) + EncVal(f, items[k]), EncTagged(f, items, k + 1);
      Regroup(head, tail, rest);
      DefaultValOk(ours[p]);
      ValTrip(ours[p], f, items[k], DefaultVal(ours[p]), tail + rest);
      EachStep(ours, at, seen, p, f, items, k, tail + rest);
      OneMoreReadable(ours[p], f, items, k);
      if ValReadable(ours[p], f, items[k]) {
        EachTrip(ours, at, seen, p, f, items, k + 1, rest);
      }
    }
  }

  ghost predicate ReadableOnward(s: Field, f: Field, items: seq<Val>, k: nat)
    requires AgreeField(s, f) && forall j :: 0 <= j < |items| ==> ValOk(f, items[j])
  {
    forall j :: k <= j < |items| ==> ValReadable(s, f, items[j])
  }

  lemma {:induction false} OneMoreReadable(s: Field, f: Field, items: seq<Val>, k: nat)
    requires AgreeField(s, f) && k < |items| && forall j :: 0 <= j < |items| ==> ValOk(f, items[j])
    ensures ReadableOnward(s, f, items, k) <==> ValReadable(s, f, items[k]) && ReadableOnward(s, f, items, k + 1)
  {
  }

  lemma {:induction false} EachStep(ours: seq<Field>, at: seq<Slot>, seen: set<nat>, p: nat, f: Field,
      items: seq<Val>, k: nat, rest: Bytes)
    requires FieldsOk(ours) && FieldOk(f) && f.rule.Repeated? && p < |ours| == |at| && k < |items| <= f.arraySize
    requires FindTag(ours, f.tag, 0) == Some(p) && AgreeField(ours[p], f) && !IsNumber(f.kind)
    requires forall j :: 0 <= j < |items| ==> ValOk(f, items[j])
    requires SlotsOk(ours, at[p := Many(KeptItems(ours[p], f, items)[..k])]) && ValOk(ours[p], DefaultVal(ours[p]))
    requires DecodeVal(ours[p], DefaultVal(ours[p]), EncVal(f, items[k]) + rest) == Expected(ours[p], f, items[k], rest)
    ensures var next := at[p := Many(KeptItems(ours[p], f, items)[..k + 1])];
      && (ValReadable(ours[p], f, items[k]) ==> SlotsOk(ours, next))
      && DecodeLoop(ours, at[p := Many(KeptItems(ours[p], f, items)[..k])], seen, (Header(f.tag, WireType(f.kind)) + EncVal(f, items[k])) + rest) ==
           if ValReadable(ours[p], f, items[k]) then DecodeLoop(ours, next, seen, rest) else None
  {
    var kept := KeptItems(ours[p], f, items);
    var now := at[p := Many(kept[..k])];
    assert SlotOk(ours[p], now[p]);
    Wanted(ours, now, seen, p, f, items[k], rest);
    assert kept[..k] + [kept[k]] == kept[..k + 1];
    assert now[p := Many(kept[..k + 1])] == at[p := Many(kept[..k + 1])];
  }

  // ----- the theorems -----

  /** Decoding with a descriptor that agrees with the sender's where they share a tag gives just the
      shared fields.  It fails exactly when one of the first 64 required fields was not sent, in the
      message or in a submessage that is sent and wanted, or a string that is sent and wanted fills
      its buffer to the last byte. */
  lemma {:induction false} RoundTrip(ours: seq<Field>, theirs: seq<Field>, slots: seq<Slot>)
    requires FieldsOk(ours) && FieldsOk(theirs) && Agree(ours, theirs) && SlotsOk(theirs, slots)
    requires SlotsFit(theirs, slots, 0) && |EncSlots(theirs, slots, 0)| < TWO_32
    ensures Decode(ours, EncSlots(theirs, slots, 0)) == if Readable(ours, theirs, slots) then Some((Kept(ours, theirs, slots), [])) else None
  {
    MessageTrip(ours, theirs, slots);
  }

  /** One of the first 64 required fields that the sender does not know: nothing is decoded. */
  lemma {:induction false} MissingIsRefused(ours: seq<Field>, theirs: seq<Field>, slots: seq<Slot>, p: nat)
    requires FieldsOk(ours) && FieldsOk(theirs) && Agree(ours, theirs) && SlotsOk(theirs, slots)
    requires SlotsFit(theirs, slots, 0) && |EncSlots(theirs, slots, 0)| < TWO_32
    requires p < |ours| && ours[p].rule.Required? && |set q | 0 <= q < p && ours[q].rule.Required?| < 64
    requires forall j :: 0 <= j < |theirs| ==> theirs[j].tag != ours[p].tag
    ensures Decode(ours, EncSlots(theirs, slots, 0)) == None
  {
    RequiredCounts(ours, p);
    RoundTrip(ours, theirs, slots);
    assert Missing(ours, theirs, p);
    assert Of(ours, theirs, p) == |theirs|;
  }

  /** The same message to a reader: equal but for the values of optional fields that are not there. */
  ghost predicate ValAlike(f: Field, a: Val, b: Val)
    requires ValOk(f, a)
    decreases a
  {
    if f.kind.Message? then b.Struct? && SlotsAlike(f.kind.fields, a.slots, b.slots) else a == b
  }

  ghost predicate SlotAlike(f: Field, a: Slot, b: Slot)
    requires SlotOk(f, a)
    decreases a
  {
    match f.rule
    case Required => b.One? && ValAlike(f, a.v, b.v)
    case Singular => b.One? && ValAlike(f, a.v, b.v)
    case Optional => b.Opt? && a.has == b.has && (a.has ==> ValAlike(f, a.v, b.v))
    case Repeated => b.Many? && |a.items| == |b.items| && forall i :: 0 <= i < |a.items| ==> ValAlike(f, a.items[i], b.items[i])
    case Oneof(_) => b.Which? && a.choice.Some? == b.choice.Some? && (a.choice.Some? ==> ValAlike(f, a.choice.value, b.choice.value))
  }

  ghost predicate SlotsAlike(fields: seq<Field>, a: seq<Slot>, b: seq<Slot>)
    requires SlotsOk(fields, a)
    decreases a
  {
    |b| == |a| && forall i :: 0 <= i < |a| ==> SlotAlike(fields[i], a[i], b[i])
  }

  lemma {:induction false} AgreeSelf(fields: seq<Field>)
    requires FieldsOk(fields)
    ensures Agree(fields, fields) && forall p :: 0 <= p < |fields| ==> Of(fields, fields, p) == p
    decreases fields
  {
    forall p | 0 <= p < |fields| ensures FindTag(fields, fields[p].tag, 0) == Some(p) && AgreeField(fields[p], fields[p]) {
      AgreeFieldSelf(fields[p]);
    }
  }

  lemma {:induction false} AgreeFieldSelf(f: Field)
    requires FieldOk(f)
    ensures AgreeField(f, f)
    decreases f
  {
    if f.kind.Message? {
      AgreeSelf(f.kind.fields);
    }
  }

  lemma {:induction false} KeptValAlike(f: Field, v: Val)
    requires FieldOk(f) && AgreeField(f, f) && ValOk(f, v)
    ensures ValAlike(f, v, KeptVal(f, f, v))
    decreases v, 0
  {
    if f.kind.Message? {
      KeptAlike(f.kind.fields, v.slots);
    }
  }

  lemma {:induction false} KeptAlike(fields: seq<Field>, slots: seq<Slot>)
    requires FieldsOk(fields) && Agree(fields, fields) && SlotsOk(fields, slots)
    ensures SlotsAlike(fields, slots, Kept(fields, fields, slots))
    decreases slots, 0
  {
    AgreeSelf(fields);
    forall p | 0 <= p < |fields| ensures SlotAlike(fields[p], slots[p], Kept(fields, fields, slots)[p]) {
      assert AgreeField(fields[p], fields[Of(fields, fields, p)]) && SlotOk(fields[p], slots[p]) && FieldOk(fields[p]);
      KeptSlotAlike(fields[p], slots[p]);
    }
  }

  lemma {:induction false} KeptSlotAlike(f: Field, s: Slot)
    requires FieldOk(f) && AgreeField(f, f) && SlotOk(f, s)
    ensures SlotAlike(f, s, KeptSlot(f, f, s))
    decreases s, 0
  {
    match f.rule
    case Required => KeptValAlike(f, s.v);
    case Singular => KeptValAlike(f, s.v);
    case Optional =>
      if s.has {
        KeptValAlike(f, s.v);
      }
    case Repeated =>
      forall i | 0 <= i < |s.items| ensures ValAlike(f, s.items[i], KeptVal(f, f, s.items[i])) {
        KeptValAlike(f, s.items[i]);
      }
    case Oneof(_) =>
      if s.choice.Some? {
        KeptValAlike(f, s.choice.value);
      }
  }

  // ----- the sender's own descriptor -----

  /** Every string that is sent leaves room for a terminator. */
  ghost predicate ValHasRoom(f: Field, v: Val)
    requires ValOk(f, v)
    decreases v
  {
    match f.kind
    case Text => |v.bs| < f.dataSize
    case Message(fields) => HasRoom(fields, v.slots)
    case _ => true
  }

  ghost predicate SlotHasRoom(f: Field, s: Slot)
    requires SlotOk(f, s)
    decreases s
  {
    match f.rule
    case Required => ValHasRoom(f, s.v)
    case Singular => IsZero(f, s.v) || ValHasRoom(f, s.v)
    case Optional => s.has ==> ValHasRoom(f, s.v)
    case Repeated => forall i :: 0 <= i < |s.items| ==> ValHasRoom(f, s.items[i])
    case Oneof(_) => s.choice.Some? ==> ValHasRoom(f, s.choice.value)
  }

  ghost predicate HasRoom(fields: seq<Field>, slots: seq<Slot>)
    requires SlotsOk(fields, slots)
    decreases slots
  {
    forall i :: 0 <= i < |fields| ==> SlotHasRoom(fields[i], slots[i])
  }

  lemma {:induction false} ValRoomEnough(f: Field, v: Val)
    requires FieldOk(f) && AgreeField(f, f) && ValOk(f, v)
    ensures ValReadable(f, f, v) <==> ValHasRoom(f, v)
    decreases v, 0
  {
    if f.kind.Message? {
      RoomEnough(f.kind.fields, v.slots);
    }
  }

  lemma {:induction false} SlotRoomEnough(f: Field, s: Slot)
    requires FieldOk(f) && AgreeField(f, f) && SlotOk(f, s)
    ensures SlotReadable(f, f, s) <==> SlotHasRoom(f, s)
    decreases s, 0
  {
    match f.rule
    case Required => ValRoomEnough(f, s.v);
    case Singular => ValRoomEnough(f, s.v);
    case Optional => ValRoomEnough(f, s.v);
    case Repeated =>
      forall i | 0 <= i < |s.items| ensures ValReadable(f, f, s.items[i]) <==> ValHasRoom(f, s.items[i]) {
        ValRoomEnough(f, s.items[i]);
      }
    case Oneof(_) =>
      if s.choice.Some? {
        ValRoomEnough(f, s.choice.value);
      }
  }

  /** Nothing is missing in what was sent with our own descriptor: only the strings matter. */
  lemma {:induction false} RoomEnough(fields: seq<Field>, slots: seq<Slot>)
    requires FieldsOk(fields) && Agree(fields, fields) && SlotsOk(fields, slots)
    ensures Readable(fields, fields, slots) <==> HasRoom(fields, slots)
    decreases slots, 0
  {
    AgreeSelf(fields);
    forall p | 0 <= p < |fields| ensures SlotReadable(fields[p], fields[p], slots[p]) <==> SlotHasRoom(fields[p], slots[p]) {
      assert AgreeField(fields[p], fields[Of(fields, fields, p)]) && SlotOk(fields[p], slots[p]) && FieldOk(fields[p]);
      SlotRoomEnough(fields[p], slots[p]);
    }
  }

  /** With the sender's own descriptor the message comes back, unless a string fills its buffer. */
  lemma {:induction false} SelfRoundTrip(fields: seq<Field>, slots: seq<Slot>)
    requires FieldsOk(fields) && SlotsOk(fields, slots)
    requires SlotsFit(fields, slots, 0) && |EncSlots(fields, slots, 0)| < TWO_32
    ensures match Decode(fields, EncSlots(fields, slots, 0))
      case Some((back, rest)) => HasRoom(fields, slots) && rest == [] && SlotsAlike(fields, slots, back)
      case None => !HasRoom(fields, slots)
  {
    AgreeSelf(fields);
    RoomEnough(fields, slots);
    RoundTrip(fields, fields, slots);
    KeptAlike(fields, slots);
  }

  /** The smallest such message: a required string of one byte in a buffer of one byte.  It is
      encoded without an error and cannot be decoded. */
  lemma {:induction false} FullStringIsRefused() returns (fields: seq<Field>, slots: seq<Slot>)
    ensures FieldsOk(fields) && SlotsOk(fields, slots) && SlotsFit(fields, slots, 0)
    ensures |EncSlots(fields, slots, 0)| < TWO_32 && Decode(fields, EncSlots(fields, slots, 0)) == None
  {
    var f := Field(1, Required, Text, 1, 0, None);
    var s := One(Blob([65]));
    fields, slots := [f], [s];
    assert FieldOk(f) && SlotOk(f, s) && SlotFits(f, s);
    assert EncSlots(fields, slots, 1) == [];
    VarintStep(10);
    VarintStep(1);
    assert EncSlots(fields, slots, 0) == EncSlot(f, s) + [];
    SelfRoundTrip(fields, slots);
    assert !SlotHasRoom(f, s);
  }
}
