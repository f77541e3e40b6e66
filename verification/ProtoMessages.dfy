// Decoding a message as a function of its bytes (pb_decode.c): whatever the bytes are,
// the result is an error or a message that fits its descriptor.
module ProtoMessages {
  import opened Keys
  import opened Coding
  import opened Protos
  import opened ProtoIter
  import opened ProtoWire

  const MAX_REQUIRED_FIELDS: nat := 64

  function FindTag(fields: seq<Field>, tag: nat, i: nat): (r: Option<nat>)
    requires i <= |fields|
    ensures r.Some? ==> i <= r.value < |fields| && fields[r.value].tag == tag
    ensures r == None ==> forall j :: i <= j < |fields| ==> fields[j].tag != tag
    decreases |fields| - i
  {
    if i == |fields| then None else if fields[i].tag == tag then Some(i) else FindTag(fields, tag, i + 1)
  }

  // ----- default values fit -----

  lemma {:induction false} DefaultValOk(f: Field)
    requires FieldOk(f)
    ensures ValOk(f, DefaultVal(f))
    decreases f, 0
  {
    if f.kind.Message? {
      DefaultSlotsOk(f.kind.fields);
    }
  }

  lemma {:induction false} DefaultSlotOk(f: Field)
    requires FieldOk(f)
    ensures SlotOk(f, DefaultSlot(f))
    decreases f, 1
  {
    DefaultValOk(f);
  }

  lemma {:induction false} DefaultSlotsOk(fields: seq<Field>)
    requires FieldsOk(fields)
    ensures SlotsOk(fields, DefaultSlots(fields))
    decreases fields
  {
    forall i | 0 <= i < |fields| ensures SlotOk(fields[i], DefaultSlots(fields)[i]) {
      DefaultSlotOk(fields[i]);
    }
  }

  // ----- storing a value -----

  /** Setting one member of a union unsets the others. */
  function Chosen(fields: seq<Field>, slots: seq<Slot>, p: nat, v: Val): (r: seq<Slot>)
    requires |slots| == |fields| && p < |fields|
    ensures |r| == |slots|
    ensures forall i :: 0 <= i < |slots| ==>
      r[i] == if i == p then Which(Some(v)) else if fields[i].rule == fields[p].rule then Which(None) else slots[i]
  {
    seq(|slots|, i requires 0 <= i < |slots| =>
      if i == p then Which(Some(v)) else if fields[i].rule == fields[p].rule then Which(None) else slots[i])
  }

  /** decode_static_field, once the value is known. */
  function Stored(fields: seq<Field>, slots: seq<Slot>, p: nat, v: Val): (r: seq<Slot>)
    requires SlotsOk(fields, slots) && p < |fields|
    ensures |r| == |slots|
  {
    assert SlotOk(fields[p], slots[p]);
    match fields[p].rule
    case Required => slots[p := One(v)]
    case Singular => slots[p := One(v)]
    case Optional => slots[p := Opt(true, v)]
    case Repeated => slots[p := Many(slots[p].items + [v])]
    case Oneof(_) => Chosen(fields, slots, p, v)
  }

  lemma {:induction false} StoredOk(fields: seq<Field>, slots: seq<Slot>, p: nat, v: Val)
    requires SlotsOk(fields, slots) && p < |fields| && ValOk(fields[p], v)
    ensures SlotsOk(fields, Stored(fields, slots, p, v))
  {
    var to := Stored(fields, slots, p, v);
    forall i | 0 <= i < |fields| ensures SlotOk(fields[i], to[i]) {
      assert SlotOk(fields[i], slots[i]) && SlotOk(fields[p], slots[p]);
    }
  }

  /** What a value is decoded on top of: a submessage already there is merged into. */
  function Beneath(f: Field, s: Slot): (v: Val)
    requires SlotOk(f, s) && FieldOk(f)
    ensures ValOk(f, v)
  {
    DefaultValOk(f);
    match f.rule
    case Required => s.v
    case Singular => s.v
    case Optional => s.v
    case Repeated => DefaultVal(f)
    case Oneof(_) => if s.choice.Some? then s.choice.value else DefaultVal(f)
  }

  // ----- decoding -----

  function DecodeVal(f: Field, base: Val, bs: Bytes): (r: Option<(Val, Bytes)>)
    requires FieldOk(f) && ValOk(f, base)
    ensures r.Some? ==> |r.value.1| < |bs| && ValOk(f, r.value.0)
    decreases |bs|, 0
  {
    if IsNumber(f.kind) then DecodeNumber(f, bs)
    else
      match Varint32(bs)
      case None => None
      case Some((n, rest)) =>
        if f.kind.Inline? && n == 0 then Some((Blob(Zeros(f.dataSize)), rest))
        else if n > |rest| then None
        else
          match f.kind
          case Bytestring => if n + COUNT_SIZE > f.dataSize then None else Some((Blob(rest[..n]), rest[n..]))
          case Text => if n + 1 > f.dataSize then None else Some((Blob(UpToNul(rest[..n])), rest[n..]))
          case Inline => if n != f.dataSize then None else Some((Blob(rest[..n]), rest[n..]))
          case Message(fields) =>
            (match DecodeMessage(fields, base.slots, rest[..n])
             case Some((slots, _)) => Some((Struct(slots), rest[n..]))
             case None => None)
  }

  /** The inside of a packed array, as far as there is room. */
  function DecodePacked(f: Field, items: seq<Val>, bs: Bytes): (r: Option<seq<Val>>)
    requires FieldOk(f) && IsNumber(f.kind) && forall i :: 0 <= i < |items| ==> ValOk(f, items[i])
    ensures r.Some? ==> forall i :: 0 <= i < |r.value| ==> ValOk(f, r.value[i])
    decreases |bs|
  {
    if |bs| == 0 then Some(items)
    else if |items| >= f.arraySize then None
    else
      match DecodeNumber(f, bs)
      case Some((v, rest)) => DecodePacked(f, items + [v], rest)
      case None => None
  }

  /** decode_static_field. */
  function DecodeField(fields: seq<Field>, slots: seq<Slot>, p: nat, wireType: nat, bs: Bytes)
    : (r: Option<(seq<Slot>, Bytes)>)
    requires FieldsOk(fields) && SlotsOk(fields, slots) && p < |fields|
    ensures r.Some? ==> |r.value.1| < |bs| && SlotsOk(fields, r.value.0)
    decreases |bs|, 1
  {
    var f := fields[p];
    assert SlotOk(f, slots[p]);
    if f.rule.Repeated? && wireType == WT_STRING && IsNumber(f.kind) then
      match Varint32(bs)
      case None => None
      case Some((n, rest)) =>
        if n > |rest| then None
        else
          (match DecodePacked(f, slots[p].items, rest[..n])
           case Some(items) => Some((slots[p := Many(items)], rest[n..]))
           case None => None)
    else if f.rule.Repeated? && |slots[p].items| >= f.arraySize then None
    else
      match DecodeVal(f, Beneath(f, slots[p]), bs)
      case Some((v, rest)) =>
        StoredOk(fields, slots, p, v);
        Some((Stored(fields, slots, p, v), rest))
      case None => None
  }

  /** The required fields that are kept track of. */
  function Seen(fields: seq<Field>, p: nat, seen: set<nat>): set<nat>
    requires p < |fields|
  {
    var r := RequiredBefore(fields, p);
    if fields[p].rule.Required? && r < MAX_REQUIRED_FIELDS then seen + {r} else seen
  }

  predicate AllSeen(fields: seq<Field>, seen: set<nat>) {
    forall r :: 0 <= r < RequiredBefore(fields, |fields|) && r < MAX_REQUIRED_FIELDS ==> r in seen
  }

  /** pb_decode_noinit's loop: to the end of the input, or to a tag that is 0. */
  function DecodeLoop(fields: seq<Field>, slots: seq<Slot>, seen: set<nat>, bs: Bytes): (r: Option<(seq<Slot>,
      set<nat>, Bytes)>)
    requires FieldsOk(fields) && SlotsOk(fields, slots)
    ensures r.Some? ==> |r.value.2| <= |bs| && SlotsOk(fields, r.value.0)
    decreases |bs|, 2
  {
    if |bs| == 0 then Some((slots, seen, bs))
    else
      match Varint32(bs)
      case None => None
      case Some((t, rest)) =>
        if t == 0 then Some((slots, seen, rest)) else OnField(fields, slots, seen, t / 8, t % 8, rest)
  }

  /** What the loop does once it has a tag: skips the field if it is not in the descriptor. */
  function OnField(fields: seq<Field>, slots: seq<Slot>, seen: set<nat>, tag: nat, wireType: nat, bs: Bytes)
    : (r: Option<(seq<Slot>, set<nat>, Bytes)>)
    requires FieldsOk(fields) && SlotsOk(fields, slots)
    ensures r.Some? ==> |r.value.2| <= |bs| && SlotsOk(fields, r.value.0)
    decreases |bs|, 3
  {
    match FindTag(fields, tag, 0)
    case None =>
      (match SkipField(bs, wireType)
       case Some(after) => DecodeLoop(fields, slots, seen, after)
       case None => None)
    case Some(p) =>
      (match DecodeField(fields, slots, p, wireType, bs)
       case Some((to, after)) => DecodeLoop(fields, to, Seen(fields, p, seen), after)
       case None => None)
  }

  /** pb_decode_noinit: the fields of `bs` on top of `slots`, and what was left unread. */
  function DecodeMessage(fields: seq<Field>, slots: seq<Slot>, bs: Bytes): (r: Option<(seq<Slot>, Bytes)>)
    requires FieldsOk(fields) && SlotsOk(fields, slots)
    ensures r.Some? ==> |r.value.1| <= |bs| && SlotsOk(fields, r.value.0)
    decreases |bs|, 4
  {
    match DecodeLoop(fields, slots, {}, bs)
    case Some((to, seen, rest)) => if AllSeen(fields, seen) then Some((to, rest)) else None
    case None => None
  }

  /** pb_decode. */
  function Decode(fields: seq<Field>, bs: Bytes): (r: Option<(seq<Slot>, Bytes)>)
    requires FieldsOk(fields)
    ensures r.Some? ==> SlotsOk(fields, r.value.0)
  {
    DefaultSlotsOk(fields);
    DecodeMessage(fields, DefaultSlots(fields), bs)
  }

  // ----- the required fields -----

  /** The tags of the fields that the input consists of, up to its end or to a tag that is 0;
      nothing if one of them cannot be read. */
  ghost function Tags(fields: seq<Field>, slots: seq<Slot>, bs: Bytes): (r: Option<seq<nat>>)
    requires FieldsOk(fields) && SlotsOk(fields, slots)
    decreases |bs|
  {
    if |bs| == 0 then Some([])
    else
      match Varint32(bs)
      case None => None
      case Some((t, rest)) =>
        if t == 0 then Some([])
        else
          match FindTag(fields, t / 8, 0)
          case None =>
            (match SkipField(rest, t % 8)
             case Some(after) => Headed(t / 8, Tags(fields, slots, after))
             case None => None)
          case Some(p) =>
            (match DecodeField(fields, slots, p, t % 8, rest)
             case Some((to, after)) => Headed(t / 8, Tags(fields, to, after))
             case None => None)
  }

  ghost function Headed(tag: nat, tags: Option<seq<nat>>): Option<seq<nat>> {
    match tags case Some(s) => Some([tag] + s) case None => None
  }

  /** The numbers of the required fields that are kept track of and whose tags are among `tags`. */
  ghost function Marked(fields: seq<Field>, tags: seq<nat>): set<nat> {
    set p | 0 <= p < |fields| && fields[p].rule.Required? && RequiredBefore(fields, p) < MAX_REQUIRED_FIELDS && fields[p].tag in tags
      :: RequiredBefore(fields, p)
  }

  lemma {:induction false} OneMoreMarked(fields: seq<Field>, tag: nat, tags: seq<nat>)
    requires DistinctTags(fields)
    ensures Marked(fields, [tag] + tags) == match FindTag(fields, tag, 0)
      case Some(q) => Seen(fields, q, {}) + Marked(fields, tags)
      case None => Marked(fields, tags)
  {
    var now := Marked(fields, [tag] + tags);
    forall r | r in Marked(fields, tags) ensures r in now {
      var p :| 0 <= p < |fields| && fields[p].rule.Required? && RequiredBefore(fields, p) < MAX_REQUIRED_FIELDS && fields[p].tag in tags &&
        RequiredBefore(fields, p) == r;
      assert fields[p].tag in [tag] + tags;
    }
    match FindTag(fields, tag, 0)
    case Some(q) =>
      assert fields[q].tag in [tag] + tags;
      assert now == Seen(fields, q, {}) + Marked(fields, tags);
    case None =>
      assert now == Marked(fields, tags);
  }

  lemma {:induction false} LoopMarks(fields: seq<Field>, slots: seq<Slot>, seen: set<nat>, bs: Bytes)
    requires FieldsOk(fields) && SlotsOk(fields, slots)
    ensures match Tags(fields, slots, bs)
      case Some(tags) => DecodeLoop(fields, slots, seen, bs).Some? && DecodeLoop(fields, slots, seen, bs).value.1 == seen + Marked(fields, tags)
      case None => DecodeLoop(fields, slots, seen, bs) == None
    decreases |bs|
  {
    assert Marked(fields, []) == {};
    if |bs| > 0 && Varint32(bs).Some? && Varint32(bs).value.0 != 0 {
      var (t, rest) := Varint32(bs).value;
      match FindTag(fields, t / 8, 0)
      case None =>
        if SkipField(rest, t % 8).Some? {
          var after := SkipField(rest, t % 8).value;
          LoopMarks(fields, slots, seen, after);
          if Tags(fields, slots, after).Some? {
            OneMoreMarked(fields, t / 8, Tags(fields, slots, after).value);
          }
        }
      case Some(p) =>
        if DecodeField(fields, slots, p, t % 8, rest).Some? {
          var (to, after) := DecodeField(fields, slots, p, t % 8, rest).value;
          LoopMarks(fields, to, Seen(fields, p, seen), after);
          if Tags(fields, to, after).Some? {
            OneMoreMarked(fields, t / 8, Tags(fields, to, after).value);
            assert Seen(fields, p, seen) == seen + Seen(fields, p, {});
          }
        }
    }
  }

  /** Whatever the bytes are: a message is accepted exactly if each of its fields can be read and
      the tag of each of the first 64 required fields is there. */
  lemma {:induction false} RequiredArePresent(fields: seq<Field>, slots: seq<Slot>, bs: Bytes)
    requires FieldsOk(fields) && SlotsOk(fields, slots)
    ensures match Tags(fields, slots, bs)
      case Some(tags) => DecodeMessage(fields, slots, bs).Some? <==>
        forall p :: 0 <= p < |fields| && fields[p].rule.Required? && RequiredBefore(fields, p) < 64 ==> fields[p].tag in tags
      case None => DecodeMessage(fields, slots, bs) == None
  {
    LoopMarks(fields, slots, {}, bs);
    if Tags(fields, slots, bs).Some? {
      AllMarked(fields, Tags(fields, slots, bs).value);
    }
  }

  lemma {:induction false} AllMarked(fields: seq<Field>, tags: seq<nat>)
    ensures AllSeen(fields, {} + Marked(fields, tags)) <==>
      forall p :: 0 <= p < |fields| && fields[p].rule.Required? && RequiredBefore(fields, p) < 64 ==> fields[p].tag in tags
  {
    var seen := {} + Marked(fields, tags);
    if AllSeen(fields, seen) {
      forall p | 0 <= p < |fields| && fields[p].rule.Required? && RequiredBefore(fields, p) < 64 ensures fields[p].tag in tags {
        RequiredNumbersDiffer(fields, p, |fields|);
        assert RequiredBefore(fields, p) in seen;
        OnlyOneNumbered(fields, tags, p);
      }
    } else {
      var r: nat :| r < RequiredBefore(fields, |fields|) && r < MAX_REQUIRED_FIELDS && r !in seen;
      var p := RequiredNumbered(fields, |fields|, r);
    }
  }

  lemma {:induction false} OnlyOneNumbered(fields: seq<Field>, tags: seq<nat>, p: nat)
    requires p < |fields| && fields[p].rule.Required? && RequiredBefore(fields, p) in Marked(fields, tags)
    ensures fields[p].tag in tags
  {
    var q :| 0 <= q < |fields| && fields[q].rule.Required? && RequiredBefore(fields, q) < MAX_REQUIRED_FIELDS && fields[q].tag in tags &&
      RequiredBefore(fields, q) == RequiredBefore(fields, p);
    if p < q {
      RequiredNumbersDiffer(fields, p, q);
    } else if q < p {
      RequiredNumbersDiffer(fields, q, p);
    }
  }
}
