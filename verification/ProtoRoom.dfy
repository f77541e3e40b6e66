// Whatever bytes the decoder is given, what it stores fits the C structure: no array grows
// beyond its bound, no string or byte string beyond its buffer (pb_decode.c, pb.h).
module ProtoRoom {
  import opened Keys
  import opened Coding
  import opened Protos
  import opened ProtoWire
  import opened ProtoMessages

  // ----- what fits -----

  /** The value with all that C stores beside it: four bytes of count before a byte string, a
      terminator after a string. */
  ghost predicate ValInRoom(f: Field, v: Val)
    requires ValOk(f, v)
    decreases v
  {
    match f.kind
    case Bytestring => 4 + |v.bs| <= f.dataSize
    case Text => |v.bs| + 1 <= f.dataSize
    case Inline => |v.bs| == f.dataSize
    case Message(fields) => InRoom(fields, v.slots)
    case _ => true
  }

  ghost predicate SlotInRoom(f: Field, s: Slot)
    requires SlotOk(f, s)
    decreases s
  {
    match f.rule
    case Required => ValInRoom(f, s.v)
    case Singular => ValInRoom(f, s.v)
    case Optional => ValInRoom(f, s.v)
    case Repeated => ItemsInRoom(f, s.items)
    case Oneof(_) => s.choice.Some? ==> ValInRoom(f, s.choice.value)
  }

  ghost predicate ItemsInRoom(f: Field, items: seq<Val>)
    requires forall i :: 0 <= i < |items| ==> ValOk(f, items[i])
    decreases items
  {
    |items| <= f.arraySize && forall i :: 0 <= i < |items| ==> ValInRoom(f, items[i])
  }

  ghost predicate InRoom(fields: seq<Field>, slots: seq<Slot>)
    requires SlotsOk(fields, slots)
    decreases slots
  {
    forall i :: 0 <= i < |fields| ==> SlotInRoom(fields[i], slots[i])
  }

  /** The defaults of a descriptor fit, at any depth. */
  ghost predicate RoomyField(f: Field)
    requires FieldOk(f)
    decreases f
  {
    match f.kind
    case Message(fields) => Roomy(fields)
    case Bytestring => if f.initial.Some? then ValInRoom(f, f.initial.value) else f.dataSize >= 4
    case Text => if f.initial.Some? then ValInRoom(f, f.initial.value) else f.dataSize >= 1
    case _ => true
  }

  ghost predicate Roomy(fields: seq<Field>)
    requires FieldsOk(fields)
    decreases fields
  {
    forall i :: 0 <= i < |fields| ==> RoomyField(fields[i])
  }

  lemma {:induction false} DefaultValInRoom(f: Field)
    requires FieldOk(f) && RoomyField(f)
    ensures ValOk(f, DefaultVal(f)) && ValInRoom(f, DefaultVal(f))
    decreases f, 0
  {
    DefaultValOk(f);
    if f.kind.Message? {
      DefaultsInRoom(f.kind.fields);
    }
  }

  lemma {:induction false} DefaultsInRoom(fields: seq<Field>)
    requires FieldsOk(fields) && Roomy(fields)
    ensures SlotsOk(fields, DefaultSlots(fields)) && InRoom(fields, DefaultSlots(fields))
    decreases fields
  {
    DefaultSlotsOk(fields);
    forall i | 0 <= i < |fields| ensures SlotInRoom(fields[i], DefaultSlots(fields)[i]) {
      assert FieldOk(fields[i]) && RoomyField(fields[i]);
      DefaultValInRoom(fields[i]);
    }
  }

  // ----- storing -----

  lemma {:induction false} BeneathInRoom(f: Field, s: Slot)
    requires FieldOk(f) && RoomyField(f) && SlotOk(f, s) && SlotInRoom(f, s)
    ensures ValInRoom(f, Beneath(f, s))
  {
    DefaultValInRoom(f);
  }

  lemma {:induction false} StoredInRoom(fields: seq<Field>, slots: seq<Slot>, p: nat, v: Val)
    requires FieldsOk(fields) && SlotsOk(fields, slots) && InRoom(fields, slots) && p < |fields|
    requires ValOk(fields[p], v) && ValInRoom(fields[p], v)
    requires fields[p].rule.Repeated? && SlotOk(fields[p], slots[p]) ==> |slots[p].items| < fields[p].arraySize
    ensures SlotsOk(fields, Stored(fields, slots, p, v)) && InRoom(fields, Stored(fields, slots, p, v))
  {
    StoredOk(fields, slots, p, v);
    var to := Stored(fields, slots, p, v);
    forall i | 0 <= i < |fields| ensures SlotInRoom(fields[i], to[i]) {
      assert SlotOk(fields[i], slots[i]) && SlotOk(fields[p], slots[p]);
      assert SlotInRoom(fields[i], slots[i]);
      if i == p && fields[p].rule.Repeated? {
        OneMoreItem(fields[p], slots[p].items, v);
      }
    }
  }

  lemma {:induction false} OneMoreItem(f: Field, items: seq<Val>, v: Val)
    requires (forall i :: 0 <= i < |items| ==> ValOk(f, items[i])) && ItemsInRoom(f, items) && |items| < f.arraySize
    requires ValOk(f, v) && ValInRoom(f, v)
    ensures (forall i :: 0 <= i < |items + [v]| ==> ValOk(f, (items + [v])[i])) && ItemsInRoom(f, items + [v])
  {
  }

  // ----- decoding -----

  lemma {:induction false} ValStaysInRoom(f: Field, base: Val, bs: Bytes)
    requires FieldOk(f) && RoomyField(f) && ValOk(f, base) && ValInRoom(f, base)
    ensures DecodeVal(f, base, bs).Some? ==> ValInRoom(f, DecodeVal(f, base, bs).value.0)
    decreases |bs|, 0
  {
    if !IsNumber(f.kind) && Varint32(bs).Some? {
      var (n, rest) := Varint32(bs).value;
      if f.kind.Message? && n <= |rest| {
        MessageStaysInRoom(f.kind.fields, base.slots, rest[..n]);
      }
    }
  }

  lemma {:induction false} PackedStaysInRoom(f: Field, items: seq<Val>, bs: Bytes)
    requires FieldOk(f) && IsNumber(f.kind) && (forall i :: 0 <= i < |items| ==> ValOk(f, items[i])) && |items| <= f.arraySize
    ensures DecodePacked(f, items, bs).Some? ==> |DecodePacked(f, items, bs).value| <= f.arraySize
    decreases |bs|
  {
    if |bs| > 0 && |items| < f.arraySize && DecodeNumber(f, bs).Some? {
      var (v, rest) := DecodeNumber(f, bs).value;
      PackedStaysInRoom(f, items + [v], rest);
    }
  }

  lemma {:induction false} ArrayInRoom(fields: seq<Field>, slots: seq<Slot>, p: nat, items: seq<Val>)
    requires SlotsOk(fields, slots) && InRoom(fields, slots) && p < |fields| && fields[p].rule.Repeated? && IsNumber(fields[p].kind)
    requires (forall i :: 0 <= i < |items| ==> ValOk(fields[p], items[i])) && |items| <= fields[p].arraySize
    ensures SlotsOk(fields, slots[p := Many(items)]) && InRoom(fields, slots[p := Many(items)])
  {
    var to := slots[p := Many(items)];
    forall i | 0 <= i < |fields| ensures SlotOk(fields[i], to[i]) && SlotInRoom(fields[i], to[i]) {
      assert SlotOk(fields[i], slots[i]) && SlotInRoom(fields[i], slots[i]);
    }
  }

  lemma {:induction false} FieldStaysInRoom(fields: seq<Field>, slots: seq<Slot>, p: nat, wireType: nat, bs: Bytes)
    requires FieldsOk(fields) && Roomy(fields) && SlotsOk(fields, slots) && InRoom(fields, slots) && p < |fields|
    ensures DecodeField(fields, slots, p, wireType, bs).Some? ==> InRoom(fields, DecodeField(fields, slots, p, wireType, bs).value.0)
    decreases |bs|, 1
  {
    var f := fields[p];
    assert SlotOk(f, slots[p]) && SlotInRoom(f, slots[p]) && FieldOk(f) && RoomyField(f);
    if f.rule.Repeated? && wireType == WT_STRING && IsNumber(f.kind) {
      if Varint32(bs).Some? && Varint32(bs).value.0 <= |Varint32(bs).value.1| {
        var (n, rest) := Varint32(bs).value;
        assert ItemsInRoom(f, slots[p].items);
        PackedStaysInRoom(f, slots[p].items, rest[..n]);
        if DecodePacked(f, slots[p].items, rest[..n]).Some? {
          ArrayInRoom(fields, slots, p, DecodePacked(f, slots[p].items, rest[..n]).value);
        }
      }
    } else if f.rule.Repeated? && |slots[p].items| >= f.arraySize {
    } else {
      BeneathInRoom(f, slots[p]);
      ValStaysInRoom(f, Beneath(f, slots[p]), bs);
      match DecodeVal(f, Beneath(f, slots[p]), bs)
      case Some((v, _)) => StoredInRoom(fields, slots, p, v);
      case None =>
    }
  }

  lemma {:induction false} LoopStaysInRoom(fields: seq<Field>, slots: seq<Slot>, seen: set<nat>, bs: Bytes)
    requires FieldsOk(fields) && Roomy(fields) && SlotsOk(fields, slots) && InRoom(fields, slots)
    ensures DecodeLoop(fields, slots, seen, bs).Some? ==> InRoom(fields, DecodeLoop(fields, slots, seen, bs).value.0)
    decreases |bs|, 2
  {
    if |bs| > 0 && Varint32(bs).Some? && Varint32(bs).value.0 != 0 {
      var (t, rest) := Varint32(bs).value;
      match FindTag(fields, t / 8, 0)
      case None =>
        if SkipField(rest, t % 8).Some? {
          LoopStaysInRoom(fields, slots, seen, SkipField(rest, t % 8).value);
        }
      case Some(p) =>
        FieldStaysInRoom(fields, slots, p, t % 8, rest);
        if DecodeField(fields, slots, p, t % 8, rest).Some? {
          var (to, after) := DecodeField(fields, slots, p, t % 8, rest).value;
          LoopStaysInRoom(fields, to, Seen(fields, p, seen), after);
        }
    }
  }

  /** Decoding on top of a message that fits gives one that fits, or an error. */
  lemma {:induction false} MessageStaysInRoom(fields: seq<Field>, slots: seq<Slot>, bs: Bytes)
    requires FieldsOk(fields) && Roomy(fields) && SlotsOk(fields, slots) && InRoom(fields, slots)
    ensures DecodeMessage(fields, slots, bs).Some? ==> InRoom(fields, DecodeMessage(fields, slots, bs).value.0)
    decreases |bs|, 3
  {
    LoopStaysInRoom(fields, slots, {}, bs);
  }

  /** pb_decode never stores beyond the structure, whatever it is given. */
  lemma {:induction false} DecodedIsInRoom(fields: seq<Field>, bs: Bytes)
    requires FieldsOk(fields) && Roomy(fields)
    ensures Decode(fields, bs).Some? ==> InRoom(fields, Decode(fields, bs).value.0)
  {
    DefaultsInRoom(fields);
    MessageStaysInRoom(fields, DefaultSlots(fields), bs);
  }

  // ----- single values -----

  /** A number from the wire, 64 bits of it: what fits the variable is stored, anything else refused. */
  lemma {:induction false} NumberIsRead(f: Field, n: nat, rest: Bytes)
    requires FieldOk(f) && (f.kind.Unsigned? || f.kind.ZigZag?) && n < TWO_64
    ensures var most := if f.dataSize == 1 then 0xFF else if f.dataSize == 2 then 0xFFFF else if f.dataSize == 4 then 0xFFFF_FFFF else 0xFFFF_FFFF_FFFF_FFFF;
      DecodeNumber(f, Varint(n) + rest) ==
        if n > most then None
        else Some((Num(if f.kind.Unsigned? then n else if n % 2 == 0 then n / 2 else -(n + 1) / 2), rest))
  {
    GetVarint64RoundTrip(n, rest);
  }

  /** A signed number from the wire: 64 bits for a variable of 8 bytes, the low 32 bits for a smaller one,
      and refused if that is too large for it. */
  lemma {:induction false} SignedIsRead(f: Field, n: nat, rest: Bytes)
    requires FieldOk(f) && f.kind.Varying? && n < TWO_64
    ensures var low := if f.dataSize == 8 then n else n % 0x1_0000_0000;
      var m := if f.dataSize == 8 then (if low >= 0x8000_0000_0000_0000 then low - 0x1_0000_0000_0000_0000 else low)
               else if low >= 0x8000_0000 then low - 0x1_0000_0000 else low;
      var most := if f.dataSize == 1 then 0x7F else if f.dataSize == 2 then 0x7FFF else if f.dataSize == 4 then 0x7FFF_FFFF else 0x7FFF_FFFF_FFFF_FFFF;
      DecodeNumber(f, Varint(n) + rest) == if -most - 1 <= m <= most then Some((Num(m), rest)) else None
  {
    GetVarint64RoundTrip(n, rest);
  }

  /** A blob from the wire: refused if it does not fit its buffer. */
  lemma {:induction false} BlobIsRead(f: Field, base: Val, bs: Bytes, rest: Bytes)
    requires FieldOk(f) && ValOk(f, base) && |bs| < TWO_32 && (f.kind.Bytestring? || f.kind.Text?)
    ensures DecodeVal(f, base, LengthPrefixed(bs) + rest) ==
      if |bs| + (if f.kind.Bytestring? then 4 else 1) > f.dataSize then None
      else Some((Blob(if f.kind.Bytestring? then bs else UpToNul(bs)), rest))
  {
    assert LengthPrefixed(bs) + rest == Varint(|bs|) + (bs + rest);
    Varint32RoundTrip(|bs|, bs + rest);
    assert (bs + rest)[..|bs|] == bs && (bs + rest)[|bs|..] == rest;
  }
}
