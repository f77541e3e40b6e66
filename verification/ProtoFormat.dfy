// The protocol buffer wire format in numbers, apart from the code that writes it: a
// message is a list of fields, each a tag with one of four wire types and a payload.
module ProtoFormat {
  import opened Coding
  import opened Protos

  datatype Payload = Number(n: nat) | Eight(bs: Bytes) | Lengthy(bs: Bytes) | Four(bs: Bytes)

  datatype WireField = WireField(tag: nat, payload: Payload)

  function Spelled(f: WireField): (r: Bytes)
    ensures |r| > 0
  {
    match f.payload
    case Number(n) => Varint(8 * f.tag + 0) + Varint(n)
    case Eight(bs) => Varint(8 * f.tag + 1) + bs
    case Lengthy(bs) => Varint(8 * f.tag + 2) + Varint(|bs|) + bs
    case Four(bs) => Varint(8 * f.tag + 5) + bs
  }

  function Wire(fields: seq<WireField>): Bytes {
    if |fields| == 0 then [] else Spelled(fields[0]) + Wire(fields[1..])
  }

  lemma {:induction false} WireAppend(a: seq<WireField>, b: seq<WireField>)
    ensures Wire(a + b) == Wire(a) + Wire(b)
  {
    if |a| == 0 {
      assert a + b == b;
    } else {
      assert (a + b)[1..] == a[1..] + b;
      WireAppend(a[1..], b);
    }
  }

  /** A number without its tag. */
  function Bare(p: Payload): Bytes {
    match p
    case Number(n) => Varint(n)
    case Eight(bs) => bs
    case Lengthy(bs) => bs
    case Four(bs) => bs
  }

  /** What proto3 does not send of a field that is not optional. */
  predicate Blank(p: Payload) {
    match p
    case Number(n) => n == 0
    case Eight(bs) => forall i :: 0 <= i < |bs| ==> bs[i] == 0
    case Lengthy(bs) => |bs| == 0
    case Four(bs) => forall i :: 0 <= i < |bs| ==> bs[i] == 0
  }

  // ----- what a message is on the wire -----

  /** Negative numbers take 64 bits in two's complement, or are 1, 3, 5 and so on where the type is
      zig-zag; a submessage is what it is by itself. */
  ghost function PayloadOf(f: Field, v: Val): Payload
    requires ValOk(f, v)
    decreases v
  {
    match f.kind
    case Bool => Number(v.n)
    case Varying => Number(if v.n < 0 then v.n + 0x1_0000_0000_0000_0000 else v.n)
    case Unsigned => Number(v.n)
    case ZigZag => Number(if v.n < 0 then 2 * (-v.n) - 1 else 2 * v.n)
    case Fix32 => Four(Fixed(4, v.n))
    case Fix64 => Eight(Fixed(8, v.n))
    case Bytestring => Lengthy(v.bs)
    case Text => Lengthy(v.bs)
    case Inline => Lengthy(v.bs)
    case Message(fields) => Lengthy(Wire(OnWire(fields, v.slots, 0)))
  }

  /** The numbers of a packed array, without tags. */
  ghost function Packed(f: Field, items: seq<Val>, i: nat): Bytes
    requires IsNumber(f.kind) && i <= |items| && forall j :: 0 <= j < |items| ==> ValOk(f, items[j])
    decreases items, |items| - i
  {
    if i == |items| then [] else Bare(PayloadOf(f, items[i])) + Packed(f, items, i + 1)
  }

  /** One field an item. */
  ghost function Each(f: Field, items: seq<Val>, i: nat): seq<WireField>
    requires i <= |items| && forall j :: 0 <= j < |items| ==> ValOk(f, items[j])
    decreases items, |items| - i
  {
    if i == |items| then [] else [WireField(f.tag, PayloadOf(f, items[i]))] + Each(f, items, i + 1)
  }

  ghost function SlotOnWire(f: Field, s: Slot): seq<WireField>
    requires SlotOk(f, s)
    decreases s
  {
    match f.rule
    case Required => [WireField(f.tag, PayloadOf(f, s.v))]
    case Singular => if Blank(PayloadOf(f, s.v)) then [] else [WireField(f.tag, PayloadOf(f, s.v))]
    case Optional => if s.has then [WireField(f.tag, PayloadOf(f, s.v))] else []
    case Repeated =>
      if |s.items| == 0 then []
      else if IsNumber(f.kind) then [WireField(f.tag, Lengthy(Packed(f, s.items, 0)))]
      else Each(f, s.items, 0)
    case Oneof(_) => if s.choice.Some? then [WireField(f.tag, PayloadOf(f, s.choice.value))] else []
  }

  /** The fields from number `i` on, in the order of the descriptor. */
  ghost function OnWire(fields: seq<Field>, slots: seq<Slot>, i: nat): seq<WireField>
    requires SlotsOk(fields, slots) && i <= |fields|
    decreases slots, |fields| - i
  {
    if i == |fields| then [] else SlotOnWire(fields[i], slots[i]) + OnWire(fields, slots, i + 1)
  }

  // ----- the encoder writes just that -----

  lemma {:induction false} BlankNumber(f: Field, v: Val)
    requires ValOk(f, v) && IsNumber(f.kind)
    ensures Blank(PayloadOf(f, v)) <==> v.n == 0
  {
    match f.kind
    case Fix32 => ZeroWord(v.n);
    case Fix64 => ZeroBytes(8, v.n);
    case _ =>
  }

  lemma {:induction false} ZeroWord(v: nat)
    requires v < TWO_32
    ensures (forall i :: 0 <= i < 4 ==> Fixed(4, v)[i] == 0) <==> v == 0
  {
    ZeroBytes(4, v);
  }

  lemma {:induction false} ZeroBytes(n: nat, v: nat)
    requires (n == 4 && v < TWO_32) || (n == 8 && v < TWO_64)
    ensures (forall i :: 0 <= i < n ==> Fixed(n, v)[i] == 0) <==> v == 0
  {
    if n == 4 {
      Fixed32RoundTrip(v);
      Fixed32RoundTrip(0);
    } else {
      Fixed64RoundTrip(v);
      Fixed64RoundTrip(0);
    }
    FixedZero(n);
    if forall i :: 0 <= i < n ==> Fixed(n, v)[i] == 0 {
      assert Fixed(n, v) == Fixed(n, 0);
    }
  }

  lemma {:induction false} FixedZero(n: nat)
    ensures forall i :: 0 <= i < n ==> Fixed(n, 0)[i] == 0
  {
    if n > 0 {
      FixedZero(n - 1);
    }
  }

  /** The encoder leaves out exactly what is blank. */
  lemma {:induction false} BlankIsZero(f: Field, v: Val)
    requires ValOk(f, v)
    ensures Blank(PayloadOf(f, v)) <==> IsZero(f, v)
    decreases v, 0
  {
    match f.kind
    case Bytestring =>
    case Text =>
    case Inline =>
    case Message(fields) => NothingOnWire(fields, v.slots, 0);
    case _ => BlankNumber(f, v);
  }

  lemma {:induction false} NothingOnWire(fields: seq<Field>, slots: seq<Slot>, i: nat)
    requires SlotsOk(fields, slots) && i <= |fields|
    ensures OnWire(fields, slots, i) == [] <==> forall j :: i <= j < |fields| ==> SlotIsZero(fields[j], slots[j])
    ensures |Wire(OnWire(fields, slots, i))| == 0 <==> OnWire(fields, slots, i) == []
    decreases slots, |fields| - i
  {
    if i < |fields| {
      SlotNothing(fields[i], slots[i]);
      NothingOnWire(fields, slots, i + 1);
    }
  }

  lemma {:induction false} SlotNothing(f: Field, s: Slot)
    requires SlotOk(f, s)
    ensures SlotOnWire(f, s) == [] <==> SlotIsZero(f, s)
    decreases s, 0
  {
    if f.rule.Singular? {
      BlankIsZero(f, s.v);
    }
  }

  lemma {:induction false} Joined(a: Bytes, b: Bytes, c: Bytes)
    ensures a + b + c == a + (b + c)
  {
  }

  /** A value with its tag. */
  lemma {:induction false} ValueSpelled(f: Field, v: Val)
    requires ValOk(f, v)
    ensures Header(f.tag, WireType(f.kind)) + EncVal(f, v) == Spelled(WireField(f.tag, PayloadOf(f, v)))
    decreases v, 0
  {
    match f.kind
    case Bytestring => Joined(Varint(8 * f.tag + 2), Varint(|v.bs|), v.bs);
    case Text => Joined(Varint(8 * f.tag + 2), Varint(|v.bs|), v.bs);
    case Inline => Joined(Varint(8 * f.tag + 2), Varint(|v.bs|), v.bs);
    case Message(fields) =>
      MessageSpelled(fields, v.slots, 0);
      var body := EncSlots(fields, v.slots, 0);
      Joined(Varint(8 * f.tag + 2), Varint(|body|), body);
    case _ =>
  }

  lemma {:induction false} PackedSpelled(f: Field, items: seq<Val>, i: nat)
    requires IsNumber(f.kind) && i <= |items| && forall j :: 0 <= j < |items| ==> ValOk(f, items[j])
    ensures EncItems(f, items, i) == Packed(f, items, i)
    decreases |items| - i
  {
    if i < |items| {
      PackedSpelled(f, items, i + 1);
    }
  }

  lemma {:induction false} EachSpelled(f: Field, items: seq<Val>, i: nat)
    requires i <= |items| && forall j :: 0 <= j < |items| ==> ValOk(f, items[j])
    ensures EncTagged(f, items, i) == Wire(Each(f, items, i))
    decreases items, |items| - i
  {
    if i < |items| {
      ValueSpelled(f, items[i]);
      EachSpelled(f, items, i + 1);
    }
  }

  lemma {:induction false} OneField(w: WireField)
    ensures Wire([w]) == Spelled(w)
  {
    assert Wire([w][1..]) == [];
  }

  lemma {:induction false} SlotSpelled(f: Field, s: Slot)
    requires SlotOk(f, s)
    ensures EncSlot(f, s) == Wire(SlotOnWire(f, s))
    decreases s, 1
  {
    match f.rule
    case Required => ValueAlone(f, s.v);
    case Singular =>
      BlankIsZero(f, s.v);
      ValueAlone(f, s.v);
    case Optional => ValueAlone(f, s.v);
    case Oneof(_) =>
      if s.choice.Some? {
        ValueAlone(f, s.choice.value);
      }
    case Repeated =>
      if |s.items| > 0 {
        if IsNumber(f.kind) {
          PackedSpelled(f, s.items, 0);
          var body := EncItems(f, s.items, 0);
          Joined(Varint(8 * f.tag + 2), Varint(|body|), body);
          OneField(WireField(f.tag, Lengthy(body)));
        } else {
          EachSpelled(f, s.items, 0);
        }
      }
  }

  lemma {:induction false} ValueAlone(f: Field, v: Val)
    requires ValOk(f, v)
    ensures Header(f.tag, WireType(f.kind)) + EncVal(f, v) == Wire([WireField(f.tag, PayloadOf(f, v))])
    decreases v, 1
  {
    ValueSpelled(f, v);
    OneField(WireField(f.tag, PayloadOf(f, v)));
  }

  /** Whatever the message, its encoding is what the wire format says of it. */
  lemma {:induction false} MessageSpelled(fields: seq<Field>, slots: seq<Slot>, i: nat)
    requires SlotsOk(fields, slots) && i <= |fields|
    ensures EncSlots(fields, slots, i) == Wire(OnWire(fields, slots, i))
    decreases slots, |fields| - i
  {
    if i < |fields| {
      SlotSpelled(fields[i], slots[i]);
      MessageSpelled(fields, slots, i + 1);
      WireAppend(SlotOnWire(fields[i], slots[i]), OnWire(fields, slots, i + 1));
    }
  }
}
