// Message descriptors and messages of the protocol buffer codec (pb.h), and the wire
// format as a function (pb_encode.c).  A message in memory is one slot for each field
// of its descriptor; only statically allocated fields are modelled.
module Protos {
  import opened Keys
  import opened Coding

  /** The data types that a field can have (PB_LTYPE). */
  datatype Kind =
    | Bool
    | Varying
    | Unsigned
    | ZigZag
    | Fix32
    | Fix64
    | Bytestring
    | Text
    | Inline
    | Message(fields: seq<Field>)

  /** The repetition rules (PB_HTYPE). Singular is OPTIONAL without a has-flag, as in proto3. */
  datatype Rule = Required | Optional | Singular | Repeated | Oneof(group: nat)

  /** One pb_field_t; `initial` is the default value, if the descriptor points to one. */
  datatype Field = Field(tag: nat, rule: Rule, kind: Kind, dataSize: nat, arraySize: nat, initial: Option<Val>)

  datatype Val = Num(n: int) | Blob(bs: Bytes) | Struct(slots: seq<Slot>)

  datatype Slot = One(v: Val) | Opt(has: bool, v: Val) | Many(items: seq<Val>) | Which(choice: Option<Val>)

  /** Bytes that the count of a pb_bytes_array_t takes: pb_size_t is 32 bits wide. */
  const COUNT_SIZE: nat := 4
  const TAG_LIMIT: nat := 0x2000_0000

  // ----- descriptors -----

  predicate IsNumber(k: Kind) {
    k.Bool? || k.Varying? || k.Unsigned? || k.ZigZag? || k.Fix32? || k.Fix64?
  }

  /** How many values a variable of `size` bytes has; 0 for a size that no integer type has. */
  function Span(size: nat): nat {
    if size == 1 then 0x100
    else if size == 2 then 0x1_0000
    else if size == 4 then TWO_32
    else if size == 8 then TWO_64
    else 0
  }

  ghost predicate DistinctTags(fields: seq<Field>) {
    forall i, j :: 0 <= i < j < |fields| ==> fields[i].tag != fields[j].tag
  }

  ghost predicate FieldOk(f: Field)
    decreases f
  {
    && 0 < f.tag < TAG_LIMIT
    && (f.kind.Varying? || f.kind.Unsigned? || f.kind.ZigZag? ==> Span(f.dataSize) > 0)
    && (f.kind.Inline? ==> f.dataSize < TWO_32)
    && (f.rule.Singular? ==> f.initial == None)
    && (f.initial.Some? ==> !f.kind.Message? && ValOk(f, f.initial.value))
    && (f.kind.Message? ==> FieldsOk(f.kind.fields))
  }

  ghost predicate FieldsOk(fields: seq<Field>)
    decreases fields
  {
    DistinctTags(fields) && forall i :: 0 <= i < |fields| ==> FieldOk(fields[i])
  }

  // ----- messages that fit a descriptor -----

  /** `v` is something the C variable of field `f` can hold. */
  ghost predicate ValOk(f: Field, v: Val)
    decreases v
  {
    match f.kind
    case Bool => v.Num? && 0 <= v.n <= 1
    case Varying => v.Num? && -(Span(f.dataSize) / 2) <= v.n < Span(f.dataSize) / 2
    case ZigZag => v.Num? && -(Span(f.dataSize) / 2) <= v.n < Span(f.dataSize) / 2
    case Unsigned => v.Num? && 0 <= v.n < Span(f.dataSize)
    case Fix32 => v.Num? && 0 <= v.n < TWO_32
    case Fix64 => v.Num? && 0 <= v.n < TWO_64
    case Bytestring => v.Blob? && |v.bs| < TWO_32
    case Text => v.Blob? && |v.bs| <= f.dataSize && |v.bs| < TWO_32 && 0 !in v.bs
    case Inline => v.Blob? && |v.bs| == f.dataSize < TWO_32
    case Message(fields) => v.Struct? && SlotsOk(fields, v.slots)
  }

  ghost predicate SlotOk(f: Field, s: Slot)
    decreases s
  {
    match f.rule
    case Required => s.One? && ValOk(f, s.v)
    case Singular => s.One? && ValOk(f, s.v)
    case Optional => s.Opt? && ValOk(f, s.v)
    case Repeated => s.Many? && forall i :: 0 <= i < |s.items| ==> ValOk(f, s.items[i])
    case Oneof(_) => s.Which? && (s.choice.Some? ==> ValOk(f, s.choice.value))
  }

  /** At most one member of a union is there. */
  ghost predicate OneChoice(fields: seq<Field>, slots: seq<Slot>)
    requires |slots| == |fields|
  {
    forall i, j :: 0 <= i < j < |fields| && fields[i].rule.Oneof? && fields[i].rule == fields[j].rule && slots[i].Which? && slots[j].Which?
      ==> slots[i].choice == None || slots[j].choice == None
  }

  ghost predicate SlotsOk(fields: seq<Field>, slots: seq<Slot>)
    decreases slots
  {
    && |slots| == |fields| && OneChoice(fields, slots)
    && forall i :: 0 <= i < |fields| ==> SlotOk(fields[i], slots[i])
  }

  // ----- default values (pb_message_set_to_defaults) -----

  function Zeros(n: nat): (r: Bytes)
    ensures |r| == n && forall i :: 0 <= i < n ==> r[i] == 0
  {
    seq(n, _ => 0)
  }

  function DefaultVal(f: Field): Val
    decreases f, 0
  {
    if f.kind.Message? then Struct(DefaultSlots(f.kind.fields))
    else if f.initial.Some? then f.initial.value
    else if f.kind.Inline? then Blob(Zeros(f.dataSize))
    else if IsNumber(f.kind) then Num(0)
    else Blob([])
  }

  function DefaultSlot(f: Field): Slot
    decreases f, 1
  {
    match f.rule
    case Required => One(DefaultVal(f))
    case Singular => One(DefaultVal(f))
    case Optional => Opt(false, DefaultVal(f))
    case Repeated => Many([])
    case Oneof(_) => Which(None)
  }

  function DefaultSlots(fields: seq<Field>): (r: seq<Slot>)
    ensures |r| == |fields| && forall i :: 0 <= i < |fields| ==> r[i] == DefaultSlot(fields[i])
    decreases fields
  {
    seq(|fields|, i requires 0 <= i < |fields| => DefaultSlot(fields[i]))
  }

  // ----- the wire format -----

  const WT_VARINT: nat := 0
  const WT_64BIT: nat := 1
  const WT_STRING: nat := 2
  const WT_32BIT: nat := 5

  function WireType(k: Kind): nat {
    match k
    case Bool => WT_VARINT
    case Varying => WT_VARINT
    case Unsigned => WT_VARINT
    case ZigZag => WT_VARINT
    case Fix32 => WT_32BIT
    case Fix64 => WT_64BIT
    case Bytestring => WT_STRING
    case Text => WT_STRING
    case Inline => WT_STRING
    case Message(_) => WT_STRING
  }

  /** The tag number and the wire type, the type in the low three bits. */
  function Header(tag: nat, wireType: nat): Bytes {
    Varint(tag * 8 + wireType)
  }

  /** A signed number as an unsigned one of 64 bits, in two's complement. */
  function TwosComplement(n: int): nat
    requires -(TWO_64 / 2) <= n < TWO_64 / 2
  {
    if n < 0 then n + TWO_64 else n
  }

  /** 0, -1, 1, -2 and so on as 0, 1, 2, 3. */
  function ZigZagged(n: int): nat {
    if n < 0 then -2 * n - 1 else 2 * n
  }

  /** pb_check_proto3_default_value on a value that is there. */
  predicate IsZero(f: Field, v: Val)
    requires ValOk(f, v)
    decreases v
  {
    match f.kind
    case Bytestring => |v.bs| == 0
    case Text => |v.bs| == 0
    case Inline => f.dataSize == 0
    case Message(fields) => AllZero(fields, v.slots)
    case _ => v.n == 0
  }

  predicate AllZero(fields: seq<Field>, slots: seq<Slot>)
    requires SlotsOk(fields, slots)
    decreases slots
  {
    forall i :: 0 <= i < |fields| ==> SlotIsZero(fields[i], slots[i])
  }

  predicate SlotIsZero(f: Field, s: Slot)
    requires SlotOk(f, s)
    decreases s
  {
    match f.rule
    case Required => false
    case Singular => IsZero(f, s.v)
    case Optional => !s.has
    case Repeated => |s.items| == 0
    case Oneof(_) => s.choice == None
  }

  /** A value after its tag. */
  function EncVal(f: Field, v: Val): Bytes
    requires ValOk(f, v)
    decreases v
  {
    match f.kind
    case Bool => Varint(v.n)
    case Varying => Varint(TwosComplement(v.n))
    case Unsigned => Varint(v.n)
    case ZigZag => Varint(ZigZagged(v.n))
    case Fix32 => Fixed(4, v.n)
    case Fix64 => Fixed(8, v.n)
    case Bytestring => LengthPrefixed(v.bs)
    case Text => LengthPrefixed(v.bs)
    case Inline => LengthPrefixed(v.bs)
    case Message(fields) => LengthPrefixed(EncSlots(fields, v.slots, 0))
  }

  /** The values from number `i` on, one after the other: the inside of a packed array. */
  function EncItems(f: Field, items: seq<Val>, i: nat): Bytes
    requires i <= |items| && forall j :: 0 <= j < |items| ==> ValOk(f, items[j])
    decreases items, |items| - i
  {
    if i == |items| then [] else EncVal(f, items[i]) + EncItems(f, items, i + 1)
  }

  /** The values from number `i` on, each with its tag. */
  function EncTagged(f: Field, items: seq<Val>, i: nat): Bytes
    requires i <= |items| && forall j :: 0 <= j < |items| ==> ValOk(f, items[j])
    decreases items, |items| - i
  {
    if i == |items| then [] else Header(f.tag, WireType(f.kind)) + EncVal(f, items[i]) + EncTagged(f, items, i + 1)
  }

  function EncSlot(f: Field, s: Slot): Bytes
    requires SlotOk(f, s)
    decreases s
  {
    match f.rule
    case Required => Header(f.tag, WireType(f.kind)) + EncVal(f, s.v)
    case Singular => if IsZero(f, s.v) then [] else Header(f.tag, WireType(f.kind)) + EncVal(f, s.v)
    case Optional => if s.has then Header(f.tag, WireType(f.kind)) + EncVal(f, s.v) else []
    case Repeated =>
      if |s.items| == 0 then []
      else if IsNumber(f.kind) then Header(f.tag, WT_STRING) + LengthPrefixed(EncItems(f, s.items, 0))
      else EncTagged(f, s.items, 0)
    case Oneof(_) => if s.choice.Some? then Header(f.tag, WireType(f.kind)) + EncVal(f, s.choice.value) else []
  }

  /** The fields from number `i` on. */
  function EncSlots(fields: seq<Field>, slots: seq<Slot>, i: nat): Bytes
    requires SlotsOk(fields, slots) && i <= |fields|
    decreases slots, |fields| - i
  {
    if i == |fields| then [] else EncSlot(fields[i], slots[i]) + EncSlots(fields, slots, i + 1)
  }
}
