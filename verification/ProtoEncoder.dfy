// The encoder (pb_encode.c): one walk over the descriptor that either only counts the
// bytes or writes them, and that runs twice for everything with a length in front.
module ProtoEncoder {
  import opened Keys
  import opened Coding
  import opened Protos
  import opened ProtoFormat
  import opened ProtoIter

  datatype EncodeError = StreamFull | ArrayTooLarge | BytesTooLarge | SizeChanged

  // ----- what can be encoded at all -----

  ghost predicate ValFits(f: Field, v: Val)
    requires ValOk(f, v)
    decreases v
  {
    match f.kind
    case Bytestring => |v.bs| + COUNT_SIZE <= f.dataSize
    case Message(fields) => SlotsFit(fields, v.slots, 0)
    case _ => true
  }

  ghost predicate ItemsFit(f: Field, items: seq<Val>, i: nat)
    requires i <= |items| && forall j :: 0 <= j < |items| ==> ValOk(f, items[j])
    decreases items, |items| - i
  {
    i < |items| ==> ValFits(f, items[i]) && ItemsFit(f, items, i + 1)
  }

  ghost predicate SlotFits(f: Field, s: Slot)
    requires SlotOk(f, s)
    decreases s
  {
    match f.rule
    case Required => ValFits(f, s.v)
    case Singular => IsZero(f, s.v) || ValFits(f, s.v)
    case Optional => s.has ==> ValFits(f, s.v)
    case Repeated => |s.items| > 0 ==> |s.items| <= f.arraySize && ItemsFit(f, s.items, 0)
    case Oneof(_) => s.choice.Some? ==> ValFits(f, s.choice.value)
  }

  /** No array is longer than its room and no byte string larger than its buffer, in what is
      encoded from field `i` on. */
  ghost predicate SlotsFit(fields: seq<Field>, slots: seq<Slot>, i: nat)
    requires SlotsOk(fields, slots) && i <= |fields|
    decreases slots, |fields| - i
  {
    i < |fields| ==> SlotFits(fields[i], slots[i]) && SlotsFit(fields, slots, i + 1)
  }

  // ----- the output stream -----

  lemma {:induction false} Regroup(a: Bytes, b: Bytes, c: Bytes)
    ensures (a + b) + c == a + (b + c)
  {
  }

  /** The loop of pb_encode_varint: seven bits a byte, the last one without the mark. */
  method VarintBytes(v: nat) returns (buffer: Bytes)
    requires v > 0
    ensures buffer == Varint(v)
  {
    buffer := [];
    var value := v;
    while value > 0
      invariant |buffer| == 0 ==> value == v
      invariant value >= 128 ==> buffer + Varint(value) == Varint(v)
      invariant 0 < value < 128 ==> buffer + [value] == Varint(v)
      invariant value == 0 ==> |buffer| > 0 && buffer[|buffer| - 1] >= 128 && buffer[|buffer| - 1 := buffer[|buffer| - 1] - 128] == Varint(v)
    {
      ghost var before := buffer;
      VarintStep(v);
      VarintStep(value);
      VarintStep(value / 128);
      buffer := buffer + [value % 128 + 128];
      if value < 128 {
        assert buffer[|buffer| - 1 := value] == before + [value];
      } else {
        assert buffer + Varint(value / 128) == before + ([value % 128 + 128] + Varint(value / 128));
      }
      value := value / 128;
    }
    buffer := buffer[|buffer| - 1 := buffer[|buffer| - 1] - 128];
  }


  class OStream {
    /** Without a callback the stream only counts. */
    const writing: bool
    const maxSize: nat
    var buf: Bytes
    var written: nat

    ghost predicate Valid()
      reads this
    {
      writing ==> written <= maxSize
    }

    constructor Sizing()
      ensures Valid() && !writing && written == 0
    {
      writing, maxSize, buf, written := false, 0, [], 0;
    }

    constructor FromBuffer(buf: Bytes, size: nat)
      ensures Valid() && writing && maxSize == size && written == 0 && this.buf == buf
    {
      writing, maxSize, written := true, size, 0;
      this.buf := buf;
    }

    /** `n` more bytes can go to the stream. */
    ghost predicate Room(n: nat)
      reads this
    {
      writing ==> written + n <= maxSize
    }

    /** The stream went from `buf0` and `n0` to here by taking `bs`. */
    ghost predicate Took(buf0: Bytes, n0: nat, bs: Bytes)
      reads this
    {
      written == n0 + |bs| && (writing ==> buf == buf0 + bs)
    }

    /** pb_write. */
    method Write(bs: Bytes) returns (err: Option<EncodeError>)
      requires Valid()
      modifies this
      ensures Valid() && (err == None <==> old(Room(|bs|))) && err != Some(SizeChanged)
      ensures err == None ==> Took(old(buf), old(written), bs)
    {
      if |bs| > 0 && writing {
        if written + |bs| > maxSize {
          return Some(StreamFull);
        }
        buf := buf + bs;
      }
      written := written + |bs|;
      err := None;
    }

    /** pb_write without data, to count only. */
    method Count(n: nat)
      requires Valid() && !writing
      modifies this
      ensures Valid() && written == old(written) + n
    {
      written := written + n;
    }

    method EncodeVarint(v: nat) returns (err: Option<EncodeError>)
      requires Valid()
      modifies this
      ensures Valid() && (err == None <==> old(Room(|Varint(v)|))) && err != Some(SizeChanged)
      ensures err == None ==> Took(old(buf), old(written), Varint(v))
    {
      if v <= 0x7F {
        VarintStep(v);
        err := Write([v]);
        return;
      }
      var buffer := VarintBytes(v);
      err := Write(buffer);
    }

    method EncodeTag(wireType: nat, tag: nat) returns (err: Option<EncodeError>)
      requires Valid() && wireType < 8
      modifies this
      ensures Valid() && (err == None <==> old(Room(|Header(tag, wireType)|))) && err != Some(SizeChanged)
      ensures err == None ==> Took(old(buf), old(written), Header(tag, wireType))
    {
      err := EncodeVarint(tag * 8 + wireType);
    }

    method EncodeString(bs: Bytes) returns (err: Option<EncodeError>)
      requires Valid() && |bs| < TWO_32
      modifies this
      ensures Valid() && (err == None <==> old(Room(|LengthPrefixed(bs)|))) && err != Some(SizeChanged)
      ensures err == None ==> Took(old(buf), old(written), LengthPrefixed(bs))
    {
      ghost var buf0 := buf;
      err := EncodeVarint(|bs|);
      if err == None {
        assert (buf0 + Varint(|bs|)) + bs == buf0 + LengthPrefixed(bs);
        err := Write(bs);
      }
    }

    /** pb_enc_bool to pb_enc_fixed64: a number, as its type says. */
    method EncodeNumber(f: Field, v: Val) returns (err: Option<EncodeError>)
      requires Valid() && IsNumber(f.kind) && ValOk(f, v)
      modifies this
      ensures Valid() && (err == None <==> old(Room(|EncVal(f, v)|))) && err != Some(SizeChanged)
      ensures err == None ==> Took(old(buf), old(written), EncVal(f, v))
    {
      match f.kind
      case Varying => err := EncodeVarint(TwosComplement(v.n));
      case ZigZag => err := EncodeVarint(ZigZagged(v.n));
      case Fix32 => err := Write(Fixed(4, v.n));
      case Fix64 => err := Write(Fixed(8, v.n));
      case Bool => err := EncodeVarint(v.n);
      case Unsigned => err := EncodeVarint(v.n);
    }

    /** PB_ENCODERS: the encoder for the field's type, on one value. */
    method EncodeValue(f: Field, v: Val) returns (err: Option<EncodeError>)
      requires Valid() && ValOk(f, v)
      modifies this
      ensures Valid() && (err == None <==> ValFits(f, v) && old(Room(|EncVal(f, v)|))) && err != Some(SizeChanged)
      ensures err == None ==> Took(old(buf), old(written), EncVal(f, v))
      decreases v, 0
    {
      match f.kind
      case Bytestring =>
        if |v.bs| + COUNT_SIZE > f.dataSize {
          return Some(BytesTooLarge);
        }
        err := EncodeString(v.bs);
      case Text => err := EncodeString(v.bs);
      case Inline => err := EncodeString(v.bs);
      case Message(fields) => err := EncodeSubmessage(fields, v.slots);
      case _ => err := EncodeNumber(f, v);
    }

    /** pb_encode_submessage: sized first, then written into a stream of just that size. */
    method EncodeSubmessage(fields: seq<Field>, slots: seq<Slot>) returns (err: Option<EncodeError>)
      requires Valid() && SlotsOk(fields, slots)
      modifies this
      ensures var e := LengthPrefixed(EncSlots(fields, slots, 0));
        && Valid() && (err == None <==> SlotsFit(fields, slots, 0) && old(Room(|e|))) && err != Some(SizeChanged)
        && (err == None ==> Took(old(buf), old(written), e))
      decreases slots, 3
    {
      ghost var body := EncSlots(fields, slots, 0);
      ghost var buf0 := buf;
      var substream := new OStream.Sizing();
      err := substream.Encode(fields, slots);
      if err != None {
        return;
      }
      var size := substream.written;
      err := EncodeVarint(size);
      if err != None {
        return;
      }
      assert buf0 + LengthPrefixed(body) == (buf0 + Varint(size)) + body;
      if !writing {
        Count(size);
        return;
      }
      if written + size > maxSize {
        return Some(StreamFull);
      }
      substream := new OStream.FromBuffer(buf, size);
      err := substream.Encode(fields, slots);
      written := written + substream.written;
      buf := substream.buf;
      if substream.written != size {
        err := Some(SizeChanged);
      }
    }

    /** encode_array: packed if the type allows it, with the length of all of it in front. */
    method EncodeArray(f: Field, items: seq<Val>) returns (err: Option<EncodeError>)
      requires Valid() && f.rule.Repeated? && SlotOk(f, Many(items))
      modifies this
      ensures var e := EncSlot(f, Many(items));
        && Valid() && (err == None <==> SlotFits(f, Many(items)) && old(Room(|e|))) && err != Some(SizeChanged)
        && (err == None ==> Took(old(buf), old(written), e))
      decreases items, 1
    {
      if |items| == 0 {
        return None;
      }
      if |items| > f.arraySize {
        return Some(ArrayTooLarge);
      }
      if IsNumber(f.kind) {
        NumbersFit(f, items, 0);
        err := EncodePacked(f, items);
      } else {
        err := EncodeEach(f, items);
      }
    }

    method EncodePacked(f: Field, items: seq<Val>) returns (err: Option<EncodeError>)
      requires Valid() && IsNumber(f.kind) && forall j :: 0 <= j < |items| ==> ValOk(f, items[j])
      modifies this
      ensures var e := Header(f.tag, WT_STRING) + LengthPrefixed(EncItems(f, items, 0));
        && Valid() && (err == None <==> old(Room(|e|))) && err != Some(SizeChanged)
        && (err == None ==> Took(old(buf), old(written), e))
      decreases items, 0
    {
      ghost var buf0, all := buf, EncItems(f, items, 0);
      err := EncodeTag(WT_STRING, f.tag);
      if err != None {
        return;
      }
      var size := PackedSize(f, items);
      err := EncodeVarint(size);
      if err != None {
        return;
      }
      ghost var head := Header(f.tag, WT_STRING) + Varint(size);
      Regroup(buf0, Header(f.tag, WT_STRING), Varint(size));
      Regroup(Header(f.tag, WT_STRING), Varint(size), all);
      Regroup(buf0, head, all);
      if !writing {
        Count(size);
        return;
      }
      ghost var buf1, n1 := buf, written;
      var i := 0;
      ghost var done: Bytes := [];
      assert buf1 + [] == buf1;
      while i < |items|
        invariant i <= |items| && Valid() && err == None
        invariant Took(buf1, n1, done) && done + EncItems(f, items, i) == all
      {
        ghost var more := EncVal(f, items[i]);
        err := EncodeNumber(f, items[i]);
        Regroup(done, more, EncItems(f, items, i + 1));
        if err != None {
          return;
        }
        Regroup(buf1, done, more);
        done := done + more;
        i := i + 1;
      }
    }

    /** A header and a value: what most fields come to. */
    method EncodeTagged(f: Field, v: Val) returns (err: Option<EncodeError>)
      requires Valid() && ValOk(f, v)
      modifies this
      ensures var e := Header(f.tag, WireType(f.kind)) + EncVal(f, v);
        && Valid() && (err == None <==> ValFits(f, v) && old(Room(|e|))) && err != Some(SizeChanged)
        && (err == None ==> Took(old(buf), old(written), e))
      decreases v, 1
    {
      ghost var buf0 := buf;
      err := EncodeTag(WireType(f.kind), f.tag);
      if err == None {
        assert (buf0 + Header(f.tag, WireType(f.kind))) + EncVal(f, v) == buf0 + (Header(f.tag, WireType(f.kind)) + EncVal(f, v));
        err := EncodeValue(f, v);
      }
    }

    method EncodeEach(f: Field, items: seq<Val>) returns (err: Option<EncodeError>)
      requires Valid() && forall j :: 0 <= j < |items| ==> ValOk(f, items[j])
      modifies this
      ensures var e := EncTagged(f, items, 0);
        && Valid() && (err == None <==> ItemsFit(f, items, 0) && old(Room(|e|))) && err != Some(SizeChanged)
        && (err == None ==> Took(old(buf), old(written), e))
      decreases items, 0
    {
      ghost var buf0, n0, all := buf, written, EncTagged(f, items, 0);
      var i := 0;
      ghost var done: Bytes := [];
      err := None;
      assert buf0 + [] == buf0;
      while i < |items|
        invariant i <= |items| && Valid() && err == None
        invariant Took(buf0, n0, done) && done + EncTagged(f, items, i) == all
        invariant ItemsFit(f, items, 0) <==> ItemsFit(f, items, i)
      {
        ghost var more := Header(f.tag, WireType(f.kind)) + EncVal(f, items[i]);
        err := EncodeTagged(f, items[i]);
        Regroup(done, more, EncTagged(f, items, i + 1));
        if err != None {
          return;
        }
        Regroup(buf0, done, more);
        done := done + more;
        i := i + 1;
      }
    }

    /** encode_basic_field. */
    method EncodeField(f: Field, s: Slot) returns (err: Option<EncodeError>)
      requires Valid() && SlotOk(f, s)
      modifies this
      ensures var e := EncSlot(f, s);
        && Valid() && (err == None <==> SlotFits(f, s) && old(Room(|e|))) && err != Some(SizeChanged)
        && (err == None ==> Took(old(buf), old(written), e))
      decreases s
    {
      err := None;
      match f.rule
      case Required => err := EncodeTagged(f, s.v);
      case Singular =>
        if !IsZero(f, s.v) {
          err := EncodeTagged(f, s.v);
        }
      case Optional =>
        if s.has {
          err := EncodeTagged(f, s.v);
        }
      case Repeated => err := EncodeArray(f, s.items);
      case Oneof(_) =>
        if s.choice.Some? {
          err := EncodeTagged(f, s.choice.value);
        }
    }

    /** One turn of pb_encode's loop: field `i`, after `done` from the fields before it. */
    method EncodeTurn(fields: seq<Field>, slots: seq<Slot>, i: nat, ghost buf0: Bytes, ghost n0: nat, ghost done: Bytes)
      returns (err: Option<EncodeError>)
      requires Valid() && SlotsOk(fields, slots) && i < |fields|
      requires Took(buf0, n0, done) && done + EncSlots(fields, slots, i) == EncSlots(fields, slots, 0)
      requires SlotsFit(fields, slots, 0) <==> SlotsFit(fields, slots, i)
      modifies this
      ensures Valid() && err != Some(SizeChanged)
      ensures err != None ==> !(SlotsFit(fields, slots, 0) && (writing ==> n0 + |EncSlots(fields, slots, 0)| <= maxSize))
      ensures err == None ==> Took(buf0, n0, done + EncSlot(fields[i], slots[i]))
      ensures err == None ==> done + EncSlot(fields[i], slots[i]) + EncSlots(fields, slots, i + 1) == EncSlots(fields, slots, 0)
      ensures err == None ==> (SlotsFit(fields, slots, 0) <==> SlotsFit(fields, slots, i + 1))
      decreases slots, 0
    {
      ghost var next := EncSlot(fields[i], slots[i]);
      Regroup(done, next, EncSlots(fields, slots, i + 1));
      Regroup(buf0, done, next);
      err := EncodeField(fields[i], slots[i]);
    }

    /** pb_encode: every field, in the order of the descriptor. */
    method Encode(fields: seq<Field>, slots: seq<Slot>) returns (err: Option<EncodeError>)
      requires Valid() && SlotsOk(fields, slots)
      modifies this
      ensures var e := EncSlots(fields, slots, 0);
        && Valid() && (err == None <==> SlotsFit(fields, slots, 0) && old(Room(|e|))) && err != Some(SizeChanged)
        && (err == None ==> Took(old(buf), old(written), e))
      ensures err == None ==> Took(old(buf), old(written), Wire(OnWire(fields, slots, 0)))
      decreases slots, 2
    {
      MessageSpelled(fields, slots, 0);
      err := EncodeFields(fields, slots);
    }

    /** Field after field, with the iterator. */
    method EncodeFields(fields: seq<Field>, slots: seq<Slot>) returns (err: Option<EncodeError>)
      requires Valid() && SlotsOk(fields, slots)
      modifies this
      ensures var e := EncSlots(fields, slots, 0);
        && Valid() && (err == None <==> SlotsFit(fields, slots, 0) && old(Room(|e|))) && err != Some(SizeChanged)
        && (err == None ==> Took(old(buf), old(written), e))
      decreases slots, 1
    {
      ghost var buf0, n0, all := buf, written, EncSlots(fields, slots, 0);
      assert buf0 + [] == buf0;
      var iter := new FieldIter(fields);
      var more := iter.Begin();
      err := None;
      ghost var done: Bytes := [];
      while more
        invariant iter.Valid() && iter.fields == fields && Valid() && err == None && (more ==> iter.pos < |fields|)
        invariant var i := if more then iter.pos else |fields|;
          && Took(buf0, n0, done) && done + EncSlots(fields, slots, i) == all
          && (SlotsFit(fields, slots, 0) <==> SlotsFit(fields, slots, i))
        decreases if more then |fields| - iter.pos else 0
      {
        var i := iter.pos;
        err := EncodeTurn(fields, slots, i, buf0, n0, done);
        if err != None {
          return;
        }
        done := done + EncSlot(fields[i], slots[i]);
        more := iter.Next();
      }
    }
  }

  /** pb_get_encoded_size. */
  method GetEncodedSize(fields: seq<Field>, slots: seq<Slot>) returns (size: Option<nat>)
    requires SlotsOk(fields, slots)
    ensures size == if SlotsFit(fields, slots, 0) then Some(|EncSlots(fields, slots, 0)|) else None
  {
    var stream := new OStream.Sizing();
    var err := stream.Encode(fields, slots);
    size := if err == None then Some(stream.written) else None;
  }

  lemma {:induction false} NumbersFit(f: Field, items: seq<Val>, i: nat)
    requires i <= |items| && IsNumber(f.kind) && forall j :: 0 <= j < |items| ==> ValOk(f, items[j])
    ensures ItemsFit(f, items, i)
    decreases |items| - i
  {
    if i < |items| {
      NumbersFit(f, items, i + 1);
    }
  }

  /** The length in front of a packed array: 4 or 8 bytes an item, or counted. */
  method PackedSize(f: Field, items: seq<Val>) returns (size: nat)
    requires IsNumber(f.kind) && forall j :: 0 <= j < |items| ==> ValOk(f, items[j])
    ensures size == |EncItems(f, items, 0)|
  {
    if f.kind.Fix32? {
      FixedItems(f, items, 0, 4);
      size := 4 * |items|;
    } else if f.kind.Fix64? {
      FixedItems(f, items, 0, 8);
      size := 8 * |items|;
    } else {
      var sizestream := new OStream.Sizing();
      for i := 0 to |items|
        invariant sizestream.Valid() && !sizestream.writing
        invariant sizestream.written + |EncItems(f, items, i)| == |EncItems(f, items, 0)|
      {
        var err := sizestream.EncodeNumber(f, items[i]);
      }
      size := sizestream.written;
    }
  }

  lemma {:induction false} FixedItems(f: Field, items: seq<Val>, i: nat, n: nat)
    requires i <= |items| && forall j :: 0 <= j < |items| ==> ValOk(f, items[j])
    requires if f.kind.Fix32? then n == 4 else f.kind.Fix64? && n == 8
    ensures |EncItems(f, items, i)| == n * (|items| - i)
    decreases |items| - i
  {
    if i < |items| {
      FixedItems(f, items, i + 1, n);
    }
  }
}
