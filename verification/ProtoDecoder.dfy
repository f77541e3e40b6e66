// The decoder (pb_decode.c): a stream with a limit, substreams that share its input,
// and the loop over the fields of a message.
module ProtoDecoder {
  import opened Keys
  import opened Coding
  import opened Protos
  import opened ProtoIter
  import opened ProtoWire
  import opened ProtoMessages
  import opened ProtoRoom

  /** What reading the varint gives, in terms of what has been read of it. */
  ghost predicate ReadSoFar(bs: Bytes, n: nat, scale: nat, result: nat) {
    && n <= Groups(bs, 10)
    && ParseVarint(bs, Groups(bs, 10)) ==
         match ParseVarint(bs[n..], Groups(bs, 10) - n)
         case Some((v, m)) => Some((result + scale * v, m + n))
         case None => None
  }

  /** `ReadSoFar`, sealed. */
  ghost predicate SoFar(bs: Bytes, n: nat, scale: nat, result: nat) {
    SoFarSeal(n + 9, bs, n, scale, result)
  }

  ghost predicate SoFarSeal(k: nat, bs: Bytes, n: nat, scale: nat, result: nat) {
    if k == 0 then ReadSoFar(bs, n, scale, result) else SoFarSeal(k - 1, bs, n, scale, result)
  }

  lemma {:induction false} SoFarSealOpens(k: nat, bs: Bytes, n: nat, scale: nat, result: nat)
    ensures SoFarSeal(k, bs, n, scale, result) <==> ReadSoFar(bs, n, scale, result)
  {
    if k > 0 {
      SoFarSealOpens(k - 1, bs, n, scale, result);
    }
  }

  lemma {:induction false} SoFarStarts(bs: Bytes)
    ensures bs[0..] == bs && SoFar(bs, 0, 1, 0)
  {
    assert bs[0..] == bs;
    SoFarSealOpens(9, bs, 0, 1, 0);
  }

  lemma {:induction false} VarintEnds(bs: Bytes, n: nat, scale: nat, result: nat)
    requires SoFar(bs, n, scale, result)
    ensures n <= Groups(bs, 10) && (n == Groups(bs, 10) ==> GetVarint64(bs) == None)
  {
    SoFarSealOpens(n + 9, bs, n, scale, result);
    OpenGetVarint(bs);
  }

  lemma {:induction false} VarintLastByte(bs: Bytes, n: nat, scale: nat, result: nat)
    requires SoFar(bs, n, scale, result) && n < Groups(bs, 10) && bs[n] < 128
    ensures GetVarint64(bs) == Some(((result + scale * bs[n]) % TWO_64, bs[n + 1..]))
  {
    SoFarSealOpens(n + 9, bs, n, scale, result);
    OpenGetVarint(bs);
    assert bs[n..][1..] == bs[n + 1..];
  }

  lemma {:induction false} VarintGoesOn(bs: Bytes, n: nat, scale: nat, result: nat)
    requires SoFar(bs, n, scale, result) && n < Groups(bs, 10)
    ensures bs[n] < 128 ==> GetVarint64(bs) == Some(((result + scale * bs[n]) % TWO_64, bs[n + 1..]))
    ensures bs[n] >= 128 ==> SoFar(bs, n + 1, scale * 128, result + scale * (bs[n] - 128))
  {
    if bs[n] < 128 {
      VarintLastByte(bs, n, scale, result);
    } else {
      SoFarSealOpens(n + 9, bs, n, scale, result);
      assert bs[n..][1..] == bs[n + 1..];
      Distribute(result, scale, bs[n] - 128, ParseVarint(bs[n + 1..], Groups(bs, 10) - n - 1));
      SoFarSealOpens(n + 10, bs, n + 1, scale * 128, result + scale * (bs[n] - 128));
    }
  }

  /** What one byte of a varint leads to. */
  datatype VarintStep = Failed | Last(value: nat) | More(scale: nat, result: nat)

  /** pb_istream_t: `pos` is where its pointer stands in the buffer, `bytesLeft` how far it may read. */
  class IStream {
    const source: Bytes
    var pos: nat
    var bytesLeft: nat

    ghost predicate Valid()
      reads this
    {
      pos + bytesLeft <= |source|
    }

    ghost function Input(): (r: Bytes)
      requires Valid()
      reads this
      ensures |r| == bytesLeft
    {
      source[pos..pos + bytesLeft]
    }

    /** Since it stood at `from` with `left` bytes to go, the stream only read on. */
    ghost predicate Advanced(from: nat, left: nat)
      reads this
    {
      bytesLeft <= left && pos + bytesLeft == from + left
    }

    constructor (source: Bytes, pos: nat, size: nat)
      requires pos + size <= |source|
      ensures Valid() && this.source == source && this.pos == pos && bytesLeft == size
    {
      this.source, this.pos, bytesLeft := source, pos, size;
    }

    /** pb_read. */
    method Read(n: nat) returns (ok: bool, bs: Bytes)
      requires Valid()
      modifies this
      ensures Valid() && Advanced(old(pos), old(bytesLeft))
      ensures ok <==> n <= old(bytesLeft)
      ensures if ok then bs == old(Input())[..n] && Input() == old(Input())[n..] else unchanged(this)
    {
      if bytesLeft < n {
        return false, [];
      }
      ok, bs := true, source[pos..pos + n];
      pos, bytesLeft := pos + n, bytesLeft - n;
    }

    /** pb_readbyte. */
    method ReadByte() returns (r: Option<Byte>)
      requires Valid()
      modifies this
      ensures Valid() && Advanced(old(pos), old(bytesLeft))
      ensures if old(bytesLeft) == 0 then r == None && unchanged(this)
              else r == Some(old(Input())[0]) && Input() == old(Input())[1..]
    {
      var ok, bs := Read(1);
      r := if ok then Some(bs[0]) else None;
    }

    /** pb_decode_varint32_eof. */
    method DecodeVarint32() returns (r: Option<nat>)
      requires Valid()
      modifies this
      ensures Valid() && Advanced(old(pos), old(bytesLeft))
      ensures match Varint32(old(Input())) case Some((v, rest)) => r == Some(v) && Input() == rest case None => r == None
    {
      ghost var bs := Input();
      OpenVarint32(bs);
      var byte := ReadByte();
      if byte == None {
        return None;
      }
      if byte.value < 128 {
        return Some(byte.value);
      }
      var result: nat, k: nat := byte.value - 128, 1;
      while true
        invariant Valid() && Advanced(old(pos), old(bytesLeft)) && k > 0 && result < TWO_32
        invariant TakeVarint32(bs) == Varint32From(Input(), k, result)
        decreases bytesLeft
      {
        byte := ReadByte();
        if byte == None {
          return None;
        }
        if 7 * k >= 32 {
          var signExtension := if 7 * k < 63 then 0xFF else 0x01;
          if byte.value % 128 != 0 && (result < TWO_31 || byte.value != signExtension) {
            return None;
          }
        } else {
          result := (result + byte.value % 128 * Place(k)) % TWO_32;
        }
        k := k + 1;
        if byte.value < 128 {
          break;
        }
      }
      if k == 5 && byte.value >= 16 {
        return None;
      }
      r := Some(result);
    }

    /** pb_decode_varint: up to ten bytes, cut to 64 bits. */
    method DecodeVarint() returns (r: Option<nat>)
      requires Valid()
      modifies this
      ensures Valid() && Advanced(old(pos), old(bytesLeft))
      ensures match GetVarint64(old(Input())) case Some((v, rest)) => r == Some(v) && Input() == rest case None => r == None
    {
      ghost var bs := Input();
      var n: nat, step := 0, More(1, 0);
      SoFarStarts(bs);
      while step.More?
        invariant Valid() && Advanced(old(pos), old(bytesLeft)) && Reached(bs, n, step)
        decreases step.More?, 10 - n
      {
        step := VarintByte(bs, n, step.scale, step.result);
        n := n + 1;
      }
      r := if step.Last? then Some(step.value) else None;
    }

    /** Where the reading of a varint is after `n` bytes of `bs`. */
    ghost predicate Reached(bs: Bytes, n: nat, step: VarintStep)
      requires Valid()
      reads this
    {
      match step
      case Failed => GetVarint64(bs) == None
      case Last(v) => GetVarint64(bs) == Some((v, Input()))
      case More(scale, result) => n <= Groups(bs, 10) && Input() == bs[n..] && SoFar(bs, n, scale, result)
    }

    /** One more byte of it. */
    method VarintByte(ghost bs: Bytes, n: nat, scale: nat, result: nat) returns (step: VarintStep)
      requires Valid() && Reached(bs, n, More(scale, result))
      modifies this
      ensures Valid() && Advanced(old(pos), old(bytesLeft)) && Reached(bs, n + 1, step) && (step.More? ==> n < 10)
    {
      VarintEnds(bs, n, scale, result);
      if n == 10 {
        return Failed;
      }
      var byte := ReadByte();
      if byte == None {
        return Failed;
      }
      assert byte.value == bs[n] && Input() == bs[n + 1..];
      VarintGoesOn(bs, n, scale, result);
      step := if byte.value < 128 then Last((result + scale * byte.value) % TWO_64)
              else More(scale * 128, result + scale * (byte.value - 128));
    }

    /** pb_skip_varint. */
    method SkipVarintBytes() returns (ok: bool)
      requires Valid()
      modifies this
      ensures Valid() && Advanced(old(pos), old(bytesLeft))
      ensures match SkipVarint(old(Input())) case Some(rest) => ok && Input() == rest case None => !ok
    {
      while true
        invariant Valid() && Advanced(old(pos), old(bytesLeft)) && SkipVarint(old(Input())) == SkipVarint(Input())
        decreases bytesLeft
      {
        var byte := ReadByte();
        if byte == None {
          return false;
        }
        if byte.value < 128 {
          return true;
        }
      }
    }

    /** pb_skip_field. */
    method Skip(wireType: nat) returns (ok: bool)
      requires Valid()
      modifies this
      ensures Valid() && Advanced(old(pos), old(bytesLeft))
      ensures match SkipField(old(Input()), wireType) case Some(rest) => ok && Input() == rest case None => !ok
    {
      var data: Bytes;
      if wireType == WT_VARINT {
        ok := SkipVarintBytes();
      } else if wireType == WT_64BIT {
        ok, data := Read(8);
      } else if wireType == WT_STRING {
        var n := DecodeVarint32();
        if n == None {
          return false;
        }
        ok, data := Read(n.value);
      } else if wireType == WT_32BIT {
        ok, data := Read(4);
      } else {
        ok := false;
      }
    }

    /** pb_decode_tag: end of input and a tag of 0 both end the message. */
    method DecodeTag() returns (ok: bool, eof: bool, wireType: nat, tag: nat)
      requires Valid()
      modifies this
      ensures Valid() && Advanced(old(pos), old(bytesLeft))
      ensures match Varint32(old(Input()))
        case None => !ok && (eof <==> old(bytesLeft) == 0)
        case Some((t, rest)) => Input() == rest && ok == (t != 0) && (!ok ==> eof) && (ok ==> tag == t / 8 && wireType == t % 8)
    {
      eof := bytesLeft == 0;
      wireType, tag := 0, 0;
      var temp := DecodeVarint32();
      if temp == None {
        ok := false;
      } else if temp.value == 0 {
        ok, eof := false, true;
      } else {
        ok, tag, wireType := true, temp.value / 8, temp.value % 8;
      }
    }

    /** pb_make_string_substream: the substream reads the same input; the parent's limit is moved past it. */
    method MakeSubstream() returns (sub: IStream?)
      requires Valid()
      modifies this
      ensures bytesLeft <= old(bytesLeft)
      ensures sub == null ==> Valid() && Advanced(old(pos), old(bytesLeft))
      ensures match Varint32(old(Input()))
        case None => sub == null
        case Some((n, rest)) =>
          && (sub == null <==> n > |rest|)
          && (sub != null ==>
                && fresh(sub) && sub.Valid() && sub.bytesLeft == n < old(bytesLeft) && sub.Input() == rest[..n]
                && sub.source == source && sub.pos == pos && pos + n + bytesLeft == old(pos) + old(bytesLeft)
                && source[pos + n..pos + n + bytesLeft] == rest[n..])
    {
      var n := DecodeVarint32();
      if n == None || bytesLeft < n.value {
        return null;
      }
      sub := new IStream(source, pos, n.value);
      bytesLeft := bytesLeft - n.value;
    }

    /** pb_close_string_substream: what is left of it is skipped, and the parent goes on behind it. */
    method CloseSubstream(sub: IStream, ghost from: nat, ghost n: nat)
      requires sub != this && sub.Valid() && sub.Advanced(from, n) && sub.source == source && from + n + bytesLeft <= |source|
      modifies this, sub
      ensures Valid() && bytesLeft == old(bytesLeft) && pos == from + n
    {
      var ok, data := sub.Read(sub.bytesLeft);
      pos := sub.pos;
    }

    /** pb_dec_bool to pb_dec_fixed64. */
    method DecodeNumberField(f: Field) returns (r: Option<Val>)
      requires Valid() && IsNumber(f.kind) && FieldOk(f)
      modifies this
      ensures Valid() && Advanced(old(pos), old(bytesLeft))
      ensures match DecodeNumber(f, old(Input())) case Some((v, rest)) => r == Some(v) && Input() == rest case None => r == None
    {
      r := None;
      match f.kind
      case Bool =>
        var n := DecodeVarint32();
        if n.Some? {
          r := Some(Num(if n.value != 0 then 1 else 0));
        }
      case Varying =>
        var n := DecodeVarint();
        if n.Some? && InSpan(VaryingOf(n.value, f.dataSize), f.dataSize) {
          r := Some(Num(VaryingOf(n.value, f.dataSize)));
        }
      case Unsigned =>
        var n := DecodeVarint();
        if n.Some? && n.value < Span(f.dataSize) {
          r := Some(Num(n.value));
        }
      case ZigZag =>
        var n := DecodeVarint();
        if n.Some? && InSpan(UnZigZag(n.value), f.dataSize) {
          r := Some(Num(UnZigZag(n.value)));
        }
      case Fix32 =>
        var ok, data := Read(4);
        if ok {
          r := Some(Num(FixedNumber(data)));
        }
      case Fix64 =>
        var ok, data := Read(8);
        if ok {
          r := Some(Num(FixedNumber(data)));
        }
    }

    /** PB_DECODERS: the decoder for the field's type, on top of `base`. */
    method DecodeValue(f: Field, base: Val) returns (r: Option<Val>)
      requires Valid() && FieldOk(f) && ValOk(f, base)
      modifies this
      ensures Valid() && Advanced(old(pos), old(bytesLeft))
      ensures match DecodeVal(f, base, old(Input())) case Some((v, rest)) => r == Some(v) && Input() == rest case None => r == None
      decreases bytesLeft, 1
    {
      if IsNumber(f.kind) {
        r := DecodeNumberField(f);
        return;
      }
      if f.kind.Message? {
        r := DecodeSubmessage(f, base);
        return;
      }
      var n := DecodeVarint32();
      if n == None {
        return None;
      }
      if f.kind.Inline? && n.value == 0 {
        return Some(Blob(Zeros(f.dataSize)));
      }
      if (f.kind.Bytestring? && n.value + COUNT_SIZE > f.dataSize)
        || (f.kind.Text? && n.value + 1 > f.dataSize)
        || (f.kind.Inline? && n.value != f.dataSize)
      {
        return None;
      }
      var ok, data := Read(n.value);
      r := if !ok then None else Some(Blob(if f.kind.Text? then UpToNul(data) else data));
    }

    /** pb_dec_submessage. */
    method DecodeSubmessage(f: Field, base: Val) returns (r: Option<Val>)
      requires Valid() && FieldOk(f) && ValOk(f, base) && f.kind.Message?
      modifies this
      ensures Valid() && Advanced(old(pos), old(bytesLeft))
      ensures match DecodeVal(f, base, old(Input())) case Some((v, rest)) => r == Some(v) && Input() == rest case None => r == None
      decreases bytesLeft, 0
    {
      var sub := MakeSubstream();
      if sub == null {
        return None;
      }
      ghost var from, n := sub.pos, sub.bytesLeft;
      var slots := sub.DecodeNoinit(f.kind.fields, base.slots);
      CloseSubstream(sub, from, n);
      r := if slots.Some? then Some(Struct(slots.value)) else None;
    }

    /** The loop over a packed array. */
    method DecodePackedItems(f: Field, items: seq<Val>) returns (r: Option<seq<Val>>)
      requires Valid() && FieldOk(f) && IsNumber(f.kind) && forall i :: 0 <= i < |items| ==> ValOk(f, items[i])
      modifies this
      ensures Valid() && Advanced(old(pos), old(bytesLeft))
      ensures r == DecodePacked(f, items, old(Input()))
    {
      var all := items;
      while bytesLeft > 0 && |all| < f.arraySize
        invariant Valid() && Advanced(old(pos), old(bytesLeft)) && forall i :: 0 <= i < |all| ==> ValOk(f, all[i])
        invariant DecodePacked(f, items, old(Input())) == DecodePacked(f, all, Input())
        decreases bytesLeft
      {
        ghost var bs := Input();
        var v := DecodeNumberField(f);
        if v == None {
          return None;
        }
        all := all + [v.value];
      }
      r := if bytesLeft > 0 then None else Some(all);
    }

    /** decode_static_field. */
    method DecodeStaticField(fields: seq<Field>, slots: seq<Slot>, p: nat, wireType: nat) returns (r: Option<seq<Slot>>)
      requires Valid() && FieldsOk(fields) && SlotsOk(fields, slots) && p < |fields|
      modifies this
      ensures Valid() && Advanced(old(pos), old(bytesLeft))
      ensures match DecodeField(fields, slots, p, wireType, old(Input()))
        case Some((to, rest)) => r == Some(to) && Input() == rest
        case None => r == None
      decreases bytesLeft, 2
    {
      var f := fields[p];
      assert SlotOk(f, slots[p]);
      if f.rule.Repeated? && wireType == WT_STRING && IsNumber(f.kind) {
        var sub := MakeSubstream();
        if sub == null {
          return None;
        }
        ghost var from, n := sub.pos, sub.bytesLeft;
        var items := sub.DecodePackedItems(f, slots[p].items);
        CloseSubstream(sub, from, n);
        r := if items.Some? then Some(slots[p := Many(items.value)]) else None;
        return;
      }
      if f.rule.Repeated? && |slots[p].items| >= f.arraySize {
        return None;
      }
      var v := DecodeValue(f, Beneath(f, slots[p]));
      if v == None {
        return None;
      }
      r := Some(Stored(fields, slots, p, v.value));
    }

    /** The inside of pb_decode_noinit's loop, after the tag. */
    method DecodeOneField(fields: seq<Field>, slots: seq<Slot>, iter: FieldIter, bits: seq<bool>,
        ghost seen: set<nat>, tag: nat, wireType: nat)
      returns (r: Option<seq<Slot>>, bits': seq<bool>, ghost seen': set<nat>)
      requires Valid() && FieldsOk(fields) && SlotsOk(fields, slots)
      requires iter.Valid() && iter.fields == fields && Marks(bits, seen)
      modifies this, iter
      ensures Valid() && Advanced(old(pos), old(bytesLeft)) && iter.Valid() && Marks(bits', seen')
      ensures r.Some? ==> SlotsOk(fields, r.value)
      ensures OnField(fields, slots, seen, tag, wireType, old(Input())) ==
        if r == None then None else DecodeLoop(fields, r.value, seen', Input())
      decreases bytesLeft, 3
    {
      bits', seen' := bits, seen;
      var found := iter.Find(tag);
      FoundIsFirst(fields, tag, iter.pos);
      if !found {
        var skipped := Skip(wireType);
        r := if skipped then Some(slots) else None;
        return;
      }
      if fields[iter.pos].rule.Required? && iter.requiredIndex < MAX_REQUIRED_FIELDS {
        bits' := bits'[iter.requiredIndex := true];
      }
      seen' := Seen(fields, iter.pos, seen);
      r := DecodeStaticField(fields, slots, iter.pos, wireType);
    }

    /** pb_decode_noinit. */
    method DecodeNoinit(fields: seq<Field>, slots: seq<Slot>) returns (r: Option<seq<Slot>>)
      requires Valid() && FieldsOk(fields) && SlotsOk(fields, slots)
      modifies this
      ensures Valid() && Advanced(old(pos), old(bytesLeft))
      ensures match DecodeMessage(fields, slots, old(Input()))
        case Some((to, rest)) => r == Some(to) && Input() == rest
        case None => r == None
      ensures match Tags(fields, slots, old(Input()))
        case Some(tags) => r.Some? <==>
          forall p :: 0 <= p < |fields| && fields[p].rule.Required? && RequiredBefore(fields, p) < 64 ==> fields[p].tag in tags
        case None => r == None
      decreases bytesLeft, 4
    {
      RequiredArePresent(fields, slots, Input());
      var fieldsSeen: seq<bool> := seq(MAX_REQUIRED_FIELDS, _ => false);
      var iter := new FieldIter(fields);
      var to := slots;
      ghost var bs := Input();
      ghost var seen: set<nat> := {};
      while bytesLeft > 0
        invariant Valid() && Advanced(old(pos), old(bytesLeft)) && iter.Valid() && iter.fields == fields && fresh(iter)
        invariant SlotsOk(fields, to) && Marks(fieldsSeen, seen)
        invariant DecodeLoop(fields, slots, {}, bs) == DecodeLoop(fields, to, seen, Input())
        decreases bytesLeft
      {
        ghost var input := Input();
        var ok, eof, wireType, tag := DecodeTag();
        if !ok {
          if eof {
            break;
          }
          return None;
        }
        var decoded, bits;
        decoded, bits, seen := DecodeOneField(fields, to, iter, fieldsSeen, seen, tag, wireType);
        if decoded == None {
          return None;
        }
        to, fieldsSeen := decoded.value, bits;
      }
      var complete := RequiredPresent(iter, fieldsSeen, seen);
      r := if complete then Some(to) else None;
    }

    /** pb_decode: the fields get their default values first. */
    method DecodeAll(fields: seq<Field>) returns (r: Option<seq<Slot>>)
      requires Valid() && FieldsOk(fields)
      modifies this
      ensures Valid() && Advanced(old(pos), old(bytesLeft))
      ensures match Decode(fields, old(Input())) case Some((to, rest)) => r == Some(to) && Input() == rest case None => r == None
      ensures r.Some? ==> SlotsOk(fields, r.value) && (Roomy(fields) ==> InRoom(fields, r.value))
      ensures SlotsOk(fields, DefaultSlots(fields))
      ensures match Tags(fields, DefaultSlots(fields), old(Input()))
        case Some(tags) => r.Some? <==>
          forall p :: 0 <= p < |fields| && fields[p].rule.Required? && RequiredBefore(fields, p) < 64 ==> fields[p].tag in tags
        case None => r == None
    {
      DefaultSlotsOk(fields);
      if Roomy(fields) {
        DecodedIsInRoom(fields, Input());
      }
      r := DecodeNoinit(fields, DefaultSlots(fields));
    }
  }

  /** The bitmap of required fields stands for a set of their numbers. */
  ghost predicate Marks(bits: seq<bool>, seen: set<nat>) {
    |bits| == MAX_REQUIRED_FIELDS && forall r: nat :: r in seen <==> r < |bits| && bits[r]
  }

  lemma {:induction false} FoundIsFirst(fields: seq<Field>, tag: nat, p: nat)
    requires DistinctTags(fields)
    ensures p < |fields| && fields[p].tag == tag ==> FindTag(fields, tag, 0) == Some(p)
    ensures (exists i :: 0 <= i < |fields| && fields[i].tag == tag) <==> FindTag(fields, tag, 0).Some?
  {
  }

  /** The end of pb_decode_noinit: how many required fields there are, and whether all were seen. */
  method RequiredPresent(iter: FieldIter, fieldsSeen: seq<bool>, ghost seen: set<nat>) returns (ok: bool)
    requires iter.Valid() && Marks(fieldsSeen, seen)
    modifies iter
    ensures ok == AllSeen(iter.fields, seen)
  {
    var fields := iter.fields;
    var count := iter.requiredIndex;
    var lastPos := iter.pos;
    var more := iter.Next();
    while more
      invariant iter.Valid() && iter.fields == fields && lastPos <= |fields|
      invariant more ==> iter.pos == lastPos + 1 < |fields|
      invariant !more && |fields| > 0 ==> lastPos + 1 == |fields|
      invariant |fields| == 0 ==> lastPos == 0
      invariant count == RequiredBefore(fields, lastPos)
      decreases more, |fields| - lastPos
    {
      count := iter.requiredIndex;
      lastPos := iter.pos;
      more := iter.Next();
    }
    if |fields| > 0 && fields[lastPos].rule.Required? {
      count := count + 1;
    }
    if count > MAX_REQUIRED_FIELDS {
      count := MAX_REQUIRED_FIELDS;
    }
    ok := true;
    for i := 0 to count
      invariant ok <==> forall r: nat :: r < i ==> r in seen
    {
      if !fieldsSeen[i] {
        ok := false;
      }
    }
  }
}
