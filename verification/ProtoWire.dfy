// What the decoder reads from its input, as functions (pb_decode.c): numbers, tags,
// fields to skip, and whole messages.
module ProtoWire {
  import opened Keys
  import opened Coding
  import opened Protos

  const TWO_31: nat := 0x8000_0000

  // ----- 32-bit varints -----

  /** The weight of the `k`th byte's lowest bit. */
  function Place(k: nat): nat {
    if k == 1 then 0x80 else if k == 2 then 0x4000 else if k == 3 then 0x20_0000 else 0x1000_0000
  }

  /** The loop of pb_decode_varint32_eof from its `k`th byte on, at bit position `7 * k`. */
  function Varint32From(bs: Bytes, k: nat, result: nat): (r: Option<(nat, Bytes)>)
    requires k > 0 && result < TWO_32
    ensures r.Some? ==> |r.value.1| < |bs| && r.value.0 < TWO_32
  {
    if |bs| == 0 then None
    else if 7 * k >= 32 then
      if bs[0] % 128 != 0 && (result < TWO_31 || bs[0] != (if 7 * k < 63 then 0xFF else 0x01)) then None
      else if bs[0] >= 128 then Varint32From(bs[1..], k + 1, result)
      else Some((result, bs[1..]))
    else
      var more := (result + bs[0] % 128 * Place(k)) % TWO_32;
      if bs[0] >= 128 then Varint32From(bs[1..], k + 1, more)
      else if k == 4 && bs[0] >= 16 then None
      else Some((more, bs[1..]))
  }

  function TakeVarint32(bs: Bytes): (r: Option<(nat, Bytes)>)
    ensures r.Some? ==> |r.value.1| < |bs| && r.value.0 < TWO_32
  {
    if |bs| == 0 then None
    else if bs[0] < 128 then Some((bs[0], bs[1..]))
    else Varint32From(bs[1..], 1, bs[0] - 128)
  }

  lemma {:induction false} PlaceStep(w: nat, k: nat, result: nat)
    requires 1 <= k <= 4 && result < Place(k) && result + w * Place(k) < TWO_32
    ensures w >= 128 ==> k < 4 && result + w % 128 * Place(k) < Place(k + 1)
    ensures w >= 128 ==> result + w % 128 * Place(k) + w / 128 * Place(k + 1) == result + w * Place(k)
    ensures w < 128 && k == 4 ==> w < 16
  {
    var m, q := w % 128, w / 128;
    assert w == 128 * q + m;
    if k == 1 {
      assert w * 0x80 == q * 0x4000 + m * 0x80;
    } else if k == 2 {
      assert w * 0x4000 == q * 0x20_0000 + m * 0x4000;
    } else if k == 3 {
      assert w * 0x20_0000 == q * 0x1000_0000 + m * 0x20_0000;
    }
  }

  lemma {:induction false} LastByteRead(bs: Bytes, k: nat, result: nat)
    requires 1 <= k <= 4 && |bs| > 0 && bs[0] < 128 && (k == 4 ==> bs[0] < 16) && result + bs[0] * Place(k) < TWO_32
    ensures Varint32From(bs, k, result) == Some((result + bs[0] * Place(k), bs[1..]))
  {
    assert bs[0] % 128 == bs[0];
  }

  lemma {:induction false} EarlierByteRead(bs: Bytes, k: nat, result: nat)
    requires 1 <= k < 4 && |bs| > 0 && bs[0] >= 128 && result + (bs[0] - 128) * Place(k) < TWO_32
    ensures Varint32From(bs, k, result) == Varint32From(bs[1..], k + 1, result + (bs[0] - 128) * Place(k))
  {
    assert bs[0] % 128 == bs[0] - 128;
  }

  lemma {:induction false} FromRoundTrip(w: nat, k: nat, result: nat, rest: Bytes)
    requires 1 <= k <= 4 && result < Place(k) && result + w * Place(k) < TWO_32
    ensures Varint32From(Varint(w) + rest, k, result) == Some((result + w * Place(k), rest))
    decreases 4 - k
  {
    PlaceStep(w, k, result);
    VarintStep(w);
    var all := Varint(w) + rest;
    if w < 128 {
      assert all[0] == w && all[1..] == rest;
      LastByteRead(all, k, result);
    } else {
      assert all[0] == w % 128 + 128 && all[1..] == Varint(w / 128) + rest;
      EarlierByteRead(all, k, result);
      FromRoundTrip(w / 128, k + 1, result + w % 128 * Place(k), rest);
    }
  }

  /** pb_decode_varint32, sealed: what uses it does not look into the bytes. */
  function Varint32(bs: Bytes): (r: Option<(nat, Bytes)>)
    ensures r.Some? ==> |r.value.1| < |bs| && r.value.0 < TWO_32
  {
    Varint32Seal(|bs| + 9, bs)
  }

  function Varint32Seal(n: nat, bs: Bytes): (r: Option<(nat, Bytes)>)
    ensures r.Some? ==> |r.value.1| < |bs| && r.value.0 < TWO_32
  {
    if n == 0 then TakeVarint32(bs) else Varint32Seal(n - 1, bs)
  }

  lemma {:induction false} Varint32SealOpens(n: nat, bs: Bytes)
    ensures Varint32Seal(n, bs) == TakeVarint32(bs)
  {
    if n > 0 {
      Varint32SealOpens(n - 1, bs);
    }
  }

  lemma {:induction false} OpenVarint32(bs: Bytes)
    ensures Varint32(bs) == TakeVarint32(bs)
  {
    Varint32SealOpens(|bs| + 9, bs);
  }

  /** What the encoder writes for a 32-bit number, the decoder reads. */
  lemma {:induction false} Varint32RoundTrip(v: nat, rest: Bytes)
    requires v < TWO_32
    ensures Varint32(Varint(v) + rest) == Some((v, rest))
  {
    var all := Varint(v) + rest;
    OpenVarint32(all);
    VarintStep(v);
    if v < 128 {
      assert all[1..] == rest;
    } else {
      assert all[1..] == Varint(v / 128) + rest;
      FromRoundTrip(v / 128, 1, v % 128, rest);
    }
  }

  // ----- skipping -----

  function SkipVarint(bs: Bytes): (r: Option<Bytes>)
    ensures r.Some? ==> |r.value| < |bs|
  {
    if |bs| == 0 then None else if bs[0] < 128 then Some(bs[1..]) else SkipVarint(bs[1..])
  }

  function SkipBytes(bs: Bytes, n: nat): (r: Option<Bytes>)
    ensures r.Some? ==> |r.value| + n == |bs|
  {
    if n <= |bs| then Some(bs[n..]) else None
  }

  /** pb_skip_field: past a value that no field wants. */
  function SkipField(bs: Bytes, wireType: nat): (r: Option<Bytes>)
    ensures r.Some? ==> |r.value| <= |bs|
  {
    if wireType == WT_VARINT then SkipVarint(bs)
    else if wireType == WT_64BIT then SkipBytes(bs, 8)
    else if wireType == WT_STRING then
      match Varint32(bs)
      case Some((n, rest)) => SkipBytes(rest, n)
      case None => None
    else if wireType == WT_32BIT then SkipBytes(bs, 4)
    else None
  }

  // ----- values -----

  function SignedOf(v: nat, span: nat): int {
    if v >= span / 2 then v - span else v
  }

  predicate InSpan(n: int, size: nat) {
    -(Span(size) / 2) <= n < Span(size) / 2
  }

  /** The number a varint of a VARINT field stands for: fields of at most 32 bits take the low 32 bits. */
  function VaryingOf(v: nat, size: nat): int
    requires v < TWO_64
  {
    if size == 8 then SignedOf(v, TWO_64) else SignedOf(v % TWO_32, TWO_32)
  }

  function UnZigZag(v: nat): int {
    if v % 2 == 1 then -(v / 2) - 1 else v / 2
  }

  /** pb_dec_bool to pb_dec_fixed64; a number too large for the variable is an error. */
  function DecodeNumber(f: Field, bs: Bytes): (r: Option<(Val, Bytes)>)
    requires IsNumber(f.kind) && FieldOk(f)
    ensures r.Some? ==> |r.value.1| < |bs| && ValOk(f, r.value.0)
  {
    match f.kind
    case Bool =>
      (match Varint32(bs)
       case Some((v, rest)) => Some((Num(if v != 0 then 1 else 0), rest))
       case None => None)
    case Varying =>
      (match GetVarint64(bs)
       case Some((v, rest)) => if InSpan(VaryingOf(v, f.dataSize), f.dataSize) then Some((Num(VaryingOf(v, f.dataSize)), rest)) else None
       case None => None)
    case Unsigned =>
      (match GetVarint64(bs)
       case Some((v, rest)) => if v < Span(f.dataSize) then Some((Num(v), rest)) else None
       case None => None)
    case ZigZag =>
      (match GetVarint64(bs)
       case Some((v, rest)) => if InSpan(UnZigZag(v), f.dataSize) then Some((Num(UnZigZag(v)), rest)) else None
       case None => None)
    case Fix32 => if |bs| >= 4 then Some((Num(FixedNumber(bs[..4])), bs[4..])) else None
    case Fix64 => if |bs| >= 8 then Some((Num(FixedNumber(bs[..8])), bs[8..])) else None
    case _ => None
  }

  function FixedNumber(bs: Bytes): (r: nat)
    ensures |bs| == 4 ==> r < TWO_32
    ensures |bs| == 8 ==> r < TWO_64
  {
    DecodeFixedBound(bs);
    assert Power(256, 1) == 256 && Power(256, 2) == 65536 && Power(256, 3) == 16777216 && Power(256, 4) == TWO_32;
    assert Power(256, 5) == 256 * TWO_32 && Power(256, 6) == 65536 * TWO_32 && Power(256, 7) == 16777216 * TWO_32;
    DecodeFixed(bs)
  }

  lemma {:induction false} DecodeFixedBound(bs: Bytes)
    ensures DecodeFixed(bs) < Power(256, |bs|)
  {
    if |bs| > 0 {
      DecodeFixedBound(bs[1..]);
    }
  }

  /** What a C string keeps of the bytes copied into it. */
  function UpToNul(bs: Bytes): (r: Bytes)
    ensures |r| <= |bs| && 0 !in r
    ensures 0 !in bs ==> r == bs
  {
    if |bs| == 0 || bs[0] == 0 then [] else [bs[0]] + UpToNul(bs[1..])
  }
}
