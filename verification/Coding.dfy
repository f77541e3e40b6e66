// Bytes and the number encodings that every file format uses (util/coding.cc), and
// the storage mask of checksums (util/crc32c.h).
module Coding {
  import opened Keys

  type Byte = b: nat | b < 256
  type Bytes = seq<Byte>

  const TWO_32: nat := 0x1_0000_0000
  const TWO_64: nat := 0x1_0000_0000_0000_0000
  type Word = w: nat | w < TWO_32

  function Power(base: nat, n: nat): (r: nat)
    ensures base > 0 ==> r > 0
  {
    if n == 0 then 1
    else
      var r := Power(base, n - 1);
      assert base > 0 ==> base * r >= r;
      base * r
  }

  // ----- bits -----

  /** Bit `j` of a number, the lowest being bit 0. */
  predicate HasBit(b: nat, j: nat) {
    if j == 0 then b % 2 == 1 else HasBit(b / 2, j - 1)
  }

  /** Two numbers side by side: `low` in the first `k` bits, `high` above it. */
  lemma {:induction false} SideBySide(high: nat, low: nat, k: nat, p: nat, j: nat)
    requires p == Power(2, k) && low < p
    ensures HasBit(high * p + low, j) <==> if j < k then HasBit(low, j) else HasBit(high, j - k)
  {
    if k > 0 {
      var half := Power(2, k - 1);
      assert high * p == 2 * (high * half);
      assert (high * p + low) % 2 == low % 2 && (high * p + low) / 2 == high * half + low / 2;
      if j > 0 {
        SideBySide(high, low / 2, k - 1, half, j - 1);
      }
    }
  }

  lemma {:induction false} PowersOfTwo()
    ensures Power(2, 7) == 0x80 && Power(2, 8) == 0x100 && Power(2, 15) == 0x8000 && Power(2, 17) == 0x2_0000
  {
    assert Power(2, 3) == 8 && Power(2, 6) == 64;
    assert Power(2, 11) == 0x800 && Power(2, 14) == 0x4000;
  }

  lemma {:induction false} WidePowers()
    ensures Power(2, 32) == TWO_32 && Power(2, 64) == TWO_64
  {
    PowersOfTwo();
    PowerOfSum(8, 8);
    PowerOfSum(16, 16);
    PowerOfSum(32, 32);
  }

  lemma {:induction false} PowerOfSum(a: nat, b: nat)
    ensures Power(2, a + b) == Power(2, a) * Power(2, b)
  {
    if a > 0 {
      PowerOfSum(a - 1, b);
    }
  }

  lemma {:induction false} NoBits(j: nat)
    ensures !HasBit(0, j)
  {
    if j > 0 {
      NoBits(j - 1);
    }
  }

  // ----- fixed-width numbers, least significant byte first -----

  function Fixed(n: nat, v: nat): (r: Bytes)
    ensures |r| == n
  {
    if n == 0 then [] else [v % 256] + Fixed(n - 1, v / 256)
  }

  function DecodeFixed(bs: Bytes): nat {
    if |bs| == 0 then 0 else bs[0] + 256 * DecodeFixed(bs[1..])
  }

  lemma {:induction false} FixedRoundTrip(n: nat, v: nat)
    requires v < Power(256, n)
    ensures DecodeFixed(Fixed(n, v)) == v
  {
    if n > 0 {
      FixedRoundTrip(n - 1, v / 256);
      assert Fixed(n, v)[1..] == Fixed(n - 1, v / 256);
    }
  }

  lemma {:induction false} Fixed32RoundTrip(v: nat)
    requires v < TWO_32
    ensures DecodeFixed(Fixed(4, v)) == v
  {
    assert Power(256, 1) == 256 && Power(256, 2) == 65536 && Power(256, 3) == 16777216;
    FixedRoundTrip(4, v);
  }

  lemma {:induction false} Fixed64RoundTrip(v: nat)
    requires v < TWO_64
    ensures DecodeFixed(Fixed(8, v)) == v
  {
    assert Power(256, 1) == 256 && Power(256, 2) == 65536 && Power(256, 3) == 16777216 && Power(256, 4) == TWO_32;
    assert Power(256, 5) == 256 * TWO_32 && Power(256, 6) == 65536 * TWO_32 && Power(256, 7) == 16777216 * TWO_32;
    FixedRoundTrip(8, v);
  }

  /** Byte `i` holds the eight bits from 8 * i on. */
  lemma {:induction false} FixedByte(n: nat, v: nat, i: nat, j: nat)
    requires i < n && j < 8
    ensures HasBit(Fixed(n, v)[i], j) <==> HasBit(v, 8 * i + j)
  {
    PowersOfTwo();
    SideBySide(v / 256, v % 256, 8, 256, 8 * i + j);
    if i > 0 {
      FixedByte(n - 1, v / 256, i - 1, j);
    }
  }

  /** The bytes of a word, written out. */
  lemma {:induction false} Fixed32Layout(v: nat)
    requires v < TWO_32
    ensures Fixed(4, v) == [v % 256, v / 256 % 256, v / 65536 % 256, v / 16777216]
  {
    assert v / 256 / 256 == v / 65536 && v / 65536 / 256 == v / 16777216;
    assert Fixed(2, v / 65536) == [v / 65536 % 256, v / 16777216];
    assert Fixed(3, v / 256) == [v / 256 % 256] + Fixed(2, v / 65536);
  }

  /** No other bytes stand for the number. */
  lemma {:induction false} FixedIsOnlyForm(bs: Bytes)
    ensures Fixed(|bs|, DecodeFixed(bs)) == bs
  {
    if |bs| > 0 {
      FixedIsOnlyForm(bs[1..]);
    }
  }

  // ----- varints: seven bits a byte, the high bit set on all but the last -----

  function Varint(v: nat): (r: Bytes)
    ensures |r| > 0
  {
    if v < 128 then [v] else [v % 128 + 128] + Varint(v / 128)
  }

  /** The loop of EncodeVarint64. */
  method EncodeVarint64(v: nat) returns (r: Bytes)
    ensures r == Varint(v)
  {
    r := [];
    var rest := v;
    while rest >= 128
      invariant r + Varint(rest) == Varint(v)
    {
      assert r + ([rest % 128 + 128] + Varint(rest / 128)) == (r + [rest % 128 + 128]) + Varint(rest / 128);
      r := r + [rest % 128 + 128];
      rest := rest / 128;
    }
    r := r + [rest];
  }

  /** The five cases of EncodeVarint32. */
  method EncodeVarint32(v: nat) returns (r: Bytes)
    requires v < TWO_32
    ensures r == Varint(v)
  {
    if v < 0x80 {
      r := [v];
    } else if v < 0x4000 {
      r := [v % 128 + 128, v / 128];
    } else if v < 0x20_0000 {
      r := [v % 128 + 128, v / 128 % 128 + 128, v / 0x4000];
      assert v / 0x4000 == v / 128 / 128;
      VarintStep(v / 128);
    } else if v < 0x1000_0000 {
      r := [v % 128 + 128, v / 128 % 128 + 128, v / 0x4000 % 128 + 128, v / 0x20_0000];
      assert v / 0x4000 == v / 128 / 128 && v / 0x20_0000 == v / 128 / 128 / 128;
      VarintStep(v / 128 / 128);
      VarintStep(v / 128);
    } else {
      r := [v % 128 + 128, v / 128 % 128 + 128, v / 0x4000 % 128 + 128, v / 0x20_0000 % 128 + 128, v / 0x1000_0000];
      assert v / 0x4000 == v / 128 / 128 && v / 0x20_0000 == v / 128 / 128 / 128 && v / 0x1000_0000 == v / 128 / 128 / 128 / 128;
      VarintStep(v / 128 / 128 / 128);
      VarintStep(v / 128 / 128);
      VarintStep(v / 128);
    }
  }

  lemma {:induction false} VarintStep(v: nat)
    ensures v >= 128 ==> Varint(v) == [v % 128 + 128] + Varint(v / 128)
    ensures v < 128 ==> Varint(v) == [v]
  {
  }

  /** Byte `i` holds the seven bits from 7 * i on, and in its highest bit whether more bytes follow. */
  lemma {:induction false} VarintByte(v: nat, i: nat, j: nat)
    requires i < |Varint(v)| && j < 8
    ensures HasBit(Varint(v)[i], j) <==> if j < 7 then HasBit(v, 7 * i + j) else i + 1 < |Varint(v)|
  {
    PowersOfTwo();
    VarintStep(v);
    SideBySide(v / 128, v % 128, 7, 128, 7 * i + j);
    if i > 0 {
      VarintByte(v / 128, i - 1, j);
    } else {
      SideBySide(if v < 128 then 0 else 1, v % 128, 7, 128, j);
    }
  }

  /** There are as many bytes as it takes, and no more: only the number 0 ends in a byte that is 0. */
  lemma {:induction false} VarintIsShortest(v: nat)
    ensures v > 0 ==> Varint(v)[|Varint(v)| - 1] > 0
    ensures v < Power(128, |Varint(v)|)
  {
    VarintStep(v);
    assert Power(128, 1) == 128;
    if v >= 128 {
      VarintIsShortest(v / 128);
    }
  }

  method VarintLength(v: nat) returns (len: nat)
    ensures len == |Varint(v)|
  {
    len := 1;
    var rest := v;
    while rest >= 128
      invariant len - 1 + |Varint(rest)| == |Varint(v)|
    {
      rest := rest / 128;
      len := len + 1;
    }
  }

  /** The number at the head of `bs` in at most `groups` bytes, and its length. */
  function ParseVarint(bs: Bytes, groups: nat): (r: Option<(nat, nat)>)
    ensures r.Some? ==> 0 < r.value.1 <= |bs|
  {
    if groups == 0 || |bs| == 0 then None
    else if bs[0] < 128 then Some((bs[0], 1))
    else
      match ParseVarint(bs[1..], groups - 1)
      case Some((v, n)) => Some((bs[0] - 128 + 128 * v, n + 1))
      case None => None
  }

  /** Byte `i` is the first without the mark that more bytes follow. */
  ghost predicate EndsAt(bs: Bytes, i: nat) {
    i < |bs| && bs[i] < 128 && forall k :: 0 <= k < i ==> bs[k] >= 128
  }

  lemma {:induction false} ParsedUpTo(bs: Bytes, groups: nat)
    ensures ParseVarint(bs, groups) == None <==> forall i :: 0 <= i < groups && i < |bs| ==> bs[i] >= 128
  {
    if groups > 0 && |bs| > 0 && bs[0] >= 128 {
      ParsedUpTo(bs[1..], groups - 1);
      assert forall i :: 1 <= i < groups && i < |bs| ==> bs[i] == bs[1..][i - 1];
    }
  }

  /** Bit `7 * k + j` of the number is bit `j` of byte `k`. */
  lemma {:induction false} ParsedBits(bs: Bytes, groups: nat, i: nat, k: nat, j: nat)
    requires EndsAt(bs, i) && i < groups && j < 7
    ensures ParseVarint(bs, groups).Some? && ParseVarint(bs, groups).value.1 == i + 1
    ensures HasBit(ParseVarint(bs, groups).value.0, 7 * k + j) <==> k <= i && HasBit(bs[k], j)
  {
    PowersOfTwo();
    if i == 0 {
      SideBySide(0, bs[0], 7, 128, 7 * k + j);
      if k > 0 {
        NoBits(7 * (k - 1) + j);
      }
    } else {
      assert EndsAt(bs[1..], i - 1);
      ParsedBits(bs[1..], groups - 1, i - 1, if k > 0 then k - 1 else 0, j);
      SideBySide(ParseVarint(bs[1..], groups - 1).value.0, bs[0] - 128, 7, 128, 7 * k + j);
      SideBySide(1, bs[0] - 128, 7, 128, j);
    }
  }

  /** GetVarint32Ptr and GetVarint64Ptr: what the shifting loop gives, cut to the width of the result. */
  method GetVarint(bs: Bytes, groups: nat, width: nat) returns (r: Option<(nat, nat)>)
    requires width > 0
    ensures r == match ParseVarint(bs, groups) case Some((v, n)) => Some((v % width, n)) case None => None
  {
    var read := ReadGroups(bs, groups);
    r := match read case Some((v, n)) => Some((v % width, n)) case None => None;
  }

  method ReadGroups(bs: Bytes, groups: nat) returns (r: Option<(nat, nat)>)
    ensures r == ParseVarint(bs, groups)
  {
    var result: nat, scale: nat := 0, 1;
    var i := 0;
    while i < groups && i < |bs|
      invariant i <= groups && i <= |bs|
      invariant ParseVarint(bs, groups) == Shifted(result, scale, i, ParseVarint(bs[i..], groups - i))
    {
      var byte := bs[i];
      assert bs[i..][1..] == bs[i + 1..];
      i := i + 1;
      if byte >= 128 {
        OneMoreGroup(result, scale, i, byte - 128, ParseVarint(bs[i..], groups - i));
        result, scale := result + scale * (byte - 128), scale * 128;
      } else {
        return Some((result + scale * byte, i));
      }
    }
    return None;
  }

  /** A number whose low groups, `i` of them, are known already. */
  ghost function Shifted(result: nat, scale: nat, i: nat, rest: Option<(nat, nat)>): Option<(nat, nat)> {
    match rest case Some((v, n)) => Some((result + scale * v, n + i)) case None => None
  }

  lemma {:induction false} OneMoreGroup(result: nat, scale: nat, i: nat, low: nat, rest: Option<(nat, nat)>)
    requires i > 0
    ensures Shifted(result + scale * low, scale * 128, i, rest) ==
      match rest case Some((v, n)) => Shifted(result, scale, i - 1, Some((low + 128 * v, n + 1))) case None => None
  {
    Distribute(result, scale, low, rest);
  }

  lemma {:induction false} Distribute(result: nat, scale: nat, low: nat, rest: Option<(nat, nat)>)
    ensures rest.Some? ==> result + scale * (low + 128 * rest.value.0) == result + scale * low + scale * 128 * rest.value.0
  {
  }

  /** Reading back an encoded number, whatever follows it. */
  lemma {:induction false} VarintRoundTrip(v: nat, rest: Bytes, groups: nat)
    requires |Varint(v)| <= groups
    ensures ParseVarint(Varint(v) + rest, groups) == Some((v, |Varint(v)|))
  {
    var all := Varint(v) + rest;
    if v >= 128 {
      VarintRoundTrip(v / 128, rest, groups - 1);
      assert all[1..] == Varint(v / 128) + rest;
    }
  }

  lemma {:induction false} VarintIsShort(v: nat, n: nat)
    requires n > 0 && v < Power(128, n)
    ensures |Varint(v)| <= n
  {
    if v >= 128 {
      assert n > 1 by {
        assert Power(128, 1) == 128;
      }
      VarintIsShort(v / 128, n - 1);
    }
  }

  lemma {:induction false} Varint32Fits(v: nat)
    requires v < TWO_32
    ensures |Varint(v)| <= 5
  {
    assert Power(128, 1) == 128 && Power(128, 2) == 0x4000 && Power(128, 3) == 0x20_0000 && Power(128, 4) == 0x1000_0000;
    VarintIsShort(v, 5);
  }

  lemma {:induction false} Varint64Fits(v: nat)
    requires v < TWO_64
    ensures |Varint(v)| <= 10
  {
    assert Power(128, 1) == 128 && Power(128, 2) == 0x4000 && Power(128, 3) == 0x20_0000 && Power(128, 4) == 0x1000_0000;
    assert Power(128, 5) == 128 * 0x1000_0000 && Power(128, 6) == 0x4000 * 0x1000_0000 && Power(128, 7) == 0x20_0000 * 0x1000_0000;
    assert Power(128, 8) == 0x1000_0000 * 0x1000_0000 && Power(128, 9) == 128 * 0x1000_0000 * 0x1000_0000;
    VarintIsShort(v, 10);
  }

  /** No more bytes than there are, and at most `most`. */
  function Groups(bs: Bytes, most: nat): nat {
    if |bs| < most then |bs| else most
  }

  /** A number of at most `most` bytes, cut to `width`, and the rest of the input; or nothing. */
  function TakeVarint(bs: Bytes, most: nat, width: nat): (r: Option<(nat, Bytes)>)
    requires width > 0
    ensures r.Some? ==> |r.value.1| < |bs| && r.value.0 < width
  {
    match ParseVarint(bs, Groups(bs, most))
    case Some((v, n)) => Some((v % width, bs[n..]))
    case None => None
  }

  /** GetVarint32 and GetVarint64. Sealed, so that what uses them does not look into the
      byte loop; the lemmas below say what they give. */
  function GetVarint32(bs: Bytes): (r: Option<(nat, Bytes)>)
    ensures r.Some? ==> |r.value.1| < |bs| && r.value.0 < TWO_32
  {
    TakeSeal(|bs| + 9, bs, 5, TWO_32)
  }

  function GetVarint64(bs: Bytes): (r: Option<(nat, Bytes)>)
    ensures r.Some? ==> |r.value.1| < |bs| && r.value.0 < TWO_64
  {
    TakeSeal(|bs| + 9, bs, 10, TWO_64)
  }

  function TakeSeal(k: nat, bs: Bytes, most: nat, width: nat): (r: Option<(nat, Bytes)>)
    requires width > 0
    ensures r.Some? ==> |r.value.1| < |bs| && r.value.0 < width
  {
    if k == 0 then TakeVarint(bs, most, width) else TakeSeal(k - 1, bs, most, width)
  }

  lemma {:induction false} TakeSealOpens(k: nat, bs: Bytes, most: nat, width: nat)
    requires width > 0
    ensures TakeSeal(k, bs, most, width) == TakeVarint(bs, most, width)
  {
    if k > 0 {
      TakeSealOpens(k - 1, bs, most, width);
    }
  }

  lemma {:induction false} OpenGetVarint(bs: Bytes)
    ensures GetVarint32(bs) == TakeVarint(bs, 5, TWO_32)
    ensures GetVarint64(bs) == TakeVarint(bs, 10, TWO_64)
  {
    TakeSealOpens(|bs| + 9, bs, 5, TWO_32);
    TakeSealOpens(|bs| + 9, bs, 10, TWO_64);
  }

  lemma {:induction false} TakenUpTo(bs: Bytes, most: nat, width: nat)
    requires width > 0
    ensures TakeVarint(bs, most, width) == None <==> forall i :: 0 <= i < most && i < |bs| ==> bs[i] >= 128
  {
    ParsedUpTo(bs, Groups(bs, most));
  }

  lemma {:induction false} CutBits(v: nat, width: nat, w: nat, b: nat)
    requires width == Power(2, w) && b < w
    ensures HasBit(v % width, b) <==> HasBit(v, b)
  {
    SideBySide(v / width, v % width, w, width, b);
  }

  lemma {:induction false} TakenBits(bs: Bytes, most: nat, width: nat, w: nat, i: nat, b: nat)
    requires EndsAt(bs, i) && i < most && width == Power(2, w) && b < w
    ensures TakeVarint(bs, most, width).Some? && TakeVarint(bs, most, width).value.1 == bs[i + 1..]
    ensures HasBit(TakeVarint(bs, most, width).value.0, b) <==> b / 7 <= i && HasBit(bs[b / 7], b % 7)
  {
    ParsedBits(bs, Groups(bs, most), i, b / 7, b % 7);
    CutBits(ParseVarint(bs, Groups(bs, most)).value.0, width, w, b);
  }

  /** A number of 32 bits is five bytes at most; the first that lacks the mark ends it. */
  lemma {:induction false} GetVarint32Reads(bs: Bytes)
    ensures GetVarint32(bs) == None <==> forall i :: 0 <= i < 5 && i < |bs| ==> bs[i] >= 128
  {
    OpenGetVarint(bs);
    TakenUpTo(bs, 5, TWO_32);
  }

  /** A number of 64 bits is ten bytes at most. */
  lemma {:induction false} GetVarint64Reads(bs: Bytes)
    ensures GetVarint64(bs) == None <==> forall i :: 0 <= i < 10 && i < |bs| ==> bs[i] >= 128
  {
    OpenGetVarint(bs);
    TakenUpTo(bs, 10, TWO_64);
  }

  /** Bit for bit, what the number is; no byte after it is consumed. */
  lemma {:induction false} GetVarint32Bits(bs: Bytes, i: nat, b: nat)
    requires EndsAt(bs, i) && i < 5 && b < 32
    ensures GetVarint32(bs).Some? && GetVarint32(bs).value.1 == bs[i + 1..]
    ensures HasBit(GetVarint32(bs).value.0, b) <==> b / 7 <= i && HasBit(bs[b / 7], b % 7)
  {
    OpenGetVarint(bs);
    WidePowers();
    TakenBits(bs, 5, TWO_32, 32, i, b);
  }

  lemma {:induction false} GetVarint64Bits(bs: Bytes, i: nat, b: nat)
    requires EndsAt(bs, i) && i < 10 && b < 64
    ensures GetVarint64(bs).Some? && GetVarint64(bs).value.1 == bs[i + 1..]
    ensures HasBit(GetVarint64(bs).value.0, b) <==> b / 7 <= i && HasBit(bs[b / 7], b % 7)
  {
    OpenGetVarint(bs);
    WidePowers();
    TakenBits(bs, 10, TWO_64, 64, i, b);
  }

  lemma {:induction false} OneByteVarint(bs: Bytes)
    requires |bs| > 0 && bs[0] < 128
    ensures GetVarint32(bs) == Some((bs[0], bs[1..]))
  {
    OpenGetVarint(bs);
  }

  lemma {:induction false} GetVarint32RoundTrip(v: nat, rest: Bytes)
    requires v < TWO_32
    ensures GetVarint32(Varint(v) + rest) == Some((v, rest))
  {
    OpenGetVarint(Varint(v) + rest);
    Varint32Fits(v);
    VarintRoundTrip(v, rest, Groups(Varint(v) + rest, 5));
    assert (Varint(v) + rest)[|Varint(v)|..] == rest;
  }

  lemma {:induction false} GetVarint64RoundTrip(v: nat, rest: Bytes)
    requires v < TWO_64
    ensures GetVarint64(Varint(v) + rest) == Some((v, rest))
  {
    OpenGetVarint(Varint(v) + rest);
    Varint64Fits(v);
    VarintRoundTrip(v, rest, Groups(Varint(v) + rest, 10));
    assert (Varint(v) + rest)[|Varint(v)|..] == rest;
  }

  // ----- length-prefixed strings -----

  function LengthPrefixed(s: Bytes): Bytes {
    Varint(|s|) + s
  }

  function GetLengthPrefixed(bs: Bytes): (r: Option<(Bytes, Bytes)>)
    ensures r.Some? ==> |r.value.1| < |bs|
  {
    match GetVarint32(bs)
    case Some((n, rest)) => if n <= |rest| then Some((rest[..n], rest[n..])) else None
    case None => None
  }

  lemma {:induction false} LengthPrefixedRoundTrip(s: Bytes, rest: Bytes)
    requires |s| < TWO_32
    ensures GetLengthPrefixed(LengthPrefixed(s) + rest) == Some((s, rest))
  {
    GetVarint32RoundTrip(|s|, s + rest);
    assert LengthPrefixed(s) + rest == Varint(|s|) + (s + rest);
    assert (s + rest)[..|s|] == s && (s + rest)[|s|..] == rest;
  }

  // ----- checksums as they are stored -----

  /** A checksum of bytes: an arbitrary function of them. */
  type Crc = Bytes -> Word

  const MASK_DELTA: nat := 0xa282ead8

  /** Rotated right by 15 bits, then moved by a constant. */
  function Mask(crc: Word): Word {
    (crc / 0x8000 + crc % 0x8000 * 0x2_0000 + MASK_DELTA) % TWO_32
  }

  function Unmask(masked: Word): Word {
    var rot := (masked + TWO_32 - MASK_DELTA) % TWO_32;
    rot / 0x2_0000 + rot % 0x2_0000 * 0x8000
  }

  /** Bit for bit, a checksum is stored rotated right by 15, with 0xa282ead8 added. */
  lemma {:induction false} MaskRotates(crc: Word, j: nat)
    requires j < 32
    ensures HasBit((Mask(crc) + 0x1_0000_0000 - 0xa282ead8) % 0x1_0000_0000, j) <==> HasBit(crc, (j + 15) % 32)
  {
    MaskMoves(crc);
    PartsRotate(crc / 0x8000, crc % 0x8000, j);
  }

  lemma {:induction false} MaskMoves(crc: Word)
    ensures (Mask(crc) + 0x1_0000_0000 - 0xa282ead8) % 0x1_0000_0000 == crc % 0x8000 * 0x2_0000 + crc / 0x8000
  {
  }

  lemma {:induction false} PartsRotate(high: nat, low: nat, j: nat)
    requires j < 32 && low < 0x8000 && high < 0x2_0000
    ensures HasBit(low * 0x2_0000 + high, j) <==> HasBit(high * 0x8000 + low, (j + 15) % 32)
  {
    PowersOfTwo();
    SideBySide(low, high, 17, 0x2_0000, j);
    SideBySide(high, low, 15, 0x8000, (j + 15) % 32);
  }

  lemma {:induction false} UnmaskRoundTrip(masked: Word)
    ensures Mask(Unmask(masked)) == masked
  {
    var rot := (masked + TWO_32 - MASK_DELTA) % TWO_32;
    var q, r := rot / 0x2_0000, rot % 0x2_0000;
    assert Unmask(masked) / 0x8000 == r && Unmask(masked) % 0x8000 == q;
    assert (rot + MASK_DELTA) % TWO_32 == masked;
  }

  lemma {:induction false} MaskRoundTrip(crc: Word)
    ensures Unmask(Mask(crc)) == crc
  {
    var q, r := crc / 0x8000, crc % 0x8000;
    var rot := q + r * 0x2_0000;
    assert rot < TWO_32;
    assert (Mask(crc) + TWO_32 - MASK_DELTA) % TWO_32 == rot;
    assert rot / 0x2_0000 == r && rot % 0x2_0000 == q;
  }
}
