// Bloom filters (util/bloom.cc). The hash is an arbitrary function of the key.
module Bloom {
  import opened Coding

  type Hash = Bytes -> Word

  // ----- bits in bytes -----

  /** `b | (1 << j)` */
  function WithBit(b: nat, j: nat): nat {
    if j == 0 then b - b % 2 + 1 else 2 * WithBit(b / 2, j - 1) + b % 2
  }

  lemma {:induction false} WithBitFits(b: nat, j: nat, n: nat)
    requires j < n && b < Power(2, n)
    ensures WithBit(b, j) < Power(2, n)
  {
    if j > 0 {
      WithBitFits(b / 2, j - 1, n - 1);
    }
  }

  function ByteWithBit(b: Byte, j: nat): Byte
    requires j < 8
  {
    WithBitFits(b, j, 8);
    assert Power(2, 4) == 16 && Power(2, 8) == 256;
    WithBit(b, j)
  }

  /** Setting one bit sets it and leaves the others alone. */
  lemma {:induction false} WithBitSets(b: nat, j: nat, i: nat)
    ensures HasBit(WithBit(b, j), i) <==> i == j || HasBit(b, i)
  {
    if i > 0 && j > 0 {
      WithBitSets(b / 2, j - 1, i - 1);
      assert WithBit(b, j) / 2 == WithBit(b / 2, j - 1);
    } else if j == 0 {
      assert WithBit(b, j) / 2 == b / 2;
    }
  }

  predicate BitAt(bytes: Bytes, pos: nat)
    requires pos < 8 * |bytes|
  {
    HasBit(bytes[pos / 8], pos % 8)
  }

  function SetBit(bytes: Bytes, pos: nat): (r: Bytes)
    requires pos < 8 * |bytes|
    ensures |r| == |bytes|
  {
    bytes[pos / 8 := ByteWithBit(bytes[pos / 8], pos % 8)]
  }

  lemma {:induction false} SetBitSets(bytes: Bytes, pos: nat, i: nat)
    requires pos < 8 * |bytes| && i < 8 * |bytes|
    ensures BitAt(SetBit(bytes, pos), i) <==> i == pos || BitAt(bytes, i)
  {
    WithBitSets(bytes[pos / 8], pos % 8, i % 8);
  }

  // ----- probes -----

  /** Rotated right by 17 bits. */
  function Delta(h: Word): Word {
    h / 0x2_0000 + h % 0x2_0000 * 0x8000
  }

  /** Bit for bit, the step between probes is the hash value rotated right by 17. */
  lemma {:induction false} DeltaRotates(h: Word, j: nat)
    requires j < 32
    ensures HasBit(Delta(h), j) <==> HasBit(h, (j + 17) % 32)
  {
    PowersOfTwo();
    SideBySide(h % 0x2_0000, h / 0x2_0000, 15, 0x8000, j);
    SideBySide(h / 0x2_0000, h % 0x2_0000, 17, 0x2_0000, (j + 17) % 32);
  }

  /** The `j`-th hash value of a key: double hashing that wraps around. */
  function Probe(h: Word, j: nat): Word {
    if j == 0 then h else (Probe(h, j - 1) + Delta(h)) % TWO_32
  }

  /** All bits that the first `k` probes of the key name are set. */
  predicate Covers(hash: Hash, bytes: Bytes, key: Bytes, k: nat)
    requires |bytes| > 0
  {
    forall j :: 0 <= j < k ==> BitAt(bytes, Probe(hash(key), j) % (8 * |bytes|))
  }

  /** What a filter, bytes and then the number of probes, says of a key. */
  predicate MayMatch(hash: Hash, key: Bytes, filter: Bytes) {
    && |filter| >= 2
    && (filter[|filter| - 1] > 30 || Covers(hash, filter[..|filter| - 1], key, filter[|filter| - 1]))
  }

  /** Double hashing in closed form. */
  lemma {:induction false} ProbeIs(h: Word, j: nat)
    ensures Probe(h, j) == (h + j * Delta(h)) % 0x1_0000_0000
  {
    if j > 0 {
      ProbeIs(h, j - 1);
      StepWraps(h, j - 1, Delta(h), Probe(h, j - 1));
    }
  }

  lemma {:induction false} StepWraps(h: nat, n: nat, d: nat, p: nat)
    requires p == (h + n * d) % TWO_32
    ensures (p + d) % TWO_32 == (h + (n + 1) * d) % TWO_32
  {
    SumWraps(h + n * d, d);
  }

  lemma {:induction false} SumWraps(a: nat, b: nat)
    ensures (a % TWO_32 + b) % TWO_32 == (a + b) % TWO_32
  {
  }

  method KeyMayMatch(hash: Hash, key: Bytes, filter: Bytes) returns (r: bool)
    ensures r <==> MayMatch(hash, key, filter)
    ensures r <==> var n := |filter| - 1;
      n >= 1 && (filter[n] > 30 || forall j :: 0 <= j < filter[n] ==> BitAt(filter[..n], Probe(hash(key), j) % (8 * n)))
  {
    var len := |filter|;
    if len < 2 {
      return false;
    }
    var array_ := filter[..len - 1];
    var bits := (len - 1) * 8;
    var k := filter[len - 1];
    if k > 30 {
      return true;
    }
    var h := hash(key);
    var delta := Delta(h);
    var j := 0;
    while j < k
      invariant 0 <= j <= k && h == Probe(hash(key), j)
      invariant forall i :: 0 <= i < j ==> BitAt(array_, Probe(hash(key), i) % bits)
    {
      var bitpos := h % bits;
      if !BitAt(array_, bitpos) {
        return false;
      }
      h := (h + delta) % TWO_32;
      j := j + 1;
    }
    r := true;
  }

  /** Bit `i` of `bits` is one of those that the first `k` probes of the key name. */
  ghost predicate Probed(hash: Hash, key: Bytes, k: nat, bits: nat, i: nat)
    requires bits > 0
  {
    exists j :: 0 <= j < k && Probe(hash(key), j) % bits == i
  }

  lemma {:induction false} OneMoreProbe(hash: Hash, key: Bytes, k: nat, bits: nat, i: nat)
    requires bits > 0
    ensures Probed(hash, key, k + 1, bits, i) <==>
              Probed(hash, key, k, bits, i) || i == Probe(hash(key), k) % bits
  {
    if Probed(hash, key, k, bits, i) {
      var j :| 0 <= j < k && Probe(hash(key), j) % bits == i;
      assert j < k + 1;
    }
  }

  /** `bytes` with the bits of the first `k` probes of the key set. */
  function WithProbes(hash: Hash, bytes: Bytes, key: Bytes, k: nat): (r: Bytes)
    requires |bytes| > 0
    ensures |r| == |bytes|
  {
    if k == 0 then bytes
    else SetBit(WithProbes(hash, bytes, key, k - 1), Probe(hash(key), k - 1) % (8 * |bytes|))
  }

  lemma {:induction false} ProbesSet(hash: Hash, bytes: Bytes, key: Bytes, k: nat, i: nat)
    requires |bytes| > 0 && i < 8 * |bytes|
    ensures BitAt(WithProbes(hash, bytes, key, k), i) <==> BitAt(bytes, i) || Probed(hash, key, k, 8 * |bytes|, i)
  {
    if k > 0 {
      ProbesSet(hash, bytes, key, k - 1, i);
      OneMoreProbe(hash, key, k - 1, 8 * |bytes|, i);
      SetBitSets(WithProbes(hash, bytes, key, k - 1), Probe(hash(key), k - 1) % (8 * |bytes|), i);
    }
  }

  /** Sets the bits of one key. */
  method AddKey(hash: Hash, bytes: Bytes, key: Bytes, k: nat) returns (r: Bytes)
    requires |bytes| > 0
    ensures r == WithProbes(hash, bytes, key, k)
  {
    r := bytes;
    var bits := 8 * |bytes|;
    var h := hash(key);
    var delta := Delta(h);
    var j := 0;
    while j < k
      invariant 0 <= j <= k && h == Probe(hash(key), j) && r == WithProbes(hash, bytes, key, j)
    {
      var bitpos := h % bits;
      assert WithProbes(hash, bytes, key, j + 1) == SetBit(r, bitpos);
      r := SetBit(r, bitpos);
      h := (h + delta) % TWO_32;
      j := j + 1;
    }
  }

  function ZeroBytes(n: nat): (r: Bytes)
    ensures |r| == n
  {
    seq(n, _ => 0)
  }

  lemma {:induction false} ZeroHasNoBit(j: nat)
    ensures !HasBit(0, j)
  {
    if j > 0 {
      ZeroHasNoBit(j - 1);
    }
  }

  /** The number of probes for a number of bits a key: 0.69 times it, from 1 to 30. */
  function Probes(bitsPerKey: nat): (k: nat)
    ensures 1 <= k <= 30
    ensures k > 1 ==> k as real <= bitsPerKey as real * 0.69
    ensures k < 30 ==> bitsPerKey as real * 0.69 < (k + 1) as real
  {
    var k := (bitsPerKey as real * 0.69).Floor;
    if k < 1 then 1 else if k > 30 then 30 else k
  }

  /** How many bytes of bits a filter for `n` keys has: at least eight. */
  function FilterSize(n: nat, bitsPerKey: nat): (size: nat)
    ensures size >= 8 && 8 * size >= n * bitsPerKey
    ensures size > 8 ==> 8 * (size - 1) < n * bitsPerKey
  {
    var bits := n * bitsPerKey;
    ((if bits < 64 then 64 else bits) + 7) / 8
  }

  /** The bits of the first `n` keys in an empty array of `size` bytes. */
  function BitsOf(hash: Hash, keys: seq<Bytes>, n: nat, k: nat, size: nat): (r: Bytes)
    requires n <= |keys| && size > 0
    ensures |r| == size
  {
    if n == 0 then ZeroBytes(size) else WithProbes(hash, BitsOf(hash, keys, n - 1, k, size), keys[n - 1], k)
  }

  /** The filter of these keys: bits, then the number of probes. */
  function Filter(hash: Hash, bitsPerKey: nat, keys: seq<Bytes>): Bytes {
    var k := Probes(bitsPerKey);
    BitsOf(hash, keys, |keys|, k, FilterSize(|keys|, bitsPerKey)) + [k]
  }

  method CreateFilter(hash: Hash, bitsPerKey: nat, keys: seq<Bytes>) returns (filter: Bytes)
    ensures filter == Filter(hash, bitsPerKey, keys)
  {
    var k := Probes(bitsPerKey);
    var bits := |keys| * bitsPerKey;
    if bits < 64 {
      bits := 64;
    }
    var size := (bits + 7) / 8;
    var array_ := ZeroBytes(size);
    for n := 0 to |keys|
      invariant array_ == BitsOf(hash, keys, n, k, size)
    {
      array_ := AddKey(hash, array_, keys[n], k);
    }
    filter := array_ + [k];
  }

  /** Some probe of one of the first `n` keys names bit `i`. */
  ghost predicate ProbedByAny(hash: Hash, keys: seq<Bytes>, n: nat, k: nat, bits: nat, i: nat)
    requires n <= |keys| && bits > 0
  {
    exists m :: 0 <= m < n && Probed(hash, keys[m], k, bits, i)
  }

  /** A filter has exactly the bits set that the keys' probes name. */
  lemma {:induction false} FilterBits(hash: Hash, keys: seq<Bytes>, n: nat, k: nat, size: nat, i: nat)
    requires n <= |keys| && size > 0 && i < 8 * size
    ensures BitAt(BitsOf(hash, keys, n, k, size), i) <==> ProbedByAny(hash, keys, n, k, 8 * size, i)
  {
    if n == 0 {
      ZeroHasNoBit(i % 8);
    } else {
      FilterBits(hash, keys, n - 1, k, size, i);
      ProbesSet(hash, BitsOf(hash, keys, n - 1, k, size), keys[n - 1], k, i);
      if ProbedByAny(hash, keys, n - 1, k, 8 * size, i) {
        var m :| 0 <= m < n - 1 && Probed(hash, keys[m], k, 8 * size, i);
        assert m < n;
      }
    }
  }

  /** No key that was added is ever ruled out. */
  lemma {:induction false} AddedMayMatch(hash: Hash, bitsPerKey: nat, keys: seq<Bytes>, n: nat)
    requires n < |keys|
    ensures MayMatch(hash, keys[n], Filter(hash, bitsPerKey, keys))
  {
    var k, size := Probes(bitsPerKey), FilterSize(|keys|, bitsPerKey);
    var bytes := BitsOf(hash, keys, |keys|, k, size);
    assert (bytes + [k])[..size] == bytes;
    forall j | 0 <= j < k ensures BitAt(bytes, Probe(hash(keys[n]), j) % (8 * size)) {
      var i := Probe(hash(keys[n]), j) % (8 * size);
      FilterBits(hash, keys, |keys|, k, size, i);
      assert Probed(hash, keys[n], k, 8 * size, i);
      assert ProbedByAny(hash, keys, |keys|, k, 8 * size, i);
    }
  }
}
