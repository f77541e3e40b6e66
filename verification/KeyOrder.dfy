// Keys as byte strings: the bytewise order and its separators (util/comparator.cc,
// include/leveldb/slice.h), and internal keys in their stored form (db/dbformat.cc).
// `Rank` embeds byte strings in the reals, which is how the store sees user keys.
module KeyOrder {
  import opened Keys
  import opened Coding

  // ----- the bytewise order -----

  predicate BytesLess(a: Bytes, b: Bytes) {
    if |b| == 0 then false
    else if |a| == 0 then true
    else a[0] < b[0] || (a[0] == b[0] && BytesLess(a[1..], b[1..]))
  }

  lemma {:induction false} LessIsIrreflexive(a: Bytes)
    ensures !BytesLess(a, a)
  {
    if |a| > 0 {
      LessIsIrreflexive(a[1..]);
    }
  }

  lemma {:induction false} LessIsTransitive(a: Bytes, b: Bytes, c: Bytes)
    requires BytesLess(a, b) && BytesLess(b, c)
    ensures BytesLess(a, c)
  {
    if |a| > 0 && a[0] == b[0] && b[0] == c[0] {
      LessIsTransitive(a[1..], b[1..], c[1..]);
    }
  }

  lemma {:induction false} LessIsTotal(a: Bytes, b: Bytes)
    ensures BytesLess(a, b) || a == b || BytesLess(b, a)
  {
    if |a| > 0 && |b| > 0 && a[0] == b[0] {
      LessIsTotal(a[1..], b[1..]);
      assert a == [a[0]] + a[1..] && b == [b[0]] + b[1..];
    }
  }

  /** Strings that agree up to `n` compare by what follows. */
  lemma {:induction false} SharedPrefix(a: Bytes, b: Bytes, n: nat)
    requires n <= |a| && n <= |b| && a[..n] == b[..n]
    ensures BytesLess(a, b) <==> BytesLess(a[n..], b[n..])
  {
    if n > 0 {
      assert a[0] == a[..n][0] && b[0] == b[..n][0];
      assert a[1..][..n - 1] == a[..n][1..] && b[1..][..n - 1] == b[..n][1..];
      SharedPrefix(a[1..], b[1..], n - 1);
      assert a[1..][n - 1..] == a[n..] && b[1..][n - 1..] == b[n..];
    }
  }

  /** Slice::compare: memcmp over the common length, then the shorter string first. */
  method Compare(a: Bytes, b: Bytes) returns (r: int)
    ensures r < 0 <==> BytesLess(a, b)
    ensures r == 0 <==> a == b
    ensures r > 0 <==> BytesLess(b, a)
  {
    var minLen := if |a| < |b| then |a| else |b|;
    var i := 0;
    while i < minLen && a[i] == b[i]
      invariant 0 <= i <= minLen && a[..i] == b[..i]
    {
      i := i + 1;
    }
    SharedPrefix(a, b, i);
    SharedPrefix(b, a, i);
    LessIsIrreflexive(a);
    if i < minLen {
      assert a[i..][0] == a[i] && b[i..][0] == b[i];
      r := if a[i] < b[i] then -1 else 1;
    } else {
      assert |a| == |b| ==> a == a[..i] && b == b[..i];
      r := if |a| < |b| then -1 else if |a| > |b| then 1 else 0;
    }
  }

  // ----- separators -----

  /** Incrementing byte `i` and cutting the rest off gives a later string. */
  lemma {:induction false} IncrementedIsLater(a: Bytes, i: nat)
    requires i < |a| && a[i] < 255
    ensures BytesLess(a, a[..i] + [a[i] + 1])
  {
    var r := a[..i] + [a[i] + 1];
    assert a[..i] == r[..i] && a[i..][0] == a[i] && r[i..][0] == a[i] + 1;
    SharedPrefix(a, r, i);
  }

  /** Where the shorter of two ordered strings ends or the smaller byte is. */
  lemma {:induction false} LessMeans(a: Bytes, b: Bytes) returns (i: nat)
    requires BytesLess(a, b)
    ensures i <= |a| && i < |b| && (forall j :: 0 <= j < i ==> a[j] == b[j]) && (i < |a| ==> a[i] < b[i])
  {
    if a == [] || a[0] < b[0] {
      i := 0;
    } else {
      var n := LessMeans(a[1..], b[1..]);
      i := n + 1;
      forall j | 0 <= j < i ensures a[j] == b[j] {
        if j > 0 {
          assert a[1..][j - 1] == b[1..][j - 1];
        }
      }
    }
  }

  /** The strings first differ at a byte of `start` that can be incremented and still
      stay below `limit`'s. */
  predicate CanShorten(start: Bytes, limit: Bytes, d: nat) {
    && d < |start| && d < |limit| && (forall j :: 0 <= j < d ==> start[j] == limit[j])
    && start[d] < 255 && start[d] + 1 < limit[d]
  }

  /** Between the two there is nothing shorter, and nothing smaller of that length. */
  lemma {:induction false} ShortestBetween(start: Bytes, limit: Bytes, d: nat, s: Bytes)
    requires CanShorten(start, limit, d) && BytesLess(start, s) && BytesLess(s, limit)
    ensures d + 1 <= |s| && (|s| == d + 1 ==> !BytesLess(s, start[..d] + [start[d] + 1]))
  {
    var i := LessMeans(start, s);
    var j := LessMeans(s, limit);
    var r := start[..d] + [start[d] + 1];
    if |s| == d + 1 && BytesLess(s, r) {
      var m := LessMeans(s, r);
    }
  }

  /** Left alone unless it can be shortened; then the shortest string strictly between
      the two, and the least of that length. */
  method FindShortestSeparator(start: Bytes, limit: Bytes) returns (r: Bytes)
    ensures r == start <==> forall d: nat :: !CanShorten(start, limit, d)
    ensures forall d: nat :: CanShorten(start, limit, d) ==> |r| == d + 1
    ensures r != start ==> BytesLess(start, r) && BytesLess(r, limit) && |r| <= |start|
    ensures r != start ==> forall s :: BytesLess(start, s) && BytesLess(s, limit) ==>
              |r| <= |s| && (|s| == |r| ==> !BytesLess(s, r))
  {
    var minLength := if |start| < |limit| then |start| else |limit|;
    var diff := 0;
    while diff < minLength && start[diff] == limit[diff]
      invariant 0 <= diff <= minLength && forall j :: 0 <= j < diff ==> start[j] == limit[j]
    {
      diff := diff + 1;
    }
    r := start;
    assert forall d: nat :: CanShorten(start, limit, d) ==> d == diff;
    if diff < minLength {
      var byte := start[diff];
      if byte < 0xff && byte + 1 < limit[diff] {
        r := start[..diff] + [byte + 1];
        IncrementedIsLater(start, diff);
        LessIsIrreflexive(start);
        assert CanShorten(start, limit, diff);
        assert r[..diff] == limit[..diff] && r[diff..][0] == byte + 1 && limit[diff..][0] == limit[diff];
        SharedPrefix(r, limit, diff);
        forall s | BytesLess(start, s) && BytesLess(s, limit)
          ensures |r| <= |s| && (|s| == |r| ==> !BytesLess(s, r))
        {
          ShortestBetween(start, limit, diff, s);
        }
      }
    }
  }

  /** Nothing after `key` is shorter, and nothing of that length is smaller. */
  lemma {:induction false} ShortestAfter(key: Bytes, i: nat, s: Bytes)
    requires i < |key| && key[i] < 255 && (forall j :: 0 <= j < i ==> key[j] == 255) && BytesLess(key, s)
    ensures i + 1 <= |s| && (|s| == i + 1 ==> !BytesLess(s, key[..i] + [key[i] + 1]))
  {
    var j := LessMeans(key, s);
    var r := key[..i] + [key[i] + 1];
    if |s| == i + 1 && BytesLess(s, r) {
      var m := LessMeans(s, r);
    }
  }

  /** Left alone if it is all 0xff; else the shortest string strictly after it, and the
      least of that length. */
  method FindShortSuccessor(key: Bytes) returns (r: Bytes)
    ensures r == key <==> forall i :: 0 <= i < |key| ==> key[i] == 255
    ensures r != key ==> BytesLess(key, r) && |r| <= |key|
    ensures r != key ==> forall s :: BytesLess(key, s) ==> |r| <= |s| && (|s| == |r| ==> !BytesLess(s, r))
  {
    for i := 0 to |key|
      invariant forall j :: 0 <= j < i ==> key[j] == 255
    {
      if key[i] != 255 {
        IncrementedIsLater(key, i);
        LessIsIrreflexive(key);
        r := key[..i] + [key[i] + 1];
        forall s | BytesLess(key, s) ensures |r| <= |s| && (|s| == |r| ==> !BytesLess(s, r)) {
          ShortestAfter(key, i, s);
        }
        return;
      }
    }
    r := key;
  }

  // ----- internal keys as they are stored -----

  /** User key and tag: sequence number times 256 plus type. */
  datatype IKey = IKey(user: Bytes, tag: nat)

  const MAX_TAG: nat := MAX_SEQUENCE * 256 + 1

  predicate IKeyLess(a: IKey, b: IKey) {
    BytesLess(a.user, b.user) || (a.user == b.user && a.tag > b.tag)
  }

  lemma {:induction false} IKeyTransitive(a: IKey, b: IKey, c: IKey)
    requires IKeyLess(a, b) && IKeyLess(b, c)
    ensures IKeyLess(a, c)
  {
    if BytesLess(a.user, b.user) && BytesLess(b.user, c.user) {
      LessIsTransitive(a.user, b.user, c.user);
    }
  }

  lemma {:induction false} IKeyTotal(a: IKey, b: IKey)
    ensures IKeyLess(a, b) || a == b || IKeyLess(b, a)
    ensures !(IKeyLess(a, b) && IKeyLess(b, a)) && !IKeyLess(a, a)
  {
    LessIsTotal(a.user, b.user);
    LessIsIrreflexive(a.user);
    if BytesLess(a.user, b.user) && BytesLess(b.user, a.user) {
      LessIsTransitive(a.user, b.user, a.user);
    }
  }

  function Stored(k: IKey): Bytes {
    k.user + Fixed(8, k.tag)
  }

  /** ParseInternalKey: user key, sequence number, type; refused if too short or of an
      unknown type. */
  function ParseInternalKey(bs: Bytes): Option<(Bytes, nat, ValueType)> {
    if |bs| < 8 then None
    else
      var n := |bs| - 8;
      var tag := DecodeFixed(bs[n..]);
      if tag % 256 == 0 then Some((bs[..n], tag / 256, Deletion))
      else if tag % 256 == 1 then Some((bs[..n], tag / 256, ValueType.Value))
      else None
  }

  /** After the user key come the eight bytes of the tag, the least significant first. */
  lemma {:induction false} StoredLayout(k: IKey, i: nat, j: nat)
    requires i < 8 && j < 8
    ensures |Stored(k)| == |k.user| + 8 && Stored(k)[..|k.user|] == k.user
    ensures HasBit(Stored(k)[|k.user| + i], j) <==> HasBit(k.tag, 8 * i + j)
  {
    FixedByte(8, k.tag, i, j);
  }

  /** Of any bytes: the last eight are a type, 0 for a deletion or 1 for a value, and seven bytes of
      sequence number; any other type is refused. */
  lemma {:induction false} ParseLayout(bs: Bytes)
    ensures ParseInternalKey(bs).Some? <==> |bs| >= 8 && bs[|bs| - 8] <= 1
    ensures ParseInternalKey(bs).Some? ==>
      var (user, sn, t) := ParseInternalKey(bs).value;
      user == bs[..|bs| - 8] && Fixed(7, sn) == bs[|bs| - 7..] && (t.Value? <==> bs[|bs| - 8] == 1)
  {
    if |bs| >= 8 {
      var n := |bs| - 8;
      var tail := bs[n..];
      assert tail[0] == bs[n] && tail[1..] == bs[n + 1..];
      assert DecodeFixed(tail) == bs[n] + 256 * DecodeFixed(bs[n + 1..]);
      FixedIsOnlyForm(bs[n + 1..]);
    }
  }

  lemma {:induction false} ParseTagged(user: Bytes, suffix: Bytes, sn: nat, t: ValueType)
    requires |suffix| == 8 && DecodeFixed(suffix) == sn * 256 + (if t.Value? then 1 else 0)
    ensures ParseInternalKey(user + suffix) == Some((user, sn, t))
  {
    var bs := user + suffix;
    assert |bs| - 8 == |user| && bs[..|user|] == user && bs[|user|..] == suffix;
    TagParts(sn, if t.Value? then 1 else 0);
  }

  lemma {:induction false} TagParts(sn: nat, b: nat)
    requires b <= 1
    ensures (sn * 256 + b) % 256 == b && (sn * 256 + b) / 256 == sn
  {
  }

  lemma {:induction false} StoredKeyRoundTrip(user: Bytes, sn: nat, t: ValueType)
    requires sn <= MAX_SEQUENCE
    ensures ParseInternalKey(Stored(IKey(user, sn * 256 + (if t.Value? then 1 else 0)))) == Some((user, sn, t))
  {
    var tag := sn * 256 + (if t.Value? then 1 else 0);
    Fixed64RoundTrip(tag);
    ParseTagged(user, Fixed(8, tag), sn, t);
  }

  /** Either the key itself, or a shorter user key with the tag that comes first. */
  predicate Shortened(key: IKey, r: IKey) {
    r == key || (|r.user| < |key.user| && r.tag == MAX_TAG)
  }

  /** At or after `start` and before `limit`, so fit for an index; replaced just if the
      user key becomes shorter. */
  method InternalSeparator(start: IKey, limit: IKey) returns (r: IKey)
    requires IKeyLess(start, limit)
    ensures r != start <==> exists d: nat :: CanShorten(start.user, limit.user, d) && d + 1 < |start.user|
    ensures r == start || IKeyLess(start, r)
    ensures IKeyLess(r, limit) && (r == start || BytesLess(r.user, limit.user))
    ensures Shortened(start, r) && (r != start ==> |r.user| < |start.user| && r.tag == 0xFFFF_FFFF_FFFF_FF01)
    ensures r != start ==> forall s :: BytesLess(start.user, s) && BytesLess(s, limit.user) ==>
              |r.user| <= |s| && (|s| == |r.user| ==> !BytesLess(s, r.user))
  {
    var tmp := FindShortestSeparator(start.user, limit.user);
    var c := Compare(start.user, tmp);
    if |tmp| < |start.user| && c < 0 {
      r := IKey(tmp, MAX_TAG);
    } else {
      r := start;
    }
  }

  /** Replaced just if some byte before the last of the user key can be incremented. */
  method InternalSuccessor(key: IKey) returns (r: IKey)
    ensures r != key <==> exists i :: 0 <= i < |key.user| - 1 && key.user[i] != 255
    ensures r == key || IKeyLess(key, r)
    ensures Shortened(key, r) && (r != key ==> |r.user| < |key.user| && r.tag == 0xFFFF_FFFF_FFFF_FF01)
    ensures r != key ==> forall s :: BytesLess(key.user, s) ==>
              |r.user| <= |s| && (|s| == |r.user| ==> !BytesLess(s, r.user))
  {
    var tmp := FindShortSuccessor(key.user);
    var c := Compare(key.user, tmp);
    if |tmp| < |key.user| && c < 0 {
      ghost var i := LessMeans(key.user, tmp);
      r := IKey(tmp, MAX_TAG);
    } else {
      forall i | 0 <= i < |key.user| - 1 ensures key.user[i] == 255 {
        if key.user[i] != 255 {
          IncrementedIsLater(key.user, i);
        }
      }
      r := key;
    }
  }

  // ----- byte strings as reals -----

  /** A number in [0, 1) for every byte string, in the bytewise order. */
  function Rank(s: Bytes): (r: real)
    ensures 0.0 <= r < 1.0
  {
    if |s| == 0 then 0.0 else (s[0] as real + 1.0 + Rank(s[1..])) / 257.0
  }

  lemma {:induction false} RankIsMonotone(a: Bytes, b: Bytes)
    requires BytesLess(a, b)
    ensures Rank(a) < Rank(b)
  {
    if |a| > 0 {
      if a[0] < b[0] {
        assert a[0] as real + 1.0 <= b[0] as real;
        assert a[0] as real + 1.0 + Rank(a[1..]) < b[0] as real + 1.0 + Rank(b[1..]);
      } else {
        RankIsMonotone(a[1..], b[1..]);
      }
    }
  }

  /** Comparing ranks is comparing strings, so nothing about the store depends on user
      keys being anything but byte strings. */
  lemma {:induction false} RankOrders(a: Bytes, b: Bytes)
    ensures Rank(a) < Rank(b) <==> BytesLess(a, b)
    ensures Rank(a) == Rank(b) <==> a == b
  {
    LessIsTotal(a, b);
    if BytesLess(a, b) {
      RankIsMonotone(a, b);
    }
    if BytesLess(b, a) {
      RankIsMonotone(b, a);
    }
  }

  /** Stored internal keys are ordered as the store orders them. */
  lemma {:induction false} StoredOrder(a: IKey, b: IKey, sa: nat, ka: ValueType, sb: nat, kb: ValueType)
    requires a.tag == Tag(InternalKey(Rank(a.user), sa, ka)) && b.tag == Tag(InternalKey(Rank(b.user), sb, kb))
    ensures Less(InternalKey(Rank(a.user), sa, ka), InternalKey(Rank(b.user), sb, kb)) <==> IKeyLess(a, b)
  {
    RankOrders(a.user, b.user);
  }
}
