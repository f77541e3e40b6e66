// Table blocks (table/block_builder.cc): entries whose keys drop the prefix they share
// with the key before, except at restart points, then the offsets of those points.
module Blocks {
  import opened Coding

  datatype Pair = Pair(key: Bytes, value: Bytes)

  // ----- the layout -----

  /** How many leading bytes two strings share. */
  function Common(a: Bytes, b: Bytes): (r: nat)
    ensures r <= |a| && r <= |b| && a[..r] == b[..r]
    ensures r < |a| && r < |b| ==> a[r] != b[r]
  {
    if |a| == 0 || |b| == 0 || a[0] != b[0] then 0
    else
      var r := Common(a[1..], b[1..]);
      assert a[..1 + r] == [a[0]] + a[1..][..r] && b[..1 + r] == [b[0]] + b[1..][..r];
      1 + r
  }

  function Header(shared: nat, nonShared: nat, valueLength: nat): Bytes {
    Varint(shared) + Varint(nonShared) + Varint(valueLength)
  }

  function PlainEntry(prev: Bytes, e: Pair): Bytes {
    var shared := Common(prev, e.key);
    Header(shared, |e.key| - shared, |e.value|) + e.key[shared..] + e.value
  }

  /** One entry after a key `prev` (empty at a restart point): `PlainEntry`, sealed so
      that what is said about whole blocks does not look into it. */
  function EntryBytes(prev: Bytes, e: Pair): Bytes {
    EntrySeal(|prev| + 9, prev, e)
  }

  function EntrySeal(n: nat, prev: Bytes, e: Pair): Bytes {
    if n == 0 then PlainEntry(prev, e) else EntrySeal(n - 1, prev, e)
  }

  lemma {:induction false} EntrySealOpens(n: nat, prev: Bytes, e: Pair)
    ensures EntrySeal(n, prev, e) == PlainEntry(prev, e)
  {
    if n > 0 {
      EntrySealOpens(n - 1, prev, e);
    }
  }

  lemma {:induction false} EntryBytesAre(prev: Bytes, e: Pair)
    ensures EntryBytes(prev, e) == PlainEntry(prev, e) && |EntryBytes(prev, e)| >= 3
  {
    EntrySealOpens(|prev| + 9, prev, e);
  }

  /** In any entry: how many bytes of the key are those of the key before, how many are not, the
      length of the value; then these bytes. */
  lemma {:induction false} EntryLayout(prev: Bytes, e: Pair, s: nat)
    requires s <= |prev| && s <= |e.key| && prev[..s] == e.key[..s] && (s < |prev| && s < |e.key| ==> prev[s] != e.key[s])
    ensures EntryBytes(prev, e) == Varint(s) + Varint(|e.key| - s) + Varint(|e.value|) + e.key[s..] + e.value
  {
    CommonIs(prev, e.key, s);
    EntryBytesAre(prev, e);
  }

  /** The array after the entries: four bytes a number, the least significant first. */
  lemma {:induction false} FixedAllLayout(offsets: seq<nat>, k: nat, i: nat, j: nat)
    requires k < |offsets| && i < 4 && j < 8
    ensures |FixedAll(offsets)| == 4 * |offsets|
    ensures HasBit(FixedAll(offsets)[4 * k + i], j) <==> HasBit(offsets[k], 8 * i + j)
  {
    FixedAllLength(offsets);
    FixedAllLength(offsets[..|offsets| - 1]);
    if k < |offsets| - 1 {
      FixedAllLayout(offsets[..|offsets| - 1], k, i, j);
    } else {
      FixedByte(4, offsets[k], i, j);
    }
  }

  lemma {:induction false} EntryLength(prev: Bytes, e: Pair)
    requires |e.key| < TWO_32 && |e.value| < TWO_32
    ensures |EntryBytes(prev, e)| <= |e.key| + |e.value| + 15
  {
    EntryBytesAre(prev, e);
    Varint32Fits(Common(prev, e.key));
    Varint32Fits(|e.key| - Common(prev, e.key));
    Varint32Fits(|e.value|);
  }

  /** The indices of the entries at restart points. */
  ghost predicate StartsOk(starts: seq<nat>, n: nat) {
    && |starts| > 0 && starts[0] == 0
    && (forall i, j :: 0 <= i < j < |starts| ==> starts[i] < starts[j])
    && forall j :: 0 < j < |starts| ==> starts[j] < n
  }

  function PrevKey(es: seq<Pair>, starts: seq<nat>, i: nat): Bytes
    requires i <= |es|
  {
    if i in starts || i == 0 then [] else es[i - 1].key
  }

  /** The first `n` entries as bytes. */
  function Data(es: seq<Pair>, starts: seq<nat>, n: nat): Bytes
    requires n <= |es|
  {
    if n == 0 then [] else Data(es, starts, n - 1) + EntryBytes(PrevKey(es, starts, n - 1), es[n - 1])
  }

  function Offset(es: seq<Pair>, starts: seq<nat>, n: nat): nat
    requires n <= |es|
  {
    |Data(es, starts, n)|
  }

  lemma {:induction false} DataGrows(es: seq<Pair>, starts: seq<nat>, a: nat, b: nat)
    requires a <= b <= |es|
    ensures Data(es, starts, a) <= Data(es, starts, b)
    ensures a < b ==> Offset(es, starts, a) + 3 <= Offset(es, starts, b)
    decreases b - a
  {
    if a < b {
      DataGrows(es, starts, a, b - 1);
      EntryBytesAre(PrevKey(es, starts, b - 1), es[b - 1]);
    }
  }

  /** Later entries and restart points do not change earlier bytes. */
  lemma {:induction false} DataIsStable(es: seq<Pair>, starts: seq<nat>, more: seq<Pair>, starts': seq<nat>, n: nat)
    requires n <= |es| && (forall i :: 0 <= i < n ==> (i in starts <==> i in starts'))
    ensures Data(es + more, starts', n) == Data(es, starts, n)
  {
    if n > 0 {
      DataIsStable(es, starts, more, starts', n - 1);
    }
  }

  function FixedAll(offsets: seq<nat>): Bytes {
    if |offsets| == 0 then [] else FixedAll(offsets[..|offsets| - 1]) + Fixed(4, offsets[|offsets| - 1])
  }

  /** What the restart array holds. */
  ghost predicate RestartsAre(restarts: seq<nat>, es: seq<Pair>, starts: seq<nat>) {
    && |restarts| == |starts| && StartsOk(starts, |es|)
    && forall j :: 0 <= j < |starts| ==> restarts[j] == Offset(es, starts, if starts[j] <= |es| then starts[j] else 0)
  }

  /** Buffer and restart array of the first `n` entries. */
  ghost predicate BuiltUpTo(buffer: Bytes, restarts: seq<nat>, es: seq<Pair>, starts: seq<nat>, n: nat) {
    n <= |es| && buffer == Data(es, starts, n) && RestartsAre(restarts, es, starts)
  }

  /** `BuiltUpTo`, sealed; `OpenBuilt` opens it. */
  ghost predicate Built(buffer: Bytes, restarts: seq<nat>, es: seq<Pair>, starts: seq<nat>, n: nat) {
    BuiltSeal(n + 9, buffer, restarts, es, starts, n)
  }

  ghost predicate BuiltSeal(k: nat, buffer: Bytes, restarts: seq<nat>, es: seq<Pair>, starts: seq<nat>, n: nat) {
    if k == 0 then BuiltUpTo(buffer, restarts, es, starts, n) else BuiltSeal(k - 1, buffer, restarts, es, starts, n)
  }

  lemma {:induction false} BuiltSealOpens(k: nat, buffer: Bytes, restarts: seq<nat>, es: seq<Pair>,
      starts: seq<nat>, n: nat)
    ensures BuiltSeal(k, buffer, restarts, es, starts, n) <==> BuiltUpTo(buffer, restarts, es, starts, n)
  {
    if k > 0 {
      BuiltSealOpens(k - 1, buffer, restarts, es, starts, n);
    }
  }

  lemma {:induction false} OpenBuilt(buffer: Bytes, restarts: seq<nat>, es: seq<Pair>, starts: seq<nat>, n: nat)
    ensures Built(buffer, restarts, es, starts, n) <==> BuiltUpTo(buffer, restarts, es, starts, n)
  {
    BuiltSealOpens(n + 9, buffer, restarts, es, starts, n);
  }

  lemma {:induction false} EmptyBuilt()
    ensures Built([], [0], [], [0], 0)
  {
    OpenBuilt([], [0], [], [0], 0);
  }

  lemma {:induction false} EmittedBuilt(buffer: Bytes, restarts: seq<nat>, es: seq<Pair>, starts: seq<nat>, n: nat)
    requires n < |es| && Built(buffer, restarts, es, starts, n)
    ensures Built(buffer + EntryBytes(PrevKey(es, starts, n), es[n]), restarts, es, starts, n + 1)
  {
    OpenBuilt(buffer, restarts, es, starts, n);
    OpenBuilt(buffer + EntryBytes(PrevKey(es, starts, n), es[n]), restarts, es, starts, n + 1);
  }

  lemma {:induction false} NoRestartBuilt(buffer: Bytes, restarts: seq<nat>, es: seq<Pair>, starts: seq<nat>, e: Pair)
    requires Built(buffer, restarts, es, starts, |es|)
    ensures Built(buffer, restarts, es + [e], starts, |es|) && (|es| > 0 ==> |es| !in starts)
  {
    OpenBuilt(buffer, restarts, es, starts, |es|);
    OpenBuilt(buffer, restarts, es + [e], starts, |es|);
    NoRestart(restarts, es, starts, e);
  }

  lemma {:induction false} NewRestartBuilt(buffer: Bytes, restarts: seq<nat>, es: seq<Pair>, starts: seq<nat>, e: Pair)
    requires Built(buffer, restarts, es, starts, |es|) && |es| > 0
    ensures Built(buffer, restarts + [|buffer|], es + [e], starts + [|es|], |es|)
  {
    OpenBuilt(buffer, restarts, es, starts, |es|);
    OpenBuilt(buffer, restarts + [|buffer|], es + [e], starts + [|es|], |es|);
    NewRestart(restarts, es, starts, e);
  }

  class BlockBuilder {
    const interval: nat
    var buffer: Bytes
    var restarts: seq<nat>
    var counter: nat
    var lastKey: Bytes
    ghost var entries: seq<Pair>
    ghost var starts: seq<nat>

    ghost predicate Valid()
      reads this
    {
      && interval >= 1 && |starts| > 0 && Built(buffer, restarts, entries, starts, |entries|)
      && lastKey == (if |entries| == 0 then [] else entries[|entries| - 1].key)
      && counter == |entries| - starts[|starts| - 1] && counter <= interval
      && (forall j :: 0 <= j < |starts| - 1 ==> starts[j + 1] == starts[j] + interval)
    }

    function CurrentSizeEstimate(): nat
      reads this`buffer, this`restarts
    {
      |buffer| + 4 * |restarts| + 4
    }

    constructor (interval: nat)
      requires interval >= 1
      ensures Valid() && entries == [] && this.interval == interval && CurrentSizeEstimate() == 8
    {
      EmptyBuilt();
      this.interval := interval;
      buffer, restarts, counter, lastKey, entries, starts := [], [0], 0, [], [], [0];
    }

    /** How much to share with the previous key; a full run starts a new restart point. */
    method ShareOrRestart(key: Bytes, ghost value: Bytes) returns (shared: nat)
      requires Valid()
      modifies this`restarts, this`counter, this`starts
      ensures |restarts| <= |old(restarts)| + 1
      ensures |starts| > 0 && counter < interval && Built(buffer, restarts, entries + [Pair(key, value)], starts, |entries|)
      ensures shared == Common(PrevKey(entries + [Pair(key, value)], starts, |entries|), key)
      ensures shared <= |lastKey| && lastKey[..shared] == key[..shared]
      ensures counter == |entries| - starts[|starts| - 1]
      ensures forall j :: 0 <= j < |starts| - 1 ==> starts[j + 1] == starts[j] + interval
    {
      shared := 0;
      if counter < interval {
        shared := CommonLength(lastKey, key);
        NoRestartBuilt(buffer, restarts, entries, starts, Pair(key, value));
      } else {
        NewRestartBuilt(buffer, restarts, entries, starts, Pair(key, value));
        restarts, starts, counter := restarts + [|buffer|], starts + [|entries|], 0;
      }
    }

    method SetLastKey(shared: nat, key: Bytes)
      requires shared <= |lastKey| && shared <= |key| && lastKey[..shared] == key[..shared]
      modifies this`lastKey
      ensures lastKey == key
    {
      lastKey := lastKey[..shared];
      lastKey := lastKey + key[shared..];
    }

    method EmitEntry(shared: nat, key: Bytes, value: Bytes, ghost prev: Bytes)
      requires shared == Common(prev, key)
      modifies this`buffer
      ensures buffer == old(buffer) + EntryBytes(prev, Pair(key, value))
    {
      var nonShared := |key| - shared;
      EntryBytesAre(prev, Pair(key, value));
      buffer := buffer + (Header(shared, nonShared, |value|) + key[shared..] + value);
    }

    method Add(key: Bytes, value: Bytes)
      requires Valid()
      modifies this
      ensures Valid() && entries == old(entries) + [Pair(key, value)]
      ensures |key| < TWO_32 && |value| < TWO_32 ==> CurrentSizeEstimate() <= old(CurrentSizeEstimate()) + |key| + |value| + 19
    {
      ghost var all := entries + [Pair(key, value)];
      var shared := ShareOrRestart(key, value);
      ghost var prev := PrevKey(all, starts, |entries|);
      EmittedBuilt(buffer, restarts, all, starts, |entries|);
      EmitEntry(shared, key, value, prev);
      if |key| < TWO_32 && |value| < TWO_32 {
        EntryLength(prev, Pair(key, value));
      }
      SetLastKey(shared, key);
      counter, entries := counter + 1, all;
    }

    /** The finished block: data, restart array, number of restarts. The estimate is exact. */
    method Finish() returns (block: Bytes)
      requires Valid()
      ensures |block| == CurrentSizeEstimate()
      ensures block == Data(entries, starts, |entries|) + FixedAll(restarts) + Fixed(4, |restarts|)
    {
      OpenBuilt(buffer, restarts, entries, starts, |entries|);
      FixedAllLength(restarts);
      block := AppendAll(buffer, restarts);
      block := block + Fixed(4, |restarts|);
    }

    method Reset()
      requires interval >= 1
      modifies this
      ensures Valid() && entries == [] && CurrentSizeEstimate() == 8
    {
      EmptyBuilt();
      buffer, restarts, counter, lastKey, entries, starts := [], [0], 0, [], [], [0];
    }
  }

  lemma {:induction false} FixedAllLength(offsets: seq<nat>)
    ensures |FixedAll(offsets)| == 4 * |offsets|
  {
    if |offsets| > 0 {
      FixedAllLength(offsets[..|offsets| - 1]);
    }
  }

  method AppendAll(buffer: Bytes, offsets: seq<nat>) returns (r: Bytes)
    ensures r == buffer + FixedAll(offsets)
  {
    r := buffer;
    for i := 0 to |offsets|
      invariant r == buffer + FixedAll(offsets[..i])
    {
      assert offsets[..i + 1][..i] == offsets[..i];
      r := r + Fixed(4, offsets[i]);
    }
    assert offsets[..|offsets|] == offsets;
  }

  method CommonLength(a: Bytes, b: Bytes) returns (n: nat)
    ensures n == Common(a, b)
  {
    var minLength := if |a| < |b| then |a| else |b|;
    n := 0;
    while n < minLength && a[n] == b[n]
      invariant 0 <= n <= minLength && a[..n] == b[..n]
    {
      n := n + 1;
    }
    CommonIs(a, b, n);
  }

  lemma {:induction false} CommonIs(a: Bytes, b: Bytes, n: nat)
    requires n <= |a| && n <= |b| && a[..n] == b[..n] && (n == |a| || n == |b| || a[n] != b[n])
    ensures Common(a, b) == n
  {
    if n > 0 {
      assert a[0] == a[..n][0] && b[0] == b[..n][0];
      assert a[1..][..n - 1] == a[..n][1..] && b[1..][..n - 1] == b[..n][1..];
      CommonIs(a[1..], b[1..], n - 1);
    }
  }

  lemma {:induction false} NoRestart(restarts: seq<nat>, es: seq<Pair>, starts: seq<nat>, e: Pair)
    requires RestartsAre(restarts, es, starts)
    ensures RestartsAre(restarts, es + [e], starts) && Data(es + [e], starts, |es|) == Data(es, starts, |es|)
    ensures |es| > 0 ==> |es| !in starts
  {
    DataIsStable(es, starts, [e], starts, |es|);
    forall j | 0 <= j < |starts| ensures restarts[j] == Offset(es + [e], starts, starts[j]) {
      DataIsStable(es, starts, [e], starts, if starts[j] <= |es| then starts[j] else 0);
    }
  }

  lemma {:induction false} NewRestart(restarts: seq<nat>, es: seq<Pair>, starts: seq<nat>, e: Pair)
    requires RestartsAre(restarts, es, starts) && |es| > 0
    ensures var starts' := starts + [|es|];
            && RestartsAre(restarts + [Offset(es, starts, |es|)], es + [e], starts')
            && Data(es + [e], starts', |es|) == Data(es, starts, |es|)
  {
    var starts' := starts + [|es|];
    DataIsStable(es, starts, [e], starts', |es|);
    forall j | 0 <= j < |starts'| ensures (restarts + [Offset(es, starts, |es|)])[j] == Offset(es + [e], starts', starts'[j]) {
      DataIsStable(es, starts, [e], starts', if j < |starts| then starts[j] else |es|);
    }
  }
}
