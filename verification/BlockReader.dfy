// Reading blocks back (table/block.cc): the iterator scans forward, searches by
// restart points and steps backward, all to the entry that a search of the entries
// themselves would give.
module BlockReader {
  import opened Keys
  import opened Coding
  import opened Blocks

  // ----- one entry -----

  /** Shared and non-shared key length, value length, and what follows the header; or
      nothing if the entry does not fit into `bs`. */
  function DecodeEntry(bs: Bytes): Option<(nat, nat, nat, Bytes)> {
    if |bs| < 3 then None
    else
      match GetVarint32(bs)
      case None => None
      case Some((shared, r1)) =>
        match GetVarint32(r1)
        case None => None
        case Some((nonShared, r2)) =>
          match GetVarint32(r2)
          case None => None
          case Some((valueLength, r3)) =>
            if |r3| < nonShared + valueLength then None else Some((shared, nonShared, valueLength, r3))
  }

  lemma {:induction false} Drop2(bs: Bytes)
    requires |bs| >= 3
    ensures bs[1..][0] == bs[1] && bs[1..][1..] == bs[2..] && bs[2..][0] == bs[2] && bs[2..][1..] == bs[3..]
  {
  }

  /** The fast path for three one-byte numbers reads the same. */
  method ReadEntry(bs: Bytes) returns (r: Option<(nat, nat, nat, Bytes)>)
    ensures r == DecodeEntry(bs)
  {
    if |bs| < 3 {
      return None;
    }
    if bs[0] < 128 && bs[1] < 128 && bs[2] < 128 {
      Drop2(bs);
      OneByteVarint(bs);
      OneByteVarint(bs[1..]);
      OneByteVarint(bs[2..]);
      if |bs[3..]| < bs[1] as nat + bs[2] as nat {
        return None;
      }
      return Some((bs[0], bs[1], bs[2], bs[3..]));
    }
    r := DecodeEntry(bs);
  }

  ghost predicate PairFits(e: Pair) {
    |e.key| < TWO_32 && |e.value| < TWO_32
  }

  lemma {:induction false} HeaderReads(shared: nat, nonShared: nat, valueLength: nat, rest: Bytes)
    requires shared < TWO_32 && nonShared < TWO_32 && valueLength < TWO_32 && nonShared + valueLength <= |rest|
    ensures DecodeEntry(Header(shared, nonShared, valueLength) + rest) == Some((shared, nonShared, valueLength, rest))
  {
    var a, b, c := Varint(shared), Varint(nonShared), Varint(valueLength);
    GetVarint32RoundTrip(shared, b + (c + rest));
    GetVarint32RoundTrip(nonShared, c + rest);
    GetVarint32RoundTrip(valueLength, rest);
    assert Header(shared, nonShared, valueLength) + rest == a + (b + (c + rest));
  }

  lemma {:induction false} EntryReads(prev: Bytes, e: Pair, rest: Bytes)
    requires PairFits(e)
    ensures var shared := Common(prev, e.key);
            DecodeEntry(EntryBytes(prev, e) + rest)
            == Some((shared, |e.key| - shared, |e.value|, e.key[shared..] + e.value + rest))
  {
    EntryBytesAre(prev, e);
    var shared := Common(prev, e.key);
    HeaderReads(shared, |e.key| - shared, |e.value|, e.key[shared..] + e.value + rest);
    Regroup(Header(shared, |e.key| - shared, |e.value|), e.key[shared..], e.value, rest);
  }

  lemma {:induction false} Regroup(a: Bytes, b: Bytes, c: Bytes, d: Bytes)
    ensures a + b + c + d == a + (b + c + d)
  {
  }

  /** What parsing at `offset` with `key` in hand gives: the new key, and where its value is. */
  function Step(data: Bytes, offset: nat, key: Bytes): Option<(Bytes, nat, nat)>
    requires offset <= |data|
  {
    match DecodeEntry(data[offset..])
    case None => None
    case Some((shared, nonShared, valueLength, rest)) =>
      if |key| < shared || nonShared > |rest| || |rest| > |data| then None
      else Some((key[..shared] + rest[..nonShared], |data| - |rest| + nonShared, valueLength))
  }

  // ----- a block as the builder made it -----

  /** `offs[n]` is where entry `n` begins. */
  ghost predicate IsBlock(data: Bytes, restarts: seq<nat>, es: seq<Pair>, starts: seq<nat>, offs: seq<nat>) {
    && |offs| == |es| + 1 && (forall n :: 0 <= n <= |es| ==> offs[n] == Offset(es, starts, n))
    && data == Data(es, starts, |es|) && RestartsAre(restarts, es, starts)
    && forall n :: 0 <= n < |es| ==> PairFits(es[n])
  }

  /** `IsBlock`, sealed; the lemmas below say what it gives. */
  ghost predicate Block(data: Bytes, restarts: seq<nat>, es: seq<Pair>, starts: seq<nat>, offs: seq<nat>) {
    BlockSeal(|es| + 9, data, restarts, es, starts, offs)
  }

  ghost predicate BlockSeal(k: nat, data: Bytes, restarts: seq<nat>, es: seq<Pair>, starts: seq<nat>, offs: seq<nat>) {
    if k == 0 then IsBlock(data, restarts, es, starts, offs) else BlockSeal(k - 1, data, restarts, es, starts, offs)
  }

  lemma {:induction false} BlockSealOpens(k: nat, data: Bytes, restarts: seq<nat>, es: seq<Pair>,
      starts: seq<nat>, offs: seq<nat>)
    ensures BlockSeal(k, data, restarts, es, starts, offs) <==> IsBlock(data, restarts, es, starts, offs)
  {
    if k > 0 {
      BlockSealOpens(k - 1, data, restarts, es, starts, offs);
    }
  }

  lemma {:induction false} OpenBlock(data: Bytes, restarts: seq<nat>, es: seq<Pair>, starts: seq<nat>, offs: seq<nat>)
    ensures Block(data, restarts, es, starts, offs) <==> IsBlock(data, restarts, es, starts, offs)
  {
    BlockSealOpens(|es| + 9, data, restarts, es, starts, offs);
  }

  /** Offsets ascend, and the restart array holds those of the restart points. */
  ghost predicate Shape(data: Bytes, restarts: seq<nat>, es: seq<Pair>, starts: seq<nat>, offs: seq<nat>) {
    && |offs| == |es| + 1 && offs[0] == 0 && offs[|es|] == |data|
    && (forall a, b :: 0 <= a < b <= |es| ==> offs[a] < offs[b])
    && StartsOk(starts, |es|) && |restarts| == |starts|
    && forall j :: 0 <= j < |starts| ==> starts[j] <= |es| && restarts[j] == offs[starts[j]]
  }

  lemma {:induction false} BlockShape(data: Bytes, restarts: seq<nat>, es: seq<Pair>, starts: seq<nat>, offs: seq<nat>)
    requires Block(data, restarts, es, starts, offs)
    ensures Shape(data, restarts, es, starts, offs)
  {
    OpenBlock(data, restarts, es, starts, offs);
    forall a, b | 0 <= a < b <= |es| ensures offs[a] < offs[b] {
      DataGrows(es, starts, a, b);
    }
  }

  /** Parsing entry `n`, at a restart point or with the previous key in hand. */
  lemma {:induction false} StepReads(data: Bytes, restarts: seq<nat>, es: seq<Pair>, starts: seq<nat>,
      offs: seq<nat>, n: nat, key: Bytes)
    requires Block(data, restarts, es, starts, offs) && n < |es| && |offs| == |es| + 1
    requires n in starts || n == 0 || key == es[n - 1].key
    ensures offs[n] <= |data| && |es[n].value| <= offs[n + 1] <= |data|
    ensures Step(data, offs[n], key) == Some((es[n].key, offs[n + 1] - |es[n].value|, |es[n].value|))
    ensures data[offs[n + 1] - |es[n].value|..offs[n + 1]] == es[n].value
  {
    EntryPlaced(data, restarts, es, starts, offs, n);
    PieceReads(data, offs[n], PrevKey(es, starts, n), es[n], data[offs[n + 1]..], key);
  }

  lemma {:induction false} EntryPlaced(data: Bytes, restarts: seq<nat>, es: seq<Pair>, starts: seq<nat>,
      offs: seq<nat>, n: nat)
    requires Block(data, restarts, es, starts, offs) && n < |es| && |offs| == |es| + 1
    ensures PairFits(es[n]) && offs[n + 1] == offs[n] + |EntryBytes(PrevKey(es, starts, n), es[n])| <= |data|
    ensures data[offs[n]..] == EntryBytes(PrevKey(es, starts, n), es[n]) + data[offs[n + 1]..]
  {
    OpenBlock(data, restarts, es, starts, offs);
    assert offs[n] == Offset(es, starts, n) && offs[n + 1] == Offset(es, starts, n + 1);
    EntryInData(es, starts, n);
  }

  lemma {:induction false} EntryInData(es: seq<Pair>, starts: seq<nat>, n: nat)
    requires n < |es|
    ensures var data := Data(es, starts, |es|);
            && Offset(es, starts, n + 1) == Offset(es, starts, n) + |EntryBytes(PrevKey(es, starts, n), es[n])| <= |data|
            && data[Offset(es, starts, n)..] == EntryBytes(PrevKey(es, starts, n), es[n]) + data[Offset(es, starts, n + 1)..]
  {
    DataGrows(es, starts, n, |es|);
    DataGrows(es, starts, n + 1, |es|);
    EntryInPlace(Data(es, starts, |es|), es, starts, n);
  }

  lemma {:induction false} EntryInPlace(data: Bytes, es: seq<Pair>, starts: seq<nat>, n: nat)
    requires n < |es| && Data(es, starts, n + 1) <= data && Data(es, starts, n) <= data
    ensures data[Offset(es, starts, n)..] == EntryBytes(PrevKey(es, starts, n), es[n]) + data[Offset(es, starts, n + 1)..]
    ensures Offset(es, starts, n + 1) == Offset(es, starts, n) + |EntryBytes(PrevKey(es, starts, n), es[n])|
  {
    AfterPrefix(data, Data(es, starts, n), EntryBytes(PrevKey(es, starts, n), es[n]));
  }

  lemma {:induction false} AfterPrefix(data: Bytes, x: Bytes, y: Bytes)
    requires x + y <= data
    ensures data[|x|..] == y + data[|x| + |y|..]
  {
    assert data == (x + y) + data[|x| + |y|..];
  }

  lemma {:induction false} PieceReads(data: Bytes, offset: nat, prev: Bytes, e: Pair, rest: Bytes, key: Bytes)
    requires offset <= |data| && data[offset..] == EntryBytes(prev, e) + rest && PairFits(e)
    requires prev == [] || key == prev
    ensures var next := offset + |EntryBytes(prev, e)|;
            && |e.value| <= next <= |data| && Step(data, offset, key) == Some((e.key, next - |e.value|, |e.value|))
            && data[next - |e.value|..next] == e.value
  {
    EntryReads(prev, e, rest);
    EntryBytesAre(prev, e);
    var shared := Common(prev, e.key);
    var head := Header(shared, |e.key| - shared, |e.value|);
    assert data[offset..] == (head + e.key[shared..]) + e.value + rest;
    ValueInPlace(data, offset, head + e.key[shared..], e.value, rest);
    assert |data| == offset + |head| + |e.key[shared..]| + |e.value| + |rest|;
    KeyRebuilt(prev, key, e.key, e.value, rest);
  }

  lemma {:induction false} KeyRebuilt(prev: Bytes, key: Bytes, new_: Bytes, value: Bytes, rest: Bytes)
    requires prev == [] || key == prev
    ensures var shared, tail := Common(prev, new_), new_[Common(prev, new_)..] + value + rest;
            && shared <= |key| && |new_| - shared <= |tail| && |tail| == |new_| - shared + |value| + |rest|
            && key[..shared] + tail[..|new_| - shared] == new_
  {
    var shared := Common(prev, new_);
    var tail := new_[shared..] + value + rest;
    assert tail[..|new_| - shared] == new_[shared..];
  }

  lemma {:induction false} ValueInPlace(data: Bytes, offset: nat, head: Bytes, value: Bytes, rest: Bytes)
    requires offset <= |data| && data[offset..] == head + value + rest
    ensures data[offset + |head|..offset + |head| + |value|] == value
  {
    forall i | 0 <= i < |value| ensures data[offset + |head| + i] == value[i] {
      assert data[offset..][|head| + i] == value[i];
    }
  }

  // ----- searching -----

  type Order = (Bytes, Bytes) -> bool

  ghost predicate Ascending(less: Order, es: seq<Pair>) {
    && (forall i, j :: 0 <= i < j < |es| ==> less(es[i].key, es[j].key))
    && forall a, b, c :: less(a, b) && less(b, c) ==> less(a, c)
  }

  /** The first entry at or after the target. */
  ghost predicate IsLowerBound(less: Order, es: seq<Pair>, target: Bytes, r: nat) {
    && r <= |es| && (forall i :: 0 <= i < r ==> less(es[i].key, target))
    && forall i :: r <= i < |es| ==> !less(es[i].key, target)
  }

  class BlockIter {
    const less: Order
    const data: Bytes
    const restarts: seq<nat>
    var current: nat
    var restartIndex: nat
    var key: Bytes
    var valueAt: nat
    var valueLength: nat
    ghost const es: seq<Pair>
    ghost const starts: seq<nat>
    ghost const offs: seq<nat>

    ghost predicate Set() {
      Block(data, restarts, es, starts, offs) && Shape(data, restarts, es, starts, offs)
    }

    predicate Valid()
      reads this
    {
      current < |data|
    }

    function NextEntryOffset(): nat
      reads this
    {
      valueAt + valueLength
    }

    /** The iterator is at entry `n`. */
    ghost predicate At(n: nat)
      reads this
    {
      && Set() && n < |es| && current == offs[n] && key == es[n].key
      && NextEntryOffset() == offs[n + 1] && valueLength == |es[n].value|
      && restartIndex < |restarts| && starts[restartIndex] <= n
      && (restartIndex + 1 < |restarts| ==> n <= starts[restartIndex + 1])
    }

    ghost predicate AtEnd()
      reads this
    {
      Set() && current == |data| && restartIndex == |restarts|
    }

    /** The next entry to be parsed is `n`. */
    ghost predicate Ready(n: nat)
      reads this
    {
      && Set() && n <= |es| && NextEntryOffset() == offs[n] && restartIndex < |restarts| && starts[restartIndex] <= n
      && (n in starts || (0 < n && key == es[n - 1].key))
    }

    constructor (less: Order, data: Bytes, restarts: seq<nat>, ghost es: seq<Pair>, ghost starts: seq<nat>,
        ghost offs: seq<nat>)
      requires Block(data, restarts, es, starts, offs)
      ensures AtEnd() && this.less == less && this.data == data && this.restarts == restarts && this.es == es
    {
      BlockShape(data, restarts, es, starts, offs);
      this.less, this.data, this.restarts, this.es, this.starts, this.offs := less, data, restarts, es, starts, offs;
      current, restartIndex, key, valueAt, valueLength := |data|, |restarts|, [], 0, 0;
    }

    /** The value of the current entry. */
    function Value(ghost n: nat): (v: Bytes)
      requires At(n)
      reads this
      ensures v == es[n].value
    {
      StepReads(data, restarts, es, starts, offs, n, if n == 0 then [] else es[n - 1].key);
      data[valueAt..valueAt + valueLength]
    }

    method SeekToRestartPoint(index: nat)
      requires Set() && index < |restarts|
      modifies this
      ensures Ready(starts[index]) && restartIndex == index && current == old(current)
    {
      key := [];
      restartIndex := index;
      valueAt, valueLength := restarts[index], 0;
    }

    /** Parses the entry after the current value; false at the end of the data. */
    method ParseNextKey(ghost n: nat) returns (more: bool)
      requires Ready(n)
      modifies this
      ensures more <==> n < |es|
      ensures if more then At(n) else AtEnd()
    {
      current := NextEntryOffset();
      if current >= |data| {
        current, restartIndex := |data|, |restarts|;
        return false;
      }
      StepReads(data, restarts, es, starts, offs, n, key);
      var step := ReadStep(current, key);
      key, valueAt, valueLength := step.value.0, step.value.1, step.value.2;
      while restartIndex + 1 < |restarts| && restarts[restartIndex + 1] < current
        invariant restartIndex < |restarts| && starts[restartIndex] <= n
        modifies this`restartIndex
      {
        restartIndex := restartIndex + 1;
      }
      more := true;
    }

    /** Decoding one entry; nothing if it is malformed or shares more than there is. */
    method ReadStep(offset: nat, key: Bytes) returns (r: Option<(Bytes, nat, nat)>)
      requires offset <= |data|
      ensures r == Step(data, offset, key)
    {
      var d := ReadEntry(data[offset..]);
      match d {
        case None => r := None;
        case Some((shared, nonShared, valueLength, rest)) =>
          if |key| < shared || nonShared > |rest| || |rest| > |data| {
            r := None;
          } else {
            r := Some((key[..shared] + rest[..nonShared], |data| - |rest| + nonShared, valueLength));
          }
      }
    }

    method SeekToFirst()
      requires Set()
      modifies this
      ensures if |es| > 0 then At(0) else AtEnd()
    {
      SeekToRestartPoint(0);
      var more := ParseNextKey(0);
    }

    method Next(ghost n: nat)
      requires At(n)
      modifies this
      ensures if n + 1 < |es| then At(n + 1) else AtEnd()
    {
      var more := ParseNextKey(n + 1);
    }

    method SeekToLast()
      requires Set()
      modifies this
      ensures if |es| > 0 then At(|es| - 1) else AtEnd()
    {
      SeekToRestartPoint(|restarts| - 1);
      ghost var n := starts[|restarts| - 1];
      var more := ParseNextKey(n);
      while more && NextEntryOffset() < |data|
        invariant Set() && (|es| == 0 ==> AtEnd() && !more) && (|es| > 0 ==> more && At(n))
        decreases |es| - n
      {
        n := n + 1;
        more := ParseNextKey(n);
      }
    }

    /** Back to the last restart point before the entry, then forward to just before it. */
    method Prev(ghost n: nat)
      requires At(n)
      modifies this
      ensures if n > 0 then At(n - 1) else AtEnd()
    {
      var original := current;
      while restarts[restartIndex] >= original
        invariant Set() && restartIndex < |restarts| && starts[restartIndex] <= n && original == offs[n]
        decreases restartIndex
      {
        if restartIndex == 0 {
          current, restartIndex := |data|, |restarts|;
          return;
        }
        restartIndex := restartIndex - 1;
      }
      SeekToRestartPoint(restartIndex);
      ghost var m := starts[restartIndex];
      var more := ParseNextKey(m);
      while more && NextEntryOffset() < original
        invariant Set() && more && m < n && At(m) && original == offs[n]
        decreases n - m
      {
        m := m + 1;
        more := ParseNextKey(m);
      }
    }

    /** The key at a restart point is stored whole. */
    method KeyAtRestart(i: nat) returns (k: Bytes)
      requires Set() && i < |restarts| && starts[i] < |es|
      ensures k == es[starts[i]].key
    {
      StepReads(data, restarts, es, starts, offs, starts[i], []);
      var step := ReadStep(restarts[i], []);
      k := step.value.0;
    }

    /** Binary search over restart points, then a scan. */
    method Seek(target: Bytes)
      requires Set() && Ascending(less, es)
      modifies this
      ensures exists r: nat :: IsLowerBound(less, es, target, r) && if r < |es| then At(r) else AtEnd()
    {
      var left, right := 0, |restarts| - 1;
      while left < right
        invariant 0 <= left <= right < |restarts|
        invariant left > 0 ==> less(es[starts[left]].key, target)
        invariant right + 1 < |restarts| ==> !less(es[starts[right + 1]].key, target)
        modifies {}
      {
        var mid := (left + right + 1) / 2;
        var midKey := KeyAtRestart(mid);
        if less(midKey, target) {
          left := mid;
        } else {
          right := mid - 1;
        }
      }
      SeekToRestartPoint(left);
      EarlierAreLess(less, es, target, starts[left], left > 0);
      ScanForward(target, starts[left]);
    }

    /** Entry by entry to the first that is not less than the target. */
    method ScanForward(target: Bytes, ghost from: nat)
      requires Ready(from) && Ascending(less, es) && from <= |es| && forall i :: 0 <= i < from ==> less(es[i].key, target)
      modifies this
      ensures exists r: nat :: IsLowerBound(less, es, target, r) && if r < |es| then At(r) else AtEnd()
    {
      ghost var n := from;
      while true
        invariant Ready(n) && forall i :: 0 <= i < n ==> less(es[i].key, target)
        decreases |es| - n
      {
        var more := ParseNextKey(n);
        if !more {
          assert IsLowerBound(less, es, target, n);
          return;
        }
        if !less(key, target) {
          LaterAreNotLess(less, es, target, n);
          assert IsLowerBound(less, es, target, n);
          return;
        }
        n := n + 1;
      }
    }
  }

  lemma {:induction false} EarlierAreLess(less: Order, es: seq<Pair>, target: Bytes, n: nat, known: bool)
    requires Ascending(less, es) && n <= |es| && (known ==> n < |es| && less(es[n].key, target)) && (!known ==> n == 0)
    ensures forall i :: 0 <= i < n ==> less(es[i].key, target)
  {
    forall i | 0 <= i < n ensures less(es[i].key, target) {
      assert less(es[i].key, es[n].key);
      assert less(es[n].key, target);
    }
  }

  lemma {:induction false} LaterAreNotLess(less: Order, es: seq<Pair>, target: Bytes, n: nat)
    requires Ascending(less, es) && n < |es| && !less(es[n].key, target)
    ensures forall i :: n <= i < |es| ==> !less(es[i].key, target)
  {
    forall i | n <= i < |es| ensures !less(es[i].key, target) {
      assert n < i ==> less(es[n].key, es[i].key);
    }
  }

  // ----- from the builder's bytes to the iterator -----

  /** The data and the restart array of a stored block; nothing if it is too small for
      the number of restarts that it claims. */
  function ParseBlock(contents: Bytes): Option<(Bytes, seq<nat>)> {
    var size := |contents|;
    if size < 4 then None
    else
      var num := DecodeFixed(contents[size - 4..]);
      if num > (size - 4) / 4 then None
      else
        var at := size - (1 + num) * 4;
        Some((contents[..at], ReadRestarts(contents, at, num)))
  }

  lemma {:induction false} FixedAllAt(offsets: seq<nat>, i: nat)
    requires i < |offsets|
    ensures |FixedAll(offsets)| == 4 * |offsets| && FixedAll(offsets)[4 * i..4 * i + 4] == Fixed(4, offsets[i])
  {
    var n := |offsets| - 1;
    FixedAllLength(offsets[..n]);
    if i < n {
      FixedAllAt(offsets[..n], i);
      assert FixedAll(offsets)[4 * i..4 * i + 4] == FixedAll(offsets[..n])[4 * i..4 * i + 4];
    }
  }

  lemma {:induction false} OneRestart(data: Bytes, restarts: seq<nat>, end: Bytes, i: nat)
    requires i < |restarts| && restarts[i] < TWO_32
    ensures |data| + 4 * i + 4 <= |data + FixedAll(restarts) + end|
    ensures DecodeFixed((data + FixedAll(restarts) + end)[|data| + 4 * i..|data| + 4 * i + 4]) == restarts[i]
  {
    FixedAllAt(restarts, i);
    RestartField(data, FixedAll(restarts), end, 4 * i);
    Fixed32RoundTrip(restarts[i]);
  }

  function ReadRestarts(contents: Bytes, at: nat, num: nat): (r: seq<nat>)
    requires at + 4 * num <= |contents|
    ensures |r| == num && forall i :: 0 <= i < num ==> r[i] == DecodeFixed(contents[at + 4 * i..at + 4 * i + 4])
  {
    seq(num, i requires 0 <= i < num => DecodeFixed(contents[at + 4 * i..at + 4 * i + 4]))
  }

  lemma {:induction false} RestartsReadBack(data: Bytes, restarts: seq<nat>, end: Bytes)
    requires forall i :: 0 <= i < |restarts| ==> restarts[i] < TWO_32
    ensures |data| + 4 * |restarts| <= |data + FixedAll(restarts) + end|
    ensures ReadRestarts(data + FixedAll(restarts) + end, |data|, |restarts|) == restarts
  {
    FixedAllLength(restarts);
    var contents := data + FixedAll(restarts) + end;
    var r := ReadRestarts(contents, |data|, |restarts|);
    forall i | 0 <= i < |restarts| ensures r[i] == restarts[i] {
      OneRestart(data, restarts, end, i);
    }
  }

  lemma {:induction false} EndsOf(data: Bytes, all: Bytes, end: Bytes)
    ensures (data + all + end)[|data| + |all|..] == end && (data + all + end)[..|data|] == data
  {
  }

  /** What `Finish` writes is parsed back. */
  lemma {:induction false} FinishedBlockParses(data: Bytes, restarts: seq<nat>)
    requires |restarts| < TWO_32 && forall i :: 0 <= i < |restarts| ==> restarts[i] < TWO_32
    ensures ParseBlock(data + FixedAll(restarts) + Fixed(4, |restarts|)) == Some((data, restarts))
  {
    FixedAllLength(restarts);
    EndsOf(data, FixedAll(restarts), Fixed(4, |restarts|));
    Fixed32RoundTrip(|restarts|);
    RestartsReadBack(data, restarts, Fixed(4, |restarts|));
  }

  lemma {:induction false} RestartField(data: Bytes, all: Bytes, end: Bytes, at: nat)
    requires at + 4 <= |all|
    ensures (data + all + end)[|data| + at..|data| + at + 4] == all[at..at + 4]
  {
  }

  /** A builder's state is a block that the iterator can read, whatever the interval. */
  lemma {:induction false} BuiltIsReadable(buffer: Bytes, restarts: seq<nat>, es: seq<Pair>, starts: seq<nat>)
    returns (offs: seq<nat>)
    requires Built(buffer, restarts, es, starts, |es|) && forall n :: 0 <= n < |es| ==> PairFits(es[n])
    ensures Block(buffer, restarts, es, starts, offs)
  {
    OpenBuilt(buffer, restarts, es, starts, |es|);
    offs := seq(|es| + 1, n requires 0 <= n <= |es| => Offset(es, starts, n));
    OpenBlock(buffer, restarts, es, starts, offs);
  }

  // ----- a block in one piece -----

  /** The contents of a stored block parse as a block of these pairs. */
  ghost predicate Holds(contents: Bytes, es: seq<Pair>) {
    exists data, restarts, starts, offs ::
      ParseBlock(contents) == Some((data, restarts)) && Block(data, restarts, es, starts, offs)
  }

  /** What a builder finishes holds its entries, as long as sizes fit 32 bits. */
  lemma {:induction false} FinishedHolds(b: BlockBuilder, contents: Bytes)
    requires b.Valid() && b.CurrentSizeEstimate() < TWO_32 && forall n :: 0 <= n < |b.entries| ==> PairFits(b.entries[n])
    requires contents == Data(b.entries, b.starts, |b.entries|) + FixedAll(b.restarts) + Fixed(4, |b.restarts|)
    ensures Holds(contents, b.entries)
  {
    var offs := BuiltIsReadable(b.buffer, b.restarts, b.entries, b.starts);
    BlockShape(b.buffer, b.restarts, b.entries, b.starts, offs);
    OpenBuilt(b.buffer, b.restarts, b.entries, b.starts, |b.entries|);
    forall j | 0 <= j < |b.restarts| ensures b.restarts[j] < TWO_32 {
      assert b.restarts[j] == offs[b.starts[j]] && offs[b.starts[j]] <= |b.buffer|;
    }
    FinishedBlockParses(b.buffer, b.restarts);
  }

  /** Block::NewIterator, Seek, key and value: the first pair at or after the target. */
  method SeekIn(less: Order, contents: Bytes, target: Bytes, ghost es: seq<Pair>) returns (r: Option<Pair>)
    requires Holds(contents, es) && Ascending(less, es)
    ensures exists at: nat :: IsLowerBound(less, es, target, at) && r == if at < |es| then Some(es[at]) else None
  {
    ghost var data, restarts, starts, offs :|
      ParseBlock(contents) == Some((data, restarts)) && Block(data, restarts, es, starts, offs);
    var parsed := ParseBlock(contents).value;
    var iter := new BlockIter(less, parsed.0, parsed.1, es, starts, offs);
    iter.Seek(target);
    ghost var at: nat :| IsLowerBound(less, es, target, at) && if at < |es| then iter.At(at) else iter.AtEnd();
    r := None;
    if iter.Valid() {
      r := Some(Pair(iter.key, iter.Value(at)));
    }
  }

  /** A block that is built, parsed and searched gives what a search of its entries would. */
  method BuildThenSeek(less: Order, es: seq<Pair>, interval: nat, target: Bytes) returns (contents: Bytes, r: Option<Pair>)
    requires interval >= 1 && Ascending(less, es) && forall n :: 0 <= n < |es| ==> PairFits(es[n])
    ensures |contents| < TWO_32 ==> exists at: nat :: IsLowerBound(less, es, target, at) && r == if at < |es| then Some(es[at]) else None
  {
    var b := new BlockBuilder(interval);
    for i := 0 to |es|
      invariant b.Valid() && fresh(b) && b.entries == es[..i]
    {
      b.Add(es[i].key, es[i].value);
      assert es[..i + 1] == es[..i] + [es[i]];
    }
    assert es[..|es|] == es;
    contents := b.Finish();
    r := None;
    if |contents| < TWO_32 {
      FinishedHolds(b, contents);
      r := SeekIn(less, contents, target, es);
    }
  }
}
