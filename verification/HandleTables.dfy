// The cache's hand-made hash table (util/cache.cc, HandleTable): an array of
// buckets, each a chain of entries linked through the entries themselves. An entry
// is known by its number; `cells` holds the fields of it that the table uses.
module HandleTables {
  import opened Keys
  import opened Rings

  datatype Cell = Cell(key: string, hash: nat, nextHash: Option<nat>)

  /** An LRUHandle**: a bucket's slot, or the link inside an entry. */
  datatype Pointer = Bucket(i: nat) | After(h: nat)

  /** hash & (length - 1), for a length that is a power of two. */
  function Slot(hash: nat, length: nat): (r: nat)
    requires length > 0
    ensures r < length
  {
    hash % length
  }

  ghost function First(chain: seq<nat>): Option<nat> {
    if |chain| > 0 then Some(chain[0]) else None
  }

  ghost function Following(chain: seq<nat>, j: nat): Option<nat>
    requires j < |chain|
  {
    if j + 1 < |chain| then Some(chain[j + 1]) else None
  }

  ghost predicate ThreadedAt(cells: seq<Cell>, chain: seq<nat>, k: nat)
    requires k < |chain|
  {
    chain[k] < |cells| && cells[chain[k]].nextHash == Following(chain, k)
  }

  /** The links lead through `chain`. */
  ghost predicate Threaded(cells: seq<Cell>, chain: seq<nat>) {
    forall k :: 0 <= k < |chain| ==> ThreadedAt(cells, chain, k)
  }

  ghost predicate InSlot(cells: seq<Cell>, chain: seq<nat>, b: nat, length: nat)
    requires length > 0
  {
    forall h :: h in chain ==> h < |cells| && Slot(cells[h].hash, length) == b
  }

  /** Bucket number `b` out of `length`: its slot and its chain. */
  ghost predicate BucketOk(cells: seq<Cell>, slot: Option<nat>, chain: seq<nat>, b: nat, length: nat)
    requires length > 0
  {
    slot == First(chain) && Threaded(cells, chain) && NoRepeats(chain) && InSlot(cells, chain, b, length)
  }

  ghost predicate BucketsOk(cells: seq<Cell>, list: seq<Option<nat>>, chains: seq<seq<nat>>) {
    && |list| == |chains| > 0
    && forall b :: 0 <= b < |list| ==> BucketOk(cells, list[b], chains[b], b, |list|)
  }

  function NameOf(c: Cell): (string, nat) {
    (c.key, c.hash)
  }

  /** The chains hold exactly the entries of `m`, each under its own name. */
  ghost predicate Hold(cells: seq<Cell>, chains: seq<seq<nat>>, m: map<(string, nat), nat>)
    requires |chains| > 0
  {
    && (forall n :: n in m ==> m[n] < |cells| && NameOf(cells[m[n]]) == n && m[n] in chains[Slot(n.1, |chains|)])
    && forall b: nat, h: nat {:trigger h in chains[b]} :: b < |chains| && h in chains[b] ==> h < |cells| && NameOf(cells[h]) in m && m[NameOf(cells[h])] == h
  }

  // ----- following and storing through a pointer -----

  predicate InRange(list: seq<Option<nat>>, cells: seq<Cell>, p: Pointer) {
    match p
    case Bucket(i) => i < |list|
    case After(h) => h < |cells|
  }

  function Deref(list: seq<Option<nat>>, cells: seq<Cell>, p: Pointer): Option<nat>
    requires InRange(list, cells, p)
  {
    match p
    case Bucket(i) => list[i]
    case After(h) => cells[h].nextHash
  }

  function StoreSlot(list: seq<Option<nat>>, p: Pointer, v: Option<nat>): seq<Option<nat>> {
    if p.Bucket? && p.i < |list| then list[p.i := v] else list
  }

  function StoreCell(cells: seq<Cell>, p: Pointer, v: Option<nat>): seq<Cell> {
    if p.After? && p.h < |cells| then cells[p.h := cells[p.h].(nextHash := v)] else cells
  }

  /** The pointer that leads to position `j` of bucket `b`'s chain. */
  ghost function PointerTo(b: nat, chain: seq<nat>, j: nat): Pointer
    requires j <= |chain|
  {
    if j == 0 then Bucket(b) else After(chain[j - 1])
  }

  ghost function At(chain: seq<nat>, j: nat): Option<nat> {
    if j < |chain| then Some(chain[j]) else None
  }

  lemma {:induction false} DerefIs(cells: seq<Cell>, list: seq<Option<nat>>, chains: seq<seq<nat>>, b: nat, j: nat)
    requires BucketsOk(cells, list, chains) && b < |chains| && j <= |chains[b]|
    ensures InRange(list, cells, PointerTo(b, chains[b], j))
    ensures Deref(list, cells, PointerTo(b, chains[b], j)) == At(chains[b], j)
    ensures j < |chains[b]| ==> chains[b][j] < |cells|
  {
    assert BucketOk(cells, list[b], chains[b], b, |list|);
    assert j > 0 ==> ThreadedAt(cells, chains[b], j - 1);
    assert j < |chains[b]| ==> ThreadedAt(cells, chains[b], j);
  }

  /** A chain with `h` in place of position `j`, or at its end. */
  ghost function Put(chain: seq<nat>, j: nat, h: nat): (r: seq<nat>)
    requires j <= |chain|
  {
    if j < |chain| then chain[j := h] else chain + [h]
  }

  /** The cells after `h` is linked in at position `j`. */
  ghost function PutCells(cells: seq<Cell>, b: nat, chain: seq<nat>, j: nat, h: nat): seq<Cell>
    requires j <= |chain| && h < |cells|
  {
    var after := if j < |chain| then At(chain, j + 1) else None;
    StoreCell(cells[h := cells[h].(nextHash := after)], PointerTo(b, chain, j), Some(h))
  }

  lemma {:induction false} PutBucket(cells: seq<Cell>, slot: Option<nat>, chain: seq<nat>, b: nat, length: nat,
      j: nat, h: nat)
    requires length > 0 && BucketOk(cells, slot, chain, b, length) && j <= |chain| && h < |cells| && h !in chain
    requires Slot(cells[h].hash, length) == b
    ensures BucketOk(PutCells(cells, b, chain, j, h), if j == 0 then Some(h) else slot, Put(chain, j, h), b, length)
  {
    var to := Put(chain, j, h);
    var d := PutCells(cells, b, chain, j, h);
    PutNoRepeats(chain, j, h);
    forall k: nat | 0 <= k < |to| ensures ThreadedAt(d, to, k) {
      if k != j {
        PutLink(cells, b, chain, j, h, k);
      } else if j > 0 {
        assert chain[j - 1] in chain;
      }
    }
    forall x | x in to ensures x < |d| && Slot(d[x].hash, length) == b {
      assert x in chain || x == h;
    }
  }

  lemma {:induction false} PutNoRepeats(chain: seq<nat>, j: nat, h: nat)
    requires NoRepeats(chain) && h !in chain && j <= |chain|
    ensures NoRepeats(Put(chain, j, h))
  {
  }

  lemma {:induction false} PutLink(cells: seq<Cell>, b: nat, chain: seq<nat>, j: nat, h: nat, k: nat)
    requires Threaded(cells, chain) && NoRepeats(chain) && j <= |chain| && h < |cells| && h !in chain && k < |chain| && k != j
    ensures chain[k] < |cells| && PutCells(cells, b, chain, j, h)[chain[k]].nextHash == if k + 1 == j then Some(h) else Following(chain, k)
  {
    assert ThreadedAt(cells, chain, k) && chain[k] in chain;
    assert j > 0 ==> (chain[k] == chain[j - 1] <==> k == j - 1);
  }

  lemma {:induction false} BucketFrame(cells: seq<Cell>, d: seq<Cell>, slot: Option<nat>, chain: seq<nat>,
      b: nat, length: nat)
    requires length > 0 && BucketOk(cells, slot, chain, b, length) && |cells| <= |d|
    requires forall h :: h in chain && h < |cells| ==> d[h] == cells[h]
    ensures BucketOk(d, slot, chain, b, length)
  {
    forall k: nat | 0 <= k < |chain| ensures ThreadedAt(d, chain, k) {
      assert ThreadedAt(cells, chain, k) && chain[k] in chain;
    }
  }

  /** The entries of one bucket are in no other. */
  lemma {:induction false} BucketsApart(cells: seq<Cell>, list: seq<Option<nat>>, chains: seq<seq<nat>>, a: nat,
      b: nat, h: nat)
    requires BucketsOk(cells, list, chains) && a < |chains| && b < |chains| && h in chains[a]
    ensures h in chains[b] <==> a == b
  {
    assert BucketOk(cells, list[a], chains[a], a, |list|) && BucketOk(cells, list[b], chains[b], b, |list|);
  }

  lemma {:induction false} PutKeeps(cells: seq<Cell>, list: seq<Option<nat>>, chains: seq<seq<nat>>, b: nat,
      j: nat, h: nat)
    requires BucketsOk(cells, list, chains) && b < |chains| && j <= |chains[b]| && h < |cells|
    requires Slot(cells[h].hash, |chains|) == b
    requires forall c :: 0 <= c < |chains| ==> h !in chains[c]
    ensures BucketsOk(PutCells(cells, b, chains[b], j, h), StoreSlot(list, PointerTo(b, chains[b], j), Some(h)), chains[b := Put(chains[b], j, h)])
  {
    var chain := chains[b];
    var d := PutCells(cells, b, chain, j, h);
    var l := StoreSlot(list, PointerTo(b, chain, j), Some(h));
    var to := chains[b := Put(chain, j, h)];
    forall c | 0 <= c < |l| ensures BucketOk(d, l[c], to[c], c, |l|) {
      assert BucketOk(cells, list[c], chains[c], c, |list|);
      if c == b {
        PutBucket(cells, list[b], chain, b, |list|, j, h);
      } else {
        if j > 0 {
          BucketsApart(cells, list, chains, b, c, chain[j - 1]);
        }
        BucketFrame(cells, d, list[c], chains[c], c, |list|);
      }
    }
  }

  // ----- unlinking -----

  lemma {:induction false} CutBucket(cells: seq<Cell>, slot: Option<nat>, chain: seq<nat>, b: nat, length: nat, j: nat)
    requires length > 0 && BucketOk(cells, slot, chain, b, length) && j < |chain|
    ensures var p := PointerTo(b, chain, j);
      BucketOk(StoreCell(cells, p, At(chain, j + 1)), if j == 0 then At(chain, 1) else slot, Without(chain, j), b, length)
  {
    var to := Without(chain, j);
    var d := StoreCell(cells, PointerTo(b, chain, j), At(chain, j + 1));
    WithoutNoRepeats(chain, j);
    forall k: nat | 0 <= k < |to| ensures ThreadedAt(d, to, k) {
      WithoutAt(chain, j, k);
      if k + 1 < |to| {
        WithoutAt(chain, j, k + 1);
      }
      var m := if k < j then k else k + 1;
      assert ThreadedAt(cells, chain, m);
      assert j > 0 ==> (chain[m] == chain[j - 1] <==> m == j - 1);
    }
    forall x: nat | x in to ensures x < |d| && Slot(d[x].hash, length) == b {
      WithoutMembers(chain, j, x);
    }
  }

  lemma {:induction false} CutKeeps(cells: seq<Cell>, list: seq<Option<nat>>, chains: seq<seq<nat>>, b: nat, j: nat)
    requires BucketsOk(cells, list, chains) && b < |chains| && j < |chains[b]|
    ensures var p := PointerTo(b, chains[b], j); var v := At(chains[b], j + 1);
      BucketsOk(StoreCell(cells, p, v), StoreSlot(list, p, v), chains[b := Without(chains[b], j)])
  {
    var chain := chains[b];
    var p, v := PointerTo(b, chain, j), At(chain, j + 1);
    var d, l := StoreCell(cells, p, v), StoreSlot(list, p, v);
    var to := chains[b := Without(chain, j)];
    forall c | 0 <= c < |l| ensures BucketOk(d, l[c], to[c], c, |l|) {
      assert BucketOk(cells, list[c], chains[c], c, |list|);
      if c == b {
        CutBucket(cells, list[b], chain, b, |list|, j);
      } else {
        if j > 0 {
          BucketsApart(cells, list, chains, b, c, chain[j - 1]);
        }
        BucketFrame(cells, d, list[c], chains[c], c, |list|);
      }
    }
  }

  // ----- moving everything to a longer array of buckets -----

  /** `h` at the front of bucket `b`. */
  lemma {:induction false} PushKeeps(cells: seq<Cell>, list: seq<Option<nat>>, chains: seq<seq<nat>>, b: nat, h: nat)
    requires BucketsOk(cells, list, chains) && b < |chains| && h < |cells| && Slot(cells[h].hash, |chains|) == b
    requires forall c :: 0 <= c < |chains| ==> h !in chains[c]
    ensures BucketsOk(cells[h := cells[h].(nextHash := list[b])], list[b := Some(h)], chains[b := [h] + chains[b]])
  {
    var d := cells[h := cells[h].(nextHash := list[b])];
    var to := chains[b := [h] + chains[b]];
    forall c | 0 <= c < |list| ensures BucketOk(d, list[b := Some(h)][c], to[c], c, |list|) {
      assert BucketOk(cells, list[c], chains[c], c, |list|);
      BucketFrame(cells, d, list[c], chains[c], c, |list|);
      if c == b {
        PushBucket(d, list[b], chains[b], b, |list|, h);
      }
    }
  }

  lemma {:induction false} PushBucket(cells: seq<Cell>, slot: Option<nat>, chain: seq<nat>, b: nat, length: nat, h: nat)
    requires length > 0 && BucketOk(cells, slot, chain, b, length) && h < |cells| && h !in chain
    requires cells[h].nextHash == slot && Slot(cells[h].hash, length) == b
    ensures BucketOk(cells, Some(h), [h] + chain, b, length)
  {
    var to := [h] + chain;
    forall k: nat | 0 <= k < |to| ensures ThreadedAt(cells, to, k) {
      if k > 0 {
        assert ThreadedAt(cells, chain, k - 1);
      }
    }
  }

  /** Whether the walk at position `k` of bucket `i` has passed position `q` of bucket `b`. */
  ghost predicate Passed(b: nat, q: nat, i: nat, k: nat) {
    b < i || (b == i && q < k)
  }

  /** One entry of an old chain: moved to the new buckets if passed, still threaded if not. */
  ghost predicate Moving(cells: seq<Cell>, chain: seq<nat>, q: nat, passed: bool, nc: seq<seq<nat>>)
    requires q < |chain| && |nc| > 0
  {
    && chain[q] < |cells|
    && (passed <==> chain[q] in nc[Slot(cells[chain[q]].hash, |nc|)])
    && (!passed ==> ThreadedAt(cells, chain, q))
  }

  ghost predicate Rehashing(cells: seq<Cell>, chains: seq<seq<nat>>, nl: seq<Option<nat>>, nc: seq<seq<nat>>,
      i: nat, k: nat) {
    && |chains| > 0 && BucketsOk(cells, nl, nc)
    && (forall b: nat :: b < |chains| ==> NoRepeats(chains[b]) && InSlot(cells, chains[b], b, |chains|))
    && (forall b: nat, q: nat :: b < |chains| && q < |chains[b]| ==> Moving(cells, chains[b], q, Passed(b, q, i, k), nc))
    && forall c: nat, h :: c < |nc| && h in nc[c] ==> h < |cells| && h in chains[Slot(cells[h].hash, |chains|)]
  }

  lemma {:induction false} RehashStarts(cells: seq<Cell>, list: seq<Option<nat>>, chains: seq<seq<nat>>, n: nat)
    requires BucketsOk(cells, list, chains) && n > 0
    ensures Rehashing(cells, chains, seq(n, _ => None), seq(n, _ => []), 0, 0)
  {
    forall b: nat | b < |chains| ensures NoRepeats(chains[b]) && InSlot(cells, chains[b], b, |chains|) && Threaded(cells, chains[b]) {
      assert BucketOk(cells, list[b], chains[b], b, |list|);
    }
    forall b: nat, q: nat | b < |chains| && q < |chains[b]| ensures Moving(cells, chains[b], q, Passed(b, q, 0, 0), seq(n, _ => [])) {
      assert ThreadedAt(cells, chains[b], q);
    }
  }

  /** The walk stands at an entry that is in no new bucket, and knows the next one. */
  lemma {:induction false} RehashHere(cells: seq<Cell>, chains: seq<seq<nat>>, nl: seq<Option<nat>>,
      nc: seq<seq<nat>>, i: nat, k: nat)
    requires Rehashing(cells, chains, nl, nc, i, k) && i < |chains| && k < |chains[i]|
    ensures chains[i][k] < |cells| && cells[chains[i][k]].nextHash == At(chains[i], k + 1)
    ensures forall c :: 0 <= c < |nc| ==> chains[i][k] !in nc[c]
  {
    var h := chains[i][k];
    assert Moving(cells, chains[i], k, Passed(i, k, i, k), nc);
    forall c | 0 <= c < |nc| ensures h !in nc[c] {
      assert BucketOk(cells, nl[c], nc[c], c, |nl|);
    }
    assert ThreadedAt(cells, chains[i], k);
  }

  lemma {:induction false} RehashStep(cells: seq<Cell>, chains: seq<seq<nat>>, nl: seq<Option<nat>>,
      nc: seq<seq<nat>>, i: nat, k: nat)
    requires Rehashing(cells, chains, nl, nc, i, k) && i < |chains| && k < |chains[i]|
    ensures chains[i][k] < |cells|
    ensures var h := chains[i][k]; var s := Slot(cells[h].hash, |nl|);
      Rehashing(cells[h := cells[h].(nextHash := nl[s])], chains, nl[s := Some(h)], nc[s := [h] + nc[s]], i, k + 1)
  {
    RehashHere(cells, chains, nl, nc, i, k);
    var h := chains[i][k];
    var s := Slot(cells[h].hash, |nl|);
    var d, to := cells[h := cells[h].(nextHash := nl[s])], nc[s := [h] + nc[s]];
    PushKeeps(cells, nl, nc, s, h);
    assert chains[i][k] in chains[i];
    var after := k + 1;
    forall b: nat, q: nat | b < |chains| && q < |chains[b]| ensures Moving(d, chains[b], q, Passed(b, q, i, after), to) {
      MovedOne(cells, chains, nl, nc, i, k, b, q);
    }
    forall c: nat, x | c < |to| && x in to[c] ensures x < |d| && x in chains[Slot(d[x].hash, |chains|)] {
      assert x == h || x in nc[c];
    }
  }

  lemma {:induction false} MovedOne(cells: seq<Cell>, chains: seq<seq<nat>>, nl: seq<Option<nat>>,
      nc: seq<seq<nat>>, i: nat, k: nat, b: nat, q: nat)
    requires Rehashing(cells, chains, nl, nc, i, k) && i < |chains| && k < |chains[i]|
    requires b < |chains| && q < |chains[b]| && chains[i][k] < |cells|
    ensures var h := chains[i][k]; var s := Slot(cells[h].hash, |nl|);
      Moving(cells[h := cells[h].(nextHash := nl[s])], chains[b], q, Passed(b, q, i, k + 1), nc[s := [h] + nc[s]])
  {
    var h, x := chains[i][k], chains[b][q];
    assert Moving(cells, chains[b], q, Passed(b, q, i, k), nc);
    assert h in chains[i] && x in chains[b];
    assert h == x <==> (b == i && q == k);
  }

  lemma {:induction false} RehashNextBucket(cells: seq<Cell>, chains: seq<seq<nat>>, nl: seq<Option<nat>>,
      nc: seq<seq<nat>>, i: nat)
    requires i < |chains| && Rehashing(cells, chains, nl, nc, i, |chains[i]|)
    ensures Rehashing(cells, chains, nl, nc, i + 1, 0)
  {
    var after := i + 1;
    forall b: nat, q: nat | b < |chains| && q < |chains[b]| ensures Moving(cells, chains[b], q, Passed(b, q, after, 0), nc) {
      assert Moving(cells, chains[b], q, Passed(b, q, i, |chains[i]|), nc);
    }
  }

  ghost predicate NamesKept(a: seq<Cell>, b: seq<Cell>) {
    |a| == |b| && forall h :: 0 <= h < |a| ==> NameOf(a[h]) == NameOf(b[h])
  }

  /** At the end the new buckets hold what the old ones held. */
  lemma {:induction false} RehashDone(a: seq<Cell>, cells: seq<Cell>, chains: seq<seq<nat>>,
      nl: seq<Option<nat>>, nc: seq<seq<nat>>, m: map<(string, nat), nat>)
    requires |chains| > 0 && Hold(a, chains, m) && NamesKept(a, cells)
    requires Rehashing(cells, chains, nl, nc, |chains|, 0)
    ensures Hold(cells, nc, m)
  {
    forall n | n in m ensures m[n] < |cells| && NameOf(cells[m[n]]) == n && m[n] in nc[Slot(n.1, |nc|)] {
      var b := Slot(n.1, |chains|);
      var q :| 0 <= q < |chains[b]| && chains[b][q] == m[n];
      assert Moving(cells, chains[b], q, Passed(b, q, |chains|, 0), nc);
    }
  }

  ghost predicate OneNameEach(m: map<(string, nat), nat>) {
    forall a, b :: a in m && b in m && m[a] == m[b] ==> a == b
  }

  /** The lengths a table can have: 4, 8, 16 and so on, so that masking is taking the remainder. */
  predicate IsLength(n: nat) {
    n == 4 || (n > 4 && n % 2 == 0 && IsLength(n / 2))
  }

  ghost predicate Mapped(cells: seq<Cell>, list: seq<Option<nat>>, chains: seq<seq<nat>>, m: map<(string, nat), nat>) {
    BucketsOk(cells, list, chains) && Hold(cells, chains, m)
  }

  /** `Mapped`, sealed: the table's methods carry it as one fact. */
  ghost predicate TableOk(cells: seq<Cell>, list: seq<Option<nat>>, chains: seq<seq<nat>>, m: map<(string, nat), nat>) {
    |list| == |chains| > 0 && TableSeal(|list| + 9, cells, list, chains, m)
  }

  ghost predicate TableSeal(k: nat, cells: seq<Cell>, list: seq<Option<nat>>, chains: seq<seq<nat>>,
      m: map<(string, nat), nat>) {
    if k == 0 then Mapped(cells, list, chains, m) else TableSeal(k - 1, cells, list, chains, m)
  }

  lemma {:induction false} TableSealOpens(k: nat, cells: seq<Cell>, list: seq<Option<nat>>,
      chains: seq<seq<nat>>, m: map<(string, nat), nat>)
    ensures TableSeal(k, cells, list, chains, m) <==> Mapped(cells, list, chains, m)
  {
    if k > 0 {
      TableSealOpens(k - 1, cells, list, chains, m);
    }
  }

  lemma {:induction false} OpenTable(cells: seq<Cell>, list: seq<Option<nat>>, chains: seq<seq<nat>>,
      m: map<(string, nat), nat>)
    ensures TableOk(cells, list, chains, m) <==> Mapped(cells, list, chains, m)
  {
    TableSealOpens(|list| + 9, cells, list, chains, m);
  }

  /** Where a search for a name ends. */
  ghost predicate Found(cells: seq<Cell>, chains: seq<seq<nat>>, m: map<(string, nat), nat>, n: (string, nat), j: nat)
    requires |chains| > 0
  {
    var chain := chains[Slot(n.1, |chains|)];
    j <= |chain| && if n in m then j < |chain| && chain[j] == m[n] else j == |chain|
  }

  lemma {:induction false} FoundHere(cells: seq<Cell>, list: seq<Option<nat>>, chains: seq<seq<nat>>,
      m: map<(string, nat), nat>, n: (string, nat), j: nat)
    requires TableOk(cells, list, chains, m)
    requires var chain := chains[Slot(n.1, |chains|)];
      && j <= |chain| && (forall k: nat :: k < j ==> chain[k] < |cells| && NameOf(cells[chain[k]]) != n)
      && (j < |chain| ==> chain[j] < |cells| && NameOf(cells[chain[j]]) == n)
    ensures Found(cells, chains, m, n, j)
  {
    OpenTable(cells, list, chains, m);
    var chain := chains[Slot(n.1, |chains|)];
    if j < |chain| {
      assert chain[j] in chain;
    }
  }

  lemma {:induction false} PutHolds(cells: seq<Cell>, chains: seq<seq<nat>>, m: map<(string, nat), nat>,
      n: (string, nat), j: nat, h: nat, d: seq<Cell>)
    requires |chains| > 0 && Hold(cells, chains, m) && Found(cells, chains, m, n, j)
    requires h < |cells| && NameOf(cells[h]) == n && NamesKept(cells, d)
    requires forall c :: 0 <= c < |chains| ==> NoRepeats(chains[c]) && InSlot(cells, chains[c], c, |chains|)
    ensures var b := Slot(n.1, |chains|); Hold(d, chains[b := Put(chains[b], j, h)], m[n := h])
  {
    var b := Slot(n.1, |chains|);
    var chain := chains[b];
    var to := chains[b := Put(chain, j, h)];
    PutMembers(chain, j, h);
    forall x | x in m[n := h] ensures m[n := h][x] in to[Slot(x.1, |to|)] {
      if x != n && j < |chain| {
        assert m[x] != chain[j];
      }
    }
  }

  lemma {:induction false} PutMembers(chain: seq<nat>, j: nat, h: nat)
    requires j <= |chain| && NoRepeats(chain)
    ensures forall x: nat :: x in Put(chain, j, h) <==> (x in chain && (j < |chain| ==> x != chain[j])) || x == h
  {
    var to := Put(chain, j, h);
    forall x: nat ensures x in to <==> (x in chain && (j < |chain| ==> x != chain[j])) || x == h {
      if x in chain && (j < |chain| ==> x != chain[j]) {
        var k :| 0 <= k < |chain| && chain[k] == x;
        assert to[k] == x;
      }
      assert to[j] == h;
      if x in to {
        var k :| 0 <= k < |to| && to[k] == x;
        assert k != j ==> chain[k] == x;
      }
    }
  }

  lemma {:induction false} CutHolds(cells: seq<Cell>, chains: seq<seq<nat>>, m: map<(string, nat), nat>,
      n: (string, nat), j: nat, d: seq<Cell>)
    requires |chains| > 0 && Hold(cells, chains, m) && Found(cells, chains, m, n, j) && n in m && NamesKept(cells, d)
    requires forall c :: 0 <= c < |chains| ==> NoRepeats(chains[c]) && InSlot(cells, chains[c], c, |chains|)
    ensures var b := Slot(n.1, |chains|); Hold(d, chains[b := Without(chains[b], j)], m - {n})
  {
    var b := Slot(n.1, |chains|);
    var chain := chains[b];
    var to := chains[b := Without(chain, j)];
    forall x: nat ensures x in Without(chain, j) <==> x in chain && x != chain[j] {
      WithoutMembers(chain, j, x);
    }
    forall x | x in m - {n} ensures (m - {n})[x] in to[Slot(x.1, |to|)] {
      assert NameOf(cells[m[x]]) == x;
    }
    forall c: nat, h: nat | c < |to| && h in to[c] ensures h < |d| && NameOf(d[h]) in m - {n} && (m - {n})[NameOf(d[h])] == h {
      assert h in chains[c];
    }
  }

  lemma {:induction false} ChainsOk(cells: seq<Cell>, list: seq<Option<nat>>, chains: seq<seq<nat>>)
    requires BucketsOk(cells, list, chains)
    ensures forall c :: 0 <= c < |chains| ==> NoRepeats(chains[c]) && InSlot(cells, chains[c], c, |chains|)
  {
    forall c | 0 <= c < |chains| ensures NoRepeats(chains[c]) && InSlot(cells, chains[c], c, |chains|) {
      assert BucketOk(cells, list[c], chains[c], c, |list|);
    }
  }

  /** An entry that no name leads to is in no chain. */
  lemma {:induction false} UnnamedUnchained(cells: seq<Cell>, chains: seq<seq<nat>>, m: map<(string, nat), nat>, h: nat)
    requires |chains| > 0 && Hold(cells, chains, m) && h !in m.Values
    ensures forall c :: 0 <= c < |chains| ==> h !in chains[c]
  {
    forall c: nat | c < |chains| ensures h !in chains[c] {
      ChainedNamed(cells, chains, m, c, h);
    }
  }

  lemma {:induction false} ChainedNamed(cells: seq<Cell>, chains: seq<seq<nat>>, m: map<(string, nat), nat>,
      c: nat, h: nat)
    requires |chains| > 0 && Hold(cells, chains, m) && c < |chains|
    ensures h in chains[c] ==> h in m.Values
  {
    if h in chains[c] {
      assert NameOf(cells[h]) in m.Keys;
    }
  }

  /** Linking `h` in where a search for its name ended. */
  lemma {:induction false} PutTable(cells: seq<Cell>, list: seq<Option<nat>>, chains: seq<seq<nat>>,
      m: map<(string, nat), nat>, n: (string, nat), j: nat, h: nat)
    requires TableOk(cells, list, chains, m) && Found(cells, chains, m, n, j)
    requires h < |cells| && NameOf(cells[h]) == n && h !in m.Values
    ensures var b := Slot(n.1, |chains|); var d := PutCells(cells, b, chains[b], j, h);
      && NamesKept(cells, d)
      && TableOk(d, StoreSlot(list, PointerTo(b, chains[b], j), Some(h)), chains[b := Put(chains[b], j, h)], m[n := h])
  {
    var b := Slot(n.1, |chains|);
    var d := PutCells(cells, b, chains[b], j, h);
    OpenTable(cells, list, chains, m);
    UnnamedUnchained(cells, chains, m, h);
    ChainsOk(cells, list, chains);
    PutKeeps(cells, list, chains, b, j, h);
    PutHolds(cells, chains, m, n, j, h, d);
    OpenTable(d, StoreSlot(list, PointerTo(b, chains[b], j), Some(h)), chains[b := Put(chains[b], j, h)], m[n := h]);
  }

  lemma {:induction false} CutTable(cells: seq<Cell>, list: seq<Option<nat>>, chains: seq<seq<nat>>,
      m: map<(string, nat), nat>, n: (string, nat), j: nat)
    requires TableOk(cells, list, chains, m) && Found(cells, chains, m, n, j) && n in m
    ensures var b := Slot(n.1, |chains|); var p, v := PointerTo(b, chains[b], j), At(chains[b], j + 1);
      && NamesKept(cells, StoreCell(cells, p, v))
      && TableOk(StoreCell(cells, p, v), StoreSlot(list, p, v), chains[b := Without(chains[b], j)], m - {n})
  {
    var b := Slot(n.1, |chains|);
    var p, v := PointerTo(b, chains[b], j), At(chains[b], j + 1);
    OpenTable(cells, list, chains, m);
    ChainsOk(cells, list, chains);
    CutKeeps(cells, list, chains, b, j);
    CutHolds(cells, chains, m, n, j, StoreCell(cells, p, v));
    OpenTable(StoreCell(cells, p, v), StoreSlot(list, p, v), chains[b := Without(chains[b], j)], m - {n});
  }

  lemma {:induction false} AllocateKeeps(cells: seq<Cell>, c: Cell, list: seq<Option<nat>>,
      chains: seq<seq<nat>>, m: map<(string, nat), nat>)
    requires TableOk(cells, list, chains, m)
    ensures TableOk(cells + [c], list, chains, m)
  {
    OpenTable(cells, list, chains, m);
    forall b | 0 <= b < |list| ensures BucketOk(cells + [c], list[b], chains[b], b, |list|) {
      assert BucketOk(cells, list[b], chains[b], b, |list|);
      BucketFrame(cells, cells + [c], list[b], chains[b], b, |list|);
    }
    OpenTable(cells + [c], list, chains, m);
  }

  /** What a pointer into a chain leads to, and the link out of the entry there. */
  lemma {:induction false} Leads(cells: seq<Cell>, list: seq<Option<nat>>, chains: seq<seq<nat>>,
      m: map<(string, nat), nat>, b: nat, j: nat)
    requires TableOk(cells, list, chains, m) && b < |chains| && j <= |chains[b]|
    ensures InRange(list, cells, PointerTo(b, chains[b], j))
    ensures Deref(list, cells, PointerTo(b, chains[b], j)) == At(chains[b], j)
    ensures j < |chains[b]| ==> chains[b][j] < |cells| && cells[chains[b][j]].nextHash == At(chains[b], j + 1)
  {
    OpenTable(cells, list, chains, m);
    DerefIs(cells, list, chains, b, j);
    if j < |chains[b]| {
      DerefIs(cells, list, chains, b, j + 1);
    }
  }

  lemma {:induction false} NamesDiffer(cells: seq<Cell>, chains: seq<seq<nat>>, m: map<(string, nat), nat>)
    requires |chains| > 0 && Hold(cells, chains, m)
    ensures OneNameEach(m)
  {
    forall a, b | a in m && b in m && m[a] == m[b] ensures a == b {
      assert NameOf(cells[m[a]]) == a && NameOf(cells[m[b]]) == b;
    }
  }

  lemma {:induction false} RemovedValues(m: map<(string, nat), nat>, n: (string, nat))
    requires OneNameEach(m) && n in m
    ensures (m - {n}).Values == m.Values - {m[n]} && |m - {n}| == |m| - 1 && m[n] in m.Values
  {
    assert m == (m - {n})[n := m[n]];
    forall v ensures v in (m - {n}).Values <==> v in m.Values - {m[n]} {
      if v in m.Values && v != m[n] {
        var a :| a in m && m[a] == v;
        assert a in m - {n};
      }
    }
  }

  lemma {:induction false} ReplacedValues(m: map<(string, nat), nat>, n: (string, nat), h: nat)
    requires OneNameEach(m) && h !in m.Values
    ensures m[n := h].Values == (if n in m then m.Values - {m[n]} else m.Values) + {h}
  {
    var to := (if n in m then m.Values - {m[n]} else m.Values) + {h};
    forall v ensures v in m[n := h].Values <==> v in to {
      if v in m.Values && (n in m ==> v != m[n]) {
        var a :| a in m && m[a] == v;
        assert m[n := h][a] == v;
      }
      assert m[n := h][n] == h;
    }
  }

  lemma {:induction false} TableNames(cells: seq<Cell>, list: seq<Option<nat>>, chains: seq<seq<nat>>,
      m: map<(string, nat), nat>)
    requires TableOk(cells, list, chains, m)
    ensures OneNameEach(m)
  {
    OpenTable(cells, list, chains, m);
    NamesDiffer(cells, chains, m);
  }

  /** `Rehashing`, sealed, with what it says of the old table: a walk through it has
      reached position `k` of bucket `i`. */
  ghost predicate Walk(cells: seq<Cell>, chains: seq<seq<nat>>, nl: seq<Option<nat>>, nc: seq<seq<nat>>, i: nat,
      k: nat) {
    WalkSeal(k + 9, cells, chains, nl, nc, i, k)
  }

  ghost predicate WalkSeal(n: nat, cells: seq<Cell>, chains: seq<seq<nat>>, nl: seq<Option<nat>>,
      nc: seq<seq<nat>>, i: nat, k: nat) {
    if n == 0 then Rehashing(cells, chains, nl, nc, i, k) else WalkSeal(n - 1, cells, chains, nl, nc, i, k)
  }

  lemma {:induction false} WalkSealOpens(n: nat, cells: seq<Cell>, chains: seq<seq<nat>>, nl: seq<Option<nat>>,
      nc: seq<seq<nat>>, i: nat, k: nat)
    ensures WalkSeal(n, cells, chains, nl, nc, i, k) <==> Rehashing(cells, chains, nl, nc, i, k)
  {
    if n > 0 {
      WalkSealOpens(n - 1, cells, chains, nl, nc, i, k);
    }
  }

  lemma {:induction false} WalkStarts(cells: seq<Cell>, list: seq<Option<nat>>, chains: seq<seq<nat>>,
      m: map<(string, nat), nat>, n: nat)
    requires TableOk(cells, list, chains, m) && n > 0
    ensures Walk(cells, chains, seq(n, _ => None), seq(n, _ => []), 0, 0)
    ensures forall b :: 0 <= b < |list| ==> list[b] == First(chains[b])
  {
    OpenTable(cells, list, chains, m);
    RehashStarts(cells, list, chains, n);
    WalkSealOpens(9, cells, chains, seq(n, _ => None), seq(n, _ => []), 0, 0);
    forall b | 0 <= b < |list| ensures list[b] == First(chains[b]) {
      assert BucketOk(cells, list[b], chains[b], b, |list|);
    }
  }

  lemma {:induction false} WalkStep(cells: seq<Cell>, chains: seq<seq<nat>>, nl: seq<Option<nat>>,
      nc: seq<seq<nat>>, i: nat, k: nat)
    requires Walk(cells, chains, nl, nc, i, k) && i < |chains| && k < |chains[i]|
    ensures |nl| == |nc| > 0
    ensures chains[i][k] < |cells| && cells[chains[i][k]].nextHash == At(chains[i], k + 1)
    ensures var h := chains[i][k]; var s := Slot(cells[h].hash, |nl|);
      Walk(cells[h := cells[h].(nextHash := nl[s])], chains, nl[s := Some(h)], nc[s := [h] + nc[s]], i, k + 1)
  {
    WalkSealOpens(k + 9, cells, chains, nl, nc, i, k);
    RehashHere(cells, chains, nl, nc, i, k);
    RehashStep(cells, chains, nl, nc, i, k);
    var h := chains[i][k];
    var s := Slot(cells[h].hash, |nl|);
    WalkSealOpens(k + 10, cells[h := cells[h].(nextHash := nl[s])], chains, nl[s := Some(h)], nc[s := [h] + nc[s]],
        i, k + 1);
  }

  lemma {:induction false} WalkOn(cells: seq<Cell>, chains: seq<seq<nat>>, nl: seq<Option<nat>>,
      nc: seq<seq<nat>>, i: nat)
    requires i < |chains| && Walk(cells, chains, nl, nc, i, |chains[i]|)
    ensures Walk(cells, chains, nl, nc, i + 1, 0)
  {
    WalkSealOpens(|chains[i]| + 9, cells, chains, nl, nc, i, |chains[i]|);
    RehashNextBucket(cells, chains, nl, nc, i);
    WalkSealOpens(9, cells, chains, nl, nc, i + 1, 0);
  }

  lemma {:induction false} WalkEnds(a: seq<Cell>, list: seq<Option<nat>>, cells: seq<Cell>,
      chains: seq<seq<nat>>, nl: seq<Option<nat>>, nc: seq<seq<nat>>, m: map<(string, nat), nat>)
    requires TableOk(a, list, chains, m) && NamesKept(a, cells) && Walk(cells, chains, nl, nc, |chains|, 0)
    ensures TableOk(cells, nl, nc, m)
  {
    OpenTable(a, list, chains, m);
    WalkSealOpens(9, cells, chains, nl, nc, |chains|, 0);
    RehashDone(a, cells, chains, nl, nc, m);
    OpenTable(cells, nl, nc, m);
  }

  class HandleTable {
    var cells: seq<Cell>
    var list: seq<Option<nat>>
    var elems: nat
    ghost var chains: seq<seq<nat>>
    /** The map the table stands for: from key and hash to entry. */
    ghost var m: map<(string, nat), nat>

    ghost predicate Valid()
      reads this
    {
      TableOk(cells, list, chains, m) && elems == |m| && IsLength(|list|) && elems <= |list|
    }

    constructor (cells: seq<Cell>)
      ensures Valid() && m == map[] && this.cells == cells
    {
      this.cells := cells;
      list := [None, None, None, None];
      chains := [[], [], [], []];
      elems := 0;
      m := map[];
      new;
      OpenTable(this.cells, list, chains, m);
    }

    method FindPointer(key: string, hash: nat) returns (p: Pointer, ghost j: nat)
      requires TableOk(cells, list, chains, m)
      ensures Found(cells, chains, m, (key, hash), j)
      ensures var b := Slot(hash, |list|); p == PointerTo(b, chains[b], j)
      ensures InRange(list, cells, p)
      ensures Deref(list, cells, p) == if (key, hash) in m then Some(m[(key, hash)]) else None
    {
      var b := Slot(hash, |list|);
      ghost var chain := chains[b];
      p, j := Bucket(b), 0;
      Leads(cells, list, chains, m, b, 0);
      while Deref(list, cells, p).Some?
        && (cells[Deref(list, cells, p).value].hash != hash || cells[Deref(list, cells, p).value].key != key)
        invariant j <= |chain| && p == PointerTo(b, chain, j) && InRange(list, cells, p)
        invariant Deref(list, cells, p) == At(chain, j) && (j < |chain| ==> chain[j] < |cells|)
        invariant forall k: nat :: k < j ==> chain[k] < |cells| && NameOf(cells[chain[k]]) != (key, hash)
        decreases |chain| - j
      {
        p := After(Deref(list, cells, p).value);
        j := j + 1;
        Leads(cells, list, chains, m, b, j);
      }
      FoundHere(cells, list, chains, m, (key, hash), j);
    }

    method Lookup(key: string, hash: nat) returns (r: Option<nat>)
      requires Valid()
      ensures r == if (key, hash) in m then Some(m[(key, hash)]) else None
    {
      var p, j := FindPointer(key, hash);
      r := Deref(list, cells, p);
    }

    /** A newly allocated entry, which the table does not hold yet. */
    method Allocate(key: string, hash: nat) returns (h: nat)
      requires Valid()
      modifies this`cells
      ensures Valid() && h == |old(cells)| && cells == old(cells) + [Cell(key, hash, None)]
    {
      h := |cells|;
      AllocateKeeps(cells, Cell(key, hash, None), list, chains, m);
      cells := cells + [Cell(key, hash, None)];
    }

    /** Puts `h` under its own name, and gives the entry it takes the place of. */
    method Insert(h: nat) returns (previous: Option<nat>)
      requires Valid() && h < |cells| && h !in m.Values
      modifies this
      ensures Valid() && NamesKept(old(cells), cells)
      ensures var n := NameOf(old(cells[h]));
        m == old(m)[n := h] && previous == if n in old(m) then Some(old(m)[n]) else None
      ensures m.Values == (if previous.Some? then old(m).Values - {previous.value} else old(m).Values) + {h}
      ensures |m| <= |old(list)| ==> |list| == |old(list)|
    {
      var key, hash := cells[h].key, cells[h].hash;
      ghost var a, b := cells, Slot(hash, |list|);
      var p, j := FindPointer(key, hash);
      TableNames(cells, list, chains, m);
      ReplacedValues(m, (key, hash), h);
      PutTable(cells, list, chains, m, (key, hash), j, h);
      Leads(cells, list, chains, m, b, j);
      previous := Deref(list, cells, p);
      var after := if previous.Some? then cells[previous.value].nextHash else None;
      cells := StoreCell(cells[h := cells[h].(nextHash := after)], p, Some(h));
      assert cells == PutCells(a, b, chains[b], j, h);
      list := StoreSlot(list, p, Some(h));
      chains := chains[b := Put(chains[b], j, h)];
      m := m[(key, hash) := h];
      if previous == None {
        elems := elems + 1;
        if elems > |list| {
          Resize();
        }
      }
    }

    method Remove(key: string, hash: nat) returns (r: Option<nat>)
      requires Valid()
      modifies this
      ensures Valid() && NamesKept(old(cells), cells)
      ensures r == if (key, hash) in old(m) then Some(old(m)[(key, hash)]) else None
      ensures m == old(m) - {(key, hash)}
      ensures m.Values == if r.Some? then old(m).Values - {r.value} else old(m).Values
      ensures r.Some? ==> r.value in old(m).Values
    {
      ghost var b := Slot(hash, |list|);
      var p, j := FindPointer(key, hash);
      r := Deref(list, cells, p);
      if r.Some? {
        TableNames(cells, list, chains, m);
        RemovedValues(m, (key, hash));
        CutTable(cells, list, chains, m, (key, hash), j);
        Leads(cells, list, chains, m, b, j);
        var v := cells[r.value].nextHash;
        list, cells := StoreSlot(list, p, v), StoreCell(cells, p, v);
        chains := chains[b := Without(chains[b], j)];
        m := m - {(key, hash)};
        elems := elems - 1;
      } else {
        assert m == m - {(key, hash)};
      }
    }

    /** Doubles the buckets until there is one for each entry, and moves every entry over. */
    method Resize()
      requires TableOk(cells, list, chains, m) && elems == |m|
      modifies this`cells, this`list, this`chains
      ensures Valid() && NamesKept(old(cells), cells)
      ensures elems <= |list| && (|list| == 4 || |list| / 2 < elems)
    {
      var newLength := 4;
      while newLength < elems
        invariant IsLength(newLength) && (newLength == 4 || newLength / 2 < elems)
        decreases elems - newLength
      {
        newLength := newLength * 2;
      }
      var newList: seq<Option<nat>> := seq(newLength, _ => None);
      ghost var nc: seq<seq<nat>> := seq(newLength, _ => []);
      WalkStarts(cells, list, chains, m, newLength);
      for i := 0 to |list|
        invariant |newList| == newLength && |list| == |chains| && list == old(list)
        invariant forall b :: 0 <= b < |list| ==> list[b] == First(chains[b])
        invariant NamesKept(old(cells), cells) && Walk(cells, chains, newList, nc, i, 0)
        modifies this`cells
      {
        var h := list[i];
        ghost var k := 0;
        while h != None
          invariant |newList| == newLength && |list| == |chains| && k <= |chains[i]| && h == At(chains[i], k)
          invariant NamesKept(old(cells), cells) && Walk(cells, chains, newList, nc, i, k)
          decreases |chains[i]| - k
          modifies this`cells
        {
          WalkStep(cells, chains, newList, nc, i, k);
          var next := cells[h.value].nextHash;
          var s := Slot(cells[h.value].hash, newLength);
          cells := cells[h.value := cells[h.value].(nextHash := newList[s])];
          newList := newList[s := h];
          nc := nc[s := [h.value] + nc[s]];
          h := next;
          k := k + 1;
        }
        WalkOn(cells, chains, newList, nc, i);
      }
      WalkEnds(old(cells), list, cells, chains, newList, nc, m);
      list := newList;
      chains := nc;
    }
  }
}
