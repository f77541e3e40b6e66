// The skip list under the memtable (db/skiplist.h): one writer, and readers that
// run between any two of its stores.  Nodes are numbered in the order the arena
// hands them out; node 0 is the head.
module SkipLists {
  import opened Keys

  const MAX_HEIGHT: nat := 12
  const HEAD: nat := 0

  /** `next[i]` is the node after this one in list `i`; its length is the node's height. */
  datatype Node = Node(entry: Entry, next: seq<Option<nat>>)

  /** Where the writer stands in Insert: each step but the search is one store. */
  datatype Insertion =
    | Idle
    | Searched(e: Entry, height: nat, prev: seq<nat>)
    | Raised(e: Entry, height: nat, prev: seq<nat>)
    | Linking(e: Entry, height: nat, prev: seq<nat>, x: nat, i: nat, filled: bool)

  ghost function Following(ids: seq<nat>, q: nat): Option<nat>
    requires q < |ids|
  {
    if q + 1 < |ids| then Some(ids[q + 1]) else None
  }

  ghost predicate InArena(nodes: seq<Node>, ids: seq<nat>) {
    forall j :: 0 <= j < |ids| ==> ids[j] < |nodes|
  }

  ghost predicate Ascending(nodes: seq<Node>, ids: seq<nat>)
    requires InArena(nodes, ids)
  {
    forall j, k :: 0 < j < k < |ids| ==> Less(nodes[ids[j]].entry.key, nodes[ids[k]].entry.key)
  }

  ghost predicate LinkedUp(nodes: seq<Node>, i: nat, ids: seq<nat>)
    requires InArena(nodes, ids)
  {
    forall j :: 0 <= j < |ids| ==> i < |nodes[ids[j]].next| && nodes[ids[j]].next[i] == Following(ids, j)
  }

  /** Following the links of level `i` from the head visits exactly `ids`, in increasing key order. */
  ghost predicate Chain(nodes: seq<Node>, i: nat, ids: seq<nat>) {
    && |ids| > 0 && ids[0] == HEAD && InArena(nodes, ids)
    && LinkedUp(nodes, i, ids)
    && (forall j :: 0 < j < |ids| ==> ids[j] != HEAD)
    && Ascending(nodes, ids)
  }

  /** How many lists node `n` is in: all of its height, except while it is being linked. */
  ghost function Linked(nodes: seq<Node>, w: Insertion, n: nat): nat
    requires n < |nodes|
  {
    if w.Linking? && w.x == n then w.i else |nodes[n].next|
  }

  ghost predicate Shape(nodes: seq<Node>, lists: seq<seq<nat>>, maxHeight: nat, w: Insertion) {
    && |lists| == MAX_HEIGHT && 1 <= maxHeight <= MAX_HEIGHT && 0 < |nodes|
    && |nodes[HEAD].next| == MAX_HEIGHT
    && (forall i :: 0 <= i < MAX_HEIGHT ==> Chain(nodes, i, lists[i]))
    && (forall n, i :: 0 <= n < |nodes| && 0 <= i < MAX_HEIGHT ==> (n in lists[i] <==> i < Linked(nodes, w, n)))
    && (forall n :: HEAD < n < |nodes| ==> |nodes[n].next| <= maxHeight)
  }

  ghost predicate Before(nodes: seq<Node>, n: nat, k: InternalKey)
    requires n < |nodes|
  {
    n == HEAD || Less(nodes[n].entry.key, k)
  }

  /** KeyIsAfterNode: no node counts as infinite. */
  predicate KeyIsAfterNode(nodes: seq<Node>, k: InternalKey, n: Option<nat>)
    requires n.Some? ==> n.value < |nodes|
  {
    n.Some? && Less(nodes[n.value].entry.key, k)
  }

  /** The nodes of `ids` up to position `q` are before `k`, the others are not. */
  ghost predicate SplitsAt(nodes: seq<Node>, ids: seq<nat>, q: nat, k: InternalKey)
    requires InArena(nodes, ids)
  {
    q < |ids| && Before(nodes, ids[q], k) && !KeyIsAfterNode(nodes, k, Following(ids, q))
  }

  /** `p` is the last node of `ids` before `k`. */
  ghost predicate Splits(nodes: seq<Node>, ids: seq<nat>, p: nat, k: InternalKey)
    requires InArena(nodes, ids)
  {
    exists q: nat :: SplitsAt(nodes, ids, q, k) && ids[q] == p
  }

  ghost function EntriesOn(nodes: seq<Node>, ids: seq<nat>): (es: seq<Entry>)
    requires |ids| > 0 && InArena(nodes, ids)
    ensures |es| == |ids| - 1
    ensures forall j :: 0 <= j < |es| ==> es[j] == nodes[ids[j + 1]].entry
  {
    seq(|ids| - 1, j requires 0 <= j < |ids| - 1 => nodes[ids[j + 1]].entry)
  }

  lemma {:induction false} LowerBoundIs(es: seq<Entry>, k: InternalKey, p: nat)
    requires p <= |es|
    requires forall i :: 0 <= i < p ==> Less(es[i].key, k)
    requires p < |es| ==> !Less(es[p].key, k)
    ensures LowerBound(es, k) == p
  {
  }

  /** Splitting a list is finding the lower bound of its entries. */
  lemma {:induction false} SplitIsLowerBound(nodes: seq<Node>, ids: seq<nat>, i: nat, q: nat, k: InternalKey)
    requires Chain(nodes, i, ids) && SplitsAt(nodes, ids, q, k)
    ensures LowerBound(EntriesOn(nodes, ids), k) == q
  {
    var es := EntriesOn(nodes, ids);
    forall j | 0 <= j < q ensures Less(es[j].key, k) {
      assert j + 1 < q ==> Less(nodes[ids[j + 1]].entry.key, nodes[ids[q]].entry.key);
    }
    LowerBoundIs(es, k, q);
  }

  // ----- what one store does to the lists -----

  function SetNext(nodes: seq<Node>, n: nat, i: nat, v: Option<nat>): seq<Node>
    requires n < |nodes| && i < |nodes[n].next|
  {
    nodes[n := nodes[n].(next := nodes[n].next[i := v])]
  }

  ghost function InsertAfter(ids: seq<nat>, q: nat, x: nat): seq<nat>
    requires q < |ids|
  {
    ids[..q + 1] + [x] + ids[q + 1..]
  }

  /** Nodes stay where they are and keep entry and height. */
  ghost predicate Keeps(a: seq<Node>, b: seq<Node>) {
    && |a| <= |b|
    && forall n :: 0 <= n < |a| ==> a[n].entry == b[n].entry && |a[n].next| == |b[n].next|
  }

  lemma {:induction false} ChainFrame(a: seq<Node>, b: seq<Node>, i: nat, ids: seq<nat>)
    requires Chain(a, i, ids) && Keeps(a, b)
    requires forall j :: 0 <= j < |ids| ==> b[ids[j]].next[i] == a[ids[j]].next[i]
    ensures Chain(b, i, ids)
  {
  }

  lemma {:induction false} InsertAfterAt(ids: seq<nat>, q: nat, x: nat, j: nat)
    requires q < |ids| && j <= |ids|
    ensures |InsertAfter(ids, q, x)| == |ids| + 1
    ensures InsertAfter(ids, q, x)[j] == if j <= q then ids[j] else if j == q + 1 then x else ids[j - 1]
  {
  }

  lemma {:induction false} SplitOrders(nodes: seq<Node>, i: nat, ids: seq<nat>, q: nat, x: nat, j: nat)
    requires Chain(nodes, i, ids) && x < |nodes| && 0 < j < |ids|
    requires SplitsAt(nodes, ids, q, nodes[x].entry.key)
    requires nodes[ids[j]].entry.key != nodes[x].entry.key
    ensures j <= q ==> Less(nodes[ids[j]].entry.key, nodes[x].entry.key)
    ensures j > q ==> Less(nodes[x].entry.key, nodes[ids[j]].entry.key)
  {
    if j < q {
      assert Less(nodes[ids[j]].entry.key, nodes[ids[q]].entry.key);
    } else if j > q + 1 {
      assert Less(nodes[ids[q + 1]].entry.key, nodes[ids[j]].entry.key);
    }
  }

  lemma {:induction false} InsertInArena(nodes: seq<Node>, ids: seq<nat>, q: nat, x: nat)
    requires InArena(nodes, ids) && q < |ids| && x < |nodes|
    ensures InArena(nodes, InsertAfter(ids, q, x))
  {
    forall j | 0 <= j < |ids| + 1 ensures InsertAfter(ids, q, x)[j] < |nodes| {
      InsertAfterAt(ids, q, x, j);
    }
  }

  lemma {:induction false} InsertAscends(nodes: seq<Node>, i: nat, ids: seq<nat>, q: nat, x: nat)
    requires Chain(nodes, i, ids) && x < |nodes|
    requires SplitsAt(nodes, ids, q, nodes[x].entry.key)
    requires forall n :: n in ids && n != HEAD ==> nodes[n].entry.key != nodes[x].entry.key
    requires InArena(nodes, InsertAfter(ids, q, x))
    ensures Ascending(nodes, InsertAfter(ids, q, x))
  {
    var to := InsertAfter(ids, q, x);
    forall j, m | 0 < j < m < |to| ensures Less(nodes[to[j]].entry.key, nodes[to[m]].entry.key) {
      InsertAfterAt(ids, q, x, j);
      InsertAfterAt(ids, q, x, m);
      if j == q + 1 {
        SplitOrders(nodes, i, ids, q, x, m - 1);
      } else if m == q + 1 {
        SplitOrders(nodes, i, ids, q, x, j);
      }
    }
  }

  lemma {:induction false} InsertLinks(nodes: seq<Node>, i: nat, ids: seq<nat>, q: nat, x: nat)
    requires Chain(nodes, i, ids) && HEAD < x < |nodes| && x !in ids && i < |nodes[x].next|
    requires q < |ids| && nodes[x].next[i] == Following(ids, q)
    requires InArena(nodes, InsertAfter(ids, q, x))
    ensures LinkedUp(SetNext(nodes, ids[q], i, Some(x)), i, InsertAfter(ids, q, x))
  {
    var b := SetNext(nodes, ids[q], i, Some(x));
    var to := InsertAfter(ids, q, x);
    forall j | 0 <= j < |to| ensures i < |b[to[j]].next| && b[to[j]].next[i] == Following(to, j) {
      InsertAfterAt(ids, q, x, j);
      if j + 1 < |to| {
        InsertAfterAt(ids, q, x, j + 1);
      }
      if j != q + 1 {
        PositionsDiffer(nodes, i, ids, if j <= q then j else j - 1, q);
      }
    }
  }

  lemma {:induction false} ChainInsert(nodes: seq<Node>, i: nat, ids: seq<nat>, q: nat, x: nat)
    requires Chain(nodes, i, ids) && HEAD < x < |nodes| && x !in ids && i < |nodes[x].next|
    requires SplitsAt(nodes, ids, q, nodes[x].entry.key)
    requires forall n :: n in ids && n != HEAD ==> nodes[n].entry.key != nodes[x].entry.key
    requires nodes[x].next[i] == Following(ids, q)
    ensures Chain(SetNext(nodes, ids[q], i, Some(x)), i, InsertAfter(ids, q, x))
  {
    InsertInArena(nodes, ids, q, x);
    InsertAscends(nodes, i, ids, q, x);
    InsertLinks(nodes, i, ids, q, x);
    var b := SetNext(nodes, ids[q], i, Some(x));
    var to := InsertAfter(ids, q, x);
    forall j | 0 < j < |to| ensures to[j] != HEAD {
      InsertAfterAt(ids, q, x, j);
    }
    InsertAfterAt(ids, q, x, 0);
    AscendingFrame(nodes, b, to);
  }

  lemma {:induction false} AscendingFrame(a: seq<Node>, b: seq<Node>, ids: seq<nat>)
    requires InArena(a, ids) && Ascending(a, ids) && Keeps(a, b)
    ensures InArena(b, ids) && Ascending(b, ids)
  {
  }

  lemma {:induction false} PositionsDiffer(nodes: seq<Node>, i: nat, ids: seq<nat>, j: nat, m: nat)
    requires Chain(nodes, i, ids) && j < |ids| && m < |ids|
    ensures ids[j] == ids[m] <==> j == m
  {
    if 0 < j < m {
      assert Less(nodes[ids[j]].entry.key, nodes[ids[m]].entry.key);
    } else if 0 < m < j {
      assert Less(nodes[ids[m]].entry.key, nodes[ids[j]].entry.key);
    }
  }

  // ----- the invariant, and the writer's stores one by one -----

  ghost predicate Fresh(nodes: seq<Node>, ids: seq<nat>, k: InternalKey)
    requires InArena(nodes, ids)
  {
    forall n :: n in ids && n != HEAD ==> nodes[n].entry.key != k
  }

  /** In the lists from `lo` to `hi`, `prev` is where `k` belongs, and `k` is not there yet. */
  ghost predicate Ready(nodes: seq<Node>, lists: seq<seq<nat>>, k: InternalKey, prev: seq<nat>, lo: nat, hi: nat)
    requires forall i :: 0 <= i < |lists| ==> InArena(nodes, lists[i])
  {
    && hi <= |prev| && hi <= |lists|
    && forall i: nat {:trigger prev[i]} :: lo <= i < hi ==> Splits(nodes, lists[i], prev[i], k) && Fresh(nodes, lists[i], k)
  }

  ghost predicate Stage(nodes: seq<Node>, lists: seq<seq<nat>>, maxHeight: nat, w: Insertion)
    requires Shape(nodes, lists, maxHeight, w)
  {
    match w
    case Idle => true
    case Searched(e, height, prev) =>
      1 <= height <= MAX_HEIGHT && |prev| == maxHeight && Ready(nodes, lists, e.key, prev, 0, maxHeight)
    case Raised(e, height, prev) =>
      1 <= height <= maxHeight && Ready(nodes, lists, e.key, prev, 0, height)
    case Linking(e, height, prev, x, i, filled) =>
      && i < height <= maxHeight && Ready(nodes, lists, e.key, prev, i, height)
      && HEAD < x < |nodes| && nodes[x].entry == e && |nodes[x].next| == height
      && (filled ==> prev[i] < |nodes| && i < |nodes[prev[i]].next| && nodes[x].next[i] == nodes[prev[i]].next[i])
  }

  ghost predicate Sound(nodes: seq<Node>, lists: seq<seq<nat>>, maxHeight: nat, w: Insertion) {
    Shape(nodes, lists, maxHeight, w) && Stage(nodes, lists, maxHeight, w)
  }

  lemma {:induction false} EmptyAbove(nodes: seq<Node>, lists: seq<seq<nat>>, maxHeight: nat, w: Insertion, i: nat)
    requires Shape(nodes, lists, maxHeight, w) && maxHeight <= i < MAX_HEIGHT
    requires w.Linking? ==> w.i <= maxHeight
    ensures lists[i] == [HEAD]
  {
    var ids := lists[i];
    assert Chain(nodes, i, ids);
    forall n | n in ids ensures n == HEAD {
      assert i < Linked(nodes, w, n);
    }
    assert ids[|ids| - 1] in ids;
  }

  lemma {:induction false} ReadyFrame(a: seq<Node>, b: seq<Node>, lists: seq<seq<nat>>, to: seq<seq<nat>>,
      k: InternalKey, prev: seq<nat>, lo: nat, hi: nat)
    requires (forall i :: 0 <= i < |lists| ==> InArena(a, lists[i])) && |to| == |lists| && Keeps(a, b)
    requires Ready(a, lists, k, prev, lo, hi)
    requires forall i :: lo <= i < |lists| ==> to[i] == lists[i]
    requires forall i :: 0 <= i < |to| ==> InArena(b, to[i])
    ensures Ready(b, to, k, prev, lo, hi)
  {
    forall i: nat | lo <= i < hi ensures Splits(b, to[i], prev[i], k) && Fresh(b, to[i], k) {
      assert Splits(a, lists[i], prev[i], k);
      var q: nat :| SplitsAt(a, lists[i], q, k) && lists[i][q] == prev[i];
      assert SplitsAt(b, to[i], q, k);
    }
  }

  function Padded(prev: seq<nat>, height: nat): seq<nat> {
    if |prev| < height then prev + seq(height - |prev|, _ => HEAD) else prev
  }

  lemma {:induction false} RaiseKeeps(nodes: seq<Node>, lists: seq<seq<nat>>, maxHeight: nat, w: Insertion)
    requires Sound(nodes, lists, maxHeight, w) && w.Searched?
    ensures Sound(nodes, lists, if w.height > maxHeight then w.height else maxHeight, Raised(w.e, w.height, Padded(w.prev, w.height)))
  {
    var high := if w.height > maxHeight then w.height else maxHeight;
    var to := Raised(w.e, w.height, Padded(w.prev, w.height));
    forall n | 0 <= n < |nodes| ensures Linked(nodes, to, n) == Linked(nodes, w, n) {
    }
    forall i: nat | 0 <= i < w.height
      ensures Splits(nodes, lists[i], to.prev[i], w.e.key) && Fresh(nodes, lists[i], w.e.key)
    {
      if i < maxHeight {
        assert to.prev[i] == w.prev[i];
      } else {
        EmptyAbove(nodes, lists, maxHeight, w, i);
        assert SplitsAt(nodes, lists[i], 0, w.e.key);
      }
    }
  }

  lemma {:induction false} NewNodeKeeps(nodes: seq<Node>, lists: seq<seq<nat>>, maxHeight: nat, w: Insertion)
    requires Sound(nodes, lists, maxHeight, w) && w.Raised?
    ensures var b := nodes + [Node(w.e, seq(w.height, _ => None))];
      Keeps(nodes, b) && Sound(b, lists, maxHeight, Linking(w.e, w.height, w.prev, |nodes|, 0, false))
  {
    var b := nodes + [Node(w.e, seq(w.height, _ => None))];
    var to := Linking(w.e, w.height, w.prev, |nodes|, 0, false);
    forall i | 0 <= i < MAX_HEIGHT ensures Chain(b, i, lists[i]) {
      ChainFrame(nodes, b, i, lists[i]);
    }
    forall n, i | 0 <= n < |b| && 0 <= i < MAX_HEIGHT ensures n in lists[i] <==> i < Linked(b, to, n) {
      assert Chain(nodes, i, lists[i]);
      if n < |nodes| {
        assert n in lists[i] <==> i < Linked(nodes, w, n);
      }
    }
    ReadyFrame(nodes, b, lists, lists, w.e.key, w.prev, 0, w.height);
  }

  /** The place a new node goes at its next level. */
  lemma {:induction false} NextPlace(nodes: seq<Node>, lists: seq<seq<nat>>, maxHeight: nat, w: Insertion)
    returns (q: nat)
    requires Sound(nodes, lists, maxHeight, w) && w.Linking?
    ensures SplitsAt(nodes, lists[w.i], q, w.e.key) && lists[w.i][q] == w.prev[w.i]
    ensures w.prev[w.i] in lists[w.i] && w.prev[w.i] < |nodes| && w.i < |nodes[w.prev[w.i]].next|
    ensures nodes[w.prev[w.i]].next[w.i] == Following(lists[w.i], q)
    ensures w.x !in lists[w.i] && w.x != w.prev[w.i]
  {
    assert Chain(nodes, w.i, lists[w.i]);
    assert Splits(nodes, lists[w.i], w.prev[w.i], w.e.key);
    q :| SplitsAt(nodes, lists[w.i], q, w.e.key) && lists[w.i][q] == w.prev[w.i];
    assert w.x in lists[w.i] <==> w.i < Linked(nodes, w, w.x);
  }

  /** A store into one link leaves alone every list that does not run through it. */
  lemma {:induction false} StoreElsewhere(nodes: seq<Node>, i: nat, ids: seq<nat>, n: nat, level: nat, v: Option<nat>)
    requires Chain(nodes, i, ids) && n < |nodes| && level < |nodes[n].next|
    requires i != level || n !in ids
    ensures Keeps(nodes, SetNext(nodes, n, level, v)) && Chain(SetNext(nodes, n, level, v), i, ids)
  {
    var b := SetNext(nodes, n, level, v);
    forall j | 0 <= j < |ids| ensures b[ids[j]].next[i] == nodes[ids[j]].next[i] {
      assert ids[j] in ids;
    }
    ChainFrame(nodes, b, i, ids);
  }

  lemma {:induction false} ShapeFrame(a: seq<Node>, b: seq<Node>, lists: seq<seq<nat>>, maxHeight: nat,
      w: Insertion, to: Insertion)
    requires Shape(a, lists, maxHeight, w) && Keeps(a, b) && |a| == |b|
    requires forall i :: 0 <= i < MAX_HEIGHT ==> Chain(b, i, lists[i])
    requires forall n :: 0 <= n < |b| ==> Linked(b, to, n) == Linked(a, w, n)
    ensures Shape(b, lists, maxHeight, to)
  {
  }

  lemma {:induction false} FillKeeps(nodes: seq<Node>, lists: seq<seq<nat>>, maxHeight: nat, w: Insertion)
    requires Sound(nodes, lists, maxHeight, w) && w.Linking?
    requires w.prev[w.i] < |nodes| && w.i < |nodes[w.prev[w.i]].next|
    ensures var b := SetNext(nodes, w.x, w.i, nodes[w.prev[w.i]].next[w.i]);
      Keeps(nodes, b) && Sound(b, lists, maxHeight, w.(filled := true))
  {
    var q := NextPlace(nodes, lists, maxHeight, w);
    var v := nodes[w.prev[w.i]].next[w.i];
    var b := SetNext(nodes, w.x, w.i, v);
    forall i | 0 <= i < MAX_HEIGHT ensures Chain(b, i, lists[i]) {
      StoreElsewhere(nodes, i, lists[i], w.x, w.i, v);
    }
    ShapeFrame(nodes, b, lists, maxHeight, w, w.(filled := true));
    ReadyFrame(nodes, b, lists, lists, w.e.key, w.prev, w.i, w.height);
  }

  function Onward(w: Insertion): Insertion
    requires w.Linking?
  {
    if w.i + 1 == w.height then Idle else w.(i := w.i + 1, filled := false)
  }

  lemma {:induction false} InsertAfterMembers(ids: seq<nat>, q: nat, x: nat, n: nat)
    requires q < |ids|
    ensures n in InsertAfter(ids, q, x) <==> n in ids || n == x
  {
    assert ids == ids[..q + 1] + ids[q + 1..];
  }

  lemma {:induction false} PublishChains(nodes: seq<Node>, lists: seq<seq<nat>>, maxHeight: nat, w: Insertion,
      q: nat, b: seq<Node>, to: seq<seq<nat>>)
    requires Sound(nodes, lists, maxHeight, w) && w.Linking? && w.filled
    requires SplitsAt(nodes, lists[w.i], q, w.e.key) && lists[w.i][q] == w.prev[w.i]
    requires w.i < |nodes[w.prev[w.i]].next|
    requires b == SetNext(nodes, w.prev[w.i], w.i, Some(w.x)) && to == lists[w.i := InsertAfter(lists[w.i], q, w.x)]
    ensures Keeps(nodes, b) && forall i :: 0 <= i < MAX_HEIGHT ==> Chain(b, i, to[i])
  {
    var p := NextPlace(nodes, lists, maxHeight, w);
    assert Chain(nodes, w.i, lists[w.i]);
    PositionsDiffer(nodes, w.i, lists[w.i], p, q);
    assert Fresh(nodes, lists[w.i], w.e.key) by {
      assert Splits(nodes, lists[w.i], w.prev[w.i], w.e.key);
    }
    forall i | 0 <= i < MAX_HEIGHT ensures Chain(b, i, to[i]) {
      if i == w.i {
        ChainInsert(nodes, i, lists[i], q, w.x);
      } else {
        StoreElsewhere(nodes, i, lists[i], w.prev[w.i], w.i, Some(w.x));
      }
    }
  }

  lemma {:induction false} PublishMembers(nodes: seq<Node>, lists: seq<seq<nat>>, maxHeight: nat, w: Insertion,
      q: nat, b: seq<Node>, to: seq<seq<nat>>, n: nat, i: nat)
    requires Sound(nodes, lists, maxHeight, w) && w.Linking? && Keeps(nodes, b) && |b| == |nodes|
    requires q < |lists[w.i]| && to == lists[w.i := InsertAfter(lists[w.i], q, w.x)]
    requires n < |b| && i < MAX_HEIGHT
    ensures n in to[i] <==> i < Linked(b, Onward(w), n)
  {
    assert n in lists[i] <==> i < Linked(nodes, w, n);
    if i == w.i {
      InsertAfterMembers(lists[i], q, w.x, n);
    }
  }

  lemma {:induction false} PublishKeeps(nodes: seq<Node>, lists: seq<seq<nat>>, maxHeight: nat, w: Insertion, q: nat)
    requires Sound(nodes, lists, maxHeight, w) && w.Linking? && w.filled
    requires SplitsAt(nodes, lists[w.i], q, w.e.key) && lists[w.i][q] == w.prev[w.i]
    requires w.i < |nodes[w.prev[w.i]].next|
    ensures var b := SetNext(nodes, w.prev[w.i], w.i, Some(w.x));
      Keeps(nodes, b) && Sound(b, lists[w.i := InsertAfter(lists[w.i], q, w.x)], maxHeight, Onward(w))
  {
    var b := SetNext(nodes, w.prev[w.i], w.i, Some(w.x));
    var to := lists[w.i := InsertAfter(lists[w.i], q, w.x)];
    PublishChains(nodes, lists, maxHeight, w, q, b, to);
    PublishShape(nodes, lists, maxHeight, w, q, b, to);
    if w.i + 1 < w.height {
      ReadyFrame(nodes, b, lists, to, w.e.key, w.prev, w.i + 1, w.height);
    }
  }

  lemma {:induction false} PublishShape(nodes: seq<Node>, lists: seq<seq<nat>>, maxHeight: nat, w: Insertion,
      q: nat, b: seq<Node>, to: seq<seq<nat>>)
    requires Sound(nodes, lists, maxHeight, w) && w.Linking? && Keeps(nodes, b) && |b| == |nodes|
    requires q < |lists[w.i]| && to == lists[w.i := InsertAfter(lists[w.i], q, w.x)]
    requires forall i :: 0 <= i < MAX_HEIGHT ==> Chain(b, i, to[i])
    ensures Shape(b, to, maxHeight, Onward(w))
  {
    forall n, i | 0 <= n < |b| && 0 <= i < MAX_HEIGHT ensures n in to[i] <==> i < Linked(b, Onward(w), n) {
      PublishMembers(nodes, lists, maxHeight, w, q, b, to, n, i);
    }
  }

  // ----- the contents -----

  function Inserted(es: seq<Entry>, e: Entry): (r: seq<Entry>) {
    var q := LowerBound(es, e.key);
    es[..q] + [e] + es[q..]
  }

  lemma {:induction false} InsertedAt(es: seq<Entry>, e: Entry, j: nat)
    requires j <= |es|
    ensures var q := LowerBound(es, e.key);
      |Inserted(es, e)| == |es| + 1 && Inserted(es, e)[j] == if j < q then es[j] else if j == q then e else es[j - 1]
  {
  }

  /** Linking a node at level 0 is what puts its entry into the list. */
  lemma {:induction false} PublishContents(nodes: seq<Node>, ids: seq<nat>, q: nat, x: nat, b: seq<Node>)
    requires Chain(nodes, 0, ids) && Keeps(nodes, b) && x < |nodes| && SplitsAt(nodes, ids, q, nodes[x].entry.key)
    ensures InArena(b, InsertAfter(ids, q, x))
    ensures EntriesOn(b, InsertAfter(ids, q, x)) == Inserted(EntriesOn(nodes, ids), nodes[x].entry)
  {
    SplitIsLowerBound(nodes, ids, 0, q, nodes[x].entry.key);
    InsertInArena(nodes, ids, q, x);
    EntriesInserted(nodes, ids, q, x, b);
  }

  lemma {:induction false} EntriesInserted(nodes: seq<Node>, ids: seq<nat>, q: nat, x: nat, b: seq<Node>)
    requires q < |ids| && x < |nodes| && InArena(nodes, ids) && Keeps(nodes, b) && InArena(b, InsertAfter(ids, q, x))
    requires LowerBound(EntriesOn(nodes, ids), nodes[x].entry.key) == q
    ensures EntriesOn(b, InsertAfter(ids, q, x)) == Inserted(EntriesOn(nodes, ids), nodes[x].entry)
  {
    var e := nodes[x].entry;
    var es := EntriesOn(nodes, ids);
    var to := InsertAfter(ids, q, x);
    forall j | 0 <= j <= |es| ensures EntriesOn(b, to)[j] == Inserted(es, e)[j] {
      InsertAfterAt(ids, q, x, j + 1);
      InsertedAt(es, e, j);
    }
    InsertAfterAt(ids, q, x, 0);
    InsertedAt(es, e, 0);
  }

  lemma {:induction false} ContentsFrame(a: seq<Node>, b: seq<Node>, ids: seq<nat>)
    requires |ids| > 0 && InArena(a, ids) && Keeps(a, b)
    ensures InArena(b, ids) && EntriesOn(b, ids) == EntriesOn(a, ids)
  {
    assert EntriesOn(b, ids) == EntriesOn(a, ids);
  }

  /** Every node of `to` was in `from` already or carries an entry newer than `above`. */
  ghost predicate GrowsBy(from: seq<nat>, b: seq<Node>, to: seq<nat>, above: int)
    requires InArena(b, to)
  {
    && (forall n :: n in from ==> n in to)
    && forall n :: n in to && n !in from ==> b[n].entry.key.sn > above
  }

  /** What other threads may have seen of the lists only grows, and only by entries newer than `above`. */
  ghost predicate Evolves(a: seq<Node>, from: seq<seq<nat>>, b: seq<Node>, to: seq<seq<nat>>, above: int) {
    && Keeps(a, b) && |from| == |to|
    && forall i :: 0 <= i < |to| ==> InArena(b, to[i]) && GrowsBy(from[i], b, to[i], above)
  }

  lemma {:induction false} EvolvesOn(a: seq<Node>, from: seq<seq<nat>>, b: seq<Node>, mid: seq<seq<nat>>,
      c: seq<Node>, to: seq<seq<nat>>, above: int)
    requires Evolves(a, from, b, mid, above) && Evolves(b, mid, c, to, above)
    ensures Evolves(a, from, c, to, above)
  {
    forall i | 0 <= i < |to| ensures GrowsBy(from[i], c, to[i], above) {
      assert InArena(b, mid[i]) && GrowsBy(from[i], b, mid[i], above) && GrowsBy(mid[i], c, to[i], above);
    }
  }

  lemma {:induction false} PublishEvolves(nodes: seq<Node>, lists: seq<seq<nat>>, b: seq<Node>, i: nat, q: nat,
      x: nat, above: int)
    requires Keeps(nodes, b) && i < |lists| && q < |lists[i]| && x < |b| && b[x].entry.key.sn > above
    requires forall j :: 0 <= j < |lists| ==> InArena(nodes, lists[j])
    ensures Evolves(nodes, lists, b, lists[i := InsertAfter(lists[i], q, x)], above)
  {
    var to := InsertAfter(lists[i], q, x);
    forall n: nat ensures n in to <==> n in lists[i] || n == x {
      InsertAfterMembers(lists[i], q, x, n);
    }
    InsertInArena(b, lists[i], q, x);
    assert GrowsBy(lists[i], b, to, above);
  }

  // ----- searching while the writer runs -----

  ghost predicate Beyond(nodes: seq<Node>, x: nat, n: nat)
    requires x < |nodes| && n < |nodes|
  {
    n != HEAD && (x == HEAD || Less(nodes[x].entry.key, nodes[n].entry.key))
  }

  /** How many allocated nodes are still ahead of `x`: what bounds a search. */
  ghost function Ahead(nodes: seq<Node>, x: nat): nat
    requires x < |nodes|
  {
    |set n: nat | n < |nodes| && Beyond(nodes, x, n)|
  }

  lemma {:induction false} SmallerSet(a: set<nat>, b: set<nat>)
    requires a <= b
    ensures |a| <= |b| && (a != b ==> |a| < |b|)
  {
    assert b == a + (b - a);
    assert |b| == |a| + |b - a|;
  }

  lemma {:induction false} StepAhead(nodes: seq<Node>, x: nat, y: nat)
    requires x < |nodes| && y < |nodes| && Beyond(nodes, x, y)
    ensures Ahead(nodes, y) < Ahead(nodes, x)
  {
    var a := set n: nat | n < |nodes| && Beyond(nodes, y, n);
    var b := set n: nat | n < |nodes| && Beyond(nodes, x, n);
    assert y in b && y !in a;
    SmallerSet(a, b);
  }

  lemma {:induction false} AheadGrows(a: seq<Node>, b: seq<Node>, x: nat)
    requires Keeps(a, b) && x < |a|
    ensures Ahead(b, x) <= Ahead(a, x) + |b| - |a|
    decreases |b| - |a|
  {
    var s := set n: nat | n < |a| && Beyond(a, x, n);
    var t := set n: nat | n < |b| && Beyond(b, x, n);
    if |a| == |b| {
      SmallerSet(t, s);
    } else {
      var c := b[..|b| - 1];
      AheadGrows(a, c, x);
      var u := set n: nat | n < |c| && Beyond(c, x, n);
      SmallerSet(t, u + {|c|});
      assert |u + {|c|}| <= |u| + 1;
    }
  }

  /** What one load of a link gives a search that stands at `x` in list `level`. */
  lemma {:induction false} LoadLink(nodes: seq<Node>, lists: seq<seq<nat>>, maxHeight: nat, w: Insertion,
      level: nat, x: nat) returns (q: nat)
    requires Shape(nodes, lists, maxHeight, w) && level < MAX_HEIGHT && x in lists[level]
    ensures q < |lists[level]| && lists[level][q] == x && (x == HEAD <==> q == 0)
    ensures x < |nodes| && level < |nodes[x].next|
    ensures nodes[x].next[level] == Following(lists[level], q)
    ensures nodes[x].next[level].Some? ==>
      var y := nodes[x].next[level].value; y in lists[level] && y < |nodes| && Beyond(nodes, x, y)
    ensures level > 0 ==> x in lists[level - 1]
  {
    var ids := lists[level];
    assert Chain(nodes, level, ids);
    q :| 0 <= q < |ids| && ids[q] == x;
    assert q > 0 ==> x != HEAD;
    assert level < Linked(nodes, w, x);
  }

  lemma {:induction false} EvolvesRefl(nodes: seq<Node>, lists: seq<seq<nat>>, maxHeight: nat, w: Insertion, above: int)
    requires Shape(nodes, lists, maxHeight, w)
    ensures Evolves(nodes, lists, nodes, lists, above)
  {
    forall i | 0 <= i < |lists| ensures InArena(nodes, lists[i]) {
      assert Chain(nodes, i, lists[i]);
    }
  }

  lemma {:induction false} EvolvesFrame(a: seq<Node>, b: seq<Node>, lists: seq<seq<nat>>, maxHeight: nat,
      w: Insertion, above: int)
    requires Keeps(a, b) && Shape(b, lists, maxHeight, w)
    ensures Evolves(a, lists, b, lists, above)
  {
    EvolvesRefl(b, lists, maxHeight, w, above);
  }

  lemma {:induction false} HeadIsEverywhere(nodes: seq<Node>, lists: seq<seq<nat>>, maxHeight: nat,
      w: Insertion, i: nat)
    requires Shape(nodes, lists, maxHeight, w) && i < MAX_HEIGHT
    ensures HEAD in lists[i]
  {
    assert Chain(nodes, i, lists[i]);
  }

  /** With no insertion under way, what level 0 does not hold no level holds. */
  lemma {:induction false} AbsentEverywhere(nodes: seq<Node>, lists: seq<seq<nat>>, maxHeight: nat,
      w: Insertion, k: InternalKey)
    requires Shape(nodes, lists, maxHeight, w) && w.Idle?
    requires InArena(nodes, lists[0]) && |lists[0]| > 0
    requires var es := EntriesOn(nodes, lists[0]); var q := LowerBound(es, k); q < |es| ==> es[q].key != k
    ensures forall i :: 0 <= i < MAX_HEIGHT ==> InArena(nodes, lists[i]) && Fresh(nodes, lists[i], k)
  {
    var es := EntriesOn(nodes, lists[0]);
    assert Chain(nodes, 0, lists[0]);
    forall i | 0 <= i < MAX_HEIGHT ensures InArena(nodes, lists[i]) && Fresh(nodes, lists[i], k) {
      assert Chain(nodes, i, lists[i]);
      forall n | n in lists[i] && n != HEAD ensures nodes[n].entry.key != k {
        assert 0 < Linked(nodes, w, n);
        assert n in lists[0];
        var j :| 0 <= j < |lists[0]| && lists[0][j] == n;
        AbsentFrom(es, k, j - 1);
      }
    }
  }

  lemma {:induction false} AbsentFrom(es: seq<Entry>, k: InternalKey, j: nat)
    requires Sorted(es) && j < |es|
    requires LowerBound(es, k) < |es| ==> es[LowerBound(es, k)].key != k
    ensures es[j].key != k
  {
    LowerBoundSplits(es, k, j);
    var q := LowerBound(es, k);
    assert q < j ==> Less(es[q].key, es[j].key);
  }

  /** A key is in a sorted sequence exactly when its lower bound carries it. */
  lemma {:induction false} AbsentIff(es: seq<Entry>, k: InternalKey)
    requires Sorted(es)
    ensures (forall f :: f in es ==> f.key != k) <==> (LowerBound(es, k) < |es| ==> es[LowerBound(es, k)].key != k)
  {
    if LowerBound(es, k) < |es| ==> es[LowerBound(es, k)].key != k {
      forall f | f in es ensures f.key != k {
        var j :| 0 <= j < |es| && es[j] == f;
        AbsentFrom(es, k, j);
      }
    }
  }

  lemma {:induction false} BeginKeeps(nodes: seq<Node>, lists: seq<seq<nat>>, maxHeight: nat, w: Insertion)
    requires Shape(nodes, lists, maxHeight, Idle) && w.Searched? && 1 <= w.height <= MAX_HEIGHT && |w.prev| == maxHeight
    requires forall i :: 0 <= i < MAX_HEIGHT ==> InArena(nodes, lists[i]) && Fresh(nodes, lists[i], w.e.key)
    requires forall i :: 0 <= i < maxHeight ==> InArena(nodes, lists[i]) && Splits(nodes, lists[i], w.prev[i], w.e.key)
    ensures Sound(nodes, lists, maxHeight, w)
  {
    forall i | 0 <= i < MAX_HEIGHT ensures Chain(nodes, i, lists[i]) {
    }
    forall n | 0 <= n < |nodes| ensures Linked(nodes, w, n) == Linked(nodes, Idle, n) {
    }
    ShapeFrame(nodes, nodes, lists, maxHeight, Idle, w);
  }

  // ----- the invariant as one sealed fact, and each step's effect on it -----

  /** `Sound`, sealed: the steps below carry it as one fact and `OpenRunning` opens it. */
  ghost predicate Running(nodes: seq<Node>, lists: seq<seq<nat>>, maxHeight: nat, w: Insertion) {
    RunningSeal(maxHeight + 9, nodes, lists, maxHeight, w)
  }

  ghost predicate RunningSeal(k: nat, nodes: seq<Node>, lists: seq<seq<nat>>, maxHeight: nat, w: Insertion) {
    if k == 0 then Sound(nodes, lists, maxHeight, w) else RunningSeal(k - 1, nodes, lists, maxHeight, w)
  }

  lemma {:induction false} RunningSealOpens(k: nat, nodes: seq<Node>, lists: seq<seq<nat>>, maxHeight: nat,
      w: Insertion)
    ensures RunningSeal(k, nodes, lists, maxHeight, w) <==> Sound(nodes, lists, maxHeight, w)
  {
    if k > 0 {
      RunningSealOpens(k - 1, nodes, lists, maxHeight, w);
    }
  }

  lemma {:induction false} OpenRunning(nodes: seq<Node>, lists: seq<seq<nat>>, maxHeight: nat, w: Insertion)
    ensures Running(nodes, lists, maxHeight, w) <==> Sound(nodes, lists, maxHeight, w)
    ensures Sound(nodes, lists, maxHeight, w) ==>
      |lists[0]| > 0 && InArena(nodes, lists[0]) && Evolves(nodes, lists, nodes, lists, 0)
  {
    RunningSealOpens(maxHeight + 9, nodes, lists, maxHeight, w);
    if Sound(nodes, lists, maxHeight, w) {
      assert Chain(nodes, 0, lists[0]);
      EvolvesRefl(nodes, lists, maxHeight, w, 0);
    }
  }

  /** `Evolves`, sealed. */
  ghost predicate Grown(a: seq<Node>, from: seq<seq<nat>>, b: seq<Node>, to: seq<seq<nat>>, above: int) {
    GrownSeal(|a| + 9, a, from, b, to, above)
  }

  ghost predicate GrownSeal(k: nat, a: seq<Node>, from: seq<seq<nat>>, b: seq<Node>, to: seq<seq<nat>>, above: int) {
    if k == 0 then Evolves(a, from, b, to, above) else GrownSeal(k - 1, a, from, b, to, above)
  }

  lemma {:induction false} GrownSealOpens(k: nat, a: seq<Node>, from: seq<seq<nat>>, b: seq<Node>,
      to: seq<seq<nat>>, above: int)
    ensures GrownSeal(k, a, from, b, to, above) <==> Evolves(a, from, b, to, above)
  {
    if k > 0 {
      GrownSealOpens(k - 1, a, from, b, to, above);
    }
  }

  lemma {:induction false} OpenGrown(a: seq<Node>, from: seq<seq<nat>>, b: seq<Node>, to: seq<seq<nat>>, above: int)
    ensures Grown(a, from, b, to, above) <==> Evolves(a, from, b, to, above)
  {
    GrownSealOpens(|a| + 9, a, from, b, to, above);
  }

  lemma {:induction false} GrownRefl(nodes: seq<Node>, lists: seq<seq<nat>>, maxHeight: nat, w: Insertion, above: int)
    requires Running(nodes, lists, maxHeight, w)
    ensures Grown(nodes, lists, nodes, lists, above)
  {
    OpenRunning(nodes, lists, maxHeight, w);
    EvolvesRefl(nodes, lists, maxHeight, w, above);
    OpenGrown(nodes, lists, nodes, lists, above);
  }

  lemma {:induction false} GrownOn(a: seq<Node>, from: seq<seq<nat>>, b: seq<Node>, mid: seq<seq<nat>>,
      c: seq<Node>, to: seq<seq<nat>>, above: int)
    requires Grown(a, from, b, mid, above) && Grown(b, mid, c, to, above)
    ensures Grown(a, from, c, to, above)
  {
    OpenGrown(a, from, b, mid, above);
    OpenGrown(b, mid, c, to, above);
    EvolvesOn(a, from, b, mid, c, to, above);
    OpenGrown(a, from, c, to, above);
  }

  /** The entries on list 0, in order: what the list holds. */
  ghost function Listed(nodes: seq<Node>, lists: seq<seq<nat>>, maxHeight: nat, w: Insertion): (es: seq<Entry>)
    requires Running(nodes, lists, maxHeight, w)
    ensures Sorted(es)
  {
    OpenRunning(nodes, lists, maxHeight, w);
    assert Chain(nodes, 0, lists[0]);
    EntriesOn(nodes, lists[0])
  }

  /** The node after `q` others on list 0. */
  ghost function NodeAt(lists: seq<seq<nat>>, q: nat): Option<nat> {
    if |lists| > 0 && q + 1 < |lists[0]| then Some(lists[0][q + 1]) else None
  }

  lemma {:induction false} NodeAtHolds(nodes: seq<Node>, lists: seq<seq<nat>>, maxHeight: nat, w: Insertion, q: nat)
    requires Running(nodes, lists, maxHeight, w)
    ensures var es := Listed(nodes, lists, maxHeight, w);
      && (NodeAt(lists, q).Some? <==> q < |es|)
      && (q < |es| ==> NodeAt(lists, q).value < |nodes| && nodes[NodeAt(lists, q).value].entry == es[q])
  {
    OpenRunning(nodes, lists, maxHeight, w);
    assert Chain(nodes, 0, lists[0]);
  }

  lemma {:induction false} RaiseStep(nodes: seq<Node>, lists: seq<seq<nat>>, maxHeight: nat, w: Insertion, above: int)
    requires Running(nodes, lists, maxHeight, w) && w.Searched?
    ensures var high := if w.height > maxHeight then w.height else maxHeight;
      var to := Raised(w.e, w.height, Padded(w.prev, w.height));
      Running(nodes, lists, high, to) && Listed(nodes, lists, high, to) == Listed(nodes, lists, maxHeight, w)
  {
    OpenRunning(nodes, lists, maxHeight, w);
    RaiseKeeps(nodes, lists, maxHeight, w);
    OpenRunning(nodes, lists, if w.height > maxHeight then w.height else maxHeight, Raised(w.e, w.height,
        Padded(w.prev, w.height)));
  }

  lemma {:induction false} MakeNodeStep(nodes: seq<Node>, lists: seq<seq<nat>>, maxHeight: nat, w: Insertion,
      above: int)
    requires Running(nodes, lists, maxHeight, w) && w.Raised?
    ensures var b := nodes + [Node(w.e, seq(w.height, _ => None))];
      var to := Linking(w.e, w.height, w.prev, |nodes|, 0, false);
      && Running(b, lists, maxHeight, to) && Grown(nodes, lists, b, lists, above)
      && Listed(b, lists, maxHeight, to) == Listed(nodes, lists, maxHeight, w)
  {
    var b := nodes + [Node(w.e, seq(w.height, _ => None))];
    var to := Linking(w.e, w.height, w.prev, |nodes|, 0, false);
    OpenRunning(nodes, lists, maxHeight, w);
    NewNodeKeeps(nodes, lists, maxHeight, w);
    OpenRunning(b, lists, maxHeight, to);
    QuietStep(nodes, b, lists, maxHeight, w, to, above);
  }

  /** A store that no list runs through yet changes nothing a reader can see. */
  lemma {:induction false} QuietStep(a: seq<Node>, b: seq<Node>, lists: seq<seq<nat>>, maxHeight: nat,
      w: Insertion, to: Insertion, above: int)
    requires Running(a, lists, maxHeight, w) && Running(b, lists, maxHeight, to) && Keeps(a, b)
    ensures Grown(a, lists, b, lists, above)
    ensures Listed(b, lists, maxHeight, to) == Listed(a, lists, maxHeight, w)
  {
    OpenRunning(a, lists, maxHeight, w);
    OpenRunning(b, lists, maxHeight, to);
    EvolvesFrame(a, b, lists, maxHeight, to, above);
    OpenGrown(a, lists, b, lists, above);
    ContentsFrame(a, b, lists[0]);
  }

  lemma {:induction false} FillStep(nodes: seq<Node>, lists: seq<seq<nat>>, maxHeight: nat, w: Insertion, above: int)
    requires Running(nodes, lists, maxHeight, w) && w.Linking?
    ensures w.x < |nodes| && w.i < |nodes[w.x].next|
    ensures w.i < |w.prev| && w.prev[w.i] < |nodes| && w.i < |nodes[w.prev[w.i]].next|
    ensures var b := SetNext(nodes, w.x, w.i, nodes[w.prev[w.i]].next[w.i]);
      var to := w.(filled := true);
      && Running(b, lists, maxHeight, to) && Grown(nodes, lists, b, lists, above)
      && Listed(b, lists, maxHeight, to) == Listed(nodes, lists, maxHeight, w)
  {
    OpenRunning(nodes, lists, maxHeight, w);
    var q := NextPlace(nodes, lists, maxHeight, w);
    FillKeeps(nodes, lists, maxHeight, w);
    var b := SetNext(nodes, w.x, w.i, nodes[w.prev[w.i]].next[w.i]);
    OpenRunning(b, lists, maxHeight, w.(filled := true));
    QuietStep(nodes, b, lists, maxHeight, w, w.(filled := true), above);
  }

  lemma {:induction false} PublishStep(nodes: seq<Node>, lists: seq<seq<nat>>, maxHeight: nat, w: Insertion,
      above: int) returns (to: seq<seq<nat>>)
    requires Running(nodes, lists, maxHeight, w) && w.Linking? && w.filled && w.e.key.sn > above
    ensures w.i < w.height && w.i < |w.prev| && w.prev[w.i] < |nodes| && w.i < |nodes[w.prev[w.i]].next|
    ensures var b := SetNext(nodes, w.prev[w.i], w.i, Some(w.x));
      && Running(b, to, maxHeight, Onward(w)) && Grown(nodes, lists, b, to, above)
      && Listed(b, to, maxHeight, Onward(w)) ==
           if w.i == 0 then Inserted(Listed(nodes, lists, maxHeight, w), w.e) else Listed(nodes, lists, maxHeight, w)
  {
    OpenRunning(nodes, lists, maxHeight, w);
    var q := NextPlace(nodes, lists, maxHeight, w);
    var b := SetNext(nodes, w.prev[w.i], w.i, Some(w.x));
    to := lists[w.i := InsertAfter(lists[w.i], q, w.x)];
    PublishKeeps(nodes, lists, maxHeight, w, q);
    OpenRunning(b, to, maxHeight, Onward(w));
    PublishGrows(nodes, lists, maxHeight, w, q, b, above);
  }

  lemma {:induction false} PublishGrows(nodes: seq<Node>, lists: seq<seq<nat>>, maxHeight: nat, w: Insertion,
      q: nat, b: seq<Node>, above: int)
    requires Sound(nodes, lists, maxHeight, w) && w.Linking? && w.e.key.sn > above && Keeps(nodes, b)
    requires SplitsAt(nodes, lists[w.i], q, w.e.key)
    requires |lists[0]| > 0 && InArena(nodes, lists[0])
    ensures var to := lists[w.i := InsertAfter(lists[w.i], q, w.x)];
      && Grown(nodes, lists, b, to, above) && |to[0]| > 0 && InArena(b, to[0])
      && EntriesOn(b, to[0]) == if w.i == 0 then Inserted(EntriesOn(nodes, lists[0]), w.e) else EntriesOn(nodes, lists[0])
  {
    EvolvesRefl(nodes, lists, maxHeight, w, above);
    PublishEvolves(nodes, lists, b, w.i, q, w.x, above);
    OpenGrown(nodes, lists, b, lists[w.i := InsertAfter(lists[w.i], q, w.x)], above);
    assert Chain(nodes, 0, lists[0]);
    if w.i == 0 {
      PublishContents(nodes, lists[0], q, w.x, b);
    } else {
      ContentsFrame(nodes, b, lists[0]);
    }
  }

  /** The search that begins an insertion, when it does not find the key. */
  lemma {:induction false} BeginStep(nodes: seq<Node>, lists: seq<seq<nat>>, maxHeight: nat, e: Entry,
      height: nat, prev: seq<nat>)
    requires Running(nodes, lists, maxHeight, Idle) && 1 <= height <= MAX_HEIGHT && |prev| == maxHeight
    requires Located(nodes, lists, prev, 0, maxHeight, e.key)
    requires var es := Listed(nodes, lists, maxHeight, Idle); var q := LowerBound(es, e.key); q < |es| ==> es[q].key != e.key
    ensures var to := Searched(e, height, prev);
      Running(nodes, lists, maxHeight, to) && Listed(nodes, lists, maxHeight, to) == Listed(nodes, lists, maxHeight, Idle)
  {
    OpenRunning(nodes, lists, maxHeight, Idle);
    AbsentEverywhere(nodes, lists, maxHeight, Idle, e.key);
    BeginKeeps(nodes, lists, maxHeight, Searched(e, height, prev));
    OpenRunning(nodes, lists, maxHeight, Searched(e, height, prev));
  }

  // ----- one load of a search -----

  ghost predicate Standing(nodes: seq<Node>, lists: seq<seq<nat>>, level: nat, x: nat) {
    level < |lists| && x in lists[level] && x < |nodes|
  }

  /** From `lo` up, `prev` is the last node before `k` in each list. */
  ghost predicate Located(nodes: seq<Node>, lists: seq<seq<nat>>, prev: seq<nat>, lo: nat, hi: nat, k: InternalKey) {
    && hi <= |lists| && hi <= |prev|
    && forall i :: lo <= i < hi ==> InArena(nodes, lists[i]) && Splits(nodes, lists[i], prev[i], k)
  }

  lemma {:induction false} StartAtHead(nodes: seq<Node>, lists: seq<seq<nat>>, maxHeight: nat, w: Insertion)
    requires Running(nodes, lists, maxHeight, w)
    ensures 1 <= maxHeight <= |lists| && Standing(nodes, lists, maxHeight - 1, HEAD)
  {
    OpenRunning(nodes, lists, maxHeight, w);
    HeadIsEverywhere(nodes, lists, maxHeight, w, maxHeight - 1);
  }

  /** Whatever the writer stored in between, the search still stands in its list. */
  lemma {:induction false} StillStanding(a: seq<Node>, from: seq<seq<nat>>, b: seq<Node>, to: seq<seq<nat>>,
      above: int, level: nat, x: nat)
    requires Grown(a, from, b, to, above) && Standing(a, from, level, x)
    ensures Standing(b, to, level, x) && a[x].entry == b[x].entry && |a| <= |b|
    ensures Ahead(b, x) <= Ahead(a, x) + |b| - |a|
  {
    OpenGrown(a, from, b, to, above);
    assert GrowsBy(from[level], b, to[level], above);
    AheadGrows(a, b, x);
  }

  lemma {:induction false} Load(nodes: seq<Node>, lists: seq<seq<nat>>, maxHeight: nat, w: Insertion,
      level: nat, x: nat)
    requires Running(nodes, lists, maxHeight, w) && Standing(nodes, lists, level, x)
    ensures level < |nodes[x].next|
    ensures nodes[x].next[level].Some? ==>
      var y := nodes[x].next[level].value; Standing(nodes, lists, level, y) && y != HEAD && Ahead(nodes, y) < Ahead(nodes, x)
    ensures level > 0 ==> Standing(nodes, lists, level - 1, x)
  {
    OpenRunning(nodes, lists, maxHeight, w);
    var q := LoadLink(nodes, lists, maxHeight, w, level, x);
    if nodes[x].next[level].Some? {
      StepAhead(nodes, x, nodes[x].next[level].value);
    }
  }

  /** Where a search for `k` turns down a level, or ends. */
  lemma {:induction false} TurnDown(nodes: seq<Node>, lists: seq<seq<nat>>, maxHeight: nat, w: Insertion,
      level: nat, x: nat, k: InternalKey)
    requires Running(nodes, lists, maxHeight, w) && Standing(nodes, lists, level, x) && Before(nodes, x, k)
    requires level < |nodes[x].next|
    requires nodes[x].next[level].Some? ==> nodes[x].next[level].value < |nodes|
    requires !KeyIsAfterNode(nodes, k, nodes[x].next[level])
    ensures InArena(nodes, lists[level]) && Splits(nodes, lists[level], x, k)
    ensures level == 0 ==>
      var q := LowerBound(Listed(nodes, lists, maxHeight, w), k); q < |lists[0]| && lists[0][q] == x && nodes[x].next[0] == NodeAt(lists, q)
  {
    OpenRunning(nodes, lists, maxHeight, w);
    var q := LoadLink(nodes, lists, maxHeight, w, level, x);
    assert Chain(nodes, level, lists[level]);
    assert SplitsAt(nodes, lists[level], q, k);
    if level == 0 {
      SplitIsLowerBound(nodes, lists[0], 0, q, k);
    }
  }

  lemma {:induction false} EndOfList(nodes: seq<Node>, lists: seq<seq<nat>>, maxHeight: nat, w: Insertion, x: nat)
    requires Running(nodes, lists, maxHeight, w) && Standing(nodes, lists, 0, x)
    requires 0 < |nodes[x].next| && nodes[x].next[0] == None
    ensures var n := |Listed(nodes, lists, maxHeight, w)|; n < |lists[0]| && lists[0][n] == x
  {
    OpenRunning(nodes, lists, maxHeight, w);
    var q := LoadLink(nodes, lists, maxHeight, w, 0, x);
  }

  lemma {:induction false} OwnPosition(nodes: seq<Node>, ids: seq<nat>, q: nat)
    requires Chain(nodes, 0, ids) && 0 < q < |ids|
    ensures LowerBound(EntriesOn(nodes, ids), nodes[ids[q]].entry.key) == q - 1
  {
    LowerBoundOfMember(EntriesOn(nodes, ids), q - 1);
  }

  /** A node's successor on list 0 is the first entry after its key. */
  lemma {:induction false} Successor(nodes: seq<Node>, lists: seq<seq<nat>>, maxHeight: nat, w: Insertion, x: nat)
    requires Running(nodes, lists, maxHeight, w) && Standing(nodes, lists, 0, x)
    ensures 0 < |nodes[x].next|
    ensures x == HEAD ==> nodes[x].next[0] == NodeAt(lists, 0)
    ensures x != HEAD ==>
      var es := Listed(nodes, lists, maxHeight, w); var q := LowerBound(es, nodes[x].entry.key);
      q < |es| && es[q] == nodes[x].entry && NodeAt(lists, q) == Some(x) && nodes[x].next[0] == NodeAt(lists, q + 1)
  {
    OpenRunning(nodes, lists, maxHeight, w);
    var q := LoadLink(nodes, lists, maxHeight, w, 0, x);
    assert Chain(nodes, 0, lists[0]);
    if x != HEAD {
      OwnPosition(nodes, lists[0], q);
    }
  }

  /** The node at position `q` of list 0: the head first, then the entries' nodes. */
  lemma {:induction false} BackTo(nodes: seq<Node>, lists: seq<seq<nat>>, maxHeight: nat, w: Insertion, q: nat)
    requires Running(nodes, lists, maxHeight, w)
    ensures 0 < |lists| && q < |lists[0]| ==>
      && Standing(nodes, lists, 0, lists[0][q]) && (lists[0][q] == HEAD <==> q == 0)
      && (q > 0 ==> NodeAt(lists, q - 1) == Some(lists[0][q]))
    ensures 0 < |lists| && 0 < |lists[0]|
  {
    OpenRunning(nodes, lists, maxHeight, w);
    assert Chain(nodes, 0, lists[0]);
  }

  /** Every list is a sorted sublist of the one below, at every moment of an insertion. */
  lemma {:induction false} LevelsNest(nodes: seq<Node>, lists: seq<seq<nat>>, maxHeight: nat, w: Insertion, i: nat)
    requires Running(nodes, lists, maxHeight, w) && i + 1 < MAX_HEIGHT
    ensures |lists| == MAX_HEIGHT && Chain(nodes, i, lists[i]) && Chain(nodes, i + 1, lists[i + 1])
    ensures forall n :: n in lists[i + 1] ==> n in lists[i]
    ensures maxHeight <= i + 1 ==> lists[i + 1] == [HEAD]
  {
    OpenRunning(nodes, lists, maxHeight, w);
    assert Chain(nodes, i, lists[i]) && Chain(nodes, i + 1, lists[i + 1]);
    forall n | n in lists[i + 1] ensures n in lists[i] {
      assert i + 1 < Linked(nodes, w, n);
    }
    if maxHeight <= i + 1 {
      EmptyAbove(nodes, lists, maxHeight, w, i + 1);
    }
  }

  /** The entry the writer is putting in, if any, is newer than `above`. */
  predicate WritesAbove(w: Insertion, above: int) {
    !w.Idle? ==> w.e.key.sn > above
  }

  class SkipList {
    var nodes: seq<Node>
    var maxHeight: nat
    /** Where the one writer is; readers never look at it. */
    var writer: Insertion
    ghost var lists: seq<seq<nat>>

    ghost predicate Valid()
      reads this
    {
      Running(nodes, lists, maxHeight, writer)
    }

    ghost function Contents(): (es: seq<Entry>)
      requires Valid()
      reads this
      ensures Sorted(es)
    {
      Listed(nodes, lists, maxHeight, writer)
    }

    constructor (unused: Entry)
      ensures Valid() && writer.Idle? && Contents() == [] && |nodes| == 1 && |nodes[0].next| == 12 && maxHeight == 1
    {
      nodes := [Node(unused, seq(MAX_HEIGHT, _ => None))];
      maxHeight := 1;
      writer := Idle;
      lists := seq(MAX_HEIGHT, _ => [HEAD]);
      new;
      assert forall i :: 0 <= i < MAX_HEIGHT ==> Chain(nodes, i, lists[i]);
      OpenRunning(nodes, lists, maxHeight, writer);
    }

    /** FindGreaterOrEqual, with up to `steps` stores of the writer falling between its loads. */
    method FindGreaterOrEqual(k: InternalKey, steps: nat, above: int, wantPrev: bool) returns (r: Option<nat>,
        prev: seq<nat>)
      requires Valid() && WritesAbove(writer, above) && (wantPrev ==> steps == 0)
      modifies this
      ensures Valid() && WritesAbove(writer, above) && Grown(old(nodes), old(lists), nodes, lists, above)
      ensures steps == 0 ==> unchanged(this)
      ensures r == NodeAt(lists, LowerBound(Contents(), k))
      ensures wantPrev ==> |prev| == maxHeight && Located(nodes, lists, prev, 0, maxHeight, k)
      decreases steps, 2
    {
      StartAtHead(nodes, lists, maxHeight, writer);
      GrownRefl(nodes, lists, maxHeight, writer, above);
      var high := maxHeight;
      var x: nat, level: nat, left: nat := HEAD, high - 1, steps;
      prev := seq(high, _ => HEAD);
      while true
        invariant Valid() && WritesAbove(writer, above) && Grown(old(nodes), old(lists), nodes, lists, above)
        invariant steps == 0 ==> unchanged(this)
        invariant left <= steps && level < high == |prev|
        invariant Standing(nodes, lists, level, x) && Before(nodes, x, k)
        invariant wantPrev ==> Located(nodes, lists, prev, level + 1, high, k)
        decreases level, Ahead(nodes, x) + left
      {
        ghost var before, was := nodes, lists;
        left := Run(left, above);
        GrownOn(old(nodes), old(lists), before, was, nodes, lists, above);
        StillStanding(before, was, nodes, lists, above, level, x);
        Load(nodes, lists, maxHeight, writer, level, x);
        var next := nodes[x].next[level];
        if KeyIsAfterNode(nodes, k, next) {
          x := next.value;
        } else {
          TurnDown(nodes, lists, maxHeight, writer, level, x, k);
          prev := prev[level := x];
          if level == 0 {
            return next, prev;
          }
          level := level - 1;
        }
      }
    }

    /** Up to `steps` steps of the writer. */
    method Run(steps: nat, above: int) returns (left: nat)
      requires Valid() && WritesAbove(writer, above)
      modifies this
      ensures Valid() && WritesAbove(writer, above) && Grown(old(nodes), old(lists), nodes, lists, above)
      ensures left <= steps && |nodes| - |old(nodes)| <= steps - left
      ensures steps == 0 ==> unchanged(this)
      decreases steps, 1
    {
      left := steps;
      GrownRefl(nodes, lists, maxHeight, writer, above);
      while left > 0
        invariant Valid() && WritesAbove(writer, above) && Grown(old(nodes), old(lists), nodes, lists, above)
        invariant left <= steps && |nodes| - |old(nodes)| <= steps - left
        invariant steps == 0 ==> unchanged(this)
      {
        if * {
          break;
        }
        ghost var before, was := nodes, lists;
        Step(above);
        GrownOn(old(nodes), old(lists), before, was, nodes, lists, above);
        left := left - 1;
      }
    }

    /** One step of the writer: it starts an insertion, or makes the next store of the one under way. */
    method Step(above: int)
      requires Valid() && WritesAbove(writer, above)
      modifies this
      ensures Valid() && WritesAbove(writer, above) && Grown(old(nodes), old(lists), nodes, lists, above)
      ensures |nodes| <= |old(nodes)| + 1
      decreases 0, 4
    {
      GrownRefl(nodes, lists, maxHeight, writer, above);
      match writer
      case Idle =>
        var e: Entry := *;
        var height: nat := *;
        if e.key.sn > above && 1 <= height <= MAX_HEIGHT {
          var ok := Begin(e, height);
        }
      case Searched(_, _, _) => RaiseHeight();
      case Raised(_, _, _) => MakeNode(above);
      case Linking(_, _, _, _, _, filled) =>
        if filled {
          Publish(above);
        } else {
          Fill(above);
        }
    }

    /** The search at the start of Insert; refused when the key is there already. */
    method Begin(e: Entry, height: nat) returns (ok: bool)
      requires Valid() && writer.Idle? && 1 <= height <= MAX_HEIGHT
      modifies this
      ensures Valid() && Contents() == old(Contents())
      ensures nodes == old(nodes) && maxHeight == old(maxHeight) && lists == old(lists)
      ensures ok <==> forall f :: f in Contents() ==> f.key != e.key
      ensures if ok then writer.Searched? && writer.e == e && writer.height == height else writer == Idle
      decreases 0, 3
    {
      ghost var es := Contents();
      var r, prev := FindGreaterOrEqual(e.key, 0, 0, true);
      NodeAtHolds(nodes, lists, maxHeight, writer, LowerBound(es, e.key));
      AbsentIff(es, e.key);
      ok := r == None || nodes[r.value].entry.key != e.key;
      if ok {
        BeginStep(nodes, lists, maxHeight, e, height, prev);
        writer := Searched(e, height, prev);
      }
    }

    method RaiseHeight()
      requires Valid() && writer.Searched?
      modifies this`maxHeight, this`writer
      ensures Valid() && Contents() == old(Contents())
      ensures writer == Raised(old(writer).e, old(writer).height, Padded(old(writer).prev, old(writer).height))
    {
      RaiseStep(nodes, lists, maxHeight, writer, 0);
      var prev := Padded(writer.prev, writer.height);
      if writer.height > maxHeight {
        maxHeight := writer.height;
      }
      writer := Raised(writer.e, writer.height, prev);
    }

    /** The new node is not in any list yet. */
    method MakeNode(ghost above: int)
      requires Valid() && writer.Raised?
      modifies this`nodes, this`writer
      ensures Valid() && Contents() == old(Contents())
      ensures writer == Linking(old(writer).e, old(writer).height, old(writer).prev, |old(nodes)|, 0, false)
      ensures |nodes| == |old(nodes)| + 1 && Grown(old(nodes), lists, nodes, lists, above)
    {
      MakeNodeStep(nodes, lists, maxHeight, writer, above);
      var x := |nodes|;
      nodes := nodes + [Node(writer.e, seq(writer.height, _ => None))];
      writer := Linking(writer.e, writer.height, writer.prev, x, 0, false);
    }

    /** The new node's own link at its next level; no reader can be there. */
    method Fill(ghost above: int)
      requires Valid() && writer.Linking?
      modifies this`nodes, this`writer
      ensures Valid() && Contents() == old(Contents())
      ensures writer == old(writer).(filled := true)
      ensures |nodes| == |old(nodes)| && Grown(old(nodes), lists, nodes, lists, above)
    {
      FillStep(nodes, lists, maxHeight, writer, above);
      nodes := SetNext(nodes, writer.x, writer.i, nodes[writer.prev[writer.i]].next[writer.i]);
      writer := writer.(filled := true);
    }

    /** The store that makes the node reachable; at level 0 it is what inserts the entry. */
    method Publish(ghost above: int)
      requires Valid() && writer.Linking? && writer.filled && writer.e.key.sn > above
      modifies this`nodes, this`writer, this`lists
      ensures Valid() && old(writer).i < old(writer).height && writer == Onward(old(writer))
      ensures Contents() == if old(writer).i == 0 then Inserted(old(Contents()), old(writer).e) else old(Contents())
      ensures |nodes| == |old(nodes)| && Grown(old(nodes), old(lists), nodes, lists, above)
    {
      ghost var to := PublishStep(nodes, lists, maxHeight, writer, above);
      nodes := SetNext(nodes, writer.prev[writer.i], writer.i, Some(writer.x));
      lists := to;
      writer := Onward(writer);
    }

    /** Insert: the search, then the stores, with readers free to run between any two. */
    method Insert(e: Entry, height: nat)
      requires Valid() && writer.Idle? && 1 <= height <= MAX_HEIGHT
      requires forall f :: f in Contents() ==> f.key != e.key
      modifies this
      ensures Valid() && writer.Idle?
      ensures Contents() == Inserted(old(Contents()), e)
      ensures Grown(old(nodes), old(lists), nodes, lists, e.key.sn - 1)
    {
      ghost var es := Contents();
      GrownRefl(nodes, lists, maxHeight, writer, e.key.sn - 1);
      var ok := Begin(e, height);
      RaiseHeight();
      MakeNode(e.key.sn - 1);
      while writer.Linking?
        invariant Valid() && Grown(old(nodes), old(lists), nodes, lists, e.key.sn - 1)
        invariant writer.Idle? || (writer.Linking? && writer.e == e && writer.i < writer.height)
        invariant Contents() == if writer.Linking? && writer.i == 0 then es else Inserted(es, e)
        decreases if writer.Linking? then writer.height - writer.i else 0
      {
        ghost var before, was := nodes, lists;
        Fill(e.key.sn - 1);
        GrownOn(old(nodes), old(lists), before, was, nodes, lists, e.key.sn - 1);
        before := nodes;
        Publish(e.key.sn - 1);
        GrownOn(old(nodes), old(lists), before, was, nodes, lists, e.key.sn - 1);
      }
    }

    method Contains(k: InternalKey, steps: nat) returns (found: bool)
      requires Valid()
      modifies this
      ensures Valid() && found == exists e :: e in Contents() && e.key == k
    {
      var r, prev := FindGreaterOrEqual(k, steps, -1, false);
      NodeAtHolds(nodes, lists, maxHeight, writer, LowerBound(Contents(), k));
      AbsentIff(Contents(), k);
      found := r.Some? && nodes[r.value].entry.key == k;
    }

    /** The last node before `k`, the head when there is none. */
    method FindLessThan(k: InternalKey, steps: nat, above: int) returns (x: nat)
      requires Valid() && WritesAbove(writer, above)
      modifies this
      ensures Valid() && WritesAbove(writer, above) && Grown(old(nodes), old(lists), nodes, lists, above)
      ensures Standing(nodes, lists, 0, x) && LowerBound(Contents(), k) < |lists[0]|
      ensures x == lists[0][LowerBound(Contents(), k)]
    {
      StartAtHead(nodes, lists, maxHeight, writer);
      GrownRefl(nodes, lists, maxHeight, writer, above);
      var level: nat, left: nat := maxHeight - 1, steps;
      x := HEAD;
      while true
        invariant Valid() && WritesAbove(writer, above) && Grown(old(nodes), old(lists), nodes, lists, above)
        invariant Standing(nodes, lists, level, x) && Before(nodes, x, k)
        decreases level, Ahead(nodes, x) + left
      {
        ghost var before, was := nodes, lists;
        left := Run(left, above);
        GrownOn(old(nodes), old(lists), before, was, nodes, lists, above);
        StillStanding(before, was, nodes, lists, above, level, x);
        Load(nodes, lists, maxHeight, writer, level, x);
        var next := nodes[x].next[level];
        if next == None || !Less(nodes[next.value].entry.key, k) {
          TurnDown(nodes, lists, maxHeight, writer, level, x, k);
          if level == 0 {
            return;
          }
          level := level - 1;
        } else {
          x := next.value;
        }
      }
    }

    /** The last node, the head when the list is empty. */
    method FindLast(steps: nat, above: int) returns (x: nat)
      requires Valid() && WritesAbove(writer, above)
      modifies this
      ensures Valid() && WritesAbove(writer, above) && Grown(old(nodes), old(lists), nodes, lists, above)
      ensures Standing(nodes, lists, 0, x) && |Contents()| < |lists[0]| && x == lists[0][|Contents()|]
    {
      StartAtHead(nodes, lists, maxHeight, writer);
      GrownRefl(nodes, lists, maxHeight, writer, above);
      var level: nat, left: nat := maxHeight - 1, steps;
      x := HEAD;
      while true
        invariant Valid() && WritesAbove(writer, above) && Grown(old(nodes), old(lists), nodes, lists, above)
        invariant Standing(nodes, lists, level, x)
        decreases level, Ahead(nodes, x) + left
      {
        ghost var before, was := nodes, lists;
        left := Run(left, above);
        GrownOn(old(nodes), old(lists), before, was, nodes, lists, above);
        StillStanding(before, was, nodes, lists, above, level, x);
        Load(nodes, lists, maxHeight, writer, level, x);
        var next := nodes[x].next[level];
        if next == None {
          if level == 0 {
            EndOfList(nodes, lists, maxHeight, writer, x);
            return;
          }
          level := level - 1;
        } else {
          x := next.value;
        }
      }
    }
  }

  /** SkipList::Iterator: a node, or nowhere. */
  class Iterator {
    const list: SkipList
    var node: Option<nat>

    ghost predicate Valid()
      reads this, list
    {
      && list.Valid()
      && (node.Some? ==> node.value != HEAD && Standing(list.nodes, list.lists, 0, node.value))
    }

    constructor (list: SkipList)
      requires list.Valid()
      ensures Valid() && this.list == list && node == None
    {
      this.list := list;
      node := None;
    }

    function Key(): InternalKey
      requires node.Some? && node.value < |list.nodes|
      reads this, list
    {
      list.nodes[node.value].entry.key
    }

    /** The first entry after the current one, among those there at the load. */
    method Next(steps: nat, above: int)
      requires Valid() && node.Some? && WritesAbove(list.writer, above)
      modifies this, list
      ensures Valid() && WritesAbove(list.writer, above)
      ensures Grown(old(list.nodes), old(list.lists), list.nodes, list.lists, above)
      ensures var es := list.Contents(); var q := LowerBound(es, old(Key()));
        q < |es| && es[q].key == old(Key()) && node == NodeAt(list.lists, q + 1)
    {
      ghost var before, was := list.nodes, list.lists;
      var left := list.Run(steps, above);
      StillStanding(before, was, list.nodes, list.lists, above, 0, node.value);
      Load(list.nodes, list.lists, list.maxHeight, list.writer, 0, node.value);
      Successor(list.nodes, list.lists, list.maxHeight, list.writer, node.value);
      node := list.nodes[node.value].next[0];
    }

    /** The last entry before the current one; nowhere when there is none. */
    method Prev(steps: nat, above: int)
      requires Valid() && node.Some? && WritesAbove(list.writer, above)
      modifies this, list
      ensures Valid() && WritesAbove(list.writer, above)
      ensures Grown(old(list.nodes), old(list.lists), list.nodes, list.lists, above)
      ensures var q := LowerBound(list.Contents(), old(Key()));
        node == if q == 0 then None else NodeAt(list.lists, q - 1)
    {
      var x := list.FindLessThan(Key(), steps, above);
      BackTo(list.nodes, list.lists, list.maxHeight, list.writer, LowerBound(list.Contents(), old(Key())));
      node := if x == HEAD then None else Some(x);
    }

    /** The first entry at or after `k`. */
    method Seek(k: InternalKey, steps: nat, above: int)
      requires list.Valid() && WritesAbove(list.writer, above)
      modifies this, list
      ensures Valid() && WritesAbove(list.writer, above)
      ensures Grown(old(list.nodes), old(list.lists), list.nodes, list.lists, above)
      ensures node == NodeAt(list.lists, LowerBound(list.Contents(), k))
    {
      var r, prev := list.FindGreaterOrEqual(k, steps, above, false);
      BackTo(list.nodes, list.lists, list.maxHeight, list.writer, LowerBound(list.Contents(), k) + 1);
      node := r;
    }

    method SeekToFirst(steps: nat, above: int)
      requires list.Valid() && WritesAbove(list.writer, above)
      modifies this, list
      ensures Valid() && WritesAbove(list.writer, above)
      ensures Grown(old(list.nodes), old(list.lists), list.nodes, list.lists, above)
      ensures node == NodeAt(list.lists, 0)
    {
      var left := list.Run(steps, above);
      BackTo(list.nodes, list.lists, list.maxHeight, list.writer, 0);
      BackTo(list.nodes, list.lists, list.maxHeight, list.writer, 1);
      Successor(list.nodes, list.lists, list.maxHeight, list.writer, HEAD);
      node := list.nodes[HEAD].next[0];
    }

    method SeekToLast(steps: nat, above: int)
      requires list.Valid() && WritesAbove(list.writer, above)
      modifies this, list
      ensures Valid() && WritesAbove(list.writer, above)
      ensures Grown(old(list.nodes), old(list.lists), list.nodes, list.lists, above)
      ensures var n := |list.Contents()|; node == if n == 0 then None else NodeAt(list.lists, n - 1)
    {
      var x := list.FindLast(steps, above);
      BackTo(list.nodes, list.lists, list.maxHeight, list.writer, |list.Contents()|);
      node := if x == HEAD then None else Some(x);
    }
  }
}
