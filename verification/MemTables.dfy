// The memtable over the skip list (db/memtable.cc), read while a writer adds to it.
module MemTables {
  import opened Keys
  import opened Lsm
  import opened SkipLists

  /** `to` has everything `from` has, and what it has besides is newer than `above`. */
  ghost predicate AddsOnlyNewer(from: seq<Entry>, to: seq<Entry>, above: int) {
    && (forall e :: e in from ==> e in to)
    && forall e :: e in to && e !in from ==> e.key.sn > above
  }

  /** What grew on list 0 is what grew in the table. */
  lemma {:induction false} GrownAdds(a: seq<Node>, from: seq<seq<nat>>, b: seq<Node>, to: seq<seq<nat>>,
      high: nat, w: Insertion, high': nat, w': Insertion, above: int)
    requires Running(a, from, high, w) && Running(b, to, high', w') && Grown(a, from, b, to, above)
    ensures AddsOnlyNewer(Listed(a, from, high, w), Listed(b, to, high', w'), above)
  {
    OpenRunning(a, from, high, w);
    OpenRunning(b, to, high', w');
    OpenGrown(a, from, b, to, above);
    assert GrowsBy(from[0], b, to[0], above);
    EntriesGrow(a, from[0], b, to[0], above);
  }

  lemma {:induction false} NodeEntry(nodes: seq<Node>, ids: seq<nat>, n: nat)
    requires Chain(nodes, 0, ids) && n in ids && n != HEAD
    ensures nodes[n].entry in EntriesOn(nodes, ids)
  {
    var m :| 0 <= m < |ids| && ids[m] == n;
    assert EntriesOn(nodes, ids)[m - 1] == nodes[n].entry;
  }

  lemma {:induction false} EntryNode(nodes: seq<Node>, ids: seq<nat>, e: Entry) returns (n: nat)
    requires Chain(nodes, 0, ids) && e in EntriesOn(nodes, ids)
    ensures n in ids && n != HEAD && nodes[n].entry == e
  {
    var es := EntriesOn(nodes, ids);
    var j :| 0 <= j < |es| && es[j] == e;
    n := ids[j + 1];
  }

  lemma {:induction false} EntriesGrow(a: seq<Node>, from: seq<nat>, b: seq<Node>, to: seq<nat>, above: int)
    requires Chain(a, 0, from) && Chain(b, 0, to) && Keeps(a, b) && GrowsBy(from, b, to, above)
    ensures AddsOnlyNewer(EntriesOn(a, from), EntriesOn(b, to), above)
  {
    forall e | e in EntriesOn(a, from) ensures e in EntriesOn(b, to) {
      var n := EntryNode(a, from, e);
      NodeEntry(b, to, n);
    }
    forall e | e in EntriesOn(b, to) ensures e in EntriesOn(a, from) || e.key.sn > above {
      var n := EntryNode(b, to, e);
      if n in from {
        NodeEntry(a, from, n);
      }
    }
  }

  /** A visible entry of `u` anywhere makes the search stop at one of `u`. */
  lemma {:induction false} StopsAtUser(es: seq<Entry>, u: UserKey, sn: nat, e: Entry)
    requires Sorted(es) && e in es && Candidate(e, u, sn)
    ensures TableGet(es, u, sn).Some?
  {
    var m :| 0 <= m < |es| && es[m] == e;
    var k := SeekKey(u, sn);
    LowerBoundSplits(es, k, m);
    var i := LowerBound(es, k);
    assert i < m ==> Less(es[i].key, es[m].key);
  }

  /** Entries newer than the snapshot do not change what a read at the snapshot finds. */
  lemma {:induction false} NewerEntriesUnseen(es: seq<Entry>, fs: seq<Entry>, u: UserKey, sn: nat, above: int)
    requires Sorted(es) && Sorted(fs) && AddsOnlyNewer(es, fs, above) && sn <= above
    ensures TableGet(fs, u, sn) == TableGet(es, u, sn)
  {
    var k := SeekKey(u, sn);
    var r, q := TableGet(es, u, sn), TableGet(fs, u, sn);
    if q.Some? {
      assert q.value in es && Candidate(q.value, u, sn);
      StopsAtUser(es, u, sn, q.value);
      FirstIsFirst(es, fs, k, LowerBound(es, k), LowerBound(fs, k));
    }
    if r.Some? {
      assert Candidate(r.value, u, sn) && r.value in fs;
      StopsAtUser(fs, u, sn, r.value);
    }
  }

  /** When both tables have the searched position, and the larger table's is in the smaller one. */
  lemma {:induction false} FirstIsFirst(es: seq<Entry>, fs: seq<Entry>, k: InternalKey, i: nat, j: nat)
    requires Sorted(es) && Sorted(fs) && (forall e :: e in es ==> e in fs)
    requires i == LowerBound(es, k) && j == LowerBound(fs, k) && i < |es| && j < |fs| && fs[j] in es
    ensures es[i] == fs[j]
  {
    assert es[i] in fs;
    var m :| 0 <= m < |fs| && fs[m] == es[i];
    LowerBoundSplits(fs, k, m);
    var n :| 0 <= n < |es| && es[n] == fs[j];
    LowerBoundSplits(es, k, n);
    assert j < m ==> Less(fs[j].key, fs[m].key);
    assert i < n ==> Less(es[i].key, es[n].key);
  }

  class MemTable {
    const table: SkipList

    ghost predicate Valid()
      reads this, table
    {
      table.Valid()
    }

    ghost function Contents(): (es: seq<Entry>)
      requires Valid()
      reads this, table
    {
      table.Contents()
    }

    constructor (unused: Entry)
      ensures Valid() && fresh(table) && table.writer.Idle? && Contents() == []
    {
      table := new SkipList(unused);
    }

    /** Add: the entry goes to its place; `height` is the random height of its node. */
    method Add(s: nat, kind: ValueType, key: UserKey, value: string, height: nat)
      requires Valid() && table.writer.Idle? && 1 <= height <= MAX_HEIGHT
      requires forall f :: f in Contents() ==> f.key != InternalKey(key, s, kind)
      modifies table
      ensures Valid() && table.writer.Idle?
      ensures Contents() == Inserted(old(Contents()), Entry(InternalKey(key, s, kind), value))
    {
      table.Insert(Entry(InternalKey(key, s, kind), value), height);
    }

    /**
     * Get at snapshot `sn`, with up to `steps` stores of the writer falling in between, all of
     * entries newer than `above`, which is not below the snapshot: it answers as the table stood
     * when it began.
     */
    method Get(u: UserKey, sn: nat, steps: nat, above: nat) returns (r: Option<Entry>)
      requires Valid() && WritesAbove(table.writer, above) && sn <= above
      modifies table
      ensures Valid() && WritesAbove(table.writer, above) && (steps == 0 ==> unchanged(table))
      ensures AddsOnlyNewer(old(Contents()), Contents(), above)
      ensures r == TableGet(old(Contents()), u, sn)
      ensures Finds(Elements(old(Contents())), u, sn, r)
    {
      ghost var a, from, high, w := table.nodes, table.lists, table.maxHeight, table.writer;
      ghost var es := Contents();
      var n, prev := table.FindGreaterOrEqual(SeekKey(u, sn), steps, above, false);
      GrownAdds(a, from, table.nodes, table.lists, high, w, table.maxHeight, table.writer, above);
      NodeAtHolds(table.nodes, table.lists, table.maxHeight, table.writer, LowerBound(Contents(), SeekKey(u, sn)));
      NewerEntriesUnseen(es, Contents(), u, sn, above);
      TableGetFinds(es, u, sn);
      if n.Some? && table.nodes[n.value].entry.key.user == u {
        r := Some(table.nodes[n.value].entry);
      } else {
        r := None;
      }
    }
  }
}
