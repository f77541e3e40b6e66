// A user's scan from end to end: DBImpl::NewInternalIterator merges the memtables,
// the level-0 tables and one concatenation per deeper level; the user's iterator over
// that merge shows exactly what the versioned map holds at the snapshot.
module Scan {
  import opened Keys
  import opened Seqs
  import opened Version
  import opened Merge
  import opened Builder
  import opened Lsm
  import opened InFlight
  import TwoLevel
  import opened DbIter

  /** The files of a deeper level, found through their largest keys. */
  function LargestKeys(files: seq<FileMeta>): (r: seq<InternalKey>)
    requires forall i :: 0 <= i < |files| ==> |files[i].entries| > 0
    ensures |r| == |files| && forall i :: 0 <= i < |files| ==> r[i] == files[i].Largest()
  {
    seq(|files|, i requires 0 <= i < |files| => files[i].Largest())
  }

  /** A level's file list is a sound index of its files. */
  lemma {:induction false} LevelIndexOk(files: seq<FileMeta>)
    requires LevelSorted(files)
    ensures TwoLevel.IndexOk(LargestKeys(files), EntryLists(files))
    ensures Sorted(Concat(EntryLists(files)))
  {
    var blocks := EntryLists(files);
    forall i, j, e: Entry | 0 <= i < j < |blocks| && e in blocks[j] ensures Less(files[i].Largest(), e.key) {
      assert Before(files[i], files[j]);
      EntryInRange(files[j], e);
    }
    forall i, e: Entry | 0 <= i < |blocks| && e in blocks[i] ensures LessEq(e.key, files[i].Largest()) {
      EntryInRange(files[i], e);
    }
    forall i, j | 0 <= i < j < |files| ensures Less(files[i].Largest(), files[j].Largest()) {
      assert Before(files[i], files[j]);
      EntryInRange(files[j], files[j].entries[0]);
    }
    TwoLevel.ConcatSorted(LargestKeys(files), blocks);
  }

  lemma {:induction false} ConcatElements(blocks: seq<seq<Entry>>)
    ensures Elements(Concat(blocks)) == AllElements(blocks)
  {
    if |blocks| > 0 {
      var n := |blocks| - 1;
      ConcatElements(blocks[..n]);
      forall e ensures e in AllElements(blocks) <==> e in AllElements(blocks[..n]) || e in blocks[n] {
        if e in AllElements(blocks) {
          var i :| 0 <= i < |blocks| && e in blocks[i];
          assert i < n ==> blocks[..n][i] == blocks[i];
        }
        if e in AllElements(blocks[..n]) {
          var i :| 0 <= i < n && e in blocks[..n][i];
          assert e in blocks[i];
        }
      }
    }
  }

  /** One child of the merge: the tier it comes from, and for a level-0 table its number. */
  datatype Source = Source(tier: nat, number: int, entries: seq<Entry>)

  /** The children, in the order they are added. An empty deeper level, which the code
      leaves out, is here an empty child. */
  ghost function Sources(s: Store): (r: seq<Source>)
    requires |s.levels| == NUM_LEVELS
    ensures forall i :: 0 <= i < |r| ==> r[i].tier < NUM_TIERS
  {
    var files := s.levels[0];
    [Source(0, -1, s.mem)] + (if s.imm.Some? then [Source(1, -1, s.imm.value)] else [])
    + seq(|files|, i requires 0 <= i < |files| => Source(2, files[i].number, files[i].entries))
    + seq(NUM_LEVELS - 1, l requires 0 <= l < NUM_LEVELS - 1 => Source(l + 3, -1, Concat(EntryLists(s.levels[l + 1]))))
  }

  ghost function Children(s: Store): (r: seq<seq<Entry>>)
    requires |s.levels| == NUM_LEVELS
    ensures |r| == |Sources(s)| && forall i :: 0 <= i < |r| ==> r[i] == Sources(s)[i].entries
  {
    var c := Sources(s);
    seq(|c|, i requires 0 <= i < |c| => c[i].entries)
  }

  lemma {:induction false} SourceIsPartOfTier(s: Store, i: nat)
    requires |s.levels| == NUM_LEVELS && SortedTables(s) && i < |Sources(s)|
    ensures Sorted(Sources(s)[i].entries)
    ensures Elements(Sources(s)[i].entries) <= Tier(s, Sources(s)[i].tier)
    ensures Sources(s)[i].tier != 2 ==> Elements(Sources(s)[i].entries) == Tier(s, Sources(s)[i].tier)
    ensures Sources(s)[i].tier == 2 ==>
              exists f :: f in s.levels[0] && f.number == Sources(s)[i].number && f.entries == Sources(s)[i].entries
  {
    var c := Sources(s)[i];
    if c.tier == 2 {
      var k := i - (if s.imm.Some? then 2 else 1);
      var f := s.levels[0][k];
      assert c == Source(2, f.number, f.entries) && f in s.levels[0] && f in FileSet(s.levels[0]);
    } else if c.tier > 2 {
      var files := s.levels[c.tier - 2];
      assert c.entries == Concat(EntryLists(files));
      LevelIndexOk(files);
      ConcatElements(EntryLists(files));
      ListsHoldEntries(files);
    }
  }

  lemma {:induction false} TiersShareNoKey(s: Store, t: nat, u: nat, a: set<Entry>, b: set<Entry>)
    requires |s.levels| == NUM_LEVELS && Layered(s) && t < u < NUM_TIERS && a <= Tier(s, t) && b <= Tier(s, u)
    ensures NoCommonKey(a, b)
  {
    assert Newer(Tier(s, t), Tier(s, u));
    forall e, f | e in a && f in b ensures e.key != f.key {
      assert SameUser(e, f) ==> e.key.sn > f.key.sn;
    }
  }

  lemma {:induction false} TablesShareNoKey(s: Store, h: seq<Entry>, next: nat, x: FileMeta, y: FileMeta)
    requires Structured(s, h, next) && x in s.levels[0] && y in s.levels[0] && x != y
    ensures NoCommonKey(Elements(x.entries), Elements(y.entries))
  {
    forall e, f | e in Elements(x.entries) && f in Elements(y.entries) ensures e.key != f.key {
      SameLevelShareNoKey(s, h, next, 0, x, y, e, f);
    }
  }

  /** Children come in tier order; only level-0 tables share a tier. */
  lemma {:induction false} SourceOrder(s: Store, i: nat, j: nat)
    requires |s.levels| == NUM_LEVELS && SortedByKey(s.levels[0]) && i < j < |Sources(s)|
    ensures Sources(s)[i].tier < Sources(s)[j].tier
            || (exists x, y :: (x in s.levels[0] && y in s.levels[0] && x != y &&
                                Sources(s)[i].entries == x.entries && Sources(s)[j].entries == y.entries))
  {
    if Sources(s)[i].tier >= Sources(s)[j].tier {
      var k := if s.imm.Some? then 2 else 1;
      var x, y := s.levels[0][i - k], s.levels[0][j - k];
      assert ByKey(x, y);
      assert x in s.levels[0] && y in s.levels[0] && Sources(s)[i].entries == x.entries && Sources(s)[j].entries == y.entries;
    }
  }

  lemma {:induction false} SourcesApart(s: Store, h: seq<Entry>, next: nat, i: nat, j: nat)
    requires Structured(s, h, next) && i < j < |Sources(s)|
    ensures NoCommonKey(Elements(Sources(s)[i].entries), Elements(Sources(s)[j].entries))
  {
    SourceOrder(s, i, j);
    if Sources(s)[i].tier < Sources(s)[j].tier {
      SourceIsPartOfTier(s, i);
      SourceIsPartOfTier(s, j);
      TiersShareNoKey(s, Sources(s)[i].tier, Sources(s)[j].tier, Elements(Sources(s)[i].entries),
          Elements(Sources(s)[j].entries));
    } else {
      var x, y :| x in s.levels[0] && y in s.levels[0] && x != y
                  && Sources(s)[i].entries == x.entries && Sources(s)[j].entries == y.entries;
      TablesShareNoKey(s, h, next, x, y);
    }
  }

  /** The children can be merged, and together hold everything in the store. */
  lemma {:induction false} ChildrenMerge(s: Store, h: seq<Entry>, next: nat)
    requires Structured(s, h, next)
    ensures Mergeable(Children(s)) && AllElements(Children(s)) == All(s)
  {
    forall i | 0 <= i < |Children(s)| ensures Sorted(Children(s)[i]) {
      SourceIsPartOfTier(s, i);
    }
    forall i, j | 0 <= i < j < |Children(s)| ensures NoCommonKey(Elements(Children(s)[i]), Elements(Children(s)[j])) {
      SourcesApart(s, h, next, i, j);
    }
    forall e ensures e in AllElements(Children(s)) <==> e in All(s) {
      if e in AllElements(Children(s)) {
        var i :| 0 <= i < |Children(s)| && e in Children(s)[i];
        SourceIsPartOfTier(s, i);
        assert e in Elements(Sources(s)[i].entries);
      }
      if e in All(s) {
        var i := SourceOf(s, e);
        assert e in Children(s)[i];
      }
    }
  }

  lemma {:induction false} DeeperSource(s: Store, t: nat, i: nat)
    requires |s.levels| == NUM_LEVELS && SortedTables(s) && 3 <= t < NUM_TIERS
    requires i == (if s.imm.Some? then 2 else 1) + |s.levels[0]| + (t - 3)
    ensures i < |Sources(s)| && Elements(Sources(s)[i].entries) == Tier(s, t)
  {
    assert Sources(s)[i].tier == t;
    SourceIsPartOfTier(s, i);
  }

  lemma {:induction false} SourceOf(s: Store, e: Entry) returns (i: nat)
    requires |s.levels| == NUM_LEVELS && SortedTables(s) && e in All(s)
    ensures i < |Sources(s)| && e in Sources(s)[i].entries
  {
    var t :| 0 <= t < NUM_TIERS && e in Tier(s, t);
    var k := if s.imm.Some? then 2 else 1;
    if t == 2 {
      var f :| f in FileSet(s.levels[0]) && e in f.entries;
      var n :| 0 <= n < |s.levels[0]| && s.levels[0][n] == f;
      i := k + n;
    } else if t < 2 {
      i := t;
    } else {
      i := k + |s.levels[0]| + (t - 3);
      DeeperSource(s, t, i);
    }
  }

  /** What a scan at snapshot `sn` shows is the versioned map at `sn`: a key is shown,
      with a value, exactly when the map holds that value for it. */
  lemma {:induction false} ScanShowsHistory(s: Store, h: seq<Entry>, next: nat, horizon: nat, sn: nat,
      u: UserKey, v: string)
    requires Structured(s, h, next) && Faithful(s, h, horizon) && horizon <= sn
    ensures HistoryRead(h, u, sn) == Some(v) <==>
            exists i :: ShownAt(MergeAll(Children(s)), sn, i) && MergeAll(Children(s))[i].key.user == u && MergeAll(Children(s))[i].value == v
  {
    var es := MergeAll(Children(s));
    ChildrenMerge(s, h, next);
    MergeAllSorted(Children(s));
    MergeAllElements(Children(s));
    HistoryDistinct(h);
    if HistoryRead(h, u, sn) == Some(v) {
      HistoryReads(h, u, sn);
      assert Reads(All(s), u, sn, Some(v));
      var i := ReadIsShown(es, sn, u, v);
    }
    if i :| ShownAt(es, sn, i) && es[i].key.user == u && es[i].value == v {
      ShownIsRead(es, sn, i);
      FaithfulAnswer(s, h, horizon, next, u, sn, Some(v));
    }
  }
}
