// Replaying a manifest (db/version_set.cc): one builder takes the snapshot record and
// every edit after it, and comes to the file lists that the live database reached by
// applying the edits one at a time.
module Manifest {
  import opened Version
  import opened Builder

  /** The files of one level after these edits. */
  ghost function Replay(files: set<FileMeta>, edits: seq<Edit>, level: nat): set<FileMeta> {
    if |edits| == 0 then files else Applied(Replay(files, edits[..|edits| - 1], level), edits[|edits| - 1], level)
  }

  /** Every file that these edits ever add to a level. */
  ghost function EverAdded(edits: seq<Edit>, level: nat): set<FileMeta> {
    set i, f | 0 <= i < |edits| && f in AddedAt(edits[i], level, |edits[i].added|) :: f
  }

  /** A file number is never given to a second file. */
  ghost predicate OneFileANumber(edits: seq<Edit>) {
    forall l :: 0 <= l < NUM_LEVELS ==> NumbersAgree(EverAdded(edits, l), EverAdded(edits, l))
  }

  lemma {:induction false} EverAddedGrows(edits: seq<Edit>, i: nat, level: nat)
    requires i < |edits|
    ensures EverAdded(edits[..i + 1], level) == EverAdded(edits[..i], level) + AddedAt(edits[i], level, |edits[i].added|)
    ensures EverAdded(edits[..i + 1], level) <= EverAdded(edits, level)
  {
    forall f ensures f in EverAdded(edits[..i + 1], level)
                     <==> f in EverAdded(edits[..i], level) || f in AddedAt(edits[i], level, |edits[i].added|) {
      if f in EverAdded(edits[..i + 1], level) {
        var k :| 0 <= k < |edits[..i + 1]| && f in AddedAt(edits[..i + 1][k], level, |edits[..i + 1][k].added|);
        assert k < i ==> edits[..i][k] == edits[k];
      }
      if f in EverAdded(edits[..i], level) {
        var k :| 0 <= k < |edits[..i]| && f in AddedAt(edits[..i][k], level, |edits[..i][k].added|);
        assert edits[..i + 1][k] == edits[k];
      }
      assert edits[..i + 1][i] == edits[i];
    }
    forall f | f in EverAdded(edits[..i + 1], level) ensures f in EverAdded(edits, level) {
      var k :| 0 <= k < |edits[..i + 1]| && f in AddedAt(edits[..i + 1][k], level, |edits[..i + 1][k].added|);
      assert edits[..i + 1][k] == edits[k];
    }
  }

  lemma {:induction false} AgreeSubset(a: set<FileMeta>, b: set<FileMeta>, all: set<FileMeta>)
    requires NumbersAgree(all, all) && a <= all && b <= all
    ensures NumbersAgree(a, b)
  {
    forall f, g {:trigger SameNumber(f, g)} | f in a && g in b && SameNumber(f, g) ensures f == g {
      assert f in all && g in all;
    }
  }

  /** VersionSet::Recover: a builder on the empty version takes every record in turn. */
  method RecoverVersion(records: seq<Edit>) returns (levels: Levels)
    requires (forall i :: 0 <= i < |records| ==> EditOk(records[i])) && OneFileANumber(records)
    ensures |levels| == NUM_LEVELS
    ensures forall l :: 0 <= l < NUM_LEVELS ==> SortedByKey(levels[l]) && FileSet(levels[l]) == Replay({}, records, l)
  {
    var empty: Levels := seq(NUM_LEVELS, _ => []);
    var builder := new VersionBuilder(empty);
    assert FileSet([]) == {};
    for i := 0 to |records|
      invariant builder.Valid() && builder.base == empty
      invariant forall l :: 0 <= l < NUM_LEVELS ==> builder.Known(l) == EverAdded(records[..i], l)
      invariant forall l :: 0 <= l < NUM_LEVELS ==> builder.Live(l) == Replay({}, records[..i], l)
    {
      forall l | 0 <= l < NUM_LEVELS
        ensures var now := AddedAt(records[i], l, |records[i].added|);
                NumbersAgree(builder.Known(l) + now, now) && NoSharedNumber(FileSet(empty[l]), now)
                && builder.Known(l) + now == EverAdded(records[..i + 1], l) {
        EverAddedGrows(records, i, l);
        AgreeSubset(EverAdded(records[..i + 1], l), AddedAt(records[i], l, |records[i].added|), EverAdded(records, l));
      }
      assert records[..i + 1][..i] == records[..i];
      builder.Apply(records[i]);
    }
    assert records[..|records|] == records;
    levels := builder.SaveTo();
  }

  /** The record of a whole version that begins a new manifest (WriteSnapshot). */
  method SnapshotOf(levels: Levels) returns (e: Edit)
    requires |levels| == NUM_LEVELS && forall l :: 0 <= l < NUM_LEVELS ==> SortedByKey(levels[l])
    ensures EditOk(e) && e.deleted == [] && forall l :: 0 <= l < NUM_LEVELS ==> AddedAt(e, l, |e.added|) == FileSet(levels[l])
  {
    var added: seq<(nat, FileMeta)> := [];
    for level := 0 to NUM_LEVELS
      invariant forall k :: 0 <= k < |added| ==> added[k].0 < level && |added[k].1.entries| > 0
      invariant forall l :: 0 <= l < NUM_LEVELS ==> AddedAt(Edit([], added), l, |added|) == if l < level then FileSet(levels[l]) else {}
    {
      added := AddLevel(added, level, levels[level]);
    }
    e := Edit([], added);
  }

  method AddLevel(added0: seq<(nat, FileMeta)>, level: nat, files: seq<FileMeta>) returns (added: seq<(nat, FileMeta)>)
    requires level < NUM_LEVELS && SortedByKey(files)
    requires forall k :: 0 <= k < |added0| ==> added0[k].0 < level && |added0[k].1.entries| > 0
    ensures forall k :: 0 <= k < |added| ==> added[k].0 < level + 1 && |added[k].1.entries| > 0
    ensures forall l :: AddedAt(Edit([], added), l, |added|) == if l == level then FileSet(files) else AddedAt(Edit([], added0), l, |added0|)
  {
    added := added0;
    assert FileSet(files[..0]) == {};
    assert AddedAt(Edit([], added0), level, |added0|) == {};
    for i := 0 to |files|
      invariant forall k :: 0 <= k < |added| ==> added[k].0 < level + 1 && |added[k].1.entries| > 0
      invariant forall l :: AddedAt(Edit([], added), l, |added|) == if l == level then FileSet(files[..i]) else AddedAt(Edit([], added0), l, |added0|)
    {
      AddedOneMore(added, level, files[i]);
      TakeOne(files, i);
      added := added + [(level, files[i])];
    }
    assert files[..|files|] == files;
  }

  lemma {:induction false} AddedOneMore(added: seq<(nat, FileMeta)>, level: nat, f: FileMeta)
    ensures forall l ::
              (AddedAt(Edit([], added + [(level, f)]), l, |added| + 1) ==
               AddedAt(Edit([], added), l, |added|) + (if l == level then {f} else {}))
  {
    var more := added + [(level, f)];
    forall l ensures AddedAt(Edit([], more), l, |added| + 1) == AddedAt(Edit([], added), l, |added|) + (if l == level then {f} else {}) {
      forall g ensures g in AddedAt(Edit([], more), l, |added| + 1)
                       <==> g in AddedAt(Edit([], added), l, |added|) || (l == level && g == f) {
        if g in AddedAt(Edit([], more), l, |added| + 1) {
          var k :| 0 <= k < |added| + 1 && more[k].0 == l && more[k].1 == g;
          assert k < |added| ==> added[k] == more[k];
        }
        if g in AddedAt(Edit([], added), l, |added|) {
          var k :| 0 <= k < |added| && added[k].0 == l && added[k].1 == g;
          assert more[k] == added[k];
        }
        if l == level && g == f {
          assert more[|added|] == (level, f);
        }
      }
    }
  }

  /** The snapshot record stands for the version it was taken of. */
  lemma {:induction false} SnapshotFirst(files: set<FileMeta>, snapshot: Edit, edits: seq<Edit>, l: nat)
    requires snapshot.deleted == [] && AddedAt(snapshot, l, |snapshot.added|) == files
    ensures Replay({}, [snapshot] + edits, l) == Replay(files, edits, l)
  {
    if |edits| == 0 {
      assert [snapshot] + edits == [snapshot] && [snapshot][..0] == [];
      assert Applied({}, snapshot, l) == files;
    } else {
      assert ([snapshot] + edits)[..|edits|] == [snapshot] + edits[..|edits| - 1];
      SnapshotFirst(files, snapshot, edits[..|edits| - 1], l);
    }
  }

  /** The versions a live database goes through: each is the one before under one edit. */
  ghost predicate LiveVersions(versions: seq<Levels>, edits: seq<Edit>) {
    && |versions| == |edits| + 1
    && (forall i :: 0 <= i < |versions| ==> |versions[i]| == NUM_LEVELS)
    && (forall i, l :: 0 <= i < |versions| && 0 <= l < NUM_LEVELS ==> SortedByKey(versions[i][l]))
    && forall i, l :: 0 <= i < |edits| && 0 <= l < NUM_LEVELS ==>
         FileSet(versions[i + 1][l]) == Applied(FileSet(versions[i][l]), edits[i], l)
  }

  lemma {:induction false} LiveIsReplay(versions: seq<Levels>, edits: seq<Edit>, n: nat, l: nat)
    requires LiveVersions(versions, edits) && n <= |edits| && l < NUM_LEVELS
    ensures FileSet(versions[n][l]) == Replay(FileSet(versions[0][l]), edits[..n], l)
  {
    if n > 0 {
      LiveIsReplay(versions, edits, n - 1, l);
      assert edits[..n][..n - 1] == edits[..n - 1];
    }
  }

  /** What recovery reads from a manifest that begins with a snapshot is, file list by
      file list, the version that the database had reached. */
  lemma {:induction false} RecoveredIsLive(versions: seq<Levels>, edits: seq<Edit>, snapshot: Edit, recovered: Levels)
    requires LiveVersions(versions, edits) && snapshot.deleted == []
    requires forall l :: 0 <= l < NUM_LEVELS ==> AddedAt(snapshot, l, |snapshot.added|) == FileSet(versions[0][l])
    requires |recovered| == NUM_LEVELS
    requires forall l :: 0 <= l < NUM_LEVELS ==>
               SortedByKey(recovered[l]) && FileSet(recovered[l]) == Replay({}, [snapshot] + edits, l)
    ensures recovered == versions[|edits|]
  {
    forall l | 0 <= l < NUM_LEVELS ensures recovered[l] == versions[|edits|][l] {
      SnapshotFirst(FileSet(versions[0][l]), snapshot, edits, l);
      LiveIsReplay(versions, edits, |edits|, l);
      assert edits[..|edits|] == edits;
      SortedListingIsUnique(recovered[l], versions[|edits|][l]);
    }
  }
}
