// Where the engine's guarantees stop: three concrete stores that keep the engine's
// invariant, and inputs that its selection code chooses from them, with which a
// compaction does not keep what it should.
module Limits {
  import opened Keys
  import opened Version
  import opened Selection
  import opened Merge
  import opened Compaction
  import opened CompactionReads
  import opened Builder
  import opened Lsm
  import opened LsmSteps
  import opened InFlight
  import opened Install
  import opened Edits
  import opened DbSteps
  import opened TornLogs

  // ----- a deleted value that comes back -----

  const OLD_VALUE := Entry(InternalKey(2.0, 1, ValueType.Value), "gone")
  const TOMBSTONE := Entry(InternalKey(2.0, 2, Deletion), "")
  const PUT_LOW := Entry(InternalKey(1.0, 3, ValueType.Value), "a")
  const PUT_HIGH := Entry(InternalKey(1.0, 4, ValueType.Value), "b")

  const TOP := FileMeta(7, [PUT_HIGH])
  const LEFT := FileMeta(5, [PUT_LOW, TOMBSTONE])
  const RIGHT := FileMeta(6, [OLD_VALUE])
  const SPLIT_LEVELS: Levels := [[], [TOP], [LEFT, RIGHT], [], [], [], []]
  const SPLIT_STORE := Store([], None, SPLIT_LEVELS)
  const SPLIT_HISTORY := [OLD_VALUE, TOMBSTONE, PUT_LOW, PUT_HIGH]
  const SPLIT_JOB := Pending(1, [TOP], [LEFT], 4, SPLIT_LEVELS)

  lemma {:induction false} SplitLevelsOk()
    ensures LevelsOk(SPLIT_LEVELS) && forall l :: 0 <= l < NUM_LEVELS ==> SortedByKey(SPLIT_LEVELS[l])
  {
    assert TOP.Valid() && LEFT.Valid() && RIGHT.Valid();
    assert Before(LEFT, RIGHT);
  }

  lemma {:induction false} SplitTiers()
    ensures forall t :: 0 <= t < NUM_TIERS ==> Tier(SPLIT_STORE, t) == if t == 3 then {PUT_HIGH} else if t == 4 then {PUT_LOW, TOMBSTONE, OLD_VALUE} else {}
    ensures All(SPLIT_STORE) == Elements(SPLIT_HISTORY) == {OLD_VALUE, TOMBSTONE, PUT_LOW, PUT_HIGH}
  {
    assert EntriesOf(FileSet([])) == {};
    assert EntriesOf(FileSet([TOP])) == {PUT_HIGH} by {
      assert TOP in FileSet([TOP]) && PUT_HIGH in TOP.entries;
    }
    assert EntriesOf(FileSet([LEFT, RIGHT])) == {PUT_LOW, TOMBSTONE, OLD_VALUE} by {
      assert LEFT in FileSet([LEFT, RIGHT]) && RIGHT in FileSet([LEFT, RIGHT]);
      assert PUT_LOW in LEFT.entries && TOMBSTONE in LEFT.entries && OLD_VALUE in RIGHT.entries;
    }
    forall t | 0 <= t < NUM_TIERS
      ensures Tier(SPLIT_STORE, t) == if t == 3 then {PUT_HIGH} else if t == 4 then {PUT_LOW, TOMBSTONE, OLD_VALUE} else {} {
      assert t >= 2 ==> SPLIT_LEVELS[t - 2] == if t == 3 then [TOP] else if t == 4 then [LEFT, RIGHT] else [];
    }
    assert PUT_HIGH in Tier(SPLIT_STORE, 3) && PUT_LOW in Tier(SPLIT_STORE, 4) && TOMBSTONE in Tier(SPLIT_STORE, 4)
      && OLD_VALUE in Tier(SPLIT_STORE, 4);
  }

  lemma {:induction false} SplitNumbers()
    ensures NumbersUnique(SPLIT_LEVELS, 8)
  {
    forall l, f | At(SPLIT_LEVELS, l, f) ensures (l == 1 && f == TOP) || (l == 2 && (f == LEFT || f == RIGHT)) {
      assert SPLIT_LEVELS[l] == if l == 1 then [TOP] else if l == 2 then [LEFT, RIGHT] else [];
    }
    forall l, f | 0 <= l < NUM_LEVELS && f in SPLIT_LEVELS[l] ensures f.number < 8 {
      assert At(SPLIT_LEVELS, l, f);
    }
  }

  lemma {:induction false} SplitLayered()
    ensures Layered(SPLIT_STORE)
  {
    SplitTiers();
    forall i, j | 0 <= i < j < NUM_TIERS ensures Newer(Tier(SPLIT_STORE, i), Tier(SPLIT_STORE, j)) {
      if i == 3 && j == 4 {
        assert Newer({PUT_HIGH}, {PUT_LOW, TOMBSTONE, OLD_VALUE});
      }
    }
  }

  lemma {:induction false} SplitIsStructured()
    ensures Structured(SPLIT_STORE, SPLIT_HISTORY, 8) && Faithful(SPLIT_STORE, SPLIT_HISTORY, 0)
  {
    SplitLayered();
    SplitNumbers();
    assert SortedTables(SPLIT_STORE) by {
      SplitLevelsOk();
    }
    assert All(SPLIT_STORE) == Elements(SPLIT_HISTORY) by {
      SplitTiers();
    }
    assert FileSet([]) == {};
    assert NumberedByAge(FileSet(SPLIT_LEVELS[0]));
    assert IsHistory(SPLIT_HISTORY);
  }

  lemma {:induction false} OneIsSelected(level: nat, files: seq<FileMeta>, f: FileMeta)
    requires files == [f] && f.Valid()
    ensures AllValid(files) && Selected(level, files, files) && NothingOlderLeft(files, files)
    ensures IsHull(files, f.Smallest().user, f.Largest().user)
  {
    assert files[0] in files;
  }

  lemma {:induction false} SplitInputs()
    ensures AllValid(SPLIT_LEVELS[1]) && AllValid(SPLIT_LEVELS[2]) && LevelsOk(SPLIT_LEVELS) && AllValid(Inputs(SPLIT_JOB))
    ensures InputsOk(1, SPLIT_LEVELS[1], SPLIT_LEVELS[2], [TOP], [LEFT], 1.0, 1.0)
  {
    SplitLevelsOk();
    OneIsSelected(1, [TOP], TOP);
    assert LEFT.Valid();
    SplitParents();
  }

  lemma {:induction false} SplitParents()
    ensures Overlapping([LEFT, RIGHT], Some(1.0), Some(1.0)) == [LEFT]
  {
    assert [LEFT, RIGHT][..1] == [LEFT];
    assert [LEFT][..0] == [];
    assert Overlapping([], Some(1.0), Some(1.0)) == [];
    assert Overlaps(LEFT, Some(1.0), Some(1.0)) && !Overlaps(RIGHT, Some(1.0), Some(1.0));
    assert Overlapping([LEFT], Some(1.0), Some(1.0)) == [] + [LEFT];
    assert Overlapping([LEFT, RIGHT], Some(1.0), Some(1.0)) == [LEFT] + [];
  }

  lemma {:induction false} SplitMerged()
    ensures MergedInput(SPLIT_JOB) == [PUT_HIGH, PUT_LOW, TOMBSTONE]
  {
    var lists := EntryLists(Inputs(SPLIT_JOB));
    assert lists == [[PUT_HIGH], [PUT_LOW, TOMBSTONE]];
    assert lists[..1] == [[PUT_HIGH]] && lists[..1][..0] == [];
    assert MergeAll([]) == [];
    assert MergeAll([[PUT_HIGH]]) == MergeTwo([], [PUT_HIGH]) == [PUT_HIGH];
    assert [PUT_HIGH][1..] == [];
    assert MergeTwo([], [PUT_LOW, TOMBSTONE]) == [PUT_LOW, TOMBSTONE];
    assert MergeTwo([PUT_HIGH], [PUT_LOW, TOMBSTONE]) == [PUT_HIGH] + [PUT_LOW, TOMBSTONE];
  }

  lemma {:induction false} SplitRest()
    ensures Rest(SPLIT_STORE, SPLIT_JOB) == {OLD_VALUE}
  {
    SplitTiers();
    assert SPLIT_LEVELS[1] == [TOP] && SPLIT_LEVELS[2] == [LEFT, RIGHT];
    assert FileSet([LEFT, RIGHT]) - FileSet([LEFT]) == {RIGHT};
    assert FileSet([TOP]) - FileSet([TOP]) == {};
    assert EntriesOf({}) == {} && EntriesOf({RIGHT}) == {OLD_VALUE};
    forall t | 0 <= t < NUM_TIERS ensures RestTier(SPLIT_STORE, SPLIT_JOB, t) == if t == 4 then {OLD_VALUE} else {} {
    }
    assert OLD_VALUE in RestTier(SPLIT_STORE, SPLIT_JOB, 4);
  }

  lemma {:induction false} NothingBelow()
    ensures LevelsOk(SPLIT_LEVELS) && BaseLevel(SPLIT_LEVELS, 1, 2.0)
  {
    SplitLevelsOk();
  }

  lemma {:induction false} NewestAreThese()
    ensures IsNewest({PUT_HIGH, PUT_LOW, TOMBSTONE, OLD_VALUE}, 2.0, 4, TOMBSTONE)
    ensures IsNewest({PUT_HIGH, PUT_LOW, TOMBSTONE, OLD_VALUE}, 2.0, 5, TOMBSTONE)
    ensures IsNewest({OLD_VALUE}, 2.0, 4, OLD_VALUE) && IsNewest({OLD_VALUE}, 2.0, 5, OLD_VALUE)
  {
  }

  /** `SetupOtherInputs` extends only the inputs of `level` by boundary files. Here a
      user key is split between a parent that is an input and one that is not; the
      tombstone in the first is dropped and the value in the second is back. */
  lemma {:induction false} BoundaryParentIsUnsafe()
    ensures Structured(SPLIT_STORE, SPLIT_HISTORY, 8) && Faithful(SPLIT_STORE, SPLIT_HISTORY, 0)
    ensures LevelsOk(SPLIT_LEVELS) && AllValid(SPLIT_LEVELS[1]) && AllValid(SPLIT_LEVELS[2])
    ensures InputsOk(1, SPLIT_LEVELS[1], SPLIT_LEVELS[2], SPLIT_JOB.in0, SPLIT_JOB.in1, 1.0, 1.0)
    ensures Unsafe(SPLIT_STORE, Job(SPLIT_JOB, None, 0))
  {
    SplitIsStructured();
    SplitInputs();
    SplitMerged();
    SplitRest();
    var es := MergedInput(SPLIT_JOB);
    assert es[2] == TOMBSTONE;
    NothingBelow();
    assert BeforeMerge(es, {OLD_VALUE}) == {PUT_HIGH, PUT_LOW, TOMBSTONE, OLD_VALUE};
    NewestAreThese();
    assert Resurfaces(es, Rest(SPLIT_STORE, SPLIT_JOB), 4, SPLIT_LEVELS, 1, 2);
  }

  // ----- a value that only the memtable hides -----

  const HIDING := Entry(InternalKey(2.0, 5, ValueType.Value), "new")
  const HIDING_STORE := Store([HIDING], None, SPLIT_LEVELS)
  const HIDING_JOB := Pending(1, [TOP], [LEFT], 5, SPLIT_LEVELS)

  lemma {:induction false} HidingRest()
    ensures MergedInput(HIDING_JOB) == [PUT_HIGH, PUT_LOW, TOMBSTONE]
    ensures Rest(SPLIT_STORE, HIDING_JOB) == {OLD_VALUE} && Rest(HIDING_STORE, HIDING_JOB) == {OLD_VALUE, HIDING}
  {
    SplitMerged();
    SplitRest();
    assert Inputs(HIDING_JOB) == Inputs(SPLIT_JOB);
    forall t | 0 <= t < NUM_TIERS
      ensures RestTier(SPLIT_STORE, HIDING_JOB, t) == RestTier(SPLIT_STORE, SPLIT_JOB, t)
      ensures RestTier(HIDING_STORE, HIDING_JOB, t) == if t == 0 then {HIDING} else RestTier(SPLIT_STORE, SPLIT_JOB, t) {
    }
    assert HIDING in RestTier(HIDING_STORE, HIDING_JOB, 0);
    forall e ensures e in Rest(HIDING_STORE, HIDING_JOB) <==> e == HIDING || e in Rest(SPLIT_STORE, SPLIT_JOB) {
      if e in Rest(SPLIT_STORE, SPLIT_JOB) {
        var t :| 0 <= t < NUM_TIERS && e in RestTier(SPLIT_STORE, SPLIT_JOB, t);
        assert RestTier(SPLIT_STORE, SPLIT_JOB, 0) == {};
        assert e in RestTier(HIDING_STORE, HIDING_JOB, t);
      }
    }
  }

  lemma {:induction false} HidingIsStructured()
    ensures Structured(HIDING_STORE, SPLIT_HISTORY + [HIDING], 8) && Faithful(HIDING_STORE, SPLIT_HISTORY + [HIDING], 0)
  {
    SplitIsStructured();
    WriteStep(SPLIT_STORE, SPLIT_HISTORY, 8, HIDING, 0);
    assert Insert([], HIDING) == [HIDING];
  }

  lemma {:induction false} HidingIsSafe(es: seq<Entry>)
    requires es == [PUT_HIGH, PUT_LOW, TOMBSTONE] && LevelsOk(SPLIT_LEVELS)
    ensures forall i: nat :: !Resurfaces(es, {OLD_VALUE, HIDING}, 5, SPLIT_LEVELS, 1, i)
  {
    forall i: nat ensures !Resurfaces(es, {OLD_VALUE, HIDING}, 5, SPLIT_LEVELS, 1, i) {
      if i == 2 {
        assert HIDING in BeforeMerge(es, {OLD_VALUE, HIDING}) && Candidate(HIDING, 2.0, 5);
      }
    }
  }

  lemma {:induction false} WithoutHidingIsUnsafe(es: seq<Entry>)
    requires es == [PUT_HIGH, PUT_LOW, TOMBSTONE] && LevelsOk(SPLIT_LEVELS)
    ensures Resurfaces(es, {OLD_VALUE}, 5, SPLIT_LEVELS, 1, 2)
  {
    NothingBelow();
    assert es[2] == TOMBSTONE;
    assert BeforeMerge(es, {OLD_VALUE}) == {PUT_HIGH, PUT_LOW, TOMBSTONE, OLD_VALUE};
    NewestAreThese();
  }

  /** The same store and inputs, after one more write of the key that was deleted. To every
      reader the compaction is harmless, since the new value hides the old one. But the new
      value is only in the memtable, and for the store that is left if a crash takes the
      write, the old value is back. */
  lemma {:induction false} HiddenOnlyByMemtable()
    ensures Structured(HIDING_STORE, SPLIT_HISTORY + [HIDING], 8) && Faithful(HIDING_STORE, SPLIT_HISTORY + [HIDING], 0)
    ensures InputsOk(1, SPLIT_LEVELS[1], SPLIT_LEVELS[2], HIDING_JOB.in0, HIDING_JOB.in1, 1.0, 1.0)
    ensures !Unsafe(HIDING_STORE, Job(HIDING_JOB, None, 0)) && Unsafe(BaseStore(HIDING_STORE), Job(HIDING_JOB, None, 0))
  {
    HidingIsStructured();
    SplitInputs();
    HidingRest();
    assert BaseStore(HIDING_STORE) == SPLIT_STORE;
    HidingIsSafe(MergedInput(HIDING_JOB));
    WithoutHidingIsUnsafe(MergedInput(HIDING_JOB));
  }

  // ----- a flush into a gap -----

  const FIRST := FileMeta(5, [Entry(InternalKey(1.0, 1, ValueType.Value), "a")])
  const SECOND := FileMeta(6, [Entry(InternalKey(5.0, 2, ValueType.Value), "b")])
  const FLUSHED := FileMeta(8, [Entry(InternalKey(3.0, 3, ValueType.Value), "c")])
  const GAP_LEVELS: Levels := [[], [FIRST, SECOND], [], [], [], [], []]
  const GAP_STORE := Store([], Some(FLUSHED.entries), GAP_LEVELS)
  const GAP_HISTORY := [FIRST.entries[0], SECOND.entries[0], FLUSHED.entries[0]]
  const GAP_FLUSHED: Levels := [[], [FIRST, SECOND], [FLUSHED], [], [], [], []]
  const GAP_INSTALLED: Levels := [[], [], [GAP_OUTPUT, FLUSHED], [], [], [], []]
  const GAP_JOB := Pending(1, [FIRST, SECOND], [], 2, GAP_LEVELS)
  const GAP_OUTPUT := FileMeta(7, FIRST.entries + SECOND.entries)

  /** A manual compaction of level 1 with a gap in its inputs, of a store that keeps the
      invariant: the flush goes to level 2, into the gap, and once the compaction is
      installed level 2 is not a level any more. */
  lemma {:induction false} FlushIntoGapOverlaps()
    ensures Structured(GAP_STORE, GAP_HISTORY, 8) && Faithful(GAP_STORE, GAP_HISTORY, 0)
    ensures LevelsOk(GAP_LEVELS) && AllValid(GAP_LEVELS[1]) && AllValid(GAP_LEVELS[2]) && FLUSHED.Valid()
    ensures InputsOk(1, GAP_LEVELS[1], GAP_LEVELS[2], GAP_JOB.in0, GAP_JOB.in1, 1.0, 5.0)
    ensures PendingOk(GAP_LEVELS, GAP_JOB) && FlushLands(GAP_LEVELS, FLUSHED, l => false, 2) && FallsIntoGap(GAP_JOB, FLUSHED)
    ensures Edited(GAP_LEVELS, GAP_FLUSHED, LevelEdit(NUM_LEVELS, {}, 2, {}, {FLUSHED}))
    ensures LevelsOk(GAP_FLUSHED) && !PendingOk(GAP_FLUSHED, GAP_JOB)
    ensures Result(GAP_JOB, MergedInput(GAP_JOB), [GAP_OUTPUT], 7)
    ensures Edited(GAP_FLUSHED, GAP_INSTALLED, InstallEdit(GAP_JOB, [GAP_OUTPUT])) && !LevelsOk(GAP_INSTALLED)
  {
    GapLevels();
    GapInputs();
    GapIsStructured();
    PendingStarts(GAP_LEVELS, GAP_JOB, 1.0, 5.0);
    GapEdits();
    var s' := Store([], None, GAP_FLUSHED);
    GapIsAGap();
    PendingAfterFlush(GAP_STORE, s', GAP_HISTORY, 8, 2, FLUSHED, GAP_JOB);
    GapMerged();
    GapResult();
  }

  lemma {:induction false} GapIsAGap()
    ensures FallsIntoGap(GAP_JOB, FLUSHED)
  {
    assert FIRST.Valid() && SECOND.Valid();
    assert Inputs(GAP_JOB) == [FIRST, SECOND];
    assert FIRST in Inputs(GAP_JOB) && SECOND in Inputs(GAP_JOB);
  }

  lemma {:induction false} GapResult()
    requires LevelsOk(GAP_LEVELS) && GAP_OUTPUT.Valid()
    requires Flatten([GAP_OUTPUT]) == Kept(MergedInput(GAP_JOB), |MergedInput(GAP_JOB)|, 2, GAP_LEVELS, 1)
    requires MergedInput(GAP_JOB) == GAP_OUTPUT.entries
    ensures Result(GAP_JOB, MergedInput(GAP_JOB), [GAP_OUTPUT], 7)
  {
    assert FileSet(Inputs(GAP_JOB)) == {FIRST, SECOND} by {
      assert Inputs(GAP_JOB) == [FIRST, SECOND];
    }
    assert FIRST.entries[0] in FIRST.entries && SECOND.entries[0] in SECOND.entries;
    assert EntriesOf({FIRST, SECOND}) == {FIRST.entries[0], SECOND.entries[0]};
  }

  lemma {:induction false} GapLevels()
    ensures LevelsOk(GAP_LEVELS) && AllValid(GAP_LEVELS[1]) && AllValid(GAP_LEVELS[2]) && LevelSorted(GAP_LEVELS[1])
    ensures FLUSHED.Valid() && GAP_OUTPUT.Valid() && FlushLands(GAP_LEVELS, FLUSHED, l => false, 2)
    ensures forall l :: 0 <= l < NUM_LEVELS ==> SortedByKey(GAP_LEVELS[l])
  {
    assert FIRST.Valid() && SECOND.Valid() && Before(FIRST, SECOND);
  }

  lemma {:induction false} GapEdits()
    ensures Edited(GAP_LEVELS, GAP_FLUSHED, LevelEdit(NUM_LEVELS, {}, 2, {}, {FLUSHED})) && LevelsOk(GAP_FLUSHED)
    ensures Edited(GAP_FLUSHED, GAP_INSTALLED, InstallEdit(GAP_JOB, [GAP_OUTPUT])) && !LevelsOk(GAP_INSTALLED)
  {
    GapFlushed();
    GapInstalled();
    assert !LevelSorted(GAP_INSTALLED[2]) by {
      assert !Before(GAP_INSTALLED[2][0], GAP_INSTALLED[2][1]);
    }
  }

  lemma {:induction false} GapFiles()
    ensures FIRST.Valid() && SECOND.Valid() && FLUSHED.Valid() && Before(FIRST, SECOND)
    ensures FileSet([]) == {} && FileSet([FLUSHED]) == {FLUSHED} && FileSet([FIRST, SECOND]) == {FIRST, SECOND}
    ensures FileSet([GAP_OUTPUT]) == {GAP_OUTPUT} && FileSet([GAP_OUTPUT, FLUSHED]) == {GAP_OUTPUT, FLUSHED}
    ensures SortedByKey([FLUSHED]) && SortedByKey([FIRST, SECOND]) && SortedByKey([GAP_OUTPUT, FLUSHED])
  {
  }

  lemma {:induction false} GapFlushed()
    ensures Edited(GAP_LEVELS, GAP_FLUSHED, LevelEdit(NUM_LEVELS, {}, 2, {}, {FLUSHED})) && LevelsOk(GAP_FLUSHED)
  {
    var e := LevelEdit(NUM_LEVELS, {}, 2, {}, {FLUSHED});
    GapFiles();
    forall l | 0 <= l < NUM_LEVELS
      ensures SortedByKey(GAP_FLUSHED[l]) && FileSet(GAP_FLUSHED[l]) == EditedAt(FileSet(GAP_LEVELS[l]), e, l) {
    }
  }

  lemma {:induction false} GapInstalled()
    ensures Edited(GAP_FLUSHED, GAP_INSTALLED, InstallEdit(GAP_JOB, [GAP_OUTPUT]))
  {
    var e := InstallEdit(GAP_JOB, [GAP_OUTPUT]);
    GapFiles();
    assert e == LevelEdit(1, {FIRST, SECOND}, 2, {}, {GAP_OUTPUT});
    assert FLUSHED != GAP_OUTPUT && {FLUSHED} - {} + {GAP_OUTPUT} == {GAP_OUTPUT, FLUSHED};
    forall l | 0 <= l < NUM_LEVELS
      ensures SortedByKey(GAP_INSTALLED[l]) && FileSet(GAP_INSTALLED[l]) == EditedAt(FileSet(GAP_FLUSHED[l]), e, l) {
    }
  }

  lemma {:induction false} GapTiers()
    ensures forall t :: 0 <= t < NUM_TIERS ==> Tier(GAP_STORE, t) == if t == 1 then {GAP_HISTORY[2]} else if t == 3 then {GAP_HISTORY[0], GAP_HISTORY[1]} else {}
    ensures All(GAP_STORE) == Elements(GAP_HISTORY)
  {
    var e, f, g := GAP_HISTORY[0], GAP_HISTORY[1], GAP_HISTORY[2];
    assert EntriesOf(FileSet([])) == {};
    assert EntriesOf(FileSet([FIRST, SECOND])) == {e, f} by {
      assert FIRST in FileSet([FIRST, SECOND]) && SECOND in FileSet([FIRST, SECOND]);
      assert e in FIRST.entries && f in SECOND.entries;
    }
    forall t | 0 <= t < NUM_TIERS ensures Tier(GAP_STORE, t) == if t == 1 then {g} else if t == 3 then {e, f} else {} {
      assert t >= 2 ==> GAP_LEVELS[t - 2] == if t == 3 then [FIRST, SECOND] else [];
    }
    assert g in Tier(GAP_STORE, 1) && e in Tier(GAP_STORE, 3) && f in Tier(GAP_STORE, 3);
  }

  lemma {:induction false} GapNumbers()
    ensures NumbersUnique(GAP_LEVELS, 8)
  {
    forall l, f | At(GAP_LEVELS, l, f) ensures l == 1 && (f == FIRST || f == SECOND) {
      assert GAP_LEVELS[l] == if l == 1 then [FIRST, SECOND] else [];
    }
    forall l, f | 0 <= l < NUM_LEVELS && f in GAP_LEVELS[l] ensures f.number < 8 {
      assert At(GAP_LEVELS, l, f);
    }
  }

  lemma {:induction false} GapIsStructured()
    ensures Structured(GAP_STORE, GAP_HISTORY, 8) && Faithful(GAP_STORE, GAP_HISTORY, 0)
  {
    GapTiers();
    GapNumbers();
    GapLevels();
    assert Layered(GAP_STORE) by {
      assert Newer({GAP_HISTORY[2]}, {GAP_HISTORY[0], GAP_HISTORY[1]});
    }
    assert FileSet([]) == {};
    assert NumberedByAge(FileSet(GAP_LEVELS[0]));
    assert IsHistory(GAP_HISTORY);
  }

  lemma {:induction false} GapInputs()
    requires AllValid(GAP_LEVELS[1]) && AllValid(GAP_LEVELS[2]) && LevelSorted(GAP_LEVELS[1])
    ensures InputsOk(1, GAP_LEVELS[1], GAP_LEVELS[2], GAP_JOB.in0, GAP_JOB.in1, 1.0, 5.0) && AllValid(Inputs(GAP_JOB))
  {
    assert FIRST in [FIRST, SECOND] && SECOND in [FIRST, SECOND];
    assert Inputs(GAP_JOB) == [FIRST, SECOND];
    assert Overlapping([], Some(1.0), Some(5.0)) == [];
    assert Selected(1, GAP_LEVELS[1], [FIRST, SECOND]) by {
      LevelIsDistinct([FIRST, SECOND]);
    }
  }

  lemma {:induction false} GapMerged()
    requires LevelsOk(GAP_LEVELS)
    ensures Flatten([GAP_OUTPUT]) == Kept(MergedInput(GAP_JOB), |MergedInput(GAP_JOB)|, 2, GAP_LEVELS, 1)
    ensures MergedInput(GAP_JOB) == GAP_OUTPUT.entries
  {
    var a: seq<Entry>, b: seq<Entry> := FIRST.entries, SECOND.entries;
    var lists := EntryLists(Inputs(GAP_JOB));
    assert lists == [a, b];
    assert lists[..1] == [a] && [a][..0] == [];
    assert MergeAll([]) == [];
    assert MergeAll([a]) == MergeTwo([], a) == a;
    assert a[1..] == [];
    assert MergeTwo(a[1..], b) == b;
    var es := MergedInput(GAP_JOB);
    assert es == a + b;
    assert es[0] == a[0] && es[1] == b[0];
    assert Kept(es, 0, 2, GAP_LEVELS, 1) == [];
    assert Kept(es, 1, 2, GAP_LEVELS, 1) == [es[0]];
    assert Kept(es, 2, 2, GAP_LEVELS, 1) == [es[0], es[1]];
    assert [GAP_OUTPUT][..0] == [];
    assert Flatten([GAP_OUTPUT]) == [] + GAP_OUTPUT.entries;
  }
}
