// A flush while a compaction is under way, when the new table goes to the compaction's
// output level (db/db_impl.cc, the flush inside DoCompactionWork): exactly when the
// level survives the installation of the results.
module FlushGaps {
  import opened Keys
  import opened Version
  import opened Compaction
  import opened Builder
  import opened Lsm
  import opened LsmSteps
  import opened InFlight
  import opened Install

  /** The flushed file lies beside every output file. */
  ghost predicate BesideOutputs(outs: seq<FileMeta>, f: FileMeta)
    requires f.Valid() && forall i :: 0 <= i < |outs| ==> |outs[i].entries| > 0
  {
    forall i :: 0 <= i < |outs| ==> Before(outs[i], f) || Before(f, outs[i])
  }

  /** A file that stays out of the gaps between the inputs is beside every output. */
  lemma {:induction false} OutsideGapsIsBeside(s: Store, h: seq<Entry>, next: nat, c: Pending, es: seq<Entry>,
      outs: seq<FileMeta>, first: nat, f: FileMeta)
    requires Structured(s, h, next) && PendingOk(s.levels, c) && Result(c, es, outs, first)
    requires f.Valid() && ClearDownTo(s.levels, c.level + 1, f) && OutsideGaps(c, f)
    ensures BesideOutputs(outs, f)
  {
    FlushIsAside(s, h, next, c.level + 1, f, c);
    OutputsValid(s, h, next, c, es, outs, first);
    forall i | 0 <= i < |outs| ensures Before(outs[i], f) || Before(f, outs[i]) {
      AsideOfOutputs(c, es, outs, first, outs[i], f);
    }
  }

  /** An output with entries on both sides of the flushed file is not beside it. */
  lemma {:induction false} SpanningIsNotBeside(outs: seq<FileMeta>, f: FileMeta, i: nat, lo: Entry, hi: Entry)
    requires f.Valid() && AllValid(outs) && i < |outs| && lo in outs[i].entries && hi in outs[i].entries
    requires Less(lo.key, f.Largest()) && Less(f.Smallest(), hi.key)
    ensures !BesideOutputs(outs, f)
  {
    EntryInRange(outs[i], lo);
    EntryInRange(outs[i], hi);
  }

  /** After a flush into the output level and then the installation, all levels are
      levels exactly when the flushed file lies beside every output file. */
  lemma {:induction false} InstallAroundFlushExactly(s: Store, h: seq<Entry>, next: nat, c: Pending,
      es: seq<Entry>, outs: seq<FileMeta>, first: nat, f: FileMeta, flushed: Levels, installed: Levels)
    requires Structured(s, h, next) && PendingOk(s.levels, c) && Result(c, es, outs, first) && Reserved(s.levels, outs, next)
    requires f.Valid() && f.number == next && ClearDownTo(s.levels, c.level + 1, f)
    requires Edited(s.levels, flushed, LevelEdit(NUM_LEVELS, {}, c.level + 1, {}, {f}))
    requires Edited(flushed, installed, InstallEdit(c, outs))
    ensures LevelsOk(installed) <==> BesideOutputs(outs, f)
  {
    var b := c.level + 1;
    assert FileSet(installed[b]) == FileSet(s.levels[b]) + {f} - FileSet(c.in1) + FileSet(outs);
    NewFileIsNoInput(s, next, c, f);
    if LevelsOk(installed) {
      forall i | 0 <= i < |outs| ensures Before(outs[i], f) || Before(f, outs[i]) {
        assert f in FileSet(installed[b]) && outs[i] in FileSet(installed[b]);
        LevelIsDisjoint(installed[b], outs[i], f);
      }
    }
    if BesideOutputs(outs, f) {
      OutputLevelOk(s, h, next, c, es, outs, first, f, installed[b]);
      OtherLevelsOk(s, c, outs, f, flushed, installed);
    }
  }

  lemma {:induction false} NewFileIsNoInput(s: Store, next: nat, c: Pending, f: FileMeta)
    requires LevelsOk(s.levels) && NumbersUnique(s.levels, next) && PendingOk(s.levels, c) && f.number == next
    ensures f !in FileSet(c.in1) && f !in FileSet(s.levels[c.level + 1])
  {
  }

  lemma {:induction false} OutputLevelOk(s: Store, h: seq<Entry>, next: nat, c: Pending, es: seq<Entry>,
      outs: seq<FileMeta>, first: nat, f: FileMeta, files: seq<FileMeta>)
    requires Structured(s, h, next) && PendingOk(s.levels, c) && Result(c, es, outs, first) && f.Valid()
    requires BesideOutputs(outs, f) && ClearDownTo(s.levels, c.level + 1, f) && SortedByKey(files)
    requires FileSet(files) == FileSet(s.levels[c.level + 1]) + {f} - FileSet(c.in1) + FileSet(outs) && f !in FileSet(c.in1)
    ensures LevelSorted(files)
  {
    var before := s.levels[c.level + 1];
    OutputsValid(s, h, next, c, es, outs, first);
    var added := FileSet(outs) + {f};
    forall x, g | x in added && g in files && x != g && g.Valid() ensures Before(x, g) || Before(g, x) {
      assert g in FileSet(files);
      if x == f {
        FlushedBeside(s.levels, c, outs, f, g);
      } else {
        var i :| 0 <= i < |outs| && outs[i] == x;
        if g in outs {
          var j :| 0 <= j < |outs| && outs[j] == g;
        } else if g != f {
          AsideOfOutputs(c, es, outs, first, x, g);
        }
      }
    }
    LevelAfterEdit(before, files, added);
  }

  lemma {:induction false} FlushedBeside(levels: Levels, c: Pending, outs: seq<FileMeta>, f: FileMeta, g: FileMeta)
    requires LevelsOk(levels) && c.level + 1 < NUM_LEVELS && f.Valid() && g.Valid() && ClearDownTo(levels, c.level + 1, f)
    requires AllValid(outs) && BesideOutputs(outs, f) && (g in outs || g in levels[c.level + 1])
    ensures Before(f, g) || Before(g, f)
  {
    if g in outs {
      var i :| 0 <= i < |outs| && outs[i] == g;
    } else {
      EntryInRange(g, g.entries[0]);
    }
  }

  lemma {:induction false} OtherLevelsOk(s: Store, c: Pending, outs: seq<FileMeta>, f: FileMeta, flushed: Levels,
      installed: Levels)
    requires LevelsOk(s.levels) && c.level + 1 < NUM_LEVELS && f.Valid()
    requires Edited(s.levels, flushed, LevelEdit(NUM_LEVELS, {}, c.level + 1, {}, {f}))
    requires Edited(flushed, installed, InstallEdit(c, outs)) && LevelSorted(installed[c.level + 1])
    ensures LevelsOk(installed)
  {
    forall l | 0 <= l < NUM_LEVELS && l != c.level + 1
      ensures if l == 0 then AllValid(installed[0]) else LevelSorted(installed[l])
    {
      assert FileSet(installed[l]) <= FileSet(flushed[l]) == FileSet(s.levels[l]);
      if l == 0 {
        AllValidSubset(s.levels[0], installed[0], {});
      } else {
        LevelAfterEdit(s.levels[l], installed[l], {});
      }
    }
  }
}
