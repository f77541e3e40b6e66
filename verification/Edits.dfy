// The version edits that a flush, a trivial move and a compaction write, and the
// level a flushed memtable goes to (db/db_impl.cc, db/version_set.cc).
module Edits {
  import opened Keys
  import opened Version
  import opened Compaction
  import opened Builder
  import opened Lsm
  import opened LsmSteps

  /** Whether the range of `f` meets a file of level `l`. */
  ghost predicate Meets(levels: Levels, l: nat, f: FileMeta)
    requires LevelsOk(levels) && l < NUM_LEVELS && f.Valid()
  {
    exists i :: 0 <= i < |levels[l]| && Overlaps(levels[l][i], Some(f.Smallest().user), Some(f.Largest().user))
  }

  /** The first level at which the way down ends: at level 2, above a level that meets the
      range, or above one that is too crowded; level 0 if that meets the range. */
  ghost predicate FlushLands(levels: Levels, f: FileMeta, crowded: nat -> bool, level: nat)
    requires LevelsOk(levels) && f.Valid()
  {
    && level <= 2 && (level > 0 ==> ClearDownTo(levels, level, f))
    && (forall l :: 0 <= l < level ==> !crowded(l))
    && (level == 2 || Meets(levels, level + 1, f) || crowded(level) || (level == 0 && Meets(levels, 0, f)))
  }

  lemma {:induction false} FlushLandsOnce(levels: Levels, f: FileMeta, crowded: nat -> bool, level: nat, other: nat)
    requires LevelsOk(levels) && f.Valid() && FlushLands(levels, f, crowded, level) && FlushLands(levels, f, crowded, other)
    ensures level == other
  {
    ClearMeetsNothing(levels, level, f);
    ClearMeetsNothing(levels, other, f);
  }

  lemma {:induction false} ClearMeetsNothing(levels: Levels, level: nat, f: FileMeta)
    requires LevelsOk(levels) && f.Valid() && level < NUM_LEVELS && (level > 0 ==> ClearDownTo(levels, level, f))
    ensures forall l {:trigger Meets(levels, l, f)} :: 0 <= l <= level && level > 0 ==> !Meets(levels, l, f)
  {
    forall l | 0 <= l <= level && level > 0 ensures !Meets(levels, l, f) {
      forall i | 0 <= i < |levels[l]|
        ensures !Overlaps(levels[l][i], Some(f.Smallest().user), Some(f.Largest().user)) {
        assert levels[l][i] in levels[l];
      }
    }
  }

  /** As deep as level 2 while nothing on the way meets the range; `crowded` stands
      for the limit on overlapping bytes one level further down. */
  method PickLevelForMemTableOutput(levels: Levels, f: FileMeta, crowded: nat -> bool) returns (level: nat)
    requires LevelsOk(levels) && f.Valid()
    ensures FlushLands(levels, f, crowded, level)
  {
    level := 0;
    var lo, hi := f.Smallest().user, f.Largest().user;
    var overlap := SomeFileOverlapsRange(false, levels[0], Some(lo), Some(hi));
    if !overlap {
      ClearLevel(levels, 0, f);
      while level < MAX_MEM_COMPACT_LEVEL
        invariant level <= MAX_MEM_COMPACT_LEVEL && ClearDownTo(levels, level, f)
        invariant forall l :: 0 <= l < level ==> !crowded(l)
      {
        overlap := SomeFileOverlapsRange(true, levels[level + 1], Some(lo), Some(hi));
        if overlap || crowded(level) {
          break;
        }
        ClearLevel(levels, level + 1, f);
        level := level + 1;
      }
    }
  }

  lemma {:induction false} ClearLevel(levels: Levels, l: nat, f: FileMeta)
    requires LevelsOk(levels) && l < NUM_LEVELS && f.Valid() && (l > 0 ==> ClearDownTo(levels, l - 1, f))
    requires AllValid(levels[l])
    requires !exists i :: 0 <= i < |levels[l]| && Overlaps(levels[l][i], Some(f.Smallest().user), Some(f.Largest().user))
    ensures ClearDownTo(levels, l, f)
  {
  }

  // ----- LogAndApply's new version -----

  ghost predicate FollowsAt(levels: Levels, levels': Levels, e: Edit) {
    && |levels| == |levels'| == NUM_LEVELS
    && forall l :: 0 <= l < NUM_LEVELS ==> SortedByKey(levels'[l]) && FileSet(levels'[l]) == Applied(FileSet(levels[l]), e, l)
  }

  /** The version that edit `e` leads to; `FollowsAt`, sealed. */
  ghost predicate Follows(levels: Levels, levels': Levels, e: Edit) {
    FollowsSeal(|e.added| + 9, levels, levels', e)
  }

  ghost predicate FollowsSeal(n: nat, levels: Levels, levels': Levels, e: Edit) {
    if n == 0 then FollowsAt(levels, levels', e) else FollowsSeal(n - 1, levels, levels', e)
  }

  lemma {:induction false} FollowsSealOpens(n: nat, levels: Levels, levels': Levels, e: Edit)
    ensures FollowsSeal(n, levels, levels', e) <==> FollowsAt(levels, levels', e)
  {
    if n > 0 {
      FollowsSealOpens(n - 1, levels, levels', e);
    }
  }

  lemma {:induction false} OpenFollows(levels: Levels, levels': Levels, e: Edit)
    ensures Follows(levels, levels', e) <==> FollowsAt(levels, levels', e)
  {
    FollowsSealOpens(|e.added| + 9, levels, levels', e);
  }

  /** A fresh builder on the current version, one edit, one save. */
  method NewVersion(levels: Levels, e: Edit) returns (levels': Levels)
    requires LevelsOk(levels) && (forall l :: 0 <= l < NUM_LEVELS ==> SortedByKey(levels[l])) && EditOk(e)
    requires forall l :: 0 <= l < NUM_LEVELS ==> NumbersAgree(AddedAt(e, l, |e.added|), AddedAt(e, l, |e.added|))
    requires forall l :: 0 <= l < NUM_LEVELS ==> NoSharedNumber(FileSet(levels[l]), AddedAt(e, l, |e.added|))
    ensures Follows(levels, levels', e) && FollowsAt(levels, levels', e)
  {
    var builder := new VersionBuilder(levels);
    forall l | 0 <= l < NUM_LEVELS
      ensures NumbersAgree(builder.Known(l) + AddedAt(e, l, |e.added|), AddedAt(e, l, |e.added|)) {
      FreshAgrees(FileSet(levels[l]), AddedAt(e, l, |e.added|));
    }
    builder.Apply(e);
    levels' := builder.SaveTo();
    OpenFollows(levels, levels', e);
  }

  lemma {:induction false} FreshAgrees(files: set<FileMeta>, added: set<FileMeta>)
    requires NumbersAgree(added, added) && NoSharedNumber(files, added)
    ensures NumbersAgree(files + added, added)
  {
  }

  /** Listing the files of `files` as deletions from `level`. */
  function Deletions(level: nat, files: seq<FileMeta>): (r: seq<(nat, nat)>)
    ensures |r| == |files| && forall i :: 0 <= i < |files| ==> r[i] == (level, files[i].number)
  {
    seq(|files|, i requires 0 <= i < |files| => (level, files[i].number))
  }

  function Additions(level: nat, files: seq<FileMeta>): (r: seq<(nat, FileMeta)>)
    ensures |r| == |files| && forall i :: 0 <= i < |files| ==> r[i] == (level, files[i])
  {
    seq(|files|, i requires 0 <= i < |files| => (level, files[i]))
  }

  /** Deletes `gone0` from `level` and `gone1` from the next; adds `added` to level `to`. */
  function MakeEdit(level: nat, gone0: seq<FileMeta>, gone1: seq<FileMeta>, to: nat, added: seq<FileMeta>): Edit {
    Edit(Deletions(level, gone0) + Deletions(level + 1, gone1), Additions(to, added))
  }

  lemma {:induction false} MakeEditAt(level: nat, gone0: seq<FileMeta>, gone1: seq<FileMeta>, to: nat,
      added: seq<FileMeta>, l: nat)
    ensures var e := MakeEdit(level, gone0, gone1, to, added);
            && AddedAt(e, l, |e.added|) == (if l == to then FileSet(added) else {})
            && DeletedAt(e, l, |e.deleted|) == (if l == level then Numbers(FileSet(gone0))
                                                else if l == level + 1 then Numbers(FileSet(gone1)) else {})
  {
    var e := MakeEdit(level, gone0, gone1, to, added);
    forall f ensures f in AddedAt(e, l, |e.added|) <==> l == to && f in FileSet(added) {
      if l == to && f in added {
        var i :| 0 <= i < |added| && added[i] == f;
        assert e.added[i] == (to, f);
      }
    }
    forall n ensures n in DeletedAt(e, l, |e.deleted|) <==>
                     (l == level && n in Numbers(FileSet(gone0))) || (l == level + 1 && n in Numbers(FileSet(gone1))) {
      if l == level && n in Numbers(FileSet(gone0)) {
        var f :| f in FileSet(gone0) && f.number == n;
        var i :| 0 <= i < |gone0| && gone0[i] == f;
        assert e.deleted[i] == (level, n);
      }
      if l == level + 1 && n in Numbers(FileSet(gone1)) {
        var f :| f in FileSet(gone1) && f.number == n;
        var i :| 0 <= i < |gone1| && gone1[i] == f;
        assert e.deleted[|gone0| + i] == (level + 1, n);
      }
      if n in DeletedAt(e, l, |e.deleted|) {
        var i :| 0 <= i < |e.deleted| && e.deleted[i] == (l, n);
        if i < |gone0| {
          assert gone0[i] in FileSet(gone0);
        } else {
          assert gone1[i - |gone0|] in FileSet(gone1);
        }
      }
    }
  }

  /** Deleting by number removes exactly the files meant. */
  lemma {:induction false} AppliedMinus(levels: Levels, next: nat, l: nat, gone: set<FileMeta>, added: set<FileMeta>)
    requires |levels| == NUM_LEVELS && NumbersUnique(levels, next) && l < NUM_LEVELS && gone <= FileSet(levels[l])
    requires NoSharedNumber(FileSet(levels[l]), added)
    ensures (set f | f in FileSet(levels[l]) + added && (f.number !in Numbers(gone) || f.number in Numbers(added)))
            == FileSet(levels[l]) - gone + added
  {
    forall f ensures (f in FileSet(levels[l]) + added && (f.number !in Numbers(gone) || f.number in Numbers(added)))
                     <==> f in FileSet(levels[l]) - gone + added {
      if f in FileSet(levels[l]) {
        assert At(levels, l, f);
        if f.number in Numbers(gone) {
          var g :| g in gone && g.number == f.number;
          assert At(levels, l, g);
        }
        if f.number in Numbers(added) {
          var g :| g in added && g.number == f.number;
          assert SameNumber(f, g);
        }
      }
    }
  }

  /** The new version is the old one under the level edit that was meant. */
  lemma {:induction false} MakeEditIsLevelEdit(levels: Levels, levels': Levels, next: nat, level: nat,
      gone0: seq<FileMeta>, gone1: seq<FileMeta>, added: seq<FileMeta>)
    requires |levels| == |levels'| == NUM_LEVELS && level + 1 < NUM_LEVELS && NumbersUnique(levels, next)
    requires FileSet(gone0) <= FileSet(levels[level]) && FileSet(gone1) <= FileSet(levels[level + 1])
    requires NoSharedNumber(FileSet(levels[level + 1]), FileSet(added))
    requires var e := MakeEdit(level, gone0, gone1, level + 1, added);
             forall l :: 0 <= l < NUM_LEVELS ==> SortedByKey(levels'[l]) && FileSet(levels'[l]) == Applied(FileSet(levels[l]), e, l)
    ensures Edited(levels, levels', LevelEdit(level, FileSet(gone0), level + 1, FileSet(gone1), FileSet(added)))
  {
    var le := LevelEdit(level, FileSet(gone0), level + 1, FileSet(gone1), FileSet(added));
    forall l | 0 <= l < NUM_LEVELS ensures FileSet(levels'[l]) == EditedAt(FileSet(levels[l]), le, l) {
      MakeEditAt(level, gone0, gone1, level + 1, added, l);
      if l == level {
        AppliedMinus(levels, next, l, FileSet(gone0), {});
      } else if l == level + 1 {
        AppliedMinus(levels, next, l, FileSet(gone1), FileSet(added));
      } else {
        AppliedMinus(levels, next, l, {}, {});
      }
    }
  }

  /** The same for a flush: nothing leaves, one file arrives at level `to`. */
  lemma {:induction false} FlushEditIsLevelEdit(levels: Levels, levels': Levels, next: nat, to: nat, f: FileMeta)
    requires |levels| == |levels'| == NUM_LEVELS && to < NUM_LEVELS && NumbersUnique(levels, next)
    requires NoSharedNumber(FileSet(levels[to]), {f})
    requires var e := MakeEdit(NUM_LEVELS, [], [], to, [f]);
             forall l :: 0 <= l < NUM_LEVELS ==> SortedByKey(levels'[l]) && FileSet(levels'[l]) == Applied(FileSet(levels[l]), e, l)
    ensures Edited(levels, levels', LevelEdit(NUM_LEVELS, {}, to, {}, {f}))
  {
    assert FileSet([f]) == {f};
    forall l | 0 <= l < NUM_LEVELS
      ensures FileSet(levels'[l]) == EditedAt(FileSet(levels[l]), LevelEdit(NUM_LEVELS, {}, to, {}, {f}), l) {
      MakeEditAt(NUM_LEVELS, [], [], to, [f], l);
      AppliedMinus(levels, next, l, {}, if l == to then {f} else {});
    }
  }

  /** New numbers clash with nothing. */
  lemma {:induction false} FreshNumbers(levels: Levels, next: nat, l: nat, outs: seq<FileMeta>, first: nat)
    requires |levels| == NUM_LEVELS && NumbersUnique(levels, next) && l < NUM_LEVELS && Numbered(outs, first) && next <= first
    ensures NoSharedNumber(FileSet(levels[l]), FileSet(outs))
    ensures NumbersAgree(FileSet(outs), FileSet(outs))
  {
    forall f, g {:trigger SameNumber(f, g)} | f in FileSet(outs) && g in FileSet(outs) && SameNumber(f, g) ensures f == g {
      var i :| 0 <= i < |outs| && outs[i] == f;
      var j :| 0 <= j < |outs| && outs[j] == g;
    }
    forall f, g {:trigger SameNumber(f, g)} | f in FileSet(levels[l]) && g in FileSet(outs) ensures !SameNumber(f, g) {
      var j :| 0 <= j < |outs| && outs[j] == g;
      assert f in levels[l];
    }
  }
}
