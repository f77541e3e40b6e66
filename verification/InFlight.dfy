// A compaction from the moment its inputs are chosen to the moment its results
// are installed. Writes, memtable switches and flushes may happen in between.
module InFlight {
  import opened Keys
  import opened Version
  import opened Selection
  import opened Compaction
  import opened Merge
  import opened Builder
  import opened Lsm
  import opened LsmSteps

  /** `levels` is the version the inputs were chosen from. */
  datatype Pending = Pending(level: nat, in0: seq<FileMeta>, in1: seq<FileMeta>, smallest: nat, levels: Levels)

  function Inputs(c: Pending): seq<FileMeta> {
    c.in0 + c.in1
  }

  /** `g` is wholly before or wholly after every file of `ins`. */
  ghost predicate Aside(g: FileMeta, ins: seq<FileMeta>)
    requires g.Valid() && AllValid(ins)
  {
    (forall f :: f in ins ==> Before(g, f)) || (forall f :: f in ins ==> Before(f, g))
  }

  ghost predicate SharesKey(g: FileMeta, f: FileMeta, e: Entry, d: Entry) {
    e in g.entries && d in f.entries && SameUser(e, d)
  }

  /** What stays true of a pending compaction while the store moves on. */
  ghost predicate PendingOk(levels: Levels, c: Pending)
    requires LevelsOk(levels)
  {
    && c.level + 1 < NUM_LEVELS && LevelsOk(c.levels) && |c.in0| > 0
    && AllValid(c.in0) && AllValid(c.in1) && AllValid(Inputs(c)) && Distinct(c.in0) && Distinct(c.in1)
    && (forall f :: f in c.in0 ==> f in levels[c.level])
    && (forall f :: f in c.in1 ==> f in levels[c.level + 1])
    && NothingOlderLeft(levels[c.level], c.in0)
    && (forall g :: g in levels[c.level + 1] && g !in c.in1 ==> Aside(g, Inputs(c)))
    && DeepEnough(levels, c)
  }

  /** Where the base-level test said a key goes no deeper, it still does not. */
  ghost predicate DeepEnough(levels: Levels, c: Pending)
    requires LevelsOk(levels) && LevelsOk(c.levels)
  {
    forall l, g, f, e, d {:trigger At(levels, l, g), SharesKey(g, f, e, d)} ::
      At(levels, l, g) && c.level + 2 <= l && f in Inputs(c) && SharesKey(g, f, e, d) ==> !BaseLevel(c.levels, c.level, d.key.user)
  }

  lemma {:induction false} ParentsAside(level: nat, files: seq<FileMeta>, parents: seq<FileMeta>,
      in0: seq<FileMeta>, in1: seq<FileMeta>, lo: UserKey, hi: UserKey, g: FileMeta)
    requires AllValid(files) && LevelSorted(parents) && InputsOk(level, files, parents, in0, in1, lo, hi)
    requires AllValid(in0 + in1) && g in parents && g !in in1
    ensures g.Valid() && Aside(g, in0 + in1)
  {
    var j :| 0 <= j < |parents| && parents[j] == g;
    EntryInRange(g, g.entries[0]);
    assert !Overlaps(g, Some(lo), Some(hi));
    forall f | f in in0 + in1 ensures if AfterFile(Some(lo), g) then Before(g, f) else Before(f, g) {
      if f in in0 {
        assert lo <= f.Smallest().user && f.Largest().user <= hi;
      } else {
        var i :| 0 <= i < |parents| && parents[i] == f;
        assert Overlaps(f, Some(lo), Some(hi));
        EntryInRange(f, f.entries[0]);
        assert if i < j then Before(f, g) else Before(g, f);
      }
    }
  }

  /** Freshly chosen inputs are a good start. */
  lemma {:induction false} PendingStarts(levels: Levels, c: Pending, lo: UserKey, hi: UserKey)
    requires LevelsOk(levels) && c.level + 1 < NUM_LEVELS && c.levels == levels && AllValid(Inputs(c))
    requires AllValid(levels[c.level]) && InputsOk(c.level, levels[c.level], levels[c.level + 1], c.in0, c.in1, lo, hi)
    ensures PendingOk(levels, c)
  {
    AllValidOf(levels[c.level + 1], c.in1);
    LevelIsDistinct(levels[c.level + 1]);
    OverlappingDistinct(levels[c.level + 1], Some(lo), Some(hi));
    forall g | g in levels[c.level + 1] && g !in c.in1 ensures g.Valid() && Aside(g, Inputs(c)) {
      ParentsAside(c.level, levels[c.level], levels[c.level + 1], c.in0, c.in1, lo, hi, g);
    }
    forall l, g, f, e, d | At(levels, l, g) && c.level + 2 <= l && f in Inputs(c) && SharesKey(g, f, e, d)
      ensures !BaseLevel(c.levels, c.level, d.key.user) {
      var i :| 0 <= i < |levels[l]| && levels[l][i] == g;
      EntryInRange(g, e);
      assert Covers(g, d.key.user);
    }
  }

  // ----- a flush while a compaction is pending -----

  /** The flushed file does not land in a gap between the inputs. */
  ghost predicate OutsideGaps(c: Pending, f: FileMeta)
    requires AllValid(Inputs(c)) && f.Valid()
  {
    || (exists x :: x in Inputs(c) && Overlaps(x, Some(f.Smallest().user), Some(f.Largest().user)))
    || (forall x :: x in Inputs(c) ==> f.Largest().user < x.Smallest().user)
    || (forall x :: x in Inputs(c) ==> x.Largest().user < f.Smallest().user)
  }

  ghost predicate FallsIntoGap(c: Pending, f: FileMeta) {
    AllValid(Inputs(c)) && f.Valid() && !OutsideGaps(c, f)
  }

  /** Connected inputs, as every automatic compaction has, leave no gap. */
  lemma {:induction false} ConnectedHasNoGap(c: Pending, f: FileMeta)
    requires AllValid(Inputs(c)) && f.Valid() && Connected(Inputs(c))
    ensures OutsideGaps(c, f)
  {
    var ins := Inputs(c);
    if x :| x in ins && !(f.Largest().user < x.Smallest().user) {
      if y :| y in ins && !(y.Largest().user < f.Smallest().user) {
        EntryInRange(f, f.entries[0]);
        if !Overlaps(x, Some(f.Smallest().user), Some(f.Largest().user)) {
          assert Between(x, f.Smallest().user, y);
          var z :| z in ins && Covers(z, f.Smallest().user);
          assert Overlaps(z, Some(f.Smallest().user), Some(f.Largest().user));
        }
      }
    }
  }

  lemma {:induction false} FlushedLevels(levels: Levels, levels': Levels, lvl: nat, f: FileMeta)
    requires Edited(levels, levels', LevelEdit(NUM_LEVELS, {}, lvl, {}, {f}))
    ensures forall l, g {:trigger At(levels', l, g)} {:trigger At(levels, l, g)} ::
              At(levels', l, g) <==> At(levels, l, g) || (l == lvl && g == f)
  {
    forall l, g ensures At(levels', l, g) <==> At(levels, l, g) || (l == lvl && g == f) {
      if 0 <= l < NUM_LEVELS {
        assert g in FileSet(levels'[l]) <==> g in FileSet(levels[l]) || (l == lvl && g == f);
      }
    }
  }

  /** What a flush leaves of a pending compaction: it stands exactly unless the new file
      goes to the output level, into a gap between the inputs. */
  lemma {:induction false} PendingAfterFlush(s: Store, s': Store, h: seq<Entry>, next: nat, lvl: nat,
      f: FileMeta, c: Pending)
    requires Structured(s, h, next) && s.imm.Some? && |s.imm.value| > 0 && f == FileMeta(next, s.imm.value) && f.Valid()
    requires lvl < NUM_LEVELS && (lvl > 0 ==> ClearDownTo(s.levels, lvl, f))
    requires Edited(s.levels, s'.levels, LevelEdit(NUM_LEVELS, {}, lvl, {}, {f})) && LevelsOk(s'.levels)
    requires PendingOk(s.levels, c)
    ensures PendingOk(s'.levels, c) <==> (lvl == c.level + 1 ==> OutsideGaps(c, f))
  {
    if lvl == c.level + 1 && !OutsideGaps(c, f) {
      FlushedLevels(s.levels, s'.levels, lvl, f);
      assert At(s'.levels, lvl, f) && !At(s.levels, lvl, f);
      GapIsNotAside(c, f);
    } else {
      FlushAboveInputs(s, h, next, lvl, f, c);
      if lvl == c.level + 1 {
        FlushIsAside(s, h, next, lvl, f, c);
      }
      PendingWithFile(s.levels, s'.levels, lvl, f, c);
    }
  }

  lemma {:induction false} GapIsNotAside(c: Pending, f: FileMeta)
    requires AllValid(Inputs(c)) && f.Valid() && !OutsideGaps(c, f)
    ensures !Aside(f, Inputs(c))
  {
    EntryInRange(f, f.entries[0]);
    forall x | x in Inputs(c) ensures x.Valid() && !Overlaps(x, Some(f.Smallest().user), Some(f.Largest().user)) {
      var i :| 0 <= i < |Inputs(c)| && Inputs(c)[i] == x;
      EntryInRange(x, x.entries[0]);
    }
  }

  /** A new file that is newer than, aside of or above the inputs does not disturb them. */
  lemma {:induction false} PendingWithFile(levels: Levels, levels': Levels, lvl: nat, f: FileMeta, c: Pending)
    requires LevelsOk(levels) && LevelsOk(levels') && f.Valid()
    requires Edited(levels, levels', LevelEdit(NUM_LEVELS, {}, lvl, {}, {f})) && PendingOk(levels, c)
    requires lvl == c.level + 1 ==> Aside(f, Inputs(c))
    requires forall x, e, d {:trigger SharesKey(f, x, e, d)} :: x in c.in0 && SharesKey(f, x, e, d) && lvl >= c.level ==>
               lvl == 0 && Less(e.key, d.key)
    requires forall x, e, d {:trigger SharesKey(f, x, e, d)} :: x in Inputs(c) && SharesKey(f, x, e, d) ==> lvl < c.level + 2
    ensures PendingOk(levels', c)
  {
    FlushedLevels(levels, levels', lvl, f);
    forall x | x in c.in0 ensures x in levels'[c.level] {
      assert At(levels, c.level, x);
      assert At(levels', c.level, x);
    }
    forall x | x in c.in1 ensures x in levels'[c.level + 1] {
      assert At(levels, c.level + 1, x);
      assert At(levels', c.level + 1, x);
    }
    forall g, x, e, d {:trigger ShareKey(g, x, e, d)} | g in levels'[c.level] && g !in c.in0 && x in c.in0 && ShareKey(g, x, e, d)
      ensures Less(e.key, d.key) {
      assert At(levels', c.level, g);
      assert g == f ==> SharesKey(f, x, e, d);
    }
    forall g | g in levels'[c.level + 1] && g !in c.in1 ensures Aside(g, Inputs(c)) {
      assert At(levels', c.level + 1, g);
    }
    DeepWithFile(levels, levels', lvl, f, c);
  }

  lemma {:induction false} DeepWithFile(levels: Levels, levels': Levels, lvl: nat, f: FileMeta, c: Pending)
    requires LevelsOk(levels) && LevelsOk(levels') && LevelsOk(c.levels) && DeepEnough(levels, c)
    requires Edited(levels, levels', LevelEdit(NUM_LEVELS, {}, lvl, {}, {f}))
    requires forall x, e, d {:trigger SharesKey(f, x, e, d)} :: x in Inputs(c) && SharesKey(f, x, e, d) ==> lvl < c.level + 2
    ensures DeepEnough(levels', c)
  {
    FlushedLevels(levels, levels', lvl, f);
  }

  /** Flushed entries that share a key with the inputs land at level 0, and are newer. */
  lemma {:induction false} FlushAboveInputs(s: Store, h: seq<Entry>, next: nat, lvl: nat, f: FileMeta, c: Pending)
    requires Structured(s, h, next) && s.imm.Some? && f == FileMeta(next, s.imm.value) && f.Valid()
    requires lvl < NUM_LEVELS && (lvl > 0 ==> ClearDownTo(s.levels, lvl, f)) && PendingOk(s.levels, c)
    ensures forall x, e, d {:trigger SharesKey(f, x, e, d)} :: x in c.in0 && SharesKey(f, x, e, d) && lvl >= c.level ==>
              lvl == 0 && Less(e.key, d.key)
    ensures forall x, e, d {:trigger SharesKey(f, x, e, d)} :: x in Inputs(c) && SharesKey(f, x, e, d) ==> lvl < c.level + 2
  {
    forall x, e, d {:trigger SharesKey(f, x, e, d)} | x in Inputs(c) && SharesKey(f, x, e, d)
      ensures lvl < c.level + 2
      ensures x in c.in0 && lvl >= c.level ==> lvl == 0 && Less(e.key, d.key)
    {
      var at := if x in c.in0 then c.level else c.level + 1;
      assert x in FileSet(s.levels[at]) && d in EntriesOf(FileSet(s.levels[at]));
      if lvl > 0 && lvl >= at {
        ClearSharesNoKey(s.levels, lvl, f, at, d, e);
      }
      assert e in Tier(s, 1) && d in Tier(s, at + 2);
      assert Newer(Tier(s, 1), Tier(s, at + 2));
    }
  }

  lemma {:induction false} FlushIsAside(s: Store, h: seq<Entry>, next: nat, lvl: nat, f: FileMeta, c: Pending)
    requires Structured(s, h, next) && f.Valid() && PendingOk(s.levels, c)
    requires lvl == c.level + 1 && ClearDownTo(s.levels, lvl, f) && OutsideGaps(c, f)
    ensures Aside(f, Inputs(c))
  {
    forall x | x in Inputs(c) ensures x.Valid() && !Overlaps(x, Some(f.Smallest().user), Some(f.Largest().user)) {
      assert if x in c.in0 then x in s.levels[c.level] else x in s.levels[c.level + 1];
    }
    assert forall x :: x in Inputs(c) ==> if f.Largest().user < x.Smallest().user then Before(f, x) else Before(x, f);
  }

  // ----- merging the inputs -----

  function EntryLists(files: seq<FileMeta>): (r: seq<seq<Entry>>)
    ensures |r| == |files| && forall i :: 0 <= i < |files| ==> r[i] == files[i].entries
  {
    seq(|files|, i requires 0 <= i < |files| => files[i].entries)
  }

  /** What the compaction's merging iterator yields. */
  function MergedInput(c: Pending): seq<Entry> {
    MergeAll(EntryLists(Inputs(c)))
  }

  lemma {:induction false} InputsShareNoKey(s: Store, h: seq<Entry>, next: nat, c: Pending, i: nat, j: nat,
      e: Entry, d: Entry)
    requires Structured(s, h, next) && PendingOk(s.levels, c) && i < j < |Inputs(c)|
    requires e in Inputs(c)[i].entries && d in Inputs(c)[j].entries
    ensures e.key != d.key
  {
    var f, g := Inputs(c)[i], Inputs(c)[j];
    var at := if i < |c.in0| then c.level else c.level + 1;
    assert At(s.levels, at, f) by {
      assert if i < |c.in0| then f in c.in0 else f in c.in1;
    }
    if i < |c.in0| <= j {
      assert g in c.in1;
      assert f in FileSet(s.levels[c.level]) && g in FileSet(s.levels[c.level + 1]);
      assert e in Tier(s, c.level + 2) && d in Tier(s, c.level + 3);
      assert Newer(Tier(s, c.level + 2), Tier(s, c.level + 3));
      assert SameUser(e, d) ==> e.key.sn > d.key.sn;
    } else {
      assert At(s.levels, at, g) by {
        assert if j < |c.in0| then g in c.in0 else g in c.in1;
      }
      assert f != g by {
        assert if j < |c.in0| then Differ(c.in0, i, j) else Differ(c.in1, i - |c.in0|, j - |c.in0|);
      }
      SameLevelShareNoKey(s, h, next, at, f, g, e, d);
    }
  }

  lemma {:induction false} SameLevelShareNoKey(s: Store, h: seq<Entry>, next: nat, l: nat, f: FileMeta,
      g: FileMeta, e: Entry, d: Entry)
    requires Structured(s, h, next) && At(s.levels, l, f) && At(s.levels, l, g) && f != g
    requires e in f.entries && d in g.entries
    ensures e.key != d.key
  {
    if l == 0 {
      assert f in FileSet(s.levels[0]) && g in FileSet(s.levels[0]);
      assert f.number != g.number;
      assert if f.number > g.number then Newer(Elements(f.entries), Elements(g.entries))
             else Newer(Elements(g.entries), Elements(f.entries));
      assert SameUser(e, d) && SameUser(d, e) ==> e.key.sn != d.key.sn;
    } else {
      LevelIsDisjoint(s.levels[l], f, g);
      EntryInRange(f, e);
      EntryInRange(g, d);
    }
  }

  lemma {:induction false} InputsMergeable(s: Store, h: seq<Entry>, next: nat, c: Pending)
    requires Structured(s, h, next) && PendingOk(s.levels, c)
    ensures Mergeable(EntryLists(Inputs(c)))
  {
    var lists := EntryLists(Inputs(c));
    forall i, j | 0 <= i < j < |lists| ensures NoCommonKey(Elements(lists[i]), Elements(lists[j])) {
      forall e, d | e in Elements(lists[i]) && d in Elements(lists[j]) ensures e.key != d.key {
        InputsShareNoKey(s, h, next, c, i, j, e, d);
      }
    }
  }

  lemma {:induction false} ListsHoldEntries(files: seq<FileMeta>)
    ensures AllElements(EntryLists(files)) == EntriesOf(FileSet(files))
  {
    var lists := EntryLists(files);
    forall e ensures e in AllElements(lists) <==> e in EntriesOf(FileSet(files)) {
      if e in AllElements(lists) {
        var i :| 0 <= i < |lists| && e in lists[i];
        assert files[i] in FileSet(files);
      }
      if e in EntriesOf(FileSet(files)) {
        var f :| f in FileSet(files) && e in f.entries;
        var i :| 0 <= i < |files| && files[i] == f;
        assert e in lists[i];
      }
    }
  }

  /** The merged input is sorted and holds exactly the entries of the inputs. */
  lemma {:induction false} InputsMerge(s: Store, h: seq<Entry>, next: nat, c: Pending)
    requires Structured(s, h, next) && PendingOk(s.levels, c)
    ensures Sorted(MergedInput(c)) && Elements(MergedInput(c)) == EntriesOf(FileSet(Inputs(c)))
  {
    InputsMergeable(s, h, next, c);
    MergeAllSorted(EntryLists(Inputs(c)));
    MergeAllElements(EntryLists(Inputs(c)));
    ListsHoldEntries(Inputs(c));
  }
}
