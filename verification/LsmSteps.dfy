// Each step of the store keeps the invariant, and only a compaction that lets a
// deleted value resurface changes what readers see.
module LsmSteps {
  import opened Keys
  import opened Version
  import opened Compaction
  import opened CompactionReads
  import opened Builder
  import opened Lsm

  // ----- a write -----

  /** Memtable insertion: a skip list keeps its entries in key order. */
  function Insert(es: seq<Entry>, e: Entry): seq<Entry> {
    var i := LowerBound(es, e.key);
    es[..i] + [e] + es[i..]
  }

  lemma {:induction false} InsertIsSorted(es: seq<Entry>, e: Entry)
    requires Sorted(es) && forall f :: f in es ==> f.key.sn != e.key.sn
    ensures Sorted(Insert(es, e)) && Elements(Insert(es, e)) == Elements(es) + {e}
  {
    var i := LowerBound(es, e.key);
    forall k | i <= k < |es| ensures Less(e.key, es[k].key) {
      LowerBoundSplits(es, e.key, k);
      assert es[k] in es;
    }
    forall f ensures f in Insert(es, e) <==> f in Elements(es) + {e} {
      if f in es {
        assert f in es[..i] || f in es[i..];
      }
    }
  }

  lemma {:induction false} NewestReadsAlike(a: set<Entry>, b: set<Entry>, horizon: nat, e: Entry)
    requires SameReads(a, b, horizon) && DistinctSequences(a + {e}) && DistinctSequences(b + {e})
    requires forall f :: f in a || f in b ==> f.key.sn < e.key.sn
    ensures SameReads(a + {e}, b + {e}, horizon)
  {
    forall u, s, r | horizon <= s ensures Reads(a + {e}, u, s, r) <==> Reads(b + {e}, u, s, r) {
      NewestAdded(a, e, u, s, r);
      NewestAdded(b, e, u, s, r);
    }
  }

  lemma {:induction false} NewestAdded(a: set<Entry>, e: Entry, u: UserKey, s: nat, r: Option<string>)
    requires forall f :: f in a ==> f.key.sn < e.key.sn
    ensures Reads(a + {e}, u, s, r) <==> if Candidate(e, u, s) then r == Shown(e) else Reads(a, u, s, r)
  {
    if Candidate(e, u, s) {
      assert IsNewest(a + {e}, u, s, e);
      forall f | IsNewest(a + {e}, u, s, f) ensures f == e {
        assert e in a + {e} && e.key.sn <= f.key.sn;
      }
    } else {
      forall f ensures IsNewest(a + {e}, u, s, f) <==> IsNewest(a, u, s, f) {
      }
    }
  }

  /** A newer entry in the memtable is just one more, and everything stays in order. */
  lemma {:induction false} WriteTiers(s: Store, e: Entry)
    requires |s.levels| == NUM_LEVELS && Sorted(s.mem) && Layered(s) && forall f :: f in All(s) ==> f.key.sn < e.key.sn
    ensures var s' := s.(mem := Insert(s.mem, e));
            Sorted(s'.mem) && Layered(s') && All(s') == All(s) + {e}
  {
    var s' := s.(mem := Insert(s.mem, e));
    forall f | f in s.mem ensures f.key.sn != e.key.sn {
      assert f in Tier(s, 0);
    }
    InsertIsSorted(s.mem, e);
    assert Tier(s', 0) == Tier(s, 0) + {e};
    forall f ensures f in All(s') <==> f in All(s) + {e} {
      if f in All(s') {
        var t :| 0 <= t < NUM_TIERS && f in Tier(s', t);
        assert t > 0 ==> f in Tier(s, t);
      }
      if f in All(s) {
        var t :| 0 <= t < NUM_TIERS && f in Tier(s, t);
        assert f in Tier(s', t);
      }
      assert e in Tier(s', 0);
    }
    forall i, j | 0 <= i < j < NUM_TIERS ensures Newer(Tier(s', i), Tier(s', j)) {
      assert Newer(Tier(s, i), Tier(s, j));
      assert Tier(s', j) == Tier(s, j);
    }
  }

  lemma {:induction false} WriteStep(s: Store, h: seq<Entry>, next: nat, e: Entry, horizon: nat)
    requires Structured(s, h, next) && LastOf(h) < e.key.sn < MAX_SEQUENCE
    ensures Structured(s.(mem := Insert(s.mem, e)), h + [e], next)
    ensures All(s.(mem := Insert(s.mem, e))) == All(s) + {e}
    ensures Faithful(s, h, horizon) ==> Faithful(s.(mem := Insert(s.mem, e)), h + [e], horizon)
  {
    HistoryGrows(h, [e]);
    assert Elements(h + [e]) == Elements(h) + {e};
    forall f | f in Elements(h) ensures f.key.sn < e.key.sn {
      HistoryBound(h, f);
    }
    WriteTiers(s, e);
    if Faithful(s, h, horizon) {
      NewestReadsAlike(Elements(h), All(s), horizon, e);
    }
  }

  // ----- moving entries between tiers -----

  /** Entries `moved` go from tier `a` to the deeper tier `b`. */
  lemma {:induction false} MoveDown(s: Store, s': Store, a: nat, b: nat, moved: set<Entry>)
    requires |s.levels| == |s'.levels| == NUM_LEVELS && a < b < NUM_TIERS && Layered(s)
    requires forall t :: 0 <= t < NUM_TIERS && t != b ==> Tier(s', t) <= Tier(s, t)
    requires Tier(s', b) <= Tier(s, b) + moved && moved <= Tier(s, a)
    requires forall i :: a <= i < b ==> Newer(Tier(s', i), moved)
    ensures Layered(s')
  {
    forall i, j | 0 <= i < j < NUM_TIERS ensures Newer(Tier(s', i), Tier(s', j)) {
      assert Newer(Tier(s, i), Tier(s, j));
      if j == b && i < a {
        assert Newer(Tier(s, i), Tier(s, a));
      } else if i == b {
        assert Newer(Tier(s, a), Tier(s, j));
      }
    }
  }

  lemma {:induction false} SwitchStep(s: Store, h: seq<Entry>, next: nat)
    requires Structured(s, h, next) && s.imm.None?
    ensures Structured(Store([], Some(s.mem), s.levels), h, next)
    ensures All(Store([], Some(s.mem), s.levels)) == All(s)
  {
    var s' := Store([], Some(s.mem), s.levels);
    forall f ensures f in All(s') <==> f in All(s) {
      if f in All(s) {
        var t :| 0 <= t < NUM_TIERS && f in Tier(s, t);
        assert f in Tier(s', if t == 0 then 1 else t);
      }
      if f in All(s') {
        var t :| 0 <= t < NUM_TIERS && f in Tier(s', t);
        assert f in Tier(s, if t == 1 then 0 else t);
      }
    }
    forall i, j | 0 <= i < j < NUM_TIERS ensures Newer(Tier(s', i), Tier(s', j)) {
      assert Newer(Tier(s, if i == 1 then 0 else i), Tier(s, j));
    }
  }

  // ----- keeping a level in order -----

  /** Files with pairwise disjoint ranges, listed by smallest key, form a level. */
  lemma {:induction false} DisjointMakesLevel(files: seq<FileMeta>)
    requires SortedByKey(files) && AllValid(files)
    requires forall f, g :: f in files && g in files && f != g ==> Before(f, g) || Before(g, f)
    ensures LevelSorted(files)
  {
    forall i, j | 0 <= i < j < |files| ensures Before(files[i], files[j]) {
      assert ByKey(files[i], files[j]);
      assert files[i] in files && files[j] in files;
      EntryInRange(files[j], files[j].entries[0]);
      EntryInRange(files[i], files[i].entries[0]);
    }
  }

  lemma {:induction false} LevelIsDisjoint(files: seq<FileMeta>, f: FileMeta, g: FileMeta)
    requires LevelSorted(files) && f in files && g in files && f != g
    ensures Before(f, g) || Before(g, f)
  {
    var i :| 0 <= i < |files| && files[i] == f;
    var j :| 0 <= j < |files| && files[j] == g;
  }

  /** Dropping files from a level and adding disjoint ones keeps it a level. */
  lemma {:induction false} LevelAfterEdit(old_: seq<FileMeta>, new_: seq<FileMeta>, added: set<FileMeta>)
    requires LevelSorted(old_) && SortedByKey(new_) && FileSet(new_) <= FileSet(old_) + added
    requires forall f :: f in added ==> f.Valid()
    requires forall f, g :: f in added && g in new_ && f != g && f.Valid() && g.Valid() ==> Before(f, g) || Before(g, f)
    ensures LevelSorted(new_)
  {
    forall f | f in new_ ensures f.Valid() {
      assert f in FileSet(new_);
    }
    forall f, g | f in new_ && g in new_ && f != g ensures Before(f, g) || Before(g, f) {
      assert f in FileSet(new_) && g in FileSet(new_);
      if f in old_ && g in old_ {
        LevelIsDisjoint(old_, f, g);
      }
    }
    DisjointMakesLevel(new_);
  }

  lemma {:induction false} AllValidSubset(old_: seq<FileMeta>, new_: seq<FileMeta>, added: set<FileMeta>)
    requires AllValid(old_) && FileSet(new_) <= FileSet(old_) + added
    requires forall f :: f in added ==> f.Valid()
    ensures AllValid(new_)
  {
    forall i | 0 <= i < |new_| ensures new_[i].Valid() {
      assert new_[i] in FileSet(new_);
    }
  }

  // ----- version edits -----

  /** An edit: `minusA` leaves level `a`; at level `b`, `minusB` leaves and `plusB` arrives. */
  datatype LevelEdit = LevelEdit(a: nat, minusA: set<FileMeta>, b: nat, minusB: set<FileMeta>, plusB: set<FileMeta>)

  ghost function EditedAt(files: set<FileMeta>, e: LevelEdit, l: nat): set<FileMeta> {
    if l == e.b then files - e.minusB + e.plusB else if l == e.a then files - e.minusA else files
  }

  ghost predicate Edited(levels: Levels, levels': Levels, e: LevelEdit) {
    && |levels| == |levels'| == NUM_LEVELS && e.a != e.b && e.b < NUM_LEVELS
    && forall l :: 0 <= l < NUM_LEVELS ==> SortedByKey(levels'[l]) && FileSet(levels'[l]) == EditedAt(FileSet(levels[l]), e, l)
  }

  /** What the arriving files must satisfy. */
  ghost predicate Fits(levels: Levels, e: LevelEdit, next: nat, next': nat)
    requires |levels| == NUM_LEVELS && e.b < NUM_LEVELS
  {
    && next <= next'
    && (forall f :: f in e.plusB ==> f.Valid())
    && (forall f, g :: f in e.plusB && g in EditedAt(FileSet(levels[e.b]), e, e.b) && f != g && f.Valid() && g.Valid() && e.b > 0
          ==> Before(f, g) || Before(g, f))
    && (forall f :: f in e.plusB ==> f.number < next' && (Unused(levels, f.number) || (f in e.minusA && At(levels, e.a, f))))
    && forall f, g :: f in e.plusB && g in e.plusB && f.number == g.number ==> f == g
  }

  /** No live file has this number. */
  ghost predicate Unused(levels: Levels, number: nat)
    requires |levels| == NUM_LEVELS
  {
    forall l, f :: At(levels, l, f) ==> f.number != number
  }

  lemma {:induction false} LevelsAfterEdit(levels: Levels, levels': Levels, e: LevelEdit, next: nat, next': nat)
    requires LevelsOk(levels) && Edited(levels, levels', e) && Fits(levels, e, next, next')
    ensures LevelsOk(levels')
  {
    forall l | 0 <= l < NUM_LEVELS ensures if l == 0 then AllValid(levels'[0]) else LevelSorted(levels'[l]) {
      var added := if l == e.b then e.plusB else {};
      assert FileSet(levels'[l]) <= FileSet(levels[l]) + added;
      if l == 0 {
        AllValidSubset(levels[0], levels'[0], added);
      } else {
        forall f, g | f in added && g in levels'[l] && f != g && f.Valid() && g.Valid() ensures Before(f, g) || Before(g, f) {
          assert g in FileSet(levels'[l]);
        }
        LevelAfterEdit(levels[l], levels'[l], added);
      }
    }
  }

  lemma {:induction false} WhereFrom(levels: Levels, levels': Levels, e: LevelEdit, next: nat, next': nat,
      l: int, f: FileMeta)
    requires Edited(levels, levels', e) && Fits(levels, e, next, next') && At(levels', l, f)
    ensures (At(levels, l, f) && !(l == e.a && f in e.minusA))
            || (l == e.b && f in e.plusB && f.number < next' && (Unused(levels, f.number) || (f in e.minusA && At(levels, e.a, f))))
  {
    assert f in FileSet(levels'[l]);
  }

  lemma {:induction false} NumbersAfterEdit(levels: Levels, levels': Levels, e: LevelEdit, next: nat, next': nat)
    requires Edited(levels, levels', e) && Fits(levels, e, next, next') && NumbersUnique(levels, next)
    ensures NumbersUnique(levels', next')
  {
    forall l, f | 0 <= l < NUM_LEVELS && f in levels'[l] ensures f.number < next' {
      assert At(levels', l, f);
      WhereFrom(levels, levels', e, next, next', l, f);
    }
    forall l, m, f, g | At(levels', l, f) && At(levels', m, g) && f.number == g.number ensures l == m && f == g {
      WhereFrom(levels, levels', e, next, next', l, f);
      WhereFrom(levels, levels', e, next, next', m, g);
    }
  }

  lemma {:induction false} EntriesOfEdit(files: set<FileMeta>, minus: set<FileMeta>, plus: set<FileMeta>)
    ensures EntriesOf(files - minus + plus) == EntriesOf(files - minus) + EntriesOf(plus)
    ensures EntriesOf(files - minus) <= EntriesOf(files)
  {
  }

  lemma {:induction false} TierAfterEdit(s: Store, s': Store, e: LevelEdit, t: nat, moved: set<Entry>)
    requires |s.levels| == NUM_LEVELS && Edited(s.levels, s'.levels, e) && t < NUM_TIERS
    requires s'.mem == s.mem && (s'.imm == s.imm || s'.imm.None?)
    requires EntriesOf(e.plusB) <= Tier(s, e.b + 2) + moved
    ensures if t == e.b + 2 then Tier(s', t) <= Tier(s, t) + moved else Tier(s', t) <= Tier(s, t)
  {
    if t >= 2 {
      EntriesOfEdit(FileSet(s.levels[t - 2]), e.minusB, e.plusB);
      EntriesOfEdit(FileSet(s.levels[t - 2]), e.minusA, {});
      assert FileSet(s'.levels[t - 2]) == EditedAt(FileSet(s.levels[t - 2]), e, t - 2);
    }
  }

  lemma {:induction false} AllAfterEdit(s: Store, s': Store, a: nat, b: nat, moved: set<Entry>)
    requires |s.levels| == |s'.levels| == NUM_LEVELS && a < NUM_TIERS && b < NUM_TIERS && moved <= Tier(s, a)
    requires forall t :: 0 <= t < NUM_TIERS ==> if t == b then Tier(s', t) <= Tier(s, t) + moved else Tier(s', t) <= Tier(s, t)
    ensures All(s') <= All(s)
  {
    forall x | x in All(s') ensures x in All(s) {
      var t :| 0 <= t < NUM_TIERS && x in Tier(s', t);
      assert x in Tier(s, t) || x in Tier(s, a);
    }
  }

  lemma {:induction false} NumberedSubset(files: set<FileMeta>, files': set<FileMeta>)
    requires NumberedByAge(files) && files' <= files
    ensures NumberedByAge(files')
  {
  }

  /** Structure after a move of `moved` from tier `a` into level `e.b`. */
  lemma {:induction false} EditStep(s: Store, s': Store, h: seq<Entry>, next: nat, next': nat, e: LevelEdit,
      a: nat, moved: set<Entry>)
    requires Structured(s, h, next) && Edited(s.levels, s'.levels, e) && Fits(s.levels, e, next, next')
    requires s'.mem == s.mem && (s'.imm == s.imm || (s'.imm.None? && a == 1))
    requires a < e.b + 2 && moved <= Tier(s, a) && EntriesOf(e.plusB) <= Tier(s, e.b + 2) + moved
    requires forall t :: a <= t < e.b + 2 ==> Newer(Tier(s', t), moved)
    requires e.b == 0 ==> NumberedByAge(FileSet(s'.levels[0]))
    ensures Structured(s', h, next') && All(s') <= All(s)
  {
    assert SortedTables(s') by {
      LevelsAfterEdit(s.levels, s'.levels, e, next, next');
    }
    NumbersAfterEdit(s.levels, s'.levels, e, next, next');
    forall t | 0 <= t < NUM_TIERS ensures if t == e.b + 2 then Tier(s', t) <= Tier(s, t) + moved else Tier(s', t) <= Tier(s, t) {
      TierAfterEdit(s, s', e, t, moved);
    }
    MoveDown(s, s', a, e.b + 2, moved);
    AllAfterEdit(s, s', a, e.b + 2, moved);
    if e.b > 0 {
      NumberedSubset(FileSet(s.levels[0]), FileSet(s'.levels[0]));
    }
  }

  // ----- a flush -----

  /** No file of levels 0 to `lvl` meets the user-key range of `f`. */
  ghost predicate ClearDownTo(levels: Levels, lvl: nat, f: FileMeta)
    requires LevelsOk(levels) && lvl < NUM_LEVELS && f.Valid()
  {
    forall l, g :: 0 <= l <= lvl && g in levels[l] ==>
      g.Valid() && !Overlaps(g, Some(f.Smallest().user), Some(f.Largest().user))
  }

  lemma {:induction false} ClearSharesNoKey(levels: Levels, lvl: nat, f: FileMeta, l: nat, x: Entry, y: Entry)
    requires LevelsOk(levels) && lvl < NUM_LEVELS && f.Valid() && ClearDownTo(levels, lvl, f) && l <= lvl
    requires x in EntriesOf(FileSet(levels[l])) && y in f.entries
    ensures !SameUser(x, y)
  {
    var g :| g in FileSet(levels[l]) && x in g.entries;
    EntryInRange(g, x);
    EntryInRange(f, y);
  }

  lemma {:induction false} ImmIsAFile(s: Store, h: seq<Entry>, next: nat)
    requires Structured(s, h, next) && s.imm.Some? && |s.imm.value| > 0
    ensures FileMeta(next, s.imm.value).Valid()
  {
    forall i | 0 <= i < |s.imm.value| ensures s.imm.value[i].key.sn <= MAX_SEQUENCE {
      assert s.imm.value[i] in Tier(s, 1);
      assert s.imm.value[i] in All(s);
      HistoryBound(h, s.imm.value[i]);
    }
  }

  /** The new file fits, and everything above it is newer or unrelated. */
  lemma {:induction false} FlushFits(s: Store, s': Store, h: seq<Entry>, next: nat, lvl: nat, f: FileMeta)
    requires Structured(s, h, next) && s.imm.Some? && f == FileMeta(next, s.imm.value) && f.Valid()
    requires lvl < NUM_LEVELS && (lvl > 0 ==> ClearDownTo(s.levels, lvl, f))
    requires s'.mem == s.mem && s'.imm.None? && Edited(s.levels, s'.levels, LevelEdit(NUM_LEVELS, {}, lvl, {}, {f}))
    ensures Fits(s.levels, LevelEdit(NUM_LEVELS, {}, lvl, {}, {f}), next, next + 1)
    ensures forall t :: 1 <= t < lvl + 2 ==> Newer(Tier(s', t), Tier(s, 1))
  {
    var e := LevelEdit(NUM_LEVELS, {}, lvl, {}, {f});
    if lvl > 0 {
      forall g | g in EditedAt(FileSet(s.levels[lvl]), e, lvl) && g != f && g.Valid() ensures Before(f, g) || Before(g, f) {
        assert g in s.levels[lvl];
        EntryInRange(f, f.entries[0]);
        EntryInRange(g, g.entries[0]);
      }
    }
    forall t | 2 <= t < lvl + 2 ensures Newer(Tier(s', t), Tier(s, 1)) {
      assert FileSet(s'.levels[t - 2]) == FileSet(s.levels[t - 2]);
      forall x, y | x in Tier(s', t) && y in Tier(s, 1) ensures !SameUser(x, y) {
        ClearSharesNoKey(s.levels, lvl, f, t - 2, x, y);
      }
    }
  }

  lemma {:induction false} FlushLosesNothing(s: Store, s': Store, lvl: nat, f: FileMeta)
    requires |s.levels| == NUM_LEVELS && s.imm.Some? && f.entries == s.imm.value && lvl < NUM_LEVELS
    requires s'.mem == s.mem && Edited(s.levels, s'.levels, LevelEdit(NUM_LEVELS, {}, lvl, {}, {f}))
    ensures All(s) <= All(s')
  {
    forall x | x in All(s) ensures x in All(s') {
      var t :| 0 <= t < NUM_TIERS && x in Tier(s, t);
      if t == 1 {
        assert f in FileSet(s'.levels[lvl]);
        assert x in Tier(s', lvl + 2);
      } else if t >= 2 {
        assert FileSet(s.levels[t - 2]) <= FileSet(s'.levels[t - 2]);
        assert x in Tier(s', t);
      } else {
        assert x in Tier(s', t);
      }
    }
  }

  /** The immutable memtable becomes file `next` of level `lvl`. */
  lemma {:induction false} FlushStep(s: Store, s': Store, h: seq<Entry>, next: nat, lvl: nat, f: FileMeta)
    requires Structured(s, h, next) && s.imm.Some? && f == FileMeta(next, s.imm.value) && f.Valid()
    requires lvl < NUM_LEVELS && (lvl > 0 ==> ClearDownTo(s.levels, lvl, f))
    requires s'.mem == s.mem && s'.imm.None? && Edited(s.levels, s'.levels, LevelEdit(NUM_LEVELS, {}, lvl, {}, {f}))
    ensures Structured(s', h, next + 1) && All(s') == All(s)
  {
    var e := LevelEdit(NUM_LEVELS, {}, lvl, {}, {f});
    FlushFits(s, s', h, next, lvl, f);
    assert EntriesOf({f}) == Tier(s, 1) by {
      assert f in {f};
      assert Tier(s, 1) == Elements(f.entries);
    }
    if lvl == 0 {
      forall x, g | x in FileSet(s'.levels[0]) && g in FileSet(s'.levels[0]) && x.number > g.number
        ensures Newer(Elements(x.entries), Elements(g.entries)) {
        FlushNumbered(s, s', h, next, f, x, g);
      }
    }
    EditStep(s, s', h, next, next + 1, e, 1, Tier(s, 1));
    FlushLosesNothing(s, s', lvl, f);
  }

  lemma {:induction false} FlushNumbered(s: Store, s': Store, h: seq<Entry>, next: nat, f: FileMeta,
      x: FileMeta, g: FileMeta)
    requires Structured(s, h, next) && s.imm.Some? && f == FileMeta(next, s.imm.value)
    requires x in FileSet(s.levels[0]) + {f} && g in FileSet(s.levels[0]) + {f} && x.number > g.number
    ensures Newer(Elements(x.entries), Elements(g.entries))
  {
    if x == f {
      assert g in s.levels[0];
      forall a, b | a in Elements(x.entries) && b in Elements(g.entries) && SameUser(a, b) ensures a.key.sn > b.key.sn {
        assert a in Tier(s, 1) && b in Tier(s, 2);
        assert Newer(Tier(s, 1), Tier(s, 2));
      }
    } else {
      assert x in s.levels[0];
    }
  }
}
