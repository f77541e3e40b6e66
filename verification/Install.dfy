// Installing the results of a compaction, and the exact condition under which
// that is invisible to readers.
module Install {
  import opened Keys
  import opened Version
  import opened Selection
  import opened Compaction
  import opened CompactionReads
  import opened Builder
  import opened Lsm
  import opened LsmSteps
  import opened InFlight

  lemma {:induction false} FlattenMembers(outs: seq<FileMeta>, e: Entry)
    ensures e in Flatten(outs) <==> e in EntriesOf(FileSet(outs))
  {
    if |outs| > 0 {
      var n := |outs| - 1;
      FlattenMembers(outs[..n], e);
      assert outs == outs[..n] + [outs[n]];
      assert FileSet(outs) == FileSet(outs[..n]) + {outs[n]};
      if e in EntriesOf(FileSet(outs)) {
        var f :| f in FileSet(outs) && e in f.entries;
        assert f in outs[..n] || f == outs[n];
      }
      assert outs[n] in FileSet(outs);
    }
  }

  lemma {:induction false} MemberOf(files: seq<FileMeta>, f: FileMeta, e: Entry)
    requires f in files && e in f.entries
    ensures e in EntriesOf(FileSet(files))
  {
    assert f in FileSet(files);
  }

  /** Cutting a sorted sequence into files gives sorted, ordered files. */
  lemma {:induction false} FlattenSorted(outs: seq<FileMeta>)
    requires Sorted(Flatten(outs)) && forall i :: 0 <= i < |outs| ==> |outs[i].entries| > 0
    ensures forall i :: 0 <= i < |outs| ==> Sorted(outs[i].entries)
    ensures forall i, j :: 0 <= i < j < |outs| ==> Before(outs[i], outs[j])
  {
    if |outs| > 0 {
      var n := |outs| - 1;
      var before, last := Flatten(outs[..n]), outs[n];
      var all := before + last.entries;
      assert Flatten(outs) == all;
      assert forall i, j :: 0 <= i < j < |before| ==> all[i] == before[i] && all[j] == before[j];
      assert Sorted(before);
      forall i, j | 0 <= i < j < |last.entries| ensures Less(last.entries[i].key, last.entries[j].key) {
        assert all[|before| + i] == last.entries[i] && all[|before| + j] == last.entries[j];
      }
      FlattenSorted(outs[..n]);
      forall i | 0 <= i < n ensures Before(outs[i], last) {
        var e := outs[i].entries[|outs[i].entries| - 1];
        MemberOf(outs[..n], outs[..n][i], e);
        FlattenMembers(outs[..n], e);
        var k :| 0 <= k < |before| && before[k] == e;
        assert all[k] == e && all[|before|] == last.entries[0];
      }
      forall i | 0 <= i < |outs| ensures Sorted(outs[i].entries) {
        assert i < n ==> outs[i] == outs[..n][i];
      }
    }
  }

  /** The merged input and the files cut from what the drop rules keep. */
  ghost predicate Result(c: Pending, es: seq<Entry>, outs: seq<FileMeta>, first: nat) {
    && LevelsOk(c.levels) && Sorted(es) && Elements(es) == EntriesOf(FileSet(Inputs(c)))
    && Flatten(outs) == Kept(es, |es|, c.smallest, c.levels, c.level)
    && (forall i :: 0 <= i < |outs| ==> |outs[i].entries| > 0)
    && Numbered(outs, first)
  }

  /** The numbers of the outputs are handed out and not in use. */
  ghost predicate Reserved(levels: Levels, outs: seq<FileMeta>, next: nat)
    requires |levels| == NUM_LEVELS
  {
    forall i :: 0 <= i < |outs| ==> outs[i].number < next && Unused(levels, outs[i].number)
  }

  ghost function InstallEdit(c: Pending, outs: seq<FileMeta>): LevelEdit {
    LevelEdit(c.level, FileSet(c.in0), c.level + 1, FileSet(c.in1), FileSet(outs))
  }

  lemma {:induction false} InputsInTiers(s: Store, c: Pending)
    requires |s.levels| == NUM_LEVELS && LevelsOk(s.levels) && PendingOk(s.levels, c)
    ensures EntriesOf(FileSet(c.in0)) <= Tier(s, c.level + 2)
    ensures EntriesOf(FileSet(c.in1)) <= Tier(s, c.level + 3)
    ensures EntriesOf(FileSet(Inputs(c))) == EntriesOf(FileSet(c.in0)) + EntriesOf(FileSet(c.in1))
  {
    assert FileSet(Inputs(c)) == FileSet(c.in0) + FileSet(c.in1);
  }

  /** Every output entry is an input entry. */
  lemma {:induction false} OutputsAreInputs(c: Pending, es: seq<Entry>, outs: seq<FileMeta>, next: nat)
    requires Result(c, es, outs, next)
    ensures EntriesOf(FileSet(outs)) == Elements(Kept(es, |es|, c.smallest, c.levels, c.level))
    ensures EntriesOf(FileSet(outs)) <= EntriesOf(FileSet(Inputs(c)))
  {
    forall e ensures e in EntriesOf(FileSet(outs)) <==> e in Kept(es, |es|, c.smallest, c.levels, c.level) {
      FlattenMembers(outs, e);
    }
    KeptIsInput(es, c.smallest, c.levels, c.level);
  }

  lemma {:induction false} OutputsValid(s: Store, h: seq<Entry>, next: nat, c: Pending, es: seq<Entry>,
      outs: seq<FileMeta>, first: nat)
    requires Structured(s, h, next) && PendingOk(s.levels, c) && Result(c, es, outs, first)
    ensures AllValid(outs)
    ensures forall i, j :: 0 <= i < j < |outs| ==> Before(outs[i], outs[j])
  {
    KeptSorted(es, |es|, c.smallest, c.levels, c.level);
    FlattenSorted(outs);
    OutputsAreInputs(c, es, outs, first);
    InputsInTiers(s, c);
    forall i, k | 0 <= i < |outs| && 0 <= k < |outs[i].entries| ensures outs[i].entries[k].key.sn <= MAX_SEQUENCE {
      var e := outs[i].entries[k];
      MemberOf(outs, outs[i], e);
      assert e in Tier(s, c.level + 2) || e in Tier(s, c.level + 3);
      assert e in All(s);
      HistoryBound(h, e);
    }
  }

  /** A file beside all inputs is beside all outputs. */
  lemma {:induction false} AsideOfOutputs(c: Pending, es: seq<Entry>, outs: seq<FileMeta>, next: nat,
      f: FileMeta, g: FileMeta)
    requires Result(c, es, outs, next) && AllValid(Inputs(c)) && f in outs && f.Valid() && g.Valid() && Aside(g, Inputs(c))
    ensures Before(f, g) || Before(g, f)
  {
    OutputsAreInputs(c, es, outs, next);
    var lo, hi := f.entries[0], f.entries[|f.entries| - 1];
    MemberOf(outs, f, lo);
    MemberOf(outs, f, hi);
    var x :| x in FileSet(Inputs(c)) && lo in x.entries;
    var y :| y in FileSet(Inputs(c)) && hi in y.entries;
    EntryInRange(x, lo);
    EntryInRange(y, hi);
  }

  lemma {:induction false} OutputsFit(s: Store, h: seq<Entry>, next: nat, c: Pending, es: seq<Entry>,
      outs: seq<FileMeta>, first: nat)
    requires Structured(s, h, next) && PendingOk(s.levels, c) && Result(c, es, outs, first) && Reserved(s.levels, outs, next)
    ensures Fits(s.levels, InstallEdit(c, outs), next, next)
  {
    var e := InstallEdit(c, outs);
    OutputsValid(s, h, next, c, es, outs, first);
    forall f, g | f in e.plusB && g in EditedAt(FileSet(s.levels[e.b]), e, e.b) && f != g && f.Valid() && g.Valid()
      ensures Before(f, g) || Before(g, f) {
      var i :| 0 <= i < |outs| && outs[i] == f;
      if g in outs {
        var j :| 0 <= j < |outs| && outs[j] == g;
      } else {
        AsideOfOutputs(c, es, outs, first, f, g);
      }
    }
  }

  /** What stays at the inputs' level is newer than what moves down. */
  lemma {:induction false} StayersAreNewer(s: Store, s': Store, h: seq<Entry>, next: nat, c: Pending,
      outs: seq<FileMeta>)
    requires Structured(s, h, next) && PendingOk(s.levels, c) && Edited(s.levels, s'.levels, InstallEdit(c, outs))
    ensures Newer(Tier(s', c.level + 2), EntriesOf(FileSet(c.in0)))
  {
    assert FileSet(s'.levels[c.level]) == FileSet(s.levels[c.level]) - FileSet(c.in0);
    forall x, y | x in Tier(s', c.level + 2) && y in EntriesOf(FileSet(c.in0)) && SameUser(x, y) ensures x.key.sn > y.key.sn {
      var g :| g in FileSet(s'.levels[c.level]) && x in g.entries;
      var f :| f in FileSet(c.in0) && y in f.entries;
      StayerIsNewer(s, h, next, c, g, f, x, y);
    }
  }

  lemma {:induction false} StayerIsNewer(s: Store, h: seq<Entry>, next: nat, c: Pending, g: FileMeta,
      f: FileMeta, x: Entry, y: Entry)
    requires Structured(s, h, next) && LevelsOk(s.levels) && c.level < NUM_LEVELS && NothingOlderLeft(s.levels[c.level], c.in0)
    requires g in s.levels[c.level] && g !in c.in0 && f in c.in0 && f in s.levels[c.level]
    requires x in g.entries && y in f.entries && SameUser(x, y)
    ensures x.key.sn > y.key.sn
  {
    assert ShareKey(g, f, x, y);
    assert g in FileSet(s.levels[c.level]) && f in FileSet(s.levels[c.level]);
    assert x in Tier(s, c.level + 2) && y in Tier(s, c.level + 2);
    assert x in All(s) && y in All(s);
    HistoryDistinct(h);
  }

  /** Files move one level down. */
  lemma {:induction false} NextLevelStep(s: Store, s': Store, h: seq<Entry>, next: nat, next': nat,
      e: LevelEdit, moved: set<Entry>)
    requires Structured(s, h, next) && Edited(s.levels, s'.levels, e) && Fits(s.levels, e, next, next')
    requires s'.mem == s.mem && s'.imm == s.imm && e.b > 0
    requires moved <= Tier(s, e.b + 1) && EntriesOf(e.plusB) <= Tier(s, e.b + 2) + moved
    requires Newer(Tier(s', e.b + 1), moved)
    ensures Structured(s', h, next') && All(s') <= All(s)
  {
    forall t | e.b + 1 <= t < e.b + 2 ensures Newer(Tier(s', t), moved) {
      assert t == e.b + 1;
    }
    EditStep(s, s', h, next, next', e, e.b + 1, moved);
  }

  lemma {:induction false} OutputsFromInputs(s: Store, c: Pending, es: seq<Entry>, outs: seq<FileMeta>, next: nat)
    requires |s.levels| == NUM_LEVELS && LevelsOk(s.levels) && PendingOk(s.levels, c) && Result(c, es, outs, next)
    ensures EntriesOf(FileSet(c.in0)) <= Tier(s, c.level + 2)
    ensures EntriesOf(FileSet(outs)) <= Tier(s, c.level + 3) + EntriesOf(FileSet(c.in0))
  {
    OutputsAreInputs(c, es, outs, next);
    InputsInTiers(s, c);
  }

  /** The structure survives the installation of any compaction. */
  lemma {:induction false} InstallStep(s: Store, s': Store, h: seq<Entry>, next: nat, c: Pending,
      es: seq<Entry>, outs: seq<FileMeta>, first: nat)
    requires Structured(s, h, next) && PendingOk(s.levels, c) && Result(c, es, outs, first) && Reserved(s.levels, outs, next)
    requires s'.mem == s.mem && s'.imm == s.imm && Edited(s.levels, s'.levels, InstallEdit(c, outs))
    ensures Structured(s', h, next)
  {
    OutputsFit(s, h, next, c, es, outs, first);
    OutputsFromInputs(s, c, es, outs, first);
    StayersAreNewer(s, s', h, next, c, outs);
    NextLevelStep(s, s', h, next, next, InstallEdit(c, outs), EntriesOf(FileSet(c.in0)));
  }

  // ----- readers -----

  /** Everything a reader can find outside the inputs. */
  ghost function Rest(s: Store, c: Pending): set<Entry>
    requires |s.levels| == NUM_LEVELS && c.level + 1 < NUM_LEVELS
  {
    set t, e | 0 <= t < NUM_TIERS && e in RestTier(s, c, t) :: e
  }

  ghost function RestTier(s: Store, c: Pending, t: nat): set<Entry>
    requires |s.levels| == NUM_LEVELS && c.level + 1 < NUM_LEVELS && t < NUM_TIERS
  {
    if t == c.level + 2 then EntriesOf(FileSet(s.levels[c.level]) - FileSet(c.in0))
    else if t == c.level + 3 then EntriesOf(FileSet(s.levels[c.level + 1]) - FileSet(c.in1))
    else Tier(s, t)
  }

  lemma {:induction false} SplitTier(files: set<FileMeta>, ins: set<FileMeta>)
    requires ins <= files
    ensures EntriesOf(files) == EntriesOf(files - ins) + EntriesOf(ins)
  {
    forall e ensures e in EntriesOf(files) <==> e in EntriesOf(files - ins) + EntriesOf(ins) {
      if e in EntriesOf(files) {
        var f :| f in files && e in f.entries;
        assert f in ins || f in files - ins;
      }
    }
  }

  lemma {:induction false} TiersBeforeMerge(s: Store, c: Pending)
    requires |s.levels| == NUM_LEVELS && LevelsOk(s.levels) && PendingOk(s.levels, c)
    ensures forall t :: 0 <= t < NUM_TIERS ==>
              Tier(s, t) == RestTier(s, c, t) + (if t == c.level + 2 then EntriesOf(FileSet(c.in0))
                                                 else if t == c.level + 3 then EntriesOf(FileSet(c.in1)) else {})
  {
    SplitTier(FileSet(s.levels[c.level]), FileSet(c.in0));
    SplitTier(FileSet(s.levels[c.level + 1]), FileSet(c.in1));
  }

  lemma {:induction false} AllIsRestAndInputs(s: Store, c: Pending, a: set<Entry>, b: set<Entry>)
    requires |s.levels| == NUM_LEVELS && c.level + 3 < NUM_TIERS
    requires forall t :: 0 <= t < NUM_TIERS ==>
               Tier(s, t) == RestTier(s, c, t) + (if t == c.level + 2 then a else if t == c.level + 3 then b else {})
    ensures All(s) == (a + b) + Rest(s, c)
  {
    forall e ensures e in All(s) <==> e in (a + b) + Rest(s, c) {
      if e in All(s) {
        var t :| 0 <= t < NUM_TIERS && e in Tier(s, t);
        assert e in RestTier(s, c, t) || e in a + b;
      }
      if e in Rest(s, c) {
        var t :| 0 <= t < NUM_TIERS && e in RestTier(s, c, t);
        assert e in Tier(s, t);
      }
      if e in a + b {
        assert e in Tier(s, c.level + 2) || e in Tier(s, c.level + 3);
      }
    }
  }

  lemma {:induction false} AllIsBeforeMerge(s: Store, c: Pending, es: seq<Entry>)
    requires |s.levels| == NUM_LEVELS && LevelsOk(s.levels) && PendingOk(s.levels, c)
    requires Elements(es) == EntriesOf(FileSet(Inputs(c)))
    ensures All(s) == BeforeMerge(es, Rest(s, c))
  {
    InputsInTiers(s, c);
    TiersBeforeMerge(s, c);
    AllIsRestAndInputs(s, c, EntriesOf(FileSet(c.in0)), EntriesOf(FileSet(c.in1)));
  }

  lemma {:induction false} AllIsAfterMerge(s: Store, s': Store, c: Pending, es: seq<Entry>, outs: seq<FileMeta>,
      next: nat)
    requires |s.levels| == NUM_LEVELS && LevelsOk(s.levels) && PendingOk(s.levels, c) && Result(c, es, outs, next)
    requires s'.mem == s.mem && s'.imm == s.imm && Edited(s.levels, s'.levels, InstallEdit(c, outs))
    ensures All(s') == AfterMerge(es, Rest(s, c), c.smallest, c.levels, c.level)
  {
    OutputsAreInputs(c, es, outs, next);
    TiersAfterMerge(s, s', c, outs);
    AllIsRestAnd(s, s', c, EntriesOf(FileSet(outs)));
  }

  lemma {:induction false} TiersAfterMerge(s: Store, s': Store, c: Pending, outs: seq<FileMeta>)
    requires |s.levels| == NUM_LEVELS && c.level + 1 < NUM_LEVELS
    requires s'.mem == s.mem && s'.imm == s.imm && Edited(s.levels, s'.levels, InstallEdit(c, outs))
    ensures forall t :: 0 <= t < NUM_TIERS ==>
              Tier(s', t) == RestTier(s, c, t) + (if t == c.level + 3 then EntriesOf(FileSet(outs)) else {})
  {
    var kept := EntriesOf(FileSet(outs));
    EntriesOfEdit(FileSet(s.levels[c.level + 1]), FileSet(c.in1), FileSet(outs));
    forall t | 0 <= t < NUM_TIERS ensures Tier(s', t) == RestTier(s, c, t) + (if t == c.level + 3 then kept else {}) {
      if t >= 2 {
        assert FileSet(s'.levels[t - 2]) == EditedAt(FileSet(s.levels[t - 2]), InstallEdit(c, outs), t - 2);
      }
    }
  }

  lemma {:induction false} AllIsRestAnd(s: Store, s': Store, c: Pending, kept: set<Entry>)
    requires |s.levels| == |s'.levels| == NUM_LEVELS && c.level + 3 < NUM_TIERS
    requires forall t :: 0 <= t < NUM_TIERS ==> Tier(s', t) == RestTier(s, c, t) + (if t == c.level + 3 then kept else {})
    ensures All(s') == kept + Rest(s, c)
  {
    forall e ensures e in All(s') <==> e in kept + Rest(s, c) {
      if e in All(s') {
        var t :| 0 <= t < NUM_TIERS && e in Tier(s', t);
        assert e in RestTier(s, c, t) || e in kept;
      }
      if e in Rest(s, c) {
        var t :| 0 <= t < NUM_TIERS && e in RestTier(s, c, t);
        assert e in Tier(s', t);
      }
      if e in kept {
        assert e in Tier(s', c.level + 3);
      }
    }
  }

  lemma {:induction false} SameReadsTransfers(h: set<Entry>, a: set<Entry>, b: set<Entry>, horizon: nat, smallest: nat)
    requires SameReads(h, a, horizon) && horizon <= smallest
    ensures SameReads(h, b, smallest) <==> SameReads(a, b, smallest)
  {
    if SameReads(h, b, smallest) {
      forall u, s, r | smallest <= s ensures Reads(a, u, s, r) <==> Reads(b, u, s, r) {
        assert Reads(h, u, s, r) <==> Reads(a, u, s, r);
      }
    }
    if SameReads(a, b, smallest) {
      forall u, s, r | smallest <= s ensures Reads(h, u, s, r) <==> Reads(b, u, s, r) {
        assert Reads(h, u, s, r) <==> Reads(a, u, s, r);
      }
    }
  }

  /** A compaction of a faithful store leaves it faithful from the smallest snapshot
      on exactly when no deleted value resurfaces. */
  lemma {:induction false} InstallIsFaithfulExactly(s: Store, s': Store, h: seq<Entry>, next: nat, c: Pending,
      es: seq<Entry>, outs: seq<FileMeta>, first: nat, horizon: nat)
    requires Structured(s, h, next) && PendingOk(s.levels, c) && Result(c, es, outs, first)
    requires s'.mem == s.mem && s'.imm == s.imm && Edited(s.levels, s'.levels, InstallEdit(c, outs))
    requires Faithful(s, h, horizon) && horizon <= c.smallest
    ensures Faithful(s', h, c.smallest) <==>
            forall i: nat :: !Resurfaces(es, Rest(s, c), c.smallest, c.levels, c.level, i)
  {
    HistoryDistinct(h);
    AllIsBeforeMerge(s, c, es);
    AllIsAfterMerge(s, s', c, es, outs, first);
    CompactionKeepsReadsExactly(es, Rest(s, c), c.smallest, c.levels, c.level);
    SameReadsTransfers(Elements(h), All(s), All(s'), horizon, c.smallest);
  }

  lemma {:induction false} ResurfacedIsOlder(s: Store, h: seq<Entry>, next: nat, c: Pending, es: seq<Entry>,
      i: nat, e: Entry)
    requires Structured(s, h, next) && PendingOk(s.levels, c) && i < |es|
    requires Elements(es) == EntriesOf(FileSet(Inputs(c)))
    requires IsNewest(BeforeMerge(es, Rest(s, c)), es[i].key.user, c.smallest, es[i])
    requires IsNewest(Rest(s, c), es[i].key.user, c.smallest, e) && e.key.kind.Value? && es[i].key.kind.Deletion?
    ensures e.key.sn < es[i].key.sn
  {
    assert e in BeforeMerge(es, Rest(s, c)) && es[i] in BeforeMerge(es, Rest(s, c));
    AllIsBeforeMerge(s, c, es);
    HistoryDistinct(h);
  }

  lemma {:induction false} ResurfacePair(c: Pending, es: seq<Entry>, rest: set<Entry>, i: nat)
    returns (f: FileMeta, e: Entry)
    requires LevelsOk(c.levels) && Elements(es) == EntriesOf(FileSet(Inputs(c)))
    requires Resurfaces(es, rest, c.smallest, c.levels, c.level, i)
    ensures f in Inputs(c) && es[i] in f.entries && SameUser(e, es[i])
    ensures IsNewest(rest, es[i].key.user, c.smallest, e) && e.key.kind.Value?
  {
    var d := es[i];
    assert d in EntriesOf(FileSet(Inputs(c)));
    f :| f in FileSet(Inputs(c)) && d in f.entries;
    e :| IsNewest(rest, d.key.user, c.smallest, e) && e.key.kind.Value?;
  }

  /** A value can only resurface from a file of the output level that was left out
      of the inputs although it continues one of their user keys. */
  lemma {:induction false} OnlyParentsResurface(s: Store, h: seq<Entry>, next: nat, c: Pending, es: seq<Entry>,
      i: nat) returns (f: FileMeta, g: FileMeta, d: Entry, e: Entry)
    requires Structured(s, h, next) && PendingOk(s.levels, c)
    requires Sorted(es) && Elements(es) == EntriesOf(FileSet(Inputs(c)))
    requires Resurfaces(es, Rest(s, c), c.smallest, c.levels, c.level, i)
    ensures f in Inputs(c) && g in s.levels[c.level + 1] && g !in c.in1 && SharesKey(g, f, e, d)
    ensures d == es[i] && e.key.kind.Value? && e.key.sn < d.key.sn
  {
    d := es[i];
    f, e := ResurfacePair(c, es, Rest(s, c), i);
    ResurfacedIsOlder(s, h, next, c, es, i, e);
    g := LeftOutParent(s, c, f, d, e);
  }

  /** What is older than an input's entry and was left out is in a parent that was left out. */
  lemma {:induction false} LeftOutParent(s: Store, c: Pending, f: FileMeta, d: Entry, e: Entry) returns (g: FileMeta)
    requires |s.levels| == NUM_LEVELS && LevelsOk(s.levels) && PendingOk(s.levels, c) && Layered(s)
    requires f in Inputs(c) && d in f.entries && SameUser(e, d) && e.key.sn < d.key.sn
    requires BaseLevel(c.levels, c.level, d.key.user) && e in Rest(s, c)
    ensures g in s.levels[c.level + 1] && g !in c.in1 && e in g.entries
  {
    var t :| 0 <= t < NUM_TIERS && e in RestTier(s, c, t);
    OlderComesFromParents(s, c, f, d, e, t);
    g :| g in FileSet(s.levels[c.level + 1]) - FileSet(c.in1) && e in g.entries;
  }

  /** What the selection left at the inputs' level is never older than an input. */
  lemma {:induction false} LeftoverIsNotOlder(s: Store, c: Pending, f: FileMeta, d: Entry, e: Entry)
    requires |s.levels| == NUM_LEVELS && LevelsOk(s.levels) && PendingOk(s.levels, c) && Layered(s)
    requires f in Inputs(c) && d in f.entries && SameUser(e, d)
    requires e in EntriesOf(FileSet(s.levels[c.level]) - FileSet(c.in0))
    ensures e.key.sn >= d.key.sn
  {
    var g :| g in FileSet(s.levels[c.level]) - FileSet(c.in0) && e in g.entries;
    if f in c.in0 {
      assert ShareKey(g, f, e, d);
    } else {
      assert f in c.in1 && f in FileSet(s.levels[c.level + 1]);
      assert d in Tier(s, c.level + 3) && e in Tier(s, c.level + 2);
      TierOrder(s, c.level + 2, c.level + 3, e, d);
    }
  }

  lemma {:induction false} DeeperIsCovered(s: Store, c: Pending, f: FileMeta, d: Entry, e: Entry, t: nat)
    requires |s.levels| == NUM_LEVELS && LevelsOk(s.levels) && PendingOk(s.levels, c)
    requires f in Inputs(c) && d in f.entries && SameUser(e, d) && c.level + 3 < t < NUM_TIERS && e in Tier(s, t)
    ensures !BaseLevel(c.levels, c.level, d.key.user)
  {
    var g :| g in FileSet(s.levels[t - 2]) && e in g.entries;
    assert At(s.levels, t - 2, g) && SharesKey(g, f, e, d);
  }

  lemma {:induction false} InputTier(s: Store, c: Pending, f: FileMeta, d: Entry) returns (at: nat)
    requires |s.levels| == NUM_LEVELS && LevelsOk(s.levels) && PendingOk(s.levels, c) && f in Inputs(c) && d in f.entries
    ensures c.level + 2 <= at <= c.level + 3 && d in Tier(s, at)
  {
    at := if f in c.in0 then c.level + 2 else c.level + 3;
    assert f in FileSet(s.levels[at - 2]) by {
      assert f in c.in0 || f in c.in1;
    }
  }

  lemma {:induction false} OlderComesFromParents(s: Store, c: Pending, f: FileMeta, d: Entry, e: Entry, t: nat)
    requires |s.levels| == NUM_LEVELS && LevelsOk(s.levels) && PendingOk(s.levels, c) && Layered(s)
    requires f in Inputs(c) && d in f.entries && SameUser(e, d) && e.key.sn < d.key.sn
    requires BaseLevel(c.levels, c.level, d.key.user)
    requires t < NUM_TIERS && e in RestTier(s, c, t)
    ensures t == c.level + 3
  {
    var at := InputTier(s, c, f, d);
    if t < c.level + 2 {
      TierOrder(s, t, at, e, d);
    } else if t == c.level + 2 {
      LeftoverIsNotOlder(s, c, f, d, e);
    } else if t > c.level + 3 {
      DeeperIsCovered(s, c, f, d, e, t);
    }
  }

  lemma {:induction false} TierOrder(s: Store, i: nat, j: nat, x: Entry, y: Entry)
    requires |s.levels| == NUM_LEVELS && Layered(s) && i < j < NUM_TIERS
    requires x in Tier(s, i) && y in Tier(s, j) && SameUser(x, y)
    ensures x.key.sn > y.key.sn
  {
    assert Newer(Tier(s, i), Tier(s, j));
  }

  /** Enough for safety: no left-out file of the output level shares a key with an input. */
  lemma {:induction false} ClosedParentsAreSafe(s: Store, h: seq<Entry>, next: nat, c: Pending, es: seq<Entry>)
    requires Structured(s, h, next) && PendingOk(s.levels, c)
    requires Sorted(es) && Elements(es) == EntriesOf(FileSet(Inputs(c)))
    requires forall f, g, d, e {:trigger SharesKey(g, f, e, d)} ::
               f in Inputs(c) && g in s.levels[c.level + 1] && g !in c.in1 ==> !SharesKey(g, f, e, d)
    ensures forall i: nat :: !Resurfaces(es, Rest(s, c), c.smallest, c.levels, c.level, i)
  {
    forall i: nat ensures !Resurfaces(es, Rest(s, c), c.smallest, c.levels, c.level, i) {
      if Resurfaces(es, Rest(s, c), c.smallest, c.levels, c.level, i) {
        var f, g, d, e := OnlyParentsResurface(s, h, next, c, es, i);
      }
    }
  }
}
