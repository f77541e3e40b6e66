// A log that loses its tail (db/db_impl.cc, recovery of a log that was cut off): what the
// store holds without its memtable, and how the records that are left of the current log
// bring it back to a prefix of the write history.
module TornLogs {
  import opened Keys
  import opened Seqs
  import opened Version
  import opened Compaction
  import opened Builder
  import opened Lsm
  import opened LsmSteps
  import opened InFlight
  import opened Install
  import opened Durable
  import opened Recovery
  import opened DbSteps

  function Min(a: nat, b: nat): nat {
    if a <= b then a else b
  }

  function LastLog(d: Disk): LogFile
    requires |d.logs| > 0
  {
    d.logs[|d.logs| - 1]
  }

  /** The live logs before the current one. */
  function OlderEntries(d: Disk): seq<Entry>
    requires |d.logs| > 0
  {
    LiveEntries(d.logs[..|d.logs| - 1], d.logNumber)
  }

  /** The current log holds exactly the operations after the first `base`. */
  ghost predicate Split(d: Disk, h: seq<Entry>, base: nat) {
    && base <= |h| && |d.logs| > 0 && Concat(LastLog(d).records) == h[base..]
    && (d.lastSequence < LastOf(h[..base]) ==> h[base - 1] in OlderEntries(d))
  }

  /** The store as it would be without the memtable. */
  function BaseStore(s: Store): Store {
    Store([], s.imm, s.levels)
  }

  /** From where on reads are right: nothing is numbered beyond the last operation. */
  function BaseHorizon(h: seq<Entry>, base: nat, horizon: nat): nat
    requires base <= |h|
  {
    Min(horizon, LastOf(h[..base]))
  }

  /** Without the memtable, the store reads like the history up to the current log. */
  ghost predicate BaseReads(s: Store, h: seq<Entry>, base: nat, horizon: nat) {
    base <= |h| && ReadsLike(BaseStore(s), h[..base], BaseHorizon(h, base, horizon))
  }

  // ----- the store without its memtable -----

  lemma {:induction false} BaseTiers(s: Store)
    requires |s.levels| == NUM_LEVELS
    ensures forall t :: 0 <= t < NUM_TIERS ==> Tier(BaseStore(s), t) == if t == 0 then {} else Tier(s, t)
    ensures All(BaseStore(s)) <= All(s)
  {
    forall e | e in All(BaseStore(s)) ensures e in All(s) {
      var t :| 0 <= t < NUM_TIERS && e in Tier(BaseStore(s), t);
      assert e in Tier(s, t);
    }
  }

  /** What is in the memtable is nowhere else. */
  lemma {:induction false} BaseIsOlder(s: Store, h: seq<Entry>, next: nat, base: nat, e: Entry)
    requires Structured(s, h, next) && base <= |h| && Elements(s.mem) == Elements(h[base..]) && e in All(BaseStore(s))
    ensures e in Elements(h[..base])
  {
    BaseTiers(s);
    var i :| 0 <= i < |h| && h[i] == e;
    if i >= base {
      assert h[base..][i - base] == e;
      assert e in Tier(s, 0);
      var t :| 0 <= t < NUM_TIERS && e in Tier(BaseStore(s), t);
      assert Newer(Tier(s, 0), Tier(s, t)) && SameUser(e, e);
      assert false;
    }
    assert h[..base][i] == e;
  }

  lemma {:induction false} BaseStructured(s: Store, h: seq<Entry>, next: nat, base: nat)
    requires Structured(s, h, next) && base <= |h| && Elements(s.mem) == Elements(h[base..])
    ensures Structured(BaseStore(s), h[..base], next)
  {
    BaseTiers(s);
    forall e | e in All(BaseStore(s)) ensures e in Elements(h[..base]) {
      BaseIsOlder(s, h, next, base, e);
    }
    HistoryPrefix(h, base);
    forall i, j | 0 <= i < j < NUM_TIERS ensures Newer(Tier(BaseStore(s), i), Tier(BaseStore(s), j)) {
      assert Newer(Tier(s, i), Tier(s, j));
    }
  }

  /** Past the last operation, one horizon is as good as another. */
  lemma {:induction false} HorizonBeyond(s: Store, h: seq<Entry>, next: nat, a: nat, b: nat)
    requires Structured(s, h, next) && LastOf(h) <= a && LastOf(h) <= b && Faithful(s, h, a)
    ensures Faithful(s, h, b)
  {
    forall u, n, r | b <= n ensures Reads(Elements(h), u, n, r) <==> Reads(All(s), u, n, r) {
      AllVisible(Elements(h), h, u, n, a, r);
      AllVisible(All(s), h, u, n, a, r);
      assert Reads(Elements(h), u, a, r) <==> Reads(All(s), u, a, r);
    }
  }

  lemma {:induction false} AllVisible(S: set<Entry>, h: seq<Entry>, u: UserKey, a: nat, b: nat, r: Option<string>)
    requires IsHistory(h) && S <= Elements(h) && LastOf(h) <= a && LastOf(h) <= b
    ensures Reads(S, u, a, r) <==> Reads(S, u, b, r)
  {
    forall e | e in S ensures Candidate(e, u, a) == Candidate(e, u, b) {
      HistoryBound(h, e);
    }
    if e :| IsNewest(S, u, a, e) && r == Shown(e) {
      assert IsNewest(S, u, b, e);
    }
    if e :| IsNewest(S, u, b, e) && r == Shown(e) {
      assert IsNewest(S, u, a, e);
    }
  }

  // ----- what each step does to it -----

  /** Nothing of the history is in an empty memtable. */
  lemma {:induction false} BaseIsAll(s: Store, h: seq<Entry>, next: nat, horizon: nat)
    requires Structured(s, h, next) && s.mem == [] && ReadsLike(s, h, horizon)
    ensures BaseReads(s, h, |h|, horizon)
  {
    OpenReads();
    assert h[..|h|] == h && BaseStore(s) == s;
    if horizon > LastOf(h) {
      HorizonBeyond(s, h, next, horizon, LastOf(h));
    }
  }

  lemma {:induction false} SplitOpen(d: Disk, h: seq<Entry>)
    requires |d.logs| > 0 && LastLog(d).records == [] && LastOf(h) <= d.lastSequence
    ensures Split(d, h, |h|)
  {
    assert h[..|h|] == h && h[|h|..] == [] && Concat<Entry>([]) == [];
  }

  lemma {:induction false} SplitWrite(d: Disk, s: Store, mem': seq<Entry>, h: seq<Entry>, base: nat, batch: seq<Entry>, horizon: nat)
    requires Split(d, h, base)
    ensures Split(d.(logs := AppendRecord(d.logs, batch)), h + batch, base)
    ensures BaseReads(s, h, base, horizon) ==> BaseReads(s.(mem := mem'), h + batch, base, horizon)
  {
    var d' := d.(logs := AppendRecord(d.logs, batch));
    ConcatAppend(LastLog(d).records, batch);
    assert LastLog(d').records == LastLog(d).records + [batch];
    assert (h + batch)[base..] == h[base..] + batch && (h + batch)[..base] == h[..base];
    assert d'.logs[..|d'.logs| - 1] == d.logs[..|d.logs| - 1];
  }

  lemma {:induction false} SplitSwitch(s: Store, d: Disk, logfileNumber: nat, next: nat, h: seq<Entry>)
    requires Mirror(d, s, logfileNumber, next, h)
    ensures Split(d.(logs := d.logs + [LogFile(next, [])]), h, |h|)
  {
    var logs' := d.logs + [LogFile(next, [])];
    assert logs'[..|logs'| - 1] == d.logs;
    assert h[..|h|] == h && h[|h|..] == [] && Concat<Entry>([]) == [];
  }

  lemma {:induction false} SplitDelete(d: Disk, h: seq<Entry>, base: nat, tables: set<nat>)
    requires Split(d, h, base) && LastLog(d).number >= d.logNumber
    ensures Split(d.(logs := KeepLogs(d.logs, d.logNumber), tables := tables), h, base)
  {
    var n := |d.logs| - 1;
    var before := KeepLogs(d.logs[..n], d.logNumber);
    KeptLogsReplayAlike(d.logs[..n], d.logNumber);
    assert KeepLogs(d.logs, d.logNumber) == before + [d.logs[n]];
    assert (before + [d.logs[n]])[..|before|] == before;
  }

  lemma {:induction false} SameAllReadsAlike(s: Store, s': Store, h: seq<Entry>, horizon: nat)
    requires |s.levels| == |s'.levels| == NUM_LEVELS && All(s') == All(s)
    ensures ReadsLike(s, h, horizon) <==> ReadsLike(s', h, horizon)
  {
    OpenReads();
  }

  lemma {:induction false} BaseFlush(s: Store, levels': Levels, h: seq<Entry>, next: nat, base: nat, lvl: nat, horizon: nat)
    requires Structured(s, h, next) && base <= |h| && Elements(s.mem) == Elements(h[base..])
    requires s.imm.Some? && FileMeta(next, s.imm.value).Valid() && lvl < NUM_LEVELS
    requires lvl > 0 ==> ClearDownTo(s.levels, lvl, FileMeta(next, s.imm.value))
    requires Edited(s.levels, levels', LevelEdit(NUM_LEVELS, {}, lvl, {}, {FileMeta(next, s.imm.value)}))
    ensures BaseReads(s, h, base, horizon) ==> BaseReads(Store(s.mem, None, levels'), h, base, horizon)
  {
    BaseStructured(s, h, next, base);
    FlushStep(BaseStore(s), Store([], None, levels'), h[..base], next, lvl, FileMeta(next, s.imm.value));
    SameAllReadsAlike(BaseStore(s), Store([], None, levels'), h[..base], BaseHorizon(h, base, horizon));
  }

  lemma {:induction false} BaseDrop(s: Store, h: seq<Entry>, base: nat, horizon: nat)
    requires |s.levels| == NUM_LEVELS && s.imm == Some([])
    ensures BaseReads(s, h, base, horizon) ==> BaseReads(Store(s.mem, None, s.levels), h, base, horizon)
  {
    var a, b := BaseStore(s), Store([], None, s.levels);
    assert forall t :: 0 <= t < NUM_TIERS ==> Tier(a, t) == Tier(b, t);
    assert All(a) == All(b);
    if base <= |h| {
      SameAllReadsAlike(a, b, h[..base], BaseHorizon(h, base, horizon));
    }
  }

  lemma {:induction false} BaseMove(s: Store, levels': Levels, h: seq<Entry>, base: nat, horizon: nat, c: Pending)
    requires |s.levels| == NUM_LEVELS && LevelsOk(s.levels) && PendingOk(s.levels, c) && c.in1 == []
    requires Edited(s.levels, levels', LevelEdit(c.level, FileSet(c.in0), c.level + 1, {}, FileSet(c.in0)))
    ensures BaseReads(s, h, base, horizon) ==> BaseReads(s.(levels := levels'), h, base, horizon)
  {
    MoveLosesNothing(BaseStore(s), Store([], s.imm, levels'), c);
    if base <= |h| {
      SameAllReadsAlike(BaseStore(s), Store([], s.imm, levels'), h[..base], BaseHorizon(h, base, horizon));
    }
  }

  /** The store without its memtable reads on like its part of the history exactly when
      no deleted value would resurface in it. A value that only a write of the memtable
      hides would, and a crash that loses that write would show it. */
  lemma {:induction false} BaseInstall(s: Store, levels': Levels, h: seq<Entry>, next: nat, base: nat, horizon: nat, job: Job)
    requires Structured(s, h, next) && base <= |h| && Elements(s.mem) == Elements(h[base..])
    requires JobSound(s.levels, job, next) && job.outs.Some? && horizon <= job.c.smallest
    requires Edited(s.levels, levels', InstallEdit(job.c, job.outs.value)) && BaseReads(s, h, base, horizon)
    ensures BaseReads(s.(levels := levels'), h, base, job.c.smallest) <==> !Unsafe(BaseStore(s), job)
  {
    OpenReads();
    BaseStructured(s, h, next, base);
    var b, b', g, smallest := BaseStore(s), Store([], s.imm, levels'), h[..base], job.c.smallest;
    var es := MergedInput(job.c);
    assert Faithful(b, g, smallest) by {
      assert Faithful(b, g, BaseHorizon(h, base, horizon));
    }
    InstallStep(b, b', g, next, job.c, es, job.outs.value, job.first);
    InstallIsFaithfulExactly(b, b', g, next, job.c, es, job.outs.value, job.first, BaseHorizon(h, base, horizon));
    if smallest > LastOf(g) {
      if Faithful(b', g, smallest) {
        HorizonBeyond(b', g, next, smallest, LastOf(g));
      }
      if Faithful(b', g, LastOf(g)) {
        HorizonBeyond(b', g, next, LastOf(g), smallest);
      }
    }
  }

  /** Parents closed on user keys are enough here, too. */
  lemma {:induction false} ClosedParentsKeepBase(s: Store, h: seq<Entry>, next: nat, base: nat, job: Job)
    requires Structured(s, h, next) && base <= |h| && Elements(s.mem) == Elements(h[base..])
    requires JobSound(s.levels, job, next) && job.c.level + 1 < NUM_LEVELS
    requires forall f, g, a, b {:trigger SharesKey(g, f, a, b)} ::
               f in Inputs(job.c) && g in s.levels[job.c.level + 1] && g !in job.c.in1 ==> !SharesKey(g, f, a, b)
    ensures !Unsafe(BaseStore(s), job)
  {
    BaseStructured(s, h, next, base);
    InputsMerge(BaseStore(s), h[..base], next, job.c);
    ClosedParentsAreSafe(BaseStore(s), h[..base], next, job.c, MergedInput(job.c));
  }

  // ----- the same for a store and its files -----

  lemma {:induction false} OpenKeepsBase(d: Disk, s: Store, logfileNumber: nat, next: nat, h: seq<Entry>, horizon: nat)
    requires StoreOk(s, d, logfileNumber, next, h) && LastLog(d).records == [] && LastOf(h) <= d.lastSequence
    requires s.mem == [] && ReadsLike(s, h, horizon)
    ensures Split(d, h, |h|) && BaseReads(s, h, |h|, horizon)
  {
    OpenStore();
    SplitOpen(d, h);
    BaseIsAll(s, h, next, horizon);
  }

  lemma {:induction false} SwitchKeepsBase(s: Store, d: Disk, logfileNumber: nat, next: nat, h: seq<Entry>, horizon: nat)
    requires StoreOk(s, d, logfileNumber, next, h) && s.imm.None?
    ensures Split(d.(logs := d.logs + [LogFile(next, [])]), h, |h|)
    ensures ReadsLike(s, h, horizon) ==> BaseReads(Store([], Some(s.mem), s.levels), h, |h|, horizon)
  {
    SwitchKeeps(s, d, logfileNumber, next, h, horizon);
    OpenStore();
    SplitSwitch(s, d, logfileNumber, next, h);
    if ReadsLike(s, h, horizon) {
      BaseIsAll(Store([], Some(s.mem), s.levels), h, next + 1, horizon);
    }
  }

  /** An edit of the manifest records the last sequence number. */
  lemma {:induction false} EditKeepsBase(s: Store, d: Disk, logfileNumber: nat, next: nat, h: seq<Entry>, base: nat, d': Disk)
    requires StoreOk(s, d, logfileNumber, next, h) && Split(d, h, base) && d'.logs == d.logs && LastOf(h) <= d'.lastSequence
    ensures Split(d', h, base)
  {
    OpenStore();
    HistoryPrefix(h, base);
  }

  lemma {:induction false} FlushKeepsBase(s: Store, levels': Levels, d: Disk, logfileNumber: nat, next: nat, h: seq<Entry>, base: nat, lvl: nat, horizon: nat)
    requires StoreOk(s, d, logfileNumber, next, h) && Split(d, h, base)
    requires s.imm.Some? && FileMeta(next, s.imm.value).Valid() && lvl < NUM_LEVELS && LevelsOk(s.levels)
    requires lvl > 0 ==> ClearDownTo(s.levels, lvl, FileMeta(next, s.imm.value))
    requires Edited(s.levels, levels', LevelEdit(NUM_LEVELS, {}, lvl, {}, {FileMeta(next, s.imm.value)}))
    ensures BaseReads(s, h, base, horizon) ==> BaseReads(Store(s.mem, None, levels'), h, base, horizon)
  {
    OpenStore();
    BaseFlush(s, levels', h, next, base, lvl, horizon);
  }

  lemma {:induction false} MoveKeepsBase(s: Store, levels': Levels, d: Disk, logfileNumber: nat, next: nat, h: seq<Entry>, base: nat, horizon: nat, c: Pending)
    requires StoreOk(s, d, logfileNumber, next, h) && JobOk(s.levels, Job(c, None, 0), next) && c.in1 == []
    requires Edited(s.levels, levels', LevelEdit(c.level, FileSet(c.in0), c.level + 1, {}, FileSet(c.in0)))
    ensures BaseReads(s, h, base, horizon) ==> BaseReads(s.(levels := levels'), h, base, horizon)
  {
    OpenAll();
    BaseMove(s, levels', h, base, horizon, c);
  }

  lemma {:induction false} InstallKeepsBase(s: Store, levels': Levels, d: Disk, logfileNumber: nat, next: nat, h: seq<Entry>, base: nat, horizon: nat, job: Job)
    requires StoreOk(s, d, logfileNumber, next, h) && JobOk(s.levels, job, next) && job.outs.Some? && Split(d, h, base)
    requires Edited(s.levels, levels', InstallEdit(job.c, job.outs.value)) && horizon <= job.c.smallest
    ensures BaseReads(s, h, base, horizon) ==>
              (BaseReads(s.(levels := levels'), h, base, job.c.smallest) <==> !Unsafe(BaseStore(s), job))
  {
    OpenStore();
    OpenJob();
    if BaseReads(s, h, base, horizon) {
      BaseInstall(s, levels', h, next, base, horizon, job);
    }
  }

  lemma {:induction false} DeleteKeepsBase(s: Store, d: Disk, logfileNumber: nat, next: nat, h: seq<Entry>, base: nat, tables: set<nat>)
    requires StoreOk(s, d, logfileNumber, next, h) && Split(d, h, base)
    ensures Split(d.(logs := KeepLogs(d.logs, d.logNumber), tables := tables), h, base)
  {
    OpenStore();
    SplitDelete(d, h, base, tables);
  }

  // ----- after a crash -----

  /** The disk with only the first `m` records of the current log. */
  function Torn(d: Disk, m: nat): Disk
    requires |d.logs| > 0 && m <= |LastLog(d).records|
  {
    d.(logs := d.logs[..|d.logs| - 1] + [LogFile(LastLog(d).number, LastLog(d).records[..m])])
  }

  /** How many operations are left with the first `m` records of the current log. */
  function Surviving(d: Disk, base: nat, m: nat): nat
    requires |d.logs| > 0 && m <= |LastLog(d).records|
  {
    base + |Concat(LastLog(d).records[..m])|
  }

  lemma {:induction false} SurvivingPrefix(d: Disk, h: seq<Entry>, base: nat, m: nat)
    requires Split(d, h, base) && m <= |LastLog(d).records|
    ensures base <= Surviving(d, base, m) <= |h|
    ensures Concat(LastLog(d).records[..m]) == h[base..Surviving(d, base, m)]
  {
    ConcatUpTo(LastLog(d).records, m);
    assert h[base..][..Surviving(d, base, m) - base] == h[base..Surviving(d, base, m)];
  }

  lemma {:induction false} TornLive(d: Disk, m: nat)
    requires |d.logs| > 0 && m <= |LastLog(d).records| && LastLog(d).number >= d.logNumber
    ensures LiveEntries(Torn(d, m).logs, d.logNumber) == OlderEntries(d) + Concat(LastLog(d).records[..m])
    ensures LiveEntries(Torn(d, m).logs, d.logNumber) <= LiveEntries(d.logs, d.logNumber)
  {
    var n := |d.logs| - 1;
    assert Torn(d, m).logs[..n] == d.logs[..n];
    ConcatUpTo(LastLog(d).records, m);
  }

  lemma {:induction false} AscendingPrefix(live: seq<Entry>, live': seq<Entry>)
    requires Ascending(live) && live' <= live
    ensures Ascending(live')
  {
    assert forall i :: 0 <= i < |live'| ==> live[i] == live'[i];
  }

  lemma {:induction false} TornMirror(s: Store, d: Disk, logfileNumber: nat, next: nat, h: seq<Entry>, base: nat, m: nat, mem: seq<Entry>)
    requires Mirror(d, s, logfileNumber, next, h) && Split(d, h, base) && m <= |LastLog(d).records|
    requires Elements(mem) == Elements(Concat(LastLog(d).records[..m]))
    ensures Surviving(d, base, m) <= |h|
    ensures Mirror(Torn(d, m), s.(mem := mem), logfileNumber, next, h[..Surviving(d, base, m)])
  {
    SurvivingPrefix(d, h, base, m);
    TornLive(d, m);
    var d', n := Torn(d, m), Surviving(d, base, m);
    var live, live' := LiveEntries(d.logs, d.logNumber), LiveEntries(d'.logs, d.logNumber);
    assert d'.logs[..|d'.logs| - 1] == d.logs[..|d.logs| - 1];
    AscendingPrefix(live, live');
    if d'.lastSequence < LastOf(h[..n]) {
      LastSurvives(d, h, base, m);
    }
  }

  lemma {:induction false} LastSurvives(d: Disk, h: seq<Entry>, base: nat, m: nat)
    requires Split(d, h, base) && m <= |LastLog(d).records| && LastLog(d).number >= d.logNumber
    requires Surviving(d, base, m) <= |h| && d.lastSequence < LastOf(h[..Surviving(d, base, m)])
    ensures 0 < Surviving(d, base, m)
    ensures h[Surviving(d, base, m) - 1] in LiveEntries(Torn(d, m).logs, d.logNumber)
  {
    SurvivingPrefix(d, h, base, m);
    TornLive(d, m);
    var n, left := Surviving(d, base, m), Concat(LastLog(d).records[..m]);
    if n > base {
      assert left[n - base - 1] == h[n - 1];
    }
  }

  /** Whatever records the current log loses at its end, recovery brings back the prefix
      of the write history that the other records and the flushed tables hold. (The manifest
      may know of a later sequence number than is left: the numbers between are not used
      again, and the history goes on after a gap.) */
  lemma {:induction false} TornLogRecovers(s: Store, d: Disk, logfileNumber: nat, next: nat, h: seq<Entry>, base: nat, horizon: nat, m: nat)
    requires StoreOk(s, d, logfileNumber, next, h) && Split(d, h, base) && BaseReads(s, h, base, horizon)
    requires m <= |LastLog(d).records|
    ensures Surviving(d, base, m) <= |h|
    ensures Recoverable(Torn(d, m), h[..Surviving(d, base, m)], BaseHorizon(h, base, horizon))
  {
    OpenStore();
    SurvivingPrefix(d, h, base, m);
    MemoryIsLastLog(d, s, logfileNumber, next, h, base);
    var n := Surviving(d, base, m);
    RefilledStore(s, h, next, base, n, horizon);
    var s' := BaseStore(s).(mem := InsertAll([], h[base..n]));
    TornMirror(s, d, logfileNumber, next, h, base, m, s'.mem);
    MirrorIsRecoverable(Torn(d, m), s', logfileNumber, next, h[..n], BaseHorizon(h, base, horizon));
  }

  lemma {:induction false} MemoryIsLastLog(d: Disk, s: Store, logfileNumber: nat, next: nat, h: seq<Entry>, base: nat)
    requires Mirror(d, s, logfileNumber, next, h) && Split(d, h, base)
    ensures Elements(s.mem) == Elements(h[base..])
  {
  }

  /** The operations that are left, in an empty memtable over the other tiers. */
  lemma {:induction false} RefilledStore(s: Store, h: seq<Entry>, next: nat, base: nat, n: nat, horizon: nat)
    requires Structured(s, h, next) && base <= n <= |h| && Elements(s.mem) == Elements(h[base..]) && BaseReads(s, h, base, horizon)
    ensures var s' := BaseStore(s).(mem := InsertAll([], h[base..n]));
            && Structured(s', h[..n], next) && Faithful(s', h[..n], BaseHorizon(h, base, horizon))
            && Elements(s'.mem) == Elements(h[base..n])
  {
    var b, batch := BaseStore(s), h[base..n];
    BaseStructured(s, h, next, base);
    HistoryPrefix(h, n);
    assert h[..base] + batch == h[..n];
    OpenReads();
    InsertAllStructured(b, h[..base], next, batch);
    InsertAllFaithful(b, h[..base], next, batch, BaseHorizon(h, base, horizon));
    InsertAllElements([], batch);
    assert Elements([]) + Elements(batch) == Elements(batch);
  }
}
