// One lemma for each thing the database does: what it keeps of the store, of its
// files and of a compaction under way.
module DbSteps {
  import opened Keys
  import opened Seqs
  import opened Version
  import opened Selection
  import opened Compaction
  import opened CompactionReads
  import opened Builder
  import opened Lsm
  import opened LsmSteps
  import opened InFlight
  import opened Install
  import opened Edits
  import opened Durable
  import opened Recovery

  // ----- what holds between any two steps -----

  ghost predicate Consistent(s: Store, d: Disk, logfileNumber: nat, next: nat, h: seq<Entry>) {
    Structured(s, h, next) && Mirror(d, s, logfileNumber, next, h)
  }

  // The three facts below are sealed: the database object carries each as one
  // fact, and `OpenStore`, `OpenReads` and `OpenJob` open them where they are used.

  /** `Consistent`, sealed. */
  ghost predicate StoreOk(s: Store, d: Disk, logfileNumber: nat, next: nat, h: seq<Entry>) {
    |s.levels| == NUM_LEVELS && |d.logs| > 0 && StoreSeal(next + 9, s, d, logfileNumber, next, h)
  }

  ghost predicate StoreSeal(n: nat, s: Store, d: Disk, logfileNumber: nat, next: nat, h: seq<Entry>) {
    if n == 0 then Consistent(s, d, logfileNumber, next, h) else StoreSeal(n - 1, s, d, logfileNumber, next, h)
  }

  lemma {:induction false} StoreSealOpens(n: nat, s: Store, d: Disk, logfileNumber: nat, next: nat, h: seq<Entry>)
    ensures StoreSeal(n, s, d, logfileNumber, next, h) <==> Consistent(s, d, logfileNumber, next, h)
  {
    if n > 0 {
      StoreSealOpens(n - 1, s, d, logfileNumber, next, h);
    }
  }

  lemma {:induction false} OpenStore()
    ensures forall s, d, lf: nat, next: nat, h {:trigger StoreOk(s, d, lf, next, h)} ::
              StoreOk(s, d, lf, next, h) <==> Consistent(s, d, lf, next, h)
  {
    forall s, d, lf: nat, next: nat, h ensures StoreOk(s, d, lf, next, h) <==> Consistent(s, d, lf, next, h) {
      StoreSealOpens(next + 9, s, d, lf, next, h);
    }
  }

  /** `Faithful`, sealed. */
  ghost predicate ReadsLike(s: Store, h: seq<Entry>, horizon: nat) {
    ReadsSeal(|h| + 9, s, h, horizon)
  }

  ghost predicate ReadsSeal(n: nat, s: Store, h: seq<Entry>, horizon: nat) {
    if n == 0 then |s.levels| == NUM_LEVELS && Faithful(s, h, horizon) else ReadsSeal(n - 1, s, h, horizon)
  }

  lemma {:induction false} ReadsSealOpens(n: nat, s: Store, h: seq<Entry>, horizon: nat)
    ensures ReadsSeal(n, s, h, horizon) <==> |s.levels| == NUM_LEVELS && Faithful(s, h, horizon)
  {
    if n > 0 {
      ReadsSealOpens(n - 1, s, h, horizon);
    }
  }

  lemma {:induction false} OpenReads()
    ensures forall s, h, horizon: nat {:trigger ReadsLike(s, h, horizon)} ::
              ReadsLike(s, h, horizon) <==> |s.levels| == NUM_LEVELS && Faithful(s, h, horizon)
  {
    forall s, h, horizon: nat ensures ReadsLike(s, h, horizon) <==> |s.levels| == NUM_LEVELS && Faithful(s, h, horizon) {
      ReadsSealOpens(|h| + 9, s, h, horizon);
    }
  }

  /** A compaction under way, and its output files once they are written. */
  datatype Job = Job(c: Pending, outs: Option<seq<FileMeta>>, first: nat)

  ghost predicate JobSound(levels: Levels, job: Job, next: nat) {
    && LevelsOk(levels) && PendingOk(levels, job.c)
    && (job.outs.Some? ==> Result(job.c, MergedInput(job.c), job.outs.value, job.first) && Reserved(levels, job.outs.value, next))
  }

  /** `JobSound`, sealed. */
  ghost predicate JobOk(levels: Levels, job: Job, next: nat) {
    JobSeal(next + 9, levels, job, next)
  }

  ghost predicate JobSeal(n: nat, levels: Levels, job: Job, next: nat) {
    if n == 0 then JobSound(levels, job, next) else JobSeal(n - 1, levels, job, next)
  }

  lemma {:induction false} JobSealOpens(n: nat, levels: Levels, job: Job, next: nat)
    ensures JobSeal(n, levels, job, next) <==> JobSound(levels, job, next)
  {
    if n > 0 {
      JobSealOpens(n - 1, levels, job, next);
    }
  }

  lemma {:induction false} OpenJob()
    ensures forall levels, job, next: nat {:trigger JobOk(levels, job, next)} :: JobOk(levels, job, next) <==> JobSound(levels, job, next)
  {
    forall levels, job, next: nat ensures JobOk(levels, job, next) <==> JobSound(levels, job, next) {
      JobSealOpens(next + 9, levels, job, next);
    }
  }

  lemma {:induction false} OpenAll()
    ensures forall s, d, lf: nat, next: nat, h {:trigger StoreOk(s, d, lf, next, h)} ::
              StoreOk(s, d, lf, next, h) <==> Consistent(s, d, lf, next, h)
    ensures forall s, h, horizon: nat {:trigger ReadsLike(s, h, horizon)} ::
              ReadsLike(s, h, horizon) <==> |s.levels| == NUM_LEVELS && Faithful(s, h, horizon)
    ensures forall levels, job, next: nat {:trigger JobOk(levels, job, next)} :: JobOk(levels, job, next) <==> JobSound(levels, job, next)
  {
    OpenStore();
    OpenReads();
    OpenJob();
  }

  // ----- crash safety -----

  /** At any point the files alone hold every operation. */
  lemma {:induction false} CrashSafe(s: Store, d: Disk, logfileNumber: nat, next: nat, h: seq<Entry>, horizon: nat)
    requires StoreOk(s, d, logfileNumber, next, h) && ReadsLike(s, h, horizon)
    ensures Recoverable(d, h, horizon)
  {
    OpenAll();
    MirrorIsRecoverable(d, s, logfileNumber, next, h, horizon);
  }

  /** A database that was just created. */
  lemma {:induction false} EmptyIsRecoverable()
    ensures Recoverable(Disk(seq(NUM_LEVELS, _ => []), 0, 2, 0, [], {}), [], 0)
  {
    var d := Disk(seq(NUM_LEVELS, _ => []), 0, 2, 0, [], {});
    var s := Store([], None, d.levels);
    assert forall t :: 0 <= t < NUM_TIERS ==> Tier(s, t) == {};
    assert All(s) == {};
  }

  /** A new log on its own mirrors an empty memory. */
  lemma {:induction false} OpenMirror(d: Disk, s: Store, next: nat, h: seq<Entry>, last: nat, tables: set<nat>)
    requires Structured(s, h, next) && s.imm.None? && s.mem == [] && LogsInOrder(d.logs) && LastOf(h) <= last
    requires forall i :: 0 <= i < |d.logs| ==> d.logs[i].number < next
    ensures var d' := Disk(s.levels, next, next + 1, last, d.logs + [LogFile(next, [])], tables);
      Structured(s, h, next + 1) && Mirror(d', s, next, next + 1, h)
  {
    NewLogIsEmpty(d.logs, next);
    NumbersGrow(s, h, next, next + 1);
  }

  lemma {:induction false} NewLogIsEmpty(logs: seq<LogFile>, next: nat)
    requires forall i :: 0 <= i < |logs| ==> logs[i].number < next
    ensures LiveEntries(logs + [LogFile(next, [])], next) == [] && Concat<Entry>([]) == []
  {
    assert (logs + [LogFile(next, [])])[..|logs|] == logs;
    OldLogsAreDead(logs, next);
  }

  lemma {:induction false} OpenStep(d: Disk, s: Store, next: nat, h: seq<Entry>, horizon: nat, last: nat, tables: set<nat>)
    requires Recoverable(d, h, horizon) && LastOf(h) <= last && Structured(s, h, next) && s.imm.None? && s.mem == [] && Faithful(s, h, horizon)
    requires forall i :: 0 <= i < |d.logs| ==> d.logs[i].number < next
    ensures var d' := Disk(s.levels, next, next + 1, last, d.logs + [LogFile(next, [])], tables);
            StoreOk(s, d', next, next + 1, h) && ReadsLike(s, h, horizon)
  {
    var d' := Disk(s.levels, next, next + 1, last, d.logs + [LogFile(next, [])], tables);
    OpenMirror(d, s, next, h, last, tables);
    StoreSealOpens(next + 10, s, d', next, next + 1, h);
    ReadsSealOpens(|h| + 9, s, h, horizon);
  }

  // ----- writing -----

  /** The operations of `batch` may follow those of `h`. */
  ghost predicate NextAre(h: seq<Entry>, batch: seq<Entry>) {
    IsHistory(h + batch) && LastOf(h + batch) < MAX_SEQUENCE
  }

  lemma {:induction false} NextPrefix(h: seq<Entry>, batch: seq<Entry>)
    requires NextAre(h, batch) && |batch| > 0
    ensures var n := |batch| - 1; NextAre(h, batch[..n]) && h + batch == (h + batch[..n]) + [batch[n]]
    ensures var n := |batch| - 1; LastOf(h + batch[..n]) < batch[n].key.sn < MAX_SEQUENCE
  {
    var n := |batch| - 1;
    HistoryPrefix(h + batch, |h| + n);
    assert (h + batch)[..|h| + n] == h + batch[..n];
    assert (h + batch)[|h| + n] == batch[n];
  }

  lemma {:induction false} InsertAllStructured(s: Store, h: seq<Entry>, next: nat, batch: seq<Entry>)
    requires Structured(s, h, next) && NextAre(h, batch)
    ensures Structured(s.(mem := InsertAll(s.mem, batch)), h + batch, next)
  {
    if |batch| == 0 {
      assert h + batch == h;
    } else {
      var n := |batch| - 1;
      NextPrefix(h, batch);
      InsertAllStructured(s, h, next, batch[..n]);
      WriteStep(s.(mem := InsertAll(s.mem, batch[..n])), h + batch[..n], next, batch[n], 0);
    }
  }

  lemma {:induction false} InsertAllFaithful(s: Store, h: seq<Entry>, next: nat, batch: seq<Entry>, horizon: nat)
    requires Structured(s, h, next) && NextAre(h, batch) && ReadsLike(s, h, horizon)
    ensures ReadsLike(s.(mem := InsertAll(s.mem, batch)), h + batch, horizon)
  {
    if |batch| == 0 {
      assert h + batch == h;
    } else {
      var n := |batch| - 1;
      NextPrefix(h, batch);
      InsertAllFaithful(s, h, next, batch[..n], horizon);
      InsertAllStructured(s, h, next, batch[..n]);
      InsertOneFaithful(s.(mem := InsertAll(s.mem, batch[..n])), h + batch[..n], next, batch[n], horizon);
    }
  }

  lemma {:induction false} InsertOneFaithful(s: Store, h: seq<Entry>, next: nat, e: Entry, horizon: nat)
    requires Structured(s, h, next) && LastOf(h) < e.key.sn < MAX_SEQUENCE && ReadsLike(s, h, horizon)
    ensures ReadsLike(s.(mem := Insert(s.mem, e)), h + [e], horizon)
  {
    OpenReads();
    WriteStep(s, h, next, e, horizon);
  }

  lemma {:induction false} InsertAllElements(mem: seq<Entry>, batch: seq<Entry>)
    ensures Elements(InsertAll(mem, batch)) == Elements(mem) + Elements(batch)
  {
    if |batch| > 0 {
      var n := |batch| - 1;
      InsertAllElements(mem, batch[..n]);
      InsertElements(InsertAll(mem, batch[..n]), batch[n]);
      assert batch == batch[..n] + [batch[n]];
    }
  }

  lemma {:induction false} InsertElements(es: seq<Entry>, e: Entry)
    ensures Elements(Insert(es, e)) == Elements(es) + {e}
  {
    var i := LowerBound(es, e.key);
    forall f ensures f in Insert(es, e) <==> f in es || f == e {
      assert f in es <==> f in es[..i] || f in es[i..] by {
        assert es == es[..i] + es[i..];
      }
    }
  }

  lemma {:induction false} WriteKeeps(s: Store, d: Disk, logfileNumber: nat, next: nat, h: seq<Entry>,
      batch: seq<Entry>, horizon: nat)
    requires StoreOk(s, d, logfileNumber, next, h) && NextAre(h, batch)
    ensures StoreOk(s.(mem := InsertAll(s.mem, batch)), d.(logs := AppendRecord(d.logs, batch)), logfileNumber, next, h + batch)
    ensures ReadsLike(s, h, horizon) ==> ReadsLike(s.(mem := InsertAll(s.mem, batch)), h + batch, horizon)
  {
    StoreSealOpens(next + 9, s, d, logfileNumber, next, h);
    WriteConsistent(s, d, logfileNumber, next, h, batch);
    StoreSealOpens(next + 9, s.(mem := InsertAll(s.mem, batch)), d.(logs := AppendRecord(d.logs, batch)), logfileNumber, next,
        h + batch);
    if ReadsLike(s, h, horizon) {
      InsertAllFaithful(s, h, next, batch, horizon);
    }
  }

  lemma {:induction false} WriteConsistent(s: Store, d: Disk, logfileNumber: nat, next: nat, h: seq<Entry>, batch: seq<Entry>)
    requires Consistent(s, d, logfileNumber, next, h) && NextAre(h, batch) && |d.logs| > 0
    ensures Consistent(s.(mem := InsertAll(s.mem, batch)), d.(logs := AppendRecord(d.logs, batch)), logfileNumber, next, h + batch)
  {
    InsertAllStructured(s, h, next, batch);
    InsertAllElements(s.mem, batch);
    MirrorWrite(d, s, s.(mem := InsertAll(s.mem, batch)), logfileNumber, next, h, batch);
  }

  lemma {:induction false} SwitchKeeps(s: Store, d: Disk, logfileNumber: nat, next: nat, h: seq<Entry>, horizon: nat)
    requires StoreOk(s, d, logfileNumber, next, h) && s.imm.None?
    ensures StoreOk(Store([], Some(s.mem), s.levels), d.(logs := d.logs + [LogFile(next, [])]), next, next + 1, h)
    ensures ReadsLike(s, h, horizon) ==> ReadsLike(Store([], Some(s.mem), s.levels), h, horizon)
  {
    OpenAll();
    SwitchStep(s, h, next);
    NumbersGrow(Store([], Some(s.mem), s.levels), h, next, next + 1);
    MirrorSwitch(d, s, logfileNumber, next, h);
  }

  // ----- flushing -----

  lemma {:induction false} FlushStarts(s: Store, d: Disk, logfileNumber: nat, next: nat, h: seq<Entry>)
    requires StoreOk(s, d, logfileNumber, next, h) && s.imm.Some? && |s.imm.value| > 0
    ensures LevelsOk(s.levels) && FileMeta(next, s.imm.value).Valid() && forall l :: 0 <= l < NUM_LEVELS ==> SortedByKey(s.levels[l])
    ensures NumbersUnique(s.levels, next)
  {
    OpenAll();
    ImmIsAFile(s, h, next);
  }

  lemma {:induction false} FlushKeeps(s: Store, levels': Levels, d: Disk, logfileNumber: nat, next: nat,
      h: seq<Entry>, lvl: nat, horizon: nat, last: nat, tables: set<nat>)
    requires StoreOk(s, d, logfileNumber, next, h) && LastOf(h) <= last && s.imm.Some? && FileMeta(next, s.imm.value).Valid()
    requires LevelsOk(s.levels) && lvl < NUM_LEVELS && (lvl > 0 ==> ClearDownTo(s.levels, lvl, FileMeta(next, s.imm.value)))
    requires Edited(s.levels, levels', LevelEdit(NUM_LEVELS, {}, lvl, {}, {FileMeta(next, s.imm.value)}))
    ensures StoreOk(Store(s.mem, None, levels'), Disk(levels', logfileNumber, next + 1, last, d.logs, tables), logfileNumber, next + 1, h)
    ensures ReadsLike(s, h, horizon) ==> ReadsLike(Store(s.mem, None, levels'), h, horizon)
  {
    OpenAll();
    FlushStep(s, Store(s.mem, None, levels'), h, next, lvl, FileMeta(next, s.imm.value));
    MirrorFlush(d, s, levels', logfileNumber, next, next + 1, h, last, tables);
  }

  /** The compaction under way stands, unless the flush falls into a gap of its output level. */
  lemma {:induction false} FlushKeepsJob(s: Store, levels': Levels, d: Disk, logfileNumber: nat, next: nat,
      h: seq<Entry>, lvl: nat, job: Job)
    requires StoreOk(s, d, logfileNumber, next, h) && s.imm.Some? && |s.imm.value| > 0 && FileMeta(next, s.imm.value).Valid()
    requires LevelsOk(s.levels) && lvl < NUM_LEVELS && (lvl > 0 ==> ClearDownTo(s.levels, lvl, FileMeta(next, s.imm.value)))
    requires Edited(s.levels, levels', LevelEdit(NUM_LEVELS, {}, lvl, {}, {FileMeta(next, s.imm.value)}))
    requires JobOk(s.levels, job, next)
    ensures JobOk(levels', job, next + 1) <==> !(lvl == job.c.level + 1 && FallsIntoGap(job.c, FileMeta(next, s.imm.value)))
  {
    OpenAll();
    var f := FileMeta(next, s.imm.value);
    FlushStep(s, Store(s.mem, None, levels'), h, next, lvl, f);
    PendingAfterFlush(s, Store(s.mem, None, levels'), h, next, lvl, f, job.c);
    if job.outs.Some? {
      ReservedAfterFlush(s.levels, levels', next, lvl, f, job.outs.value);
    }
  }

  lemma {:induction false} ReservedAfterFlush(levels: Levels, levels': Levels, next: nat, lvl: nat, f: FileMeta,
      outs: seq<FileMeta>)
    requires Edited(levels, levels', LevelEdit(NUM_LEVELS, {}, lvl, {}, {f})) && f.number == next && Reserved(levels, outs, next)
    ensures Reserved(levels', outs, next + 1)
  {
    forall i, l, g | 0 <= i < |outs| && At(levels', l, g) ensures g.number != outs[i].number {
      assert g in FileSet(levels'[l]);
      assert g == f || At(levels, l, g);
    }
  }

  /** If the flushed file goes to the output level of the compaction under way, it stays
      out of the gaps between the inputs. */
  ghost predicate AvoidsGaps(levels: Levels, job: Job, f: FileMeta, crowded: nat -> bool) {
    LevelsOk(levels) && f.Valid() && FlushLands(levels, f, crowded, job.c.level + 1) ==> !FallsIntoGap(job.c, f)
  }

  lemma {:induction false} ConnectedAvoidsGaps(levels: Levels, job: Job, f: FileMeta, crowded: nat -> bool)
    requires AllValid(Inputs(job.c)) && Connected(Inputs(job.c))
    ensures AvoidsGaps(levels, job, f, crowded)
  {
    if f.Valid() {
      ConnectedHasNoGap(job.c, f);
    }
  }

  /** An empty memtable is simply dropped. */
  lemma {:induction false} DropKeeps(s: Store, d: Disk, logfileNumber: nat, next: nat, h: seq<Entry>,
      horizon: nat, last: nat, tables: set<nat>)
    requires StoreOk(s, d, logfileNumber, next, h) && LastOf(h) <= last && s.imm.Some? && s.imm.value == []
    ensures StoreOk(Store(s.mem, None, s.levels), Disk(s.levels, logfileNumber, next + 1, last, d.logs, tables), logfileNumber, next + 1, h)
    ensures ReadsLike(s, h, horizon) ==> ReadsLike(Store(s.mem, None, s.levels), h, horizon)
  {
    OpenAll();
    var s' := Store(s.mem, None, s.levels);
    assert forall t :: 0 <= t < NUM_TIERS ==> Tier(s', t) == Tier(s, t);
    assert All(s') == All(s);
    NumbersGrow(s, h, next, next + 1);
    MirrorFlush(d, s, s.levels, logfileNumber, next, next + 1, h, last, tables);
  }

  lemma {:induction false} JobNumbersGrow(levels: Levels, job: Job, next: nat, next': nat)
    requires JobOk(levels, job, next) && next <= next'
    ensures JobOk(levels, job, next')
  {
    OpenAll();
  }

  // ----- compacting -----

  lemma {:induction false} PickFrom(s: Store, d: Disk, logfileNumber: nat, next: nat, h: seq<Entry>)
    requires StoreOk(s, d, logfileNumber, next, h)
    ensures LevelsOk(s.levels) && forall l :: 0 <= l < NUM_LEVELS ==> AllValid(s.levels[l]) && Distinct(s.levels[l])
  {
    OpenAll();
    forall l | 0 <= l < NUM_LEVELS ensures Distinct(s.levels[l]) {
      forall i, j ensures Differ(s.levels[l], i, j) {
        if 0 <= i < j < |s.levels[l]| {
          assert ByKey(s.levels[l][i], s.levels[l][j]);
        }
      }
    }
  }

  lemma {:induction false} JobStarts(levels: Levels, next: nat, c: Pending, lo: UserKey, hi: UserKey)
    requires LevelsOk(levels) && c.level + 1 < NUM_LEVELS && c.levels == levels
    requires AllValid(Inputs(c)) && AllValid(levels[c.level])
    requires InputsOk(c.level, levels[c.level], levels[c.level + 1], c.in0, c.in1, lo, hi)
    ensures JobOk(levels, Job(c, None, 0), next)
  {
    OpenJob();
    PendingStarts(levels, c, lo, hi);
  }

  lemma {:induction false} MergeStarts(s: Store, d: Disk, logfileNumber: nat, next: nat, h: seq<Entry>, job: Job)
    requires StoreOk(s, d, logfileNumber, next, h) && JobOk(s.levels, job, next)
    ensures LevelsOk(job.c.levels) && job.c.level + 1 < NUM_LEVELS && Sorted(MergedInput(job.c))
    ensures AllValid(Inputs(job.c))
  {
    OpenAll();
    InputsMerge(s, h, next, job.c);
  }

  lemma {:induction false} MergedAreInputs(s: Store, d: Disk, logfileNumber: nat, next: nat, h: seq<Entry>, job: Job)
    requires StoreOk(s, d, logfileNumber, next, h) && JobOk(s.levels, job, next)
    ensures Elements(MergedInput(job.c)) == EntriesOf(FileSet(Inputs(job.c)))
  {
    OpenAll();
    InputsMerge(s, h, next, job.c);
  }

  lemma {:induction false} MergeKeeps(s: Store, d: Disk, logfileNumber: nat, next: nat, h: seq<Entry>, job: Job,
      outs: seq<FileMeta>)
    requires StoreOk(s, d, logfileNumber, next, h) && JobOk(s.levels, job, next) && LevelsOk(job.c.levels)
    requires Numbered(outs, next) && (forall i :: 0 <= i < |outs| ==> |outs[i].entries| > 0)
    requires var es := MergedInput(job.c); Flatten(outs) == Kept(es, |es|, job.c.smallest, job.c.levels, job.c.level)
    ensures StoreOk(s, d, logfileNumber, next + |outs|, h)
    ensures JobOk(s.levels, Job(job.c, Some(outs), next), next + |outs|)
  {
    ConsistentGrows(s, d, logfileNumber, next, next + |outs|, h);
    OpenAll();
    InputsMerge(s, h, next, job.c);
    FreshAreReserved(s.levels, next, outs);
  }

  lemma {:induction false} ConsistentGrows(s: Store, d: Disk, logfileNumber: nat, next: nat, next': nat, h: seq<Entry>)
    requires StoreOk(s, d, logfileNumber, next, h) && next <= next'
    ensures StoreOk(s, d, logfileNumber, next', h)
  {
    OpenAll();
    NumbersGrow(s, h, next, next');
  }

  lemma {:induction false} FreshAreReserved(levels: Levels, next: nat, outs: seq<FileMeta>)
    requires |levels| == NUM_LEVELS && NumbersUnique(levels, next) && Numbered(outs, next)
    ensures Reserved(levels, outs, next + |outs|)
  {
  }

  /** What an edit that installs compaction outputs needs of its numbers. */
  lemma {:induction false} InstallStarts(s: Store, d: Disk, logfileNumber: nat, next: nat, h: seq<Entry>, job: Job)
    requires StoreOk(s, d, logfileNumber, next, h) && JobOk(s.levels, job, next) && job.outs.Some? && job.c.level + 1 < NUM_LEVELS
    ensures LevelsOk(s.levels) && (forall l :: 0 <= l < NUM_LEVELS ==> SortedByKey(s.levels[l]))
    ensures NumbersUnique(s.levels, next) && NoSharedNumber(FileSet(s.levels[job.c.level + 1]), FileSet(job.outs.value))
    ensures FileSet(job.c.in0) <= FileSet(s.levels[job.c.level]) && FileSet(job.c.in1) <= FileSet(s.levels[job.c.level + 1])
    ensures var e := MakeEdit(job.c.level, job.c.in0, job.c.in1, job.c.level + 1, job.outs.value);
            && EditOk(e)
            && (forall l :: 0 <= l < NUM_LEVELS ==> NumbersAgree(AddedAt(e, l, |e.added|), AddedAt(e, l, |e.added|)))
            && (forall l :: 0 <= l < NUM_LEVELS ==> NoSharedNumber(FileSet(s.levels[l]), AddedAt(e, l, |e.added|)))
  {
    OpenAll();
    var c, outs := job.c, job.outs.value;
    ReservedShareNothing(s.levels, outs, next, job.first);
    forall l | 0 <= l < NUM_LEVELS
      ensures var e := MakeEdit(c.level, c.in0, c.in1, c.level + 1, outs);
              NumbersAgree(AddedAt(e, l, |e.added|), AddedAt(e, l, |e.added|))
              && NoSharedNumber(FileSet(s.levels[l]), AddedAt(e, l, |e.added|)) {
      MakeEditAt(c.level, c.in0, c.in1, c.level + 1, outs, l);
    }
  }

  lemma {:induction false} ReservedShareNothing(levels: Levels, outs: seq<FileMeta>, next: nat, first: nat)
    requires |levels| == NUM_LEVELS && Reserved(levels, outs, next) && Numbered(outs, first)
    ensures NumbersAgree(FileSet(outs), FileSet(outs))
    ensures forall l :: 0 <= l < NUM_LEVELS ==> NoSharedNumber(FileSet(levels[l]), FileSet(outs))
  {
    forall f, g {:trigger SameNumber(f, g)} | f in FileSet(outs) && g in FileSet(outs) && SameNumber(f, g) ensures f == g {
      var i :| 0 <= i < |outs| && outs[i] == f;
      var j :| 0 <= j < |outs| && outs[j] == g;
    }
    forall l, f, g {:trigger levels[l], SameNumber(f, g)} | 0 <= l < NUM_LEVELS && f in FileSet(levels[l]) && g in FileSet(outs)
      ensures !SameNumber(f, g) {
      var j :| 0 <= j < |outs| && outs[j] == g;
      assert At(levels, l, f);
    }
  }

  lemma {:induction false} InstallKeeps(s: Store, levels': Levels, d: Disk, logfileNumber: nat, next: nat,
      h: seq<Entry>, job: Job, last: nat, tables: set<nat>)
    requires StoreOk(s, d, logfileNumber, next, h) && LastOf(h) <= last && JobOk(s.levels, job, next) && job.outs.Some?
    requires Edited(s.levels, levels', InstallEdit(job.c, job.outs.value))
    ensures StoreOk(s.(levels := levels'), Disk(levels', d.logNumber, next, last, d.logs, tables), logfileNumber, next, h)
  {
    OpenAll();
    InstallStep(s, s.(levels := levels'), h, next, job.c, MergedInput(job.c), job.outs.value, job.first);
    MirrorEdit(d, s, levels', logfileNumber, next, next, h, last, tables);
  }

  /** Installing the outputs of `job` would let a deleted value resurface. */
  ghost predicate Unsafe(s: Store, job: Job) {
    |s.levels| == NUM_LEVELS && job.c.level + 1 < NUM_LEVELS && LevelsOk(job.c.levels) &&
    exists i: nat :: Resurfaces(MergedInput(job.c), Rest(s, job.c), job.c.smallest, job.c.levels, job.c.level, i)
  }

  lemma {:induction false} InstallReads(s: Store, levels': Levels, d: Disk, logfileNumber: nat, next: nat,
      h: seq<Entry>, job: Job, horizon: nat)
    requires StoreOk(s, d, logfileNumber, next, h) && JobOk(s.levels, job, next) && job.outs.Some?
    requires Edited(s.levels, levels', InstallEdit(job.c, job.outs.value))
    requires ReadsLike(s, h, horizon) && horizon <= job.c.smallest
    ensures ReadsLike(s.(levels := levels'), h, job.c.smallest) <==> !Unsafe(s, job)
  {
    OpenAll();
    InstallIsFaithfulExactly(s, s.(levels := levels'), h, next, job.c, MergedInput(job.c), job.outs.value,
        job.first, horizon);
  }

  /** Safe inputs: no file of the output level that was left out shares a user key
      with an input. */
  lemma {:induction false} ClosedParentsInstallSafely(s: Store, d: Disk, logfileNumber: nat, next: nat,
      h: seq<Entry>, job: Job)
    requires StoreOk(s, d, logfileNumber, next, h) && JobOk(s.levels, job, next) && job.c.level + 1 < NUM_LEVELS
    requires forall f, g, a, b {:trigger SharesKey(g, f, a, b)} ::
               f in Inputs(job.c) && g in s.levels[job.c.level + 1] && g !in job.c.in1 ==> !SharesKey(g, f, a, b)
    ensures !Unsafe(s, job)
  {
    OpenStore();
    OpenJob();
    InputsMerge(s, h, next, job.c);
    ClosedParentsAreSafe(s, h, next, job.c, MergedInput(job.c));
  }

  // ----- moving a file without rewriting it -----

  lemma {:induction false} MoveStarts(s: Store, d: Disk, logfileNumber: nat, next: nat, h: seq<Entry>, c: Pending)
    requires StoreOk(s, d, logfileNumber, next, h) && JobOk(s.levels, Job(c, None, 0), next) && c.level + 1 < NUM_LEVELS
    requires |c.in0| == 1 && c.in1 == []
    ensures LevelsOk(s.levels) && (forall l :: 0 <= l < NUM_LEVELS ==> SortedByKey(s.levels[l]))
    ensures NumbersUnique(s.levels, next) && NoSharedNumber(FileSet(s.levels[c.level + 1]), FileSet(c.in0))
    ensures FileSet(c.in0) <= FileSet(s.levels[c.level])
    ensures var e := MakeEdit(c.level, c.in0, [], c.level + 1, c.in0);
            && EditOk(e)
            && (forall l :: 0 <= l < NUM_LEVELS ==> NumbersAgree(AddedAt(e, l, |e.added|), AddedAt(e, l, |e.added|)))
            && (forall l :: 0 <= l < NUM_LEVELS ==> NoSharedNumber(FileSet(s.levels[l]), AddedAt(e, l, |e.added|)))
  {
    OpenAll();
    var e := MakeEdit(c.level, c.in0, [], c.level + 1, c.in0);
    assert At(s.levels, c.level, c.in0[0]);
    assert FileSet(c.in0) == {c.in0[0]};
    forall f, g {:trigger SameNumber(f, g)} | f in FileSet(s.levels[c.level + 1]) && g in FileSet(c.in0) ensures !SameNumber(f, g) {
      assert At(s.levels, c.level + 1, f) && At(s.levels, c.level, g);
    }
    forall l | 0 <= l < NUM_LEVELS
      ensures NumbersAgree(AddedAt(e, l, |e.added|), AddedAt(e, l, |e.added|)) && NoSharedNumber(FileSet(s.levels[l]), AddedAt(e, l, |e.added|)) {
      MakeEditAt(c.level, c.in0, [], c.level + 1, c.in0, l);
    }
  }

  lemma {:induction false} MoveKeeps(s: Store, levels': Levels, d: Disk, logfileNumber: nat, next: nat,
      h: seq<Entry>, c: Pending, horizon: nat, last: nat, tables: set<nat>)
    requires StoreOk(s, d, logfileNumber, next, h) && LastOf(h) <= last && JobOk(s.levels, Job(c, None, 0), next) && c.level + 1 < NUM_LEVELS
    requires |c.in0| == 1 && c.in1 == []
    requires Edited(s.levels, levels', LevelEdit(c.level, FileSet(c.in0), c.level + 1, {}, FileSet(c.in0)))
    ensures StoreOk(s.(levels := levels'), Disk(levels', d.logNumber, next, last, d.logs, tables), logfileNumber, next, h)
    ensures ReadsLike(s, h, horizon) ==> ReadsLike(s.(levels := levels'), h, horizon)
  {
    OpenAll();
    MoveStructure(s, s.(levels := levels'), h, next, c);
    MoveLosesNothing(s, s.(levels := levels'), c);
    MirrorEdit(d, s, levels', logfileNumber, next, next, h, last, tables);
  }

  lemma {:induction false} MoveFits(s: Store, h: seq<Entry>, next: nat, c: Pending)
    requires Structured(s, h, next) && PendingOk(s.levels, c) && |c.in0| == 1 && c.in1 == []
    ensures Fits(s.levels, LevelEdit(c.level, FileSet(c.in0), c.level + 1, {}, FileSet(c.in0)), next, next)
  {
    var f := c.in0[0];
    assert FileSet(c.in0) == {f} && At(s.levels, c.level, f) && Inputs(c) == [f];
    assert f in Inputs(c);
    var e := LevelEdit(c.level, FileSet(c.in0), c.level + 1, {}, FileSet(c.in0));
    forall x, g | x in e.plusB && g in EditedAt(FileSet(s.levels[e.b]), e, e.b) && x != g && x.Valid() && g.Valid()
      ensures Before(x, g) || Before(g, x) {
      assert x == f && g in s.levels[c.level + 1] && g !in c.in1;
      assert Aside(g, Inputs(c));
    }
  }

  lemma {:induction false} MoveStructure(s: Store, s': Store, h: seq<Entry>, next: nat, c: Pending)
    requires Structured(s, h, next) && PendingOk(s.levels, c) && |c.in0| == 1 && c.in1 == []
    requires s'.mem == s.mem && s'.imm == s.imm
    requires Edited(s.levels, s'.levels, LevelEdit(c.level, FileSet(c.in0), c.level + 1, {}, FileSet(c.in0)))
    ensures Structured(s', h, next)
  {
    MoveFits(s, h, next, c);
    InputsInTiers(s, c);
    assert FileSet(c.in1) == {};
    StayersAreNewer(s, s', h, next, c, c.in0);
    NextLevelStep(s, s', h, next, next, LevelEdit(c.level, FileSet(c.in0), c.level + 1, {}, FileSet(c.in0)),
        EntriesOf(FileSet(c.in0)));
  }

  /** What a move does to every tier. */
  lemma {:induction false} MovedTiers(s: Store, s': Store, c: Pending)
    requires |s.levels| == NUM_LEVELS && LevelsOk(s.levels) && PendingOk(s.levels, c) && c.in1 == []
    requires s'.mem == s.mem && s'.imm == s.imm
    requires Edited(s.levels, s'.levels, LevelEdit(c.level, FileSet(c.in0), c.level + 1, {}, FileSet(c.in0)))
    ensures c.level + 3 < NUM_TIERS
    ensures Tier(s, c.level + 2) == Tier(s', c.level + 2) + EntriesOf(FileSet(c.in0))
    ensures Tier(s', c.level + 3) == Tier(s, c.level + 3) + EntriesOf(FileSet(c.in0))
    ensures forall t :: 0 <= t < NUM_TIERS && t != c.level + 2 && t != c.level + 3 ==> Tier(s', t) == Tier(s, t)
  {
    InputsInTiers(s, c);
    assert FileSet(s'.levels[c.level]) == FileSet(s.levels[c.level]) - FileSet(c.in0);
    assert FileSet(s'.levels[c.level + 1]) == FileSet(s.levels[c.level + 1]) - {} + FileSet(c.in0);
    assert FileSet(c.in0) <= FileSet(s.levels[c.level]);
    SplitTier(FileSet(s.levels[c.level]), FileSet(c.in0));
    EntriesOfEdit(FileSet(s.levels[c.level + 1]), {}, FileSet(c.in0));
    assert FileSet(s.levels[c.level + 1]) - {} == FileSet(s.levels[c.level + 1]);
    forall t | 0 <= t < NUM_TIERS && t != c.level + 2 && t != c.level + 3 ensures Tier(s', t) == Tier(s, t) {
      if t >= 2 {
        assert FileSet(s'.levels[t - 2]) == FileSet(s.levels[t - 2]);
      }
    }
  }

  lemma {:induction false} MoveLosesNothing(s: Store, s': Store, c: Pending)
    requires |s.levels| == NUM_LEVELS && LevelsOk(s.levels) && PendingOk(s.levels, c) && c.in1 == []
    requires s'.mem == s.mem && s'.imm == s.imm
    requires Edited(s.levels, s'.levels, LevelEdit(c.level, FileSet(c.in0), c.level + 1, {}, FileSet(c.in0)))
    ensures All(s') == All(s)
  {
    MovedTiers(s, s', c);
    ShiftedAll(s, s', c.level + 2, EntriesOf(FileSet(c.in0)));
  }

  lemma {:induction false} ShiftedAll(s: Store, s': Store, a: nat, moved: set<Entry>)
    requires |s.levels| == |s'.levels| == NUM_LEVELS && a + 1 < NUM_TIERS
    requires Tier(s, a) == Tier(s', a) + moved && Tier(s', a + 1) == Tier(s, a + 1) + moved
    requires forall t :: 0 <= t < NUM_TIERS && t != a && t != a + 1 ==> Tier(s', t) == Tier(s, t)
    ensures All(s') == All(s)
  {
    forall x ensures x in All(s') <==> x in All(s) {
      if x in All(s) {
        var t :| 0 <= t < NUM_TIERS && x in Tier(s, t);
        assert x in Tier(s', t) || x in Tier(s', a + 1);
      }
      if x in All(s') {
        var t :| 0 <= t < NUM_TIERS && x in Tier(s', t);
        assert x in Tier(s, t) || x in Tier(s, a);
      }
    }
  }

  // ----- deleting files -----

  lemma {:induction false} DeleteKeeps(s: Store, d: Disk, logfileNumber: nat, next: nat, h: seq<Entry>,
      tables: set<nat>)
    requires StoreOk(s, d, logfileNumber, next, h)
    ensures StoreOk(s, d.(logs := KeepLogs(d.logs, d.logNumber), tables := tables), logfileNumber, next, h)
  {
    OpenAll();
    MirrorDelete(d, s, logfileNumber, next, h, tables);
  }

  // ----- reading -----

  lemma {:induction false} ReadStarts(s: Store, d: Disk, logfileNumber: nat, next: nat, h: seq<Entry>)
    requires StoreOk(s, d, logfileNumber, next, h)
    ensures Structured(s, h, next)
  {
    OpenAll();
  }

  /** A read of a store that reads like its history is a look-up in that history. */
  lemma {:induction false} ReadAnswers(s: Store, d: Disk, logfileNumber: nat, next: nat, h: seq<Entry>,
      horizon: nat, u: UserKey, sn: nat, e: Option<Entry>)
    requires StoreOk(s, d, logfileNumber, next, h) && ReadsLike(s, h, horizon) && horizon <= sn && Finds(All(s), u, sn, e)
    ensures (if e.Some? then Shown(e.value) else None) == HistoryRead(h, u, sn)
  {
    OpenAll();
    FaithfulAnswer(s, h, horizon, next, u, sn, if e.Some? then Shown(e.value) else None);
  }
}
