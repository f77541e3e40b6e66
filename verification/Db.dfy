// The database object (db/db_impl.cc): every public operation and every background
// step, each proved to keep the store, its files and its readers consistent.
module Db {
  import opened Keys
  import opened Version
  import opened Selection
  import opened Compaction
  import opened Builder
  import opened Lsm
  import opened LsmSteps
  import opened Search
  import opened InFlight
  import opened Install
  import opened Edits
  import opened Durable
  import opened Recovery
  import opened DbSteps
  import opened TornLogs

  datatype Op = Put(user: UserKey, value: string) | Delete(user: UserKey)

  function OpEntry(op: Op, sn: nat): Entry {
    match op
    case Put(u, v) => Entry(InternalKey(u, sn, ValueType.Value), v)
    case Delete(u) => Entry(InternalKey(u, sn, Deletion), "")
  }

  /** A batch takes consecutive sequence numbers from `first` on. */
  function BatchEntries(ops: seq<Op>, first: nat): (r: seq<Entry>)
    ensures |r| == |ops| && forall i :: 0 <= i < |ops| ==> r[i] == OpEntry(ops[i], first + i)
  {
    seq(|ops|, i requires 0 <= i < |ops| => OpEntry(ops[i], first + i))
  }

  /** What a read of `u` gives after some operations, if it gave `before` until then: the
      last one on `u` decides. */
  function ReadAfter(ops: seq<Op>, u: UserKey, before: Option<string>): Option<string> {
    if |ops| == 0 then before
    else
      var n := |ops| - 1;
      match ops[n]
      case Put(v, value) => if u == v then Some(value) else ReadAfter(ops[..n], u, before)
      case Delete(v) => if u == v then None else ReadAfter(ops[..n], u, before)
  }

  /** Where all operations are numbered up to both, a read does not tell them apart. */
  lemma {:induction false} ReadsBeyond(h: seq<Entry>, u: UserKey, a: nat, b: nat)
    requires forall i :: 0 <= i < |h| ==> h[i].key.sn <= a && h[i].key.sn <= b
    ensures HistoryRead(h, u, a) == HistoryRead(h, u, b)
  {
    if |h| > 0 {
      ReadsBeyond(h[..|h| - 1], u, a, b);
    }
  }

  lemma {:induction false} OneMoreIsRead(h: seq<Entry>, op: Op, last: nat, u: UserKey)
    requires forall i :: 0 <= i < |h| ==> h[i].key.sn <= last
    ensures HistoryRead(h + [OpEntry(op, last + 1)], u, last + 1) ==
            match op
            case Put(v, value) => if u == v then Some(value) else HistoryRead(h, u, last)
            case Delete(v) => if u == v then None else HistoryRead(h, u, last)
  {
    assert (h + [OpEntry(op, last + 1)])[..|h|] == h;
    ReadsBeyond(h, u, last, last + 1);
  }

  lemma {:induction false} BatchEnds(h: seq<Entry>, ops: seq<Op>, last: nat)
    requires |ops| > 0
    ensures h + BatchEntries(ops, last + 1) ==
            (h + BatchEntries(ops[..|ops| - 1], last + 1)) + [OpEntry(ops[|ops| - 1], last + |ops|)]
  {
    assert BatchEntries(ops, last + 1) == BatchEntries(ops[..|ops| - 1], last + 1) + [OpEntry(ops[|ops| - 1], last + |ops|)];
  }

  /** In the history, a put is read as its value and a delete as nothing; other keys read as before. */
  lemma {:induction false} BatchIsRead(h: seq<Entry>, ops: seq<Op>, last: nat, u: UserKey)
    requires forall i :: 0 <= i < |h| ==> h[i].key.sn <= last
    ensures HistoryRead(h + BatchEntries(ops, last + 1), u, last + |ops|) == ReadAfter(ops, u, HistoryRead(h, u, last))
  {
    if |ops| == 0 {
      assert h + BatchEntries(ops, last + 1) == h;
    } else {
      var n := |ops| - 1;
      BatchIsRead(h, ops[..n], last, u);
      BatchEnds(h, ops, last);
      OneMoreIsRead(h + BatchEntries(ops[..n], last + 1), ops[n], last + n, u);
    }
  }

  /** A snapshot is not affected by operations that come after it. */
  lemma {:induction false} LaterWritesAreInvisible(h: seq<Entry>, more: seq<Entry>, u: UserKey, sn: nat)
    requires forall i :: 0 <= i < |more| ==> sn < more[i].key.sn
    ensures HistoryRead(h + more, u, sn) == HistoryRead(h, u, sn)
  {
    if |more| == 0 {
      assert h + more == h;
    } else {
      var n := |more| - 1;
      assert (h + more)[..|h + more| - 1] == h + more[..n];
      assert (h + more)[|h| + n] == more[n];
      LaterWritesAreInvisible(h, more[..n], u, sn);
    }
  }

  function TableNumbers(levels: Levels): set<nat> {
    set l, f | 0 <= l < |levels| && f in levels[l] :: f.number
  }

  function NumbersIn(files: seq<FileMeta>): (r: set<nat>)
    ensures r == Numbers(FileSet(files))
  {
    set f | f in files :: f.number
  }

  lemma {:induction false} TableNumbersOf(levels: Levels, levels': Levels, e: LevelEdit)
    requires Edited(levels, levels', e)
    ensures TableNumbers(levels') <= TableNumbers(levels) + Numbers(e.plusB)
  {
    forall n | n in TableNumbers(levels') ensures n in TableNumbers(levels) + Numbers(e.plusB) {
      var l, f :| 0 <= l < |levels'| && f in levels'[l] && f.number == n;
      assert f in FileSet(levels'[l]);
      assert f in levels[l] || f in e.plusB;
    }
  }

  /** Store, files and history agree: `last` is the last number given out, and the history
      from `base` on is in the current log. Sealed; `OpenCore` opens it. */
  ghost predicate CoreOk(s: Store, d: Disk, logfileNumber: nat, next: nat, last: nat, h: seq<Entry>, base: nat) {
    |s.levels| == NUM_LEVELS && |d.logs| > 0 && CoreSeal(next + 9, s, d, logfileNumber, next, last, h, base)
  }

  ghost predicate CoreSeal(n: nat, s: Store, d: Disk, logfileNumber: nat, next: nat, last: nat, h: seq<Entry>, base: nat) {
    if n == 0 then
      StoreOk(s, d, logfileNumber, next, h) && Split(d, h, base) && last == Max(d.lastSequence, LastOf(h)) < MAX_SEQUENCE
    else CoreSeal(n - 1, s, d, logfileNumber, next, last, h, base)
  }

  lemma {:induction false} CoreSealOpens(n: nat, s: Store, d: Disk, logfileNumber: nat, next: nat, last: nat, h: seq<Entry>, base: nat)
    ensures CoreSeal(n, s, d, logfileNumber, next, last, h, base) <==>
            StoreOk(s, d, logfileNumber, next, h) && Split(d, h, base) && last == Max(d.lastSequence, LastOf(h)) < MAX_SEQUENCE
  {
    if n > 0 {
      CoreSealOpens(n - 1, s, d, logfileNumber, next, last, h, base);
    }
  }

  lemma {:induction false} OpenCore(s: Store, d: Disk, logfileNumber: nat, next: nat, last: nat, h: seq<Entry>, base: nat)
    ensures CoreOk(s, d, logfileNumber, next, last, h, base) <==>
            StoreOk(s, d, logfileNumber, next, h) && Split(d, h, base) && last == Max(d.lastSequence, LastOf(h)) < MAX_SEQUENCE
  {
    CoreSealOpens(next + 9, s, d, logfileNumber, next, last, h, base);
  }

  lemma {:induction false} JobForgetsNumbers(levels: Levels, job: Job, next: nat)
    requires JobOk(levels, job, next) && job.outs.None?
    ensures JobOk(levels, Job(job.c, None, 0), next)
  {
    OpenAll();
  }

  lemma {:induction false} MovedIsOnDisk(levels: Levels, levels': Levels, c: Pending)
    requires |levels| == NUM_LEVELS && c.level < NUM_LEVELS && FileSet(c.in0) <= FileSet(levels[c.level])
    requires Edited(levels, levels', LevelEdit(c.level, FileSet(c.in0), c.level + 1, {}, FileSet(c.in0)))
    ensures TableNumbers(levels') <= TableNumbers(levels)
  {
    TableNumbersOf(levels, levels', LevelEdit(c.level, FileSet(c.in0), c.level + 1, {}, FileSet(c.in0)));
    forall n | n in Numbers(FileSet(c.in0)) ensures n in TableNumbers(levels) {
      var f :| f in FileSet(c.in0) && f.number == n;
      assert f in FileSet(levels[c.level]);
      assert f in levels[c.level];
    }
  }

  // ----- a group commit -----

  /** Operations numbered on from `last` may follow. */
  lemma {:induction false} NextOperations(s: Store, d: Disk, logfileNumber: nat, next: nat, h: seq<Entry>, ops: seq<Op>, last: nat)
    requires StoreOk(s, d, logfileNumber, next, h) && LastOf(h) <= last && last + |ops| < MAX_SEQUENCE
    ensures var batch := BatchEntries(ops, last + 1);
            NextAre(h, batch) && LastOf(h + batch) == if |ops| > 0 then last + |ops| else LastOf(h)
  {
    OpenStore();
    HistoryGrows(h, BatchEntries(ops, last + 1));
  }

  /** The memtable with a batch inserted: `InsertAll`, sealed. */
  function Memory(mem: seq<Entry>, batch: seq<Entry>): seq<Entry> {
    MemorySeal(|batch| + 9, mem, batch)
  }

  function MemorySeal(n: nat, mem: seq<Entry>, batch: seq<Entry>): seq<Entry> {
    if n == 0 then InsertAll(mem, batch) else MemorySeal(n - 1, mem, batch)
  }

  lemma {:induction false} MemorySealOpens(n: nat, m: nat, mem: seq<Entry>, batch: seq<Entry>)
    requires m <= n
    ensures MemorySeal(n, mem, batch) == MemorySeal(m, mem, batch)
  {
    if m < n {
      MemorySealOpens(n - 1, m, mem, batch);
    }
  }

  lemma {:induction false} MemoryIs(mem: seq<Entry>, batch: seq<Entry>)
    ensures Memory(mem, batch) == InsertAll(mem, batch)
  {
    MemorySealOpens(|batch| + 9, 0, mem, batch);
  }

  lemma {:induction false} CoreReads(s: Store, d: Disk, logfileNumber: nat, next: nat, last: nat, h: seq<Entry>, base: nat, ops: seq<Op>)
    requires CoreOk(s, d, logfileNumber, next, last, h, base)
    ensures forall u :: HistoryRead(h + BatchEntries(ops, last + 1), u, last + |ops|) == ReadAfter(ops, u, HistoryRead(h, u, last))
  {
    OpenCore(s, d, logfileNumber, next, last, h, base);
    ReadStarts(s, d, logfileNumber, next, h);
    forall i | 0 <= i < |h| ensures h[i].key.sn <= last {
      assert h[i] in Elements(h);
      HistoryBound(h, h[i]);
    }
    forall u ensures HistoryRead(h + BatchEntries(ops, last + 1), u, last + |ops|) == ReadAfter(ops, u, HistoryRead(h, u, last)) {
      BatchIsRead(h, ops, last, u);
    }
  }

  /** First the log, then the memtable. */
  method CommitBatch(s: Store, d: Disk, logfileNumber: nat, next: nat, ops: seq<Op>, last: nat, ghost h: seq<Entry>,
      ghost base: nat, ghost horizon: nat) returns (mem': seq<Entry>, d': Disk)
    requires CoreOk(s, d, logfileNumber, next, last, h, base) && last + |ops| < MAX_SEQUENCE
    ensures d' == d.(logs := AppendRecord(d.logs, BatchEntries(ops, last + 1))) && mem' == Memory(s.mem, BatchEntries(ops, last + 1))
    ensures var h' := h + BatchEntries(ops, last + 1);
            && CoreOk(s.(mem := mem'), d', logfileNumber, next, last + |ops|, h', base)
            && (ReadsLike(s, h, horizon) ==> ReadsLike(s.(mem := mem'), h', horizon))
            && (BaseReads(s, h, base, horizon) ==> BaseReads(s.(mem := mem'), h', base, horizon))
    ensures forall u :: HistoryRead(h + BatchEntries(ops, last + 1), u, last + |ops|) == ReadAfter(ops, u, HistoryRead(h, u, last))
  {
    CoreReads(s, d, logfileNumber, next, last, h, base, ops);
    OpenCore(s, d, logfileNumber, next, last, h, base);
    var batch := BatchEntries(ops, last + 1);
    NextOperations(s, d, logfileNumber, next, h, ops, last);
    WriteKeeps(s, d, logfileNumber, next, h, batch, horizon);
    SplitWrite(d, s, InsertAll(s.mem, batch), h, base, batch, horizon);
    d' := d.(logs := AppendRecord(d.logs, batch));
    var last';
    mem', last' := InsertInto(s.mem, last, batch);
    MemoryIs(s.mem, batch);
    OpenCore(s.(mem := mem'), d', logfileNumber, next, last + |ops|, h + batch, base);
  }

  // ----- LogAndApply: the next version, and what it keeps -----

  /** An edit of the manifest records the last sequence number. */
  lemma {:induction false} EditCore(s: Store, d: Disk, logfileNumber: nat, next: nat, last: nat, h: seq<Entry>, base: nat,
      s': Store, d': Disk, next': nat)
    requires CoreOk(s, d, logfileNumber, next, last, h, base) && StoreOk(s', d', logfileNumber, next', h)
    requires d'.logs == d.logs && d'.lastSequence == last
    ensures CoreOk(s', d', logfileNumber, next', last, h, base)
  {
    OpenCore(s, d, logfileNumber, next, last, h, base);
    EditKeepsBase(s, d, logfileNumber, next, h, base, d');
    OpenCore(s', d', logfileNumber, next', last, h, base);
  }

  /** The level that was picked is the only one that the flush can go to. */
  lemma {:induction false} GapsAtLevel(levels: Levels, job: Job, f: FileMeta, crowded: nat -> bool, level: nat)
    requires LevelsOk(levels) && f.Valid() && FlushLands(levels, f, crowded, level)
    ensures AvoidsGaps(levels, job, f, crowded) <==> !(level == job.c.level + 1 && FallsIntoGap(job.c, f))
  {
    if FlushLands(levels, f, crowded, job.c.level + 1) {
      FlushLandsOnce(levels, f, crowded, level, job.c.level + 1);
    }
  }

  method FlushVersion(s: Store, d: Disk, logfileNumber: nat, next: nat, last: nat, crowded: nat -> bool,
      ghost h: seq<Entry>, ghost base: nat, ghost horizon: nat, ghost job: Option<Job>)
    returns (levels': Levels, d': Disk, level: nat)
    requires CoreOk(s, d, logfileNumber, next, last, h, base) && s.imm.Some? && |s.imm.value| > 0
    requires job.Some? ==> JobOk(s.levels, job.value, next)
    ensures d' == Disk(levels', logfileNumber, next + 1, last, d.logs, d.tables + {next})
    ensures CoreOk(Store(s.mem, None, levels'), d', logfileNumber, next + 1, last, h, base)
    ensures ReadsLike(s, h, horizon) ==> ReadsLike(Store(s.mem, None, levels'), h, horizon)
    ensures BaseReads(s, h, base, horizon) ==> BaseReads(Store(s.mem, None, levels'), h, base, horizon)
    ensures job.Some? ==>
              (JobOk(levels', job.value, next + 1) <==> AvoidsGaps(s.levels, job.value, FileMeta(next, s.imm.value), crowded))
    ensures TableNumbers(levels') <= TableNumbers(s.levels) + {next}
    ensures level <= 2
    ensures Edited(s.levels, levels', LevelEdit(NUM_LEVELS, {}, level, {}, {FileMeta(next, s.imm.value)}))
    ensures Follows(s.levels, levels', MakeEdit(NUM_LEVELS, [], [], level, [FileMeta(next, s.imm.value)]))
  {
    OpenCore(s, d, logfileNumber, next, last, h, base);
    FlushStarts(s, d, logfileNumber, next, h);
    var f := FileMeta(next, s.imm.value);
    level := PickLevelForMemTableOutput(s.levels, f, crowded);
    OneFreshFile(s.levels, next, level, f);
    levels' := NewVersion(s.levels, MakeEdit(NUM_LEVELS, [], [], level, [f]));
    d' := Disk(levels', logfileNumber, next + 1, last, d.logs, d.tables + {next});
    FlushEditIsLevelEdit(s.levels, levels', next, level, f);
    FlushKeeps(s, levels', d, logfileNumber, next, h, level, horizon, last, d.tables + {next});
    if job.Some? {
      FlushKeepsJob(s, levels', d, logfileNumber, next, h, level, job.value);
      GapsAtLevel(s.levels, job.value, f, crowded, level);
    }
    FlushKeepsBase(s, levels', d, logfileNumber, next, h, base, level, horizon);
    EditCore(s, d, logfileNumber, next, last, h, base, Store(s.mem, None, levels'), d', next + 1);
    TableNumbersOf(s.levels, levels', LevelEdit(NUM_LEVELS, {}, level, {}, {f}));
  }

  lemma {:induction false} DropImm(s: Store, d: Disk, logfileNumber: nat, next: nat, last: nat, h: seq<Entry>, base: nat,
      horizon: nat, job: Option<Job>)
    requires CoreOk(s, d, logfileNumber, next, last, h, base) && s.imm == Some([]) && (job.Some? ==> JobOk(s.levels, job.value, next))
    ensures var s', d' := Store(s.mem, None, s.levels), Disk(s.levels, logfileNumber, next + 1, last, d.logs, d.tables);
            && CoreOk(s', d', logfileNumber, next + 1, last, h, base)
            && (ReadsLike(s, h, horizon) ==> ReadsLike(s', h, horizon))
            && (BaseReads(s, h, base, horizon) ==> BaseReads(s', h, base, horizon))
    ensures job.Some? ==> JobOk(s.levels, job.value, next + 1)
  {
    OpenCore(s, d, logfileNumber, next, last, h, base);
    BaseDrop(s, h, base, horizon);
    DropKeeps(s, d, logfileNumber, next, h, horizon, last, d.tables);
    EditCore(s, d, logfileNumber, next, last, h, base, Store(s.mem, None, s.levels),
             Disk(s.levels, logfileNumber, next + 1, last, d.logs, d.tables), next + 1);
    if job.Some? {
      JobNumbersGrow(s.levels, job.value, next, next + 1);
    }
  }

  lemma {:induction false} SwitchLog(s: Store, d: Disk, logfileNumber: nat, next: nat, last: nat, h: seq<Entry>, base: nat,
      horizon: nat, job: Option<Job>)
    requires CoreOk(s, d, logfileNumber, next, last, h, base) && s.imm.None?
    requires job.Some? ==> JobOk(s.levels, job.value, next)
    ensures var s', d' := Store([], Some(s.mem), s.levels), d.(logs := d.logs + [LogFile(next, [])]);
            && CoreOk(s', d', next, next + 1, last, h, |h|)
            && (ReadsLike(s, h, horizon) ==> ReadsLike(s', h, horizon) && BaseReads(s', h, |h|, horizon))
    ensures job.Some? ==> JobOk(s.levels, job.value, next + 1)
  {
    OpenCore(s, d, logfileNumber, next, last, h, base);
    SwitchKeeps(s, d, logfileNumber, next, h, horizon);
    SwitchKeepsBase(s, d, logfileNumber, next, h, horizon);
    OpenCore(Store([], Some(s.mem), s.levels), d.(logs := d.logs + [LogFile(next, [])]), next, next + 1, last, h, |h|);
    if job.Some? {
      JobNumbersGrow(s.levels, job.value, next, next + 1);
    }
  }

  method MoveVersion(s: Store, d: Disk, logfileNumber: nat, next: nat, last: nat, c: Pending, ghost h: seq<Entry>,
      ghost base: nat, ghost horizon: nat) returns (levels': Levels, d': Disk)
    requires CoreOk(s, d, logfileNumber, next, last, h, base) && JobOk(s.levels, Job(c, None, 0), next)
    requires c.level + 1 < NUM_LEVELS && |c.in0| == 1 && c.in1 == []
    ensures d' == Disk(levels', d.logNumber, next, last, d.logs, d.tables)
    ensures CoreOk(s.(levels := levels'), d', logfileNumber, next, last, h, base)
    ensures ReadsLike(s, h, horizon) ==> ReadsLike(s.(levels := levels'), h, horizon)
    ensures BaseReads(s, h, base, horizon) ==> BaseReads(s.(levels := levels'), h, base, horizon)
    ensures TableNumbers(levels') <= TableNumbers(s.levels)
    ensures Edited(s.levels, levels', LevelEdit(c.level, FileSet(c.in0), c.level + 1, {}, FileSet(c.in0)))
    ensures Follows(s.levels, levels', MakeEdit(c.level, c.in0, [], c.level + 1, c.in0))
  {
    OpenCore(s, d, logfileNumber, next, last, h, base);
    MoveStarts(s, d, logfileNumber, next, h, c);
    levels' := NewVersion(s.levels, MakeEdit(c.level, c.in0, [], c.level + 1, c.in0));
    d' := Disk(levels', d.logNumber, next, last, d.logs, d.tables);
    assert FileSet([]) == {};
    MakeEditIsLevelEdit(s.levels, levels', next, c.level, c.in0, [], c.in0);
    MoveKeeps(s, levels', d, logfileNumber, next, h, c, horizon, last, d.tables);
    MoveKeepsBase(s, levels', d, logfileNumber, next, h, base, horizon, c);
    MovedIsOnDisk(s.levels, levels', c);
    EditCore(s, d, logfileNumber, next, last, h, base, s.(levels := levels'), d', next);
  }

  method ResultsVersion(s: Store, d: Disk, logfileNumber: nat, next: nat, last: nat, job: Job, ghost h: seq<Entry>,
      ghost base: nat, ghost horizon: nat) returns (levels': Levels, d': Disk)
    requires CoreOk(s, d, logfileNumber, next, last, h, base) && JobOk(s.levels, job, next) && job.outs.Some?
    requires job.c.level + 1 < NUM_LEVELS && horizon <= job.c.smallest
    ensures d' == Disk(levels', d.logNumber, next, last, d.logs, d.tables)
    ensures CoreOk(s.(levels := levels'), d', logfileNumber, next, last, h, base)
    ensures ReadsLike(s, h, horizon) ==> (ReadsLike(s.(levels := levels'), h, job.c.smallest) <==> !Unsafe(s, job))
    ensures BaseReads(s, h, base, horizon) ==>
              (BaseReads(s.(levels := levels'), h, base, job.c.smallest) <==> !Unsafe(BaseStore(s), job))
    ensures TableNumbers(levels') <= TableNumbers(s.levels) + Numbers(FileSet(job.outs.value))
    ensures Edited(s.levels, levels', InstallEdit(job.c, job.outs.value))
    ensures Follows(s.levels, levels', MakeEdit(job.c.level, job.c.in0, job.c.in1, job.c.level + 1, job.outs.value))
  {
    var c, outs := job.c, job.outs.value;
    levels' := InstalledLevels(s, d, logfileNumber, next, last, job, h, base);
    d' := Disk(levels', d.logNumber, next, last, d.logs, d.tables);
    ResultsKept(s, d, logfileNumber, next, last, job, h, base, horizon, levels');
    TableNumbersOf(s.levels, levels', InstallEdit(c, outs));
  }

  method InstalledLevels(s: Store, d: Disk, logfileNumber: nat, next: nat, last: nat, job: Job, ghost h: seq<Entry>,
      ghost base: nat) returns (levels': Levels)
    requires CoreOk(s, d, logfileNumber, next, last, h, base) && JobOk(s.levels, job, next) && job.outs.Some?
    requires job.c.level + 1 < NUM_LEVELS
    ensures Edited(s.levels, levels', InstallEdit(job.c, job.outs.value))
    ensures Follows(s.levels, levels', MakeEdit(job.c.level, job.c.in0, job.c.in1, job.c.level + 1, job.outs.value))
  {
    OpenCore(s, d, logfileNumber, next, last, h, base);
    var c, outs := job.c, job.outs.value;
    InstallStarts(s, d, logfileNumber, next, h, job);
    levels' := NewVersion(s.levels, MakeEdit(c.level, c.in0, c.in1, c.level + 1, outs));
    MakeEditIsLevelEdit(s.levels, levels', next, c.level, c.in0, c.in1, outs);
  }

  lemma {:induction false} ResultsKept(s: Store, d: Disk, logfileNumber: nat, next: nat, last: nat, job: Job, h: seq<Entry>,
      base: nat, horizon: nat, levels': Levels)
    requires CoreOk(s, d, logfileNumber, next, last, h, base) && JobOk(s.levels, job, next) && job.outs.Some?
    requires job.c.level + 1 < NUM_LEVELS && horizon <= job.c.smallest && Edited(s.levels, levels', InstallEdit(job.c, job.outs.value))
    ensures CoreOk(s.(levels := levels'), Disk(levels', d.logNumber, next, last, d.logs, d.tables), logfileNumber, next, last, h, base)
    ensures ReadsLike(s, h, horizon) ==> (ReadsLike(s.(levels := levels'), h, job.c.smallest) <==> !Unsafe(s, job))
    ensures BaseReads(s, h, base, horizon) ==>
              (BaseReads(s.(levels := levels'), h, base, job.c.smallest) <==> !Unsafe(BaseStore(s), job))
  {
    OpenCore(s, d, logfileNumber, next, last, h, base);
    var d' := Disk(levels', d.logNumber, next, last, d.logs, d.tables);
    InstallKeeps(s, levels', d, logfileNumber, next, h, job, last, d.tables);
    if ReadsLike(s, h, horizon) {
      InstallReads(s, levels', d, logfileNumber, next, h, job, horizon);
    }
    InstallKeepsBase(s, levels', d, logfileNumber, next, h, base, horizon, job);
    EditCore(s, d, logfileNumber, next, last, h, base, s.(levels := levels'), d', next);
  }

  // ----- choosing and merging -----

  lemma {:induction false} CorePicks(s: Store, d: Disk, logfileNumber: nat, next: nat, last: nat, h: seq<Entry>, base: nat)
    requires CoreOk(s, d, logfileNumber, next, last, h, base)
    ensures LevelsOk(s.levels) && forall l :: 0 <= l < NUM_LEVELS ==> AllValid(s.levels[l]) && Distinct(s.levels[l])
  {
    OpenCore(s, d, logfileNumber, next, last, h, base);
    PickFrom(s, d, logfileNumber, next, h);
  }

  /** The job of an automatic compaction of file `picked` of the level. */
  method AutomaticJob(s: Store, d: Disk, logfileNumber: nat, next: nat, last: nat, level: nat, picked: nat, mayExpand: bool,
      smallest: nat, ghost h: seq<Entry>, ghost base: nat) returns (job: Job)
    requires CoreOk(s, d, logfileNumber, next, last, h, base) && level + 1 < NUM_LEVELS && picked < |s.levels[level]|
    ensures JobOk(s.levels, job, next) && job.outs.None? && AllValid(Inputs(job.c)) && Connected(Inputs(job.c))
    ensures job.c.level == level && job.c.levels == s.levels && job.c.smallest == smallest
    ensures s.levels[level][picked] in job.c.in0
  {
    CorePicks(s, d, logfileNumber, next, last, h, base);
    job := AutomaticInputs(s.levels, next, level, picked, mayExpand, smallest);
  }

  method AutomaticInputs(levels: Levels, ghost next: nat, level: nat, picked: nat, mayExpand: bool, smallest: nat)
    returns (job: Job)
    requires LevelsOk(levels) && level + 1 < NUM_LEVELS && AllValid(levels[level]) && Distinct(levels[level])
    requires picked < |levels[level]|
    ensures JobOk(levels, job, next) && job.outs.None? && AllValid(Inputs(job.c)) && Connected(Inputs(job.c))
    ensures job.c.level == level && job.c.levels == levels && job.c.smallest == smallest
    ensures levels[level][picked] in job.c.in0
  {
    ghost var lo, hi, first;
    var c0, c1;
    c0, c1, lo, hi, first := PickCompaction(level, levels[level], levels[level + 1], picked, mayExpand);
    job := Job(Pending(level, c0, c1, smallest, levels), None, 0);
    assert JobOk(levels, job, next) by {
      assert Inputs(job.c) == c0 + c1;
      JobStarts(levels, next, job.c, lo, hi);
    }
    assert Inputs(job.c) == c0 + c1;
  }

  /** The job of a manual compaction, if there is anything to compact. */
  method ManualJob(s: Store, d: Disk, logfileNumber: nat, next: nat, last: nat, level: nat, begin: Option<UserKey>,
      end: Option<UserKey>, limit: nat, mayExpand: bool, smallest: nat, ghost h: seq<Entry>, ghost base: nat)
    returns (job: Option<Job>)
    requires CoreOk(s, d, logfileNumber, next, last, h, base) && level + 1 < NUM_LEVELS
    ensures job.Some? <==> SomeMeets(s.levels[level], begin, end)
    ensures job.Some? ==> JobOk(s.levels, job.value, next) && job.value.outs.None?
    ensures job.Some? ==> var c := job.value.c; c.level == level && c.levels == s.levels && c.smallest == smallest
    ensures job.Some? && level == 0 ==>
              forall f :: f in s.levels[0] && |f.entries| > 0 && Overlaps(f, begin, end) ==> f in job.value.c.in0
  {
    CorePicks(s, d, logfileNumber, next, last, h, base);
    job := ManualInputs(s.levels, next, level, begin, end, limit, mayExpand, smallest);
  }

  method ManualInputs(levels: Levels, ghost next: nat, level: nat, begin: Option<UserKey>, end: Option<UserKey>, limit: nat,
      mayExpand: bool, smallest: nat) returns (job: Option<Job>)
    requires LevelsOk(levels) && level + 1 < NUM_LEVELS && AllValid(levels[level]) && Distinct(levels[level])
    ensures job.Some? <==> SomeMeets(levels[level], begin, end)
    ensures job.Some? ==> JobOk(levels, job.value, next) && job.value.outs.None?
    ensures job.Some? ==> var c := job.value.c; c.level == level && c.levels == levels && c.smallest == smallest
    ensures job.Some? && level == 0 ==>
              forall f :: f in levels[0] && |f.entries| > 0 && Overlaps(f, begin, end) ==> f in job.value.c.in0
  {
    ghost var lo, hi, first;
    var some, c0, c1;
    some, c0, c1, lo, hi, first := CompactRange(level, levels[level], levels[level + 1], begin, end, limit, mayExpand);
    if !some {
      return None;
    }
    var c := Pending(level, c0, c1, smallest, levels);
    assert JobOk(levels, Job(c, None, 0), next) by {
      assert Inputs(c) == c0 + c1;
      JobStarts(levels, next, c, lo, hi);
    }
    job := Some(Job(c, None, 0));
  }

  /** The outputs hold those entries of the inputs that neither drop rule takes, and end just where
      one of the limits says. */
  ghost predicate OutputsAre(c: Pending, outs: seq<FileMeta>, stopBefore: nat -> bool, full: nat -> bool) {
    var inputs := EntriesOf(FileSet(c.in0 + c.in1));
    && (forall e :: e in EntriesOf(FileSet(outs)) <==> e in inputs && Survives(e, inputs, c.smallest, c.levels, c.level))
    && LevelsOk(c.levels) && CutAsAsked(MergedInput(c), |MergedInput(c)|, c.smallest, c.levels, c.level, outs, stopBefore, full)
  }

  lemma {:induction false} OutputsKeep(s: Store, d: Disk, logfileNumber: nat, next: nat, h: seq<Entry>, job: Job, outs: seq<FileMeta>,
      stopBefore: nat -> bool, full: nat -> bool)
    requires StoreOk(s, d, logfileNumber, next, h) && JobOk(s.levels, job, next) && LevelsOk(job.c.levels)
    requires CutAsAsked(MergedInput(job.c), |MergedInput(job.c)|, job.c.smallest, job.c.levels, job.c.level, outs, stopBefore, full)
    requires forall e :: e in Flatten(outs) <==>
      e in MergedInput(job.c) && Survives(e, Elements(MergedInput(job.c)), job.c.smallest, job.c.levels, job.c.level)
    ensures OutputsAre(job.c, outs, stopBefore, full)
  {
    MergedAreInputs(s, d, logfileNumber, next, h, job);
    forall e ensures e in EntriesOf(FileSet(outs)) <==> e in Flatten(outs) {
      FlattenMembers(outs, e);
    }
  }

  /** Merges the inputs of `job` into new tables numbered from `next` on. */
  method MergeInputs(s: Store, d: Disk, logfileNumber: nat, next: nat, last: nat, job: Job, stopBefore: nat -> bool,
      full: nat -> bool, ghost h: seq<Entry>, ghost base: nat) returns (job': Job, next': nat, written: set<nat>)
    requires CoreOk(s, d, logfileNumber, next, last, h, base) && JobOk(s.levels, job, next) && job.c.smallest < MAX_SEQUENCE
    ensures job'.c == job.c && job'.outs.Some? && written == Numbers(FileSet(job'.outs.value))
    ensures next' == next + |job'.outs.value| && Numbered(job'.outs.value, next)
    ensures OutputsAre(job.c, job'.outs.value, stopBefore, full)
    ensures CoreOk(s, d.(tables := d.tables + written), logfileNumber, next', last, h, base) && JobOk(s.levels, job', next')
  {
    OpenCore(s, d, logfileNumber, next, last, h, base);
    var c := job.c;
    MergeStarts(s, d, logfileNumber, next, h, job);
    var state := new CompactionState(c.level, c.levels);
    var outs;
    outs, next' := Compaction.DoCompactionWork(MergedInput(c), c.smallest, state, next, stopBefore, full);
    MergeKeeps(s, d, logfileNumber, next, h, job, outs);
    OutputsKeep(s, d, logfileNumber, next, h, job, outs, stopBefore, full);
    job' := Job(c, Some(outs), next);
    written := NumbersIn(outs);
    TablesCore(s, d, logfileNumber, next', last, h, base, d.tables + written);
  }

  lemma {:induction false} TablesCore(s: Store, d: Disk, logfileNumber: nat, next: nat, last: nat, h: seq<Entry>, base: nat,
      tables: set<nat>)
    requires StoreOk(s, d, logfileNumber, next, h) && Split(d, h, base) && last == Max(d.lastSequence, LastOf(h)) < MAX_SEQUENCE
    ensures CoreOk(s, d.(tables := tables), logfileNumber, next, last, h, base)
  {
    OpenAll();
    OpenCore(s, d.(tables := tables), logfileNumber, next, last, h, base);
  }

  /** Deleting files that nothing needs. */
  lemma {:induction false} DeleteCore(s: Store, d: Disk, logfileNumber: nat, next: nat, last: nat, h: seq<Entry>, base: nat,
      tables: set<nat>)
    requires CoreOk(s, d, logfileNumber, next, last, h, base)
    ensures CoreOk(s, d.(logs := KeepLogs(d.logs, d.logNumber), tables := tables), logfileNumber, next, last, h, base)
  {
    OpenCore(s, d, logfileNumber, next, last, h, base);
    DeleteKeeps(s, d, logfileNumber, next, h, tables);
    DeleteKeepsBase(s, d, logfileNumber, next, h, base, tables);
    OpenCore(s, d.(logs := KeepLogs(d.logs, d.logNumber), tables := tables), logfileNumber, next, last, h, base);
  }

  // ----- reading and recovering -----

  /** The read path below the memtables, after what these answered. */
  method CoreGet(s: Store, d: Disk, logfileNumber: nat, next: nat, last: nat, ghost h: seq<Entry>, ghost base: nat,
      ghost horizon: nat, u: UserKey, sn: nat, inMem: Option<Entry>, inImm: Option<Entry>) returns (r: Option<string>)
    requires CoreOk(s, d, logfileNumber, next, last, h, base) && horizon <= sn && Finds(Elements(s.mem), u, sn, inMem)
    requires if inMem.None? && s.imm.Some? then Finds(Elements(s.imm.value), u, sn, inImm) else inImm.None?
    ensures ReadsLike(s, h, horizon) ==> r == HistoryRead(h, u, sn)
  {
    OpenCore(s, d, logfileNumber, next, last, h, base);
    ReadStarts(s, d, logfileNumber, next, h);
    var e := GetBelow(s, u, sn, inMem, inImm, h, next);
    if ReadsLike(s, h, horizon) {
      ReadAnswers(s, d, logfileNumber, next, h, horizon, u, sn, e);
    }
    r := if e.Some? then Shown(e.value) else None;
  }

  lemma {:induction false} CoreSorted(s: Store, d: Disk, logfileNumber: nat, next: nat, last: nat, h: seq<Entry>, base: nat)
    requires CoreOk(s, d, logfileNumber, next, last, h, base)
    ensures Sorted(s.mem) && (s.imm.Some? ==> Sorted(s.imm.value)) && forall e :: e in s.mem ==> e.key.sn <= last
  {
    OpenCore(s, d, logfileNumber, next, last, h, base);
    ReadStarts(s, d, logfileNumber, next, h);
    forall e | e in s.mem ensures e.key.sn <= last {
      assert e in Tier(s, 0) && e in All(s);
      HistoryBound(h, e);
    }
  }

  method Reopen(d: Disk, full: nat -> nat -> bool, ghost h: seq<Entry>, ghost horizon: nat)
    returns (s: Store, d': Disk, next: nat, last: nat)
    requires Recoverable(d, h, horizon) && Max(d.lastSequence, LastOf(h)) < MAX_SEQUENCE
    ensures s.mem == [] && s.imm.None? && last == Max(d.lastSequence, LastOf(h)) && d.nextFile < next
    ensures LevelsGrow(d.levels, s.levels) && next <= NumbersUpTo(d.logs, d.logNumber, d.nextFile + 1)
    ensures d' == Disk(s.levels, next, next + 1, last, d.logs + [LogFile(next, [])], d.tables + TableNumbers(s.levels))
    ensures CoreOk(s, d', next, next + 1, last, h, |h|) && ReadsLike(s, h, horizon) && BaseReads(s, h, |h|, horizon)
  {
    s, next, last := RecoverLogs(d, full, h, horizon);
    var tables := d.tables + TableNumbers(s.levels);
    d' := Disk(s.levels, next, next + 1, last, d.logs + [LogFile(next, [])], tables);
    OpenStep(d, s, next, h, horizon, last, tables);
    OpenKeepsBase(d', s, next, next + 1, h, horizon);
    OpenCore(s, d', next, next + 1, last, h, |h|);
  }

  // ----- what the edits do, file by file -----

  /** Inputs leave their levels, outputs arrive at the lower one, and that is all. */
  ghost predicate Installed(levels: Levels, levels': Levels, c: Pending, outs: seq<FileMeta>) {
    && |levels| == |levels'| == 7 && c.level + 1 < 7
    && forall l, f :: 0 <= l < 7 ==>
      (f in levels'[l] <==>
        || (f in levels[l] && !(l == c.level && f in c.in0) && !(l == c.level + 1 && f in c.in1))
        || (l == c.level + 1 && f in outs))
  }

  lemma {:induction false} InstallMoves(levels: Levels, levels': Levels, c: Pending, outs: seq<FileMeta>)
    requires Edited(levels, levels', InstallEdit(c, outs))
    ensures Installed(levels, levels', c, outs)
  {
    forall l, f | 0 <= l < 7 ensures f in levels'[l] <==> f in FileSet(levels'[l]) {
    }
  }

  /** The one input goes a level down. */
  lemma {:induction false} MoveMoves(levels: Levels, levels': Levels, c: Pending, g: FileMeta)
    requires Edited(levels, levels', LevelEdit(c.level, FileSet(c.in0), c.level + 1, {}, FileSet(c.in0))) && c.in0 == [g]
    ensures |levels| == |levels'| == 7 && c.level + 1 < 7
    ensures forall l, f :: 0 <= l < 7 ==>
      (f in levels'[l] <==> if f == g && l == c.level then false else f in levels[l] || (f == g && l == c.level + 1))
  {
    forall l, f | 0 <= l < 7 ensures f in levels'[l] <==> f in FileSet(levels'[l]) {
    }
  }

  /** One file arrives. */
  lemma {:induction false} FlushMoves(levels: Levels, levels': Levels, level: nat, g: FileMeta)
    requires Edited(levels, levels', LevelEdit(NUM_LEVELS, {}, level, {}, {g}))
    ensures |levels| == |levels'| == 7
    ensures forall l, f :: 0 <= l < 7 ==> (f in levels'[l] <==> f in levels[l] || (f == g && l == level))
  {
    forall l, f | 0 <= l < 7 ensures f in levels'[l] <==> f in FileSet(levels'[l]) {
    }
  }

  /** Live snapshots, oldest first, none older than `horizon`. */
  ghost predicate SnapshotsOk(snapshots: seq<nat>, horizon: nat, last: nat) {
    && (forall i :: 0 <= i < |snapshots| ==> horizon <= snapshots[i] <= last)
    && forall i, j :: 0 <= i < j < |snapshots| ==> snapshots[i] <= snapshots[j]
  }

  /** A compaction under way may only forget what no live snapshot needs. */
  ghost predicate JobIsOk(levels: Levels, job: Option<Job>, next: nat, snapshots: seq<nat>, horizon: nat, last: nat) {
    job.Some? ==>
      && JobOk(levels, job.value, next)
      && job.value.c.level + 1 < NUM_LEVELS
      && horizon <= job.value.c.smallest <= last
      && forall i :: 0 <= i < |snapshots| ==> job.value.c.smallest <= snapshots[i]
  }

  /** Every table that some reader or a running compaction needs is on disk; pending are just
      the outputs of a running compaction that has written them. */
  ghost predicate FilesOk(levels: Levels, pinned: seq<Levels>, job: Option<Job>, pending: set<nat>, tables: set<nat>) {
    && TableNumbers(levels) <= tables
    && (forall i :: 0 <= i < |pinned| ==> TableNumbers(pinned[i]) <= tables)
    && (job.Some? ==> TableNumbers(job.value.c.levels) <= tables)
    && pending == (if job.Some? && job.value.outs.Some? then Numbers(FileSet(job.value.outs.value)) else {}) <= tables
  }

  /** Once installed, the outputs are pending no more, and what the compaction forgot no
      live snapshot needs. */
  lemma {:induction false} InstalledIsKept(levels: Levels, levels': Levels, pinned: seq<Levels>, job: Job, pending: set<nat>,
      tables: set<nat>, next: nat, snapshots: seq<nat>, horizon: nat, last: nat)
    requires FilesOk(levels, pinned, Some(job), pending, tables) && job.outs.Some?
    requires TableNumbers(levels') <= TableNumbers(levels) + Numbers(FileSet(job.outs.value))
    requires SnapshotsOk(snapshots, horizon, last) && JobIsOk(levels, Some(job), next, snapshots, horizon, last)
    ensures FilesOk(levels', pinned, None, pending - Numbers(FileSet(job.outs.value)), tables)
    ensures SnapshotsOk(snapshots, job.c.smallest, last) && job.c.smallest <= last
  {
  }

  class DbImpl {
    var mem: seq<Entry>
    var imm: Option<seq<Entry>>
    var levels: Levels
    var lastSequence: nat
    var snapshots: seq<nat>
    var nextFile: nat
    var logfileNumber: nat
    var job: Option<Job>
    var pendingOutputs: set<nat>
    var pinned: seq<Levels>
    var disk: Disk
    ghost var history: seq<Entry>
    ghost var horizon: nat
    /** How much of the history was written before the current log. */
    ghost var base: nat

    function Abs(): Store
      reads this
    {
      Store(mem, imm, levels)
    }

    ghost predicate Valid()
      reads this
    {
      Standing() && JobIsOk(levels, job, nextFile, snapshots, horizon, lastSequence)
    }

    /** All of the invariant but what it says of a compaction under way. */
    ghost predicate Standing()
      reads this
    {
      && CoreOk(Abs(), disk, logfileNumber, nextFile, lastSequence, history, base)
      && horizon <= lastSequence < MAX_SEQUENCE
      && SnapshotsOk(snapshots, horizon, lastSequence)
      && FilesOk(levels, pinned, job, pendingOutputs, disk.tables)
    }

    /** From `horizon` on, every read gives what the write history says. */
    ghost predicate ReadsLikeHistory()
      reads this
    {
      ReadsLike(Abs(), history, horizon)
    }

    /** The same for the store without its memtable, and the history before the current log. */
    ghost predicate ReadsLikeBase()
      reads this
    {
      BaseReads(Abs(), history, base, horizon)
    }

    /** Opening recovers the whole history from the files of a database. */
    constructor (d: Disk, full: nat -> nat -> bool, ghost h: seq<Entry>, ghost hz: nat)
      requires Recoverable(d, h, hz) && hz <= Max(d.lastSequence, LastOf(h)) < MAX_SEQUENCE && TableNumbers(d.levels) <= d.tables
      ensures Valid() && ReadsLikeHistory() && ReadsLikeBase() && history == h && horizon == hz
      ensures snapshots == [] && job.None? && pinned == [] && imm.None? && mem == [] && base == |h|
      ensures lastSequence == Max(d.lastSequence, LastOf(h)) && d.nextFile < logfileNumber < nextFile
      ensures disk == Disk(levels, logfileNumber, nextFile, lastSequence, d.logs + [LogFile(logfileNumber, [])], disk.tables)
      ensures LevelsGrow(d.levels, levels) && nextFile <= NumbersUpTo(d.logs, d.logNumber, d.nextFile + 1) + 1
    {
      var s, d', next, last := Reopen(d, full, h, hz);
      base := |h|;
      mem, imm, levels := [], None, s.levels;
      lastSequence, snapshots, history, horizon := last, [], h, hz;
      nextFile, logfileNumber := next + 1, next;
      job, pendingOutputs, pinned := None, {}, [];
      disk := d';
    }

    /** What the files and the object agree on. */
    lemma {:induction false} OnDisk()
      requires Standing()
      ensures |levels| == NUM_LEVELS && disk.levels == levels && NumbersUnique(levels, disk.nextFile) && disk.nextFile <= nextFile
      ensures forall l :: 0 <= l < NUM_LEVELS ==> SortedByKey(levels[l]) && AllValid(levels[l])
      ensures LogsInOrder(disk.logs) && |disk.logs| > 0
      ensures LastLog(disk).number == logfileNumber && disk.logNumber <= logfileNumber < nextFile
    {
      OpenCore(Abs(), disk, logfileNumber, nextFile, lastSequence, history, base);
      CorePicks(Abs(), disk, logfileNumber, nextFile, lastSequence, history, base);
      OpenAll();
    }

    lemma {:induction false} MemoryOk()
      requires Standing()
      ensures Sorted(mem) && forall e :: e in mem ==> e.key.sn <= lastSequence
    {
      CoreSorted(Abs(), disk, logfileNumber, nextFile, lastSequence, history, base);
    }

    /** The inputs of a compaction under way are in the current version. */
    lemma {:induction false} JobOnDisk()
      requires Valid() && job.Some?
      ensures |levels| == NUM_LEVELS && job.value.c.level + 1 < NUM_LEVELS
      ensures forall f :: f in job.value.c.in0 ==> f in levels[job.value.c.level] && f.Valid()
      ensures forall f :: f in job.value.c.in1 ==> f in levels[job.value.c.level + 1] && f.Valid()
      ensures job.value.outs.Some? ==> forall i :: 0 <= i < |job.value.outs.value| ==> |job.value.outs.value[i].entries| > 0
    {
      OpenCore(Abs(), disk, logfileNumber, nextFile, lastSequence, history, base);
      OpenJob();
    }

    /** Whatever the moment, a crash loses nothing: the files alone recover it all. */
    lemma {:induction false} SurvivesCrash()
      requires Standing() && ReadsLikeHistory()
      ensures Recoverable(disk, history, horizon) && horizon <= Max(disk.lastSequence, LastOf(history)) < MAX_SEQUENCE
      ensures TableNumbers(disk.levels) <= disk.tables
    {
      OpenCore(Abs(), disk, logfileNumber, nextFile, lastSequence, history, base);
      CrashSafe(Abs(), disk, logfileNumber, nextFile, history, horizon);
      OpenAll();
    }

    /** Whatever the current log loses at its end, what it keeps and the other files bring
        back the history up to there. */
    lemma {:induction false} SurvivesTornLog(m: nat)
      requires Standing() && ReadsLikeBase() && m <= |LastLog(disk).records|
      ensures base <= Surviving(disk, base, m) <= |history|
      ensures Recoverable(Torn(disk, m), history[..Surviving(disk, base, m)], BaseHorizon(history, base, horizon))
      ensures TableNumbers(disk.levels) <= disk.tables
      ensures BaseHorizon(history, base, horizon) <= Max(disk.lastSequence, LastOf(history[..Surviving(disk, base, m)])) < MAX_SEQUENCE
    {
      OpenCore(Abs(), disk, logfileNumber, nextFile, lastSequence, history, base);
      TornLogRecovers(Abs(), disk, logfileNumber, nextFile, history, base, horizon, m);
      OpenAll();
      HistoryPrefix(history, Surviving(disk, base, m));
    }

    /** A group commit: first the log, then the memtable, then the new last sequence. From
        then on the last operation on a key decides what is read of it. */
    method Write(ops: seq<Op>)
      requires Valid() && lastSequence + |ops| < MAX_SEQUENCE
      modifies this
      ensures Valid() && history == old(history) + BatchEntries(ops, old(lastSequence) + 1)
      ensures mem == Memory(old(mem), BatchEntries(ops, old(lastSequence) + 1))
      ensures forall u :: HistoryRead(history, u, lastSequence) == ReadAfter(ops, u, HistoryRead(old(history), u, old(lastSequence)))
      ensures horizon == old(horizon) && snapshots == old(snapshots) && job == old(job) && levels == old(levels) && imm == old(imm)
      ensures disk == old(disk).(logs := AppendRecord(old(disk.logs), BatchEntries(ops, old(lastSequence) + 1)))
      ensures lastSequence == old(lastSequence) + |ops| && nextFile == old(nextFile) && logfileNumber == old(logfileNumber) && base == old(base)
      ensures old(ReadsLikeHistory()) ==> ReadsLikeHistory()
      ensures old(ReadsLikeBase()) ==> ReadsLikeBase()
    {
      var mem', disk' := CommitBatch(Abs(), disk, logfileNumber, nextFile, ops, lastSequence, history, base, horizon);
      history := history + BatchEntries(ops, lastSequence + 1);
      mem, disk, lastSequence := mem', disk', lastSequence + |ops|;
    }

    /** The read path: memtable, immutable memtable, current version. */
    method Get(u: UserKey, snapshot: Option<nat>) returns (r: Option<string>)
      requires Standing() && (snapshot.Some? ==> horizon <= snapshot.value <= lastSequence)
      ensures ReadsLikeHistory() ==> r == HistoryRead(history, u, if snapshot.Some? then snapshot.value else lastSequence)
    {
      var sn := if snapshot.Some? then snapshot.value else lastSequence;
      CoreSorted(Abs(), disk, logfileNumber, nextFile, lastSequence, history, base);
      TableGetFinds(mem, u, sn);
      var inMem, inImm := TableGet(mem, u, sn), None;
      if inMem.None? && imm.Some? {
        TableGetFinds(imm.value, u, sn);
        inImm := TableGet(imm.value, u, sn);
      }
      r := GetBelowMemory(u, sn, inMem, inImm);
    }

    method GetBelowMemory(u: UserKey, sn: nat, inMem: Option<Entry>, inImm: Option<Entry>) returns (r: Option<string>)
      requires Standing() && horizon <= sn <= lastSequence && Finds(Elements(mem), u, sn, inMem)
      requires if inMem.None? && imm.Some? then Finds(Elements(imm.value), u, sn, inImm) else inImm.None?
      ensures ReadsLikeHistory() ==> r == HistoryRead(history, u, sn)
    {
      r := CoreGet(Abs(), disk, logfileNumber, nextFile, lastSequence, history, base, horizon, u, sn, inMem, inImm);
    }

    lemma {:induction false} SnapshotsOrdered()
      requires Standing()
      ensures forall n :: n in snapshots ==> n <= lastSequence
    {
    }

    method GetSnapshot() returns (s: nat)
      requires Standing()
      modifies this`snapshots
      ensures Standing() && (old(Valid()) ==> Valid()) && s == lastSequence && snapshots == old(snapshots) + [s]
    {
      s := lastSequence;
      snapshots := snapshots + [s];
    }

    method ReleaseSnapshot(i: nat)
      requires Standing() && i < |snapshots|
      modifies this`snapshots
      ensures Standing() && (old(Valid()) ==> Valid()) && snapshots == old(snapshots[..i] + snapshots[i + 1..])
    {
      snapshots := snapshots[..i] + snapshots[i + 1..];
    }

    /** The oldest snapshot that a compaction must respect. */
    function SmallestSnapshot(): nat
      reads this
    {
      if |snapshots| == 0 then lastSequence else snapshots[0]
    }

    /** MakeRoomForWrite: a full memtable becomes immutable, with a new log. */
    method SwitchMemTable()
      requires Valid() && imm.None?
      modifies this
      ensures Valid() && imm == Some(old(mem)) && mem == [] && levels == old(levels)
      ensures history == old(history) && horizon == old(horizon) && snapshots == old(snapshots) && job == old(job)
      ensures lastSequence == old(lastSequence) && nextFile == old(nextFile) + 1
      ensures logfileNumber == old(nextFile) && disk == old(disk).(logs := old(disk.logs) + [LogFile(logfileNumber, [])])
      ensures base == |history| && (old(ReadsLikeHistory()) ==> ReadsLikeHistory() && ReadsLikeBase())
    {
      SwitchLog(Abs(), disk, logfileNumber, nextFile, lastSequence, history, base, horizon, job);
      disk := disk.(logs := disk.logs + [LogFile(nextFile, [])]);
      logfileNumber, nextFile := nextFile, nextFile + 1;
      imm, mem, base := Some(mem), [], |history|;
    }

    /** Writes the immutable memtable to a table and installs it. May run while a
        compaction is under way, which it leaves sound exactly if it stays out of its gaps. */
    method CompactMemTable(crowded: nat -> bool) returns (level: nat)
      requires Valid() && imm.Some?
      modifies this
      ensures Standing()
      ensures Valid() <==> (job.Some? ==> AvoidsGaps(old(levels), job.value, FileMeta(old(nextFile), old(imm).value), crowded))
      ensures imm.None? && mem == old(mem) && level <= 2
      ensures if old(imm).value == [] then levels == old(levels)
              else Edited(old(levels), levels, LevelEdit(NUM_LEVELS, {}, level, {}, {FileMeta(old(nextFile), old(imm).value)}))
      ensures var written := if old(imm).value == [] then {} else {old(nextFile)};
              disk == Disk(levels, logfileNumber, nextFile, lastSequence, old(disk.logs), old(disk.tables) + written)
      ensures old(imm).value != [] ==> Follows(old(levels), levels, MakeEdit(NUM_LEVELS, [], [], level, [FileMeta(old(nextFile), old(imm).value)]))
      ensures lastSequence == old(lastSequence) && nextFile == old(nextFile) + 1 && logfileNumber == old(logfileNumber) && base == old(base)
      ensures history == old(history) && horizon == old(horizon) && snapshots == old(snapshots) && job == old(job)
      ensures old(ReadsLikeHistory()) ==> ReadsLikeHistory()
      ensures old(ReadsLikeBase()) ==> ReadsLikeBase()
    {
      if |imm.value| == 0 {
        level := 0;
        DropImm(Abs(), disk, logfileNumber, nextFile, lastSequence, history, base, horizon, job);
        disk := Disk(levels, logfileNumber, nextFile + 1, lastSequence, disk.logs, disk.tables);
      } else {
        levels, disk, level := FlushVersion(Abs(), disk, logfileNumber, nextFile, lastSequence, crowded, history, base, horizon, job);
      }
      nextFile, imm := nextFile + 1, None;
    }

    /** An automatic compaction chooses its inputs, which are connected. */
    method PickAutomatic(level: nat, picked: nat, mayExpand: bool)
      requires Valid() && job.None? && level + 1 < NUM_LEVELS && picked < |levels[level]|
      modifies this`job
      ensures Valid() && job.Some? && job.value.outs.None? && AllValid(Inputs(job.value.c)) && Connected(Inputs(job.value.c))
      ensures job.value.c.level == level && job.value.c.levels == levels && job.value.c.smallest == SmallestSnapshot()
      ensures levels[level][picked] in job.value.c.in0
    {
      var j := AutomaticJob(Abs(), disk, logfileNumber, nextFile, lastSequence, level, picked, mayExpand, SmallestSnapshot(), history, base);
      job := Some(j);
    }

    /** A manual compaction; its inputs may leave gaps. */
    method PickManual(level: nat, begin: Option<UserKey>, end: Option<UserKey>, limit: nat, mayExpand: bool)
      requires Valid() && job.None? && level + 1 < NUM_LEVELS
      modifies this`job
      ensures Valid() && (job.Some? ==> job.value.outs.None? && job.value.c.smallest == SmallestSnapshot())
      ensures job.Some? ==> job.value.c.level == level && job.value.c.levels == levels
      ensures job.Some? <==> SomeMeets(levels[level], begin, end)
      ensures job.Some? && level == 0 ==>
                forall f :: f in levels[0] && |f.entries| > 0 && Overlaps(f, begin, end) ==> f in job.value.c.in0
    {
      job := ManualJob(Abs(), disk, logfileNumber, nextFile, lastSequence, level, begin, end, limit, mayExpand, SmallestSnapshot(), history, base);
    }

    /** A single input file with no parents moves down without being rewritten. */
    method TrivialMove()
      requires Valid() && job.Some? && job.value.outs.None? && |job.value.c.in0| == 1 && job.value.c.in1 == []
      modifies this
      ensures Valid() && job.None? && mem == old(mem) && imm == old(imm)
      ensures var c := old(job.value.c);
              Edited(old(levels), levels, LevelEdit(c.level, FileSet(c.in0), c.level + 1, {}, FileSet(c.in0)))
      ensures var c := old(job.value.c); Follows(old(levels), levels, MakeEdit(c.level, c.in0, [], c.level + 1, c.in0))
      ensures disk == old(disk).(levels := levels, nextFile := nextFile, lastSequence := lastSequence)
      ensures lastSequence == old(lastSequence) && nextFile == old(nextFile) && logfileNumber == old(logfileNumber) && base == old(base)
      ensures history == old(history) && horizon == old(horizon) && snapshots == old(snapshots)
      ensures old(ReadsLikeHistory()) ==> ReadsLikeHistory()
      ensures old(ReadsLikeBase()) ==> ReadsLikeBase()
    {
      JobForgetsNumbers(levels, job.value, nextFile);
      levels, disk := MoveVersion(Abs(), disk, logfileNumber, nextFile, lastSequence, job.value.c, history, base, horizon);
      job := None;
    }

    /** Merges the inputs and writes the output tables, without installing them. */
    method DoCompactionWork(stopBefore: nat -> bool, full: nat -> bool)
      requires Valid() && job.Some? && job.value.outs.None?
      modifies this
      ensures Valid() && job.Some? && job.value.outs.Some? && job.value.c == old(job.value.c)
      ensures Numbered(job.value.outs.value, old(nextFile))
      ensures forall n :: n in pendingOutputs <==> exists f :: f in job.value.outs.value && f.number == n
      ensures OutputsAre(job.value.c, job.value.outs.value, stopBefore, full)
      ensures disk == old(disk).(tables := old(disk.tables) + pendingOutputs) && nextFile == old(nextFile) + |job.value.outs.value|
      ensures lastSequence == old(lastSequence) && logfileNumber == old(logfileNumber) && base == old(base)
      ensures mem == old(mem) && imm == old(imm) && levels == old(levels)
      ensures history == old(history) && horizon == old(horizon) && snapshots == old(snapshots)
      ensures old(ReadsLikeHistory()) ==> ReadsLikeHistory()
      ensures old(ReadsLikeBase()) ==> ReadsLikeBase()
    {
      var job', next, written := MergeInputs(Abs(), disk, logfileNumber, nextFile, lastSequence, job.value, stopBefore, full, history, base);
      job, nextFile := Some(job'), next;
      pendingOutputs := pendingOutputs + written;
      disk := disk.(tables := disk.tables + written);
    }

    /** Installs the outputs. From the compaction's smallest snapshot on, readers see
        no difference exactly when no deleted value resurfaces. */
    method InstallCompactionResults()
      requires Valid() && job.Some? && job.value.outs.Some?
      modifies this
      ensures Valid() && job.None? && mem == old(mem) && imm == old(imm)
      ensures Edited(old(levels), levels, InstallEdit(old(job.value.c), old(job.value.outs.value)))
      ensures var c := old(job.value.c); Follows(old(levels), levels, MakeEdit(c.level, c.in0, c.in1, c.level + 1, old(job.value.outs.value)))
      ensures Installed(old(levels), levels, old(job.value.c), old(job.value.outs.value))
      ensures disk == old(disk).(levels := levels, nextFile := nextFile, lastSequence := lastSequence)
      ensures lastSequence == old(lastSequence) && nextFile == old(nextFile) && logfileNumber == old(logfileNumber) && base == old(base)
      ensures history == old(history) && snapshots == old(snapshots) && horizon == old(job.value.c.smallest) && pendingOutputs == {}
      ensures old(ReadsLikeHistory()) ==> (ReadsLikeHistory() <==> !old(Unsafe(Abs(), job.value)))
      ensures old(ReadsLikeBase()) ==> (ReadsLikeBase() <==> !old(Unsafe(BaseStore(Abs()), job.value)))
    {
      var c, outs := job.value.c, job.value.outs.value;
      var levels', disk' := ResultsVersion(Abs(), disk, logfileNumber, nextFile, lastSequence, job.value, history, base, horizon);
      InstallMoves(levels, levels', c, outs);
      InstalledIsKept(levels, levels', pinned, job.value, pendingOutputs, disk.tables, nextFile, snapshots, horizon, lastSequence);
      SetInstalled(levels', disk', pendingOutputs - NumbersIn(outs), c.smallest);
    }

    /** The fields that an installation sets. */
    method SetInstalled(levels': Levels, disk': Disk, pending: set<nat>, smallest: nat)
      requires CoreOk(Abs().(levels := levels'), disk', logfileNumber, nextFile, lastSequence, history, base)
      requires smallest <= lastSequence < MAX_SEQUENCE && SnapshotsOk(snapshots, smallest, lastSequence)
      requires FilesOk(levels', pinned, None, pending, disk'.tables)
      modifies this`levels, this`disk, this`pendingOutputs, this`job, this`horizon
      ensures Valid() && levels == levels' && disk == disk' && pendingOutputs == pending && job.None? && horizon == smallest
    {
      levels, disk, pendingOutputs := levels', disk', pending;
      job, horizon := None, smallest;
    }

    /** Deletes logs below the manifest's log number, and tables that no version in
        use and no running compaction needs. */
    method RemoveObsoleteFiles()
      requires Valid()
      modifies this`disk
      ensures Valid() && disk == old(disk).(logs := KeepLogs(old(disk.logs), old(disk.logNumber)), tables := disk.tables)
      ensures forall f :: f in disk.logs <==> f in old(disk.logs) && f.number >= disk.logNumber
      ensures LiveEntries(disk.logs, disk.logNumber) == LiveEntries(old(disk.logs), disk.logNumber)
      ensures forall n :: n in disk.tables <==>
                && n in old(disk.tables)
                && (|| (exists l, f :: 0 <= l < |levels| && f in levels[l] && f.number == n)
                    || (exists i, l, f :: 0 <= i < |pinned| && 0 <= l < |pinned[i]| && f in pinned[i][l] && f.number == n)
                    || (job.Some? && exists l, f :: 0 <= l < |job.value.c.levels| && f in job.value.c.levels[l] && f.number == n)
                    || (job.Some? && job.value.outs.Some? && exists f :: f in job.value.outs.value && f.number == n))
      ensures old(ReadsLikeHistory()) ==> ReadsLikeHistory()
      ensures old(ReadsLikeBase()) ==> ReadsLikeBase()
    {
      LiveTablesAre();
      DeleteObsolete();
    }

    method DeleteObsolete()
      requires Valid()
      modifies this`disk
      ensures Valid() && disk == old(disk).(logs := KeepLogs(old(disk.logs), old(disk.logNumber)), tables := disk.tables)
      ensures forall f :: f in disk.logs <==> f in old(disk.logs) && f.number >= disk.logNumber
      ensures LiveEntries(disk.logs, disk.logNumber) == LiveEntries(old(disk.logs), disk.logNumber)
      ensures disk.tables == old(disk.tables) * LiveTables()
      ensures old(ReadsLikeHistory()) ==> ReadsLikeHistory()
      ensures old(ReadsLikeBase()) ==> ReadsLikeBase()
    {
      DeleteCore(Abs(), disk, logfileNumber, nextFile, lastSequence, history, base, disk.tables * LiveTables());
      forall f ensures f in KeepLogs(disk.logs, disk.logNumber) <==> f in disk.logs && f.number >= disk.logNumber {
        KeptLogsAre(disk.logs, disk.logNumber, f);
      }
      KeptLogsReplayAlike(disk.logs, disk.logNumber);
      disk := disk.(logs := KeepLogs(disk.logs, disk.logNumber), tables := disk.tables * LiveTables());
    }

    /** AddLiveFiles over all versions, and the pending outputs. */
    function LiveTables(): set<nat>
      reads this
    {
      pendingOutputs + TableNumbers(levels) + (if job.Some? then TableNumbers(job.value.c.levels) else {})
        + (set i, l, f | 0 <= i < |pinned| && 0 <= l < |pinned[i]| && f in pinned[i][l] :: f.number)
    }

    /** A table is live if a file of the current version, of one that an iterator holds or of the
        one a compaction began with has its number, or an output that is not installed yet. */
    lemma {:induction false} LiveTablesAre()
      requires Standing()
      ensures forall n :: n in LiveTables() <==>
                || (exists l, f :: 0 <= l < |levels| && f in levels[l] && f.number == n)
                || (exists i, l, f :: 0 <= i < |pinned| && 0 <= l < |pinned[i]| && f in pinned[i][l] && f.number == n)
                || (job.Some? && exists l, f :: 0 <= l < |job.value.c.levels| && f in job.value.c.levels[l] && f.number == n)
                || (job.Some? && job.value.outs.Some? && exists f :: f in job.value.outs.value && f.number == n)
    {
    }

    /** Nothing that is live is missing. */
    lemma {:induction false} LiveTablesThere()
      requires Standing()
      ensures forall l, f :: 0 <= l < |levels| && f in levels[l] ==> f.number in disk.tables
      ensures forall i, l, f :: 0 <= i < |pinned| && 0 <= l < |pinned[i]| && f in pinned[i][l] ==> f.number in disk.tables
      ensures job.Some? ==> forall l, f :: 0 <= l < |job.value.c.levels| && f in job.value.c.levels[l] ==> f.number in disk.tables
      ensures job.Some? && job.value.outs.Some? ==> forall f :: f in job.value.outs.value ==> f.number in disk.tables
    {
      LiveTablesAre();
    }

    /** An iterator keeps its version alive. */
    method PinVersion()
      requires Valid()
      modifies this`pinned
      ensures Valid() && pinned == old(pinned) + [levels]
    {
      pinned := pinned + [levels];
    }

    method UnpinVersion(i: nat)
      requires Valid() && i < |pinned|
      modifies this`pinned
      ensures Valid() && pinned == old(pinned[..i] + pinned[i + 1..])
    {
      pinned := pinned[..i] + pinned[i + 1..];
    }
  }
}
