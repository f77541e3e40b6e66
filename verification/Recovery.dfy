// Reopening the database after a crash: the logs the manifest does not cover are
// replayed into memtables, and every memtable becomes a level-0 table
// (DBImpl::Recover, DBImpl::RecoverLogFile).
module Recovery {
  import opened Keys
  import opened Seqs
  import opened Version
  import opened Builder
  import opened Lsm
  import opened LsmSteps
  import opened Edits
  import opened Durable

  /** Recovery adds tables at level 0 only. */
  ghost predicate LevelsGrow(levels: Levels, levels': Levels) {
    && |levels| == |levels'| == NUM_LEVELS && FileSet(levels[0]) <= FileSet(levels'[0])
    && forall l :: 0 < l < NUM_LEVELS ==> FileSet(levels'[l]) == FileSet(levels[l])
  }

  /** `s` holds what `s0` held and the operations replayed so far. */
  ghost predicate HoldsReplayed(s: Store, s0: Store, done: seq<Entry>, h: seq<Entry>, next: nat) {
    && Structured(s, h, next) && s.imm.None? && |s0.levels| == NUM_LEVELS
    && All(s) == All(s0) + Elements(done) && LevelsGrow(s0.levels, s.levels)
  }

  /** `HoldsReplayed`, sealed: the replay loops carry it along as one fact, and
      `OpenReplayed` opens it where it is used. */
  ghost predicate Replayed(s: Store, s0: Store, done: seq<Entry>, h: seq<Entry>, next: nat) {
    |s.levels| == NUM_LEVELS && ReplayedSeal(next + 9, s, s0, done, h, next)
  }

  ghost predicate ReplayedSeal(n: nat, s: Store, s0: Store, done: seq<Entry>, h: seq<Entry>, next: nat) {
    if n == 0 then HoldsReplayed(s, s0, done, h, next) else ReplayedSeal(n - 1, s, s0, done, h, next)
  }

  lemma {:induction false} ReplayedSealOpens(n: nat, s: Store, s0: Store, done: seq<Entry>, h: seq<Entry>, next: nat)
    ensures ReplayedSeal(n, s, s0, done, h, next) <==> HoldsReplayed(s, s0, done, h, next)
  {
    if n > 0 {
      ReplayedSealOpens(n - 1, s, s0, done, h, next);
    }
  }

  lemma {:induction false} OpenReplayed()
    ensures forall s, s0, done, h, next: nat {:trigger Replayed(s, s0, done, h, next)} ::
              Replayed(s, s0, done, h, next) <==> HoldsReplayed(s, s0, done, h, next)
  {
    forall s, s0, done, h, next: nat ensures Replayed(s, s0, done, h, next) <==> HoldsReplayed(s, s0, done, h, next) {
      ReplayedSealOpens(next + 9, s, s0, done, h, next);
    }
  }

  /** What replaying relies on: the logs continue the tables, in order. */
  ghost predicate Replayable(s0: Store, live: seq<Entry>, h: seq<Entry>)
  {
    && |s0.levels| == NUM_LEVELS && Ascending(live) && Elements(live) <= Elements(h) && Newer(Elements(live), All(s0))
  }

  lemma {:induction false} LaterThanAll(s: Store, s0: Store, live: seq<Entry>, k: nat, h: seq<Entry>, next: nat,
      f: Entry)
    requires Replayable(s0, live, h) && k < |live| && Replayed(s, s0, live[..k], h, next)
    requires f in All(s)
    ensures SameUser(live[k], f) ==> f.key.sn < live[k].key.sn
    ensures f.key.sn != live[k].key.sn || f == live[k]
  {
    OpenReplayed();
    HistoryDistinct(h);
    assert live[k] in Elements(live);
    if f in Elements(live[..k]) {
      var i :| 0 <= i < k && live[i] == f;
    }
  }

  /** Replaying one operation into the memtable. */
  lemma {:induction false} ReplayOne(s: Store, s0: Store, live: seq<Entry>, k: nat, h: seq<Entry>, next: nat)
    requires Replayable(s0, live, h) && k < |live| && Replayed(s, s0, live[..k], h, next)
    requires forall f :: f in All(s) ==> f != live[k]
    ensures Replayed(s.(mem := Insert(s.mem, live[k])), s0, live[..k + 1], h, next)
  {
    OpenReplayed();
    var e := live[k];
    var s' := s.(mem := Insert(s.mem, e));
    assert e in Elements(live);
    assert Elements(live[..k + 1]) == Elements(live[..k]) + {e} by {
      assert live[..k + 1] == live[..k] + [e];
    }
    forall f | f in All(s) ensures f.key.sn != e.key.sn && (SameUser(e, f) ==> f.key.sn < e.key.sn) {
      LaterThanAll(s, s0, live, k, h, next, f);
    }
    InsertedStructure(s, s', h, next, e);
  }

  lemma {:induction false} InsertedStructure(s: Store, s': Store, h: seq<Entry>, next: nat, e: Entry)
    requires Structured(s, h, next) && s' == s.(mem := Insert(s.mem, e)) && e in Elements(h)
    requires forall f :: f in All(s) ==> f.key.sn != e.key.sn && (SameUser(e, f) ==> f.key.sn < e.key.sn)
    ensures Structured(s', h, next) && All(s') == All(s) + {e}
  {
    forall f | f in s.mem ensures f.key.sn != e.key.sn {
      assert f in Tier(s, 0);
      assert f in All(s);
    }
    InsertIsSorted(s.mem, e);
    assert Tier(s', 0) == Tier(s, 0) + {e};
    forall t | 0 < t < NUM_TIERS ensures Tier(s', t) == Tier(s, t) {
    }
    forall f ensures f in All(s') <==> f in All(s) + {e} {
      if f in All(s') {
        var t :| 0 <= t < NUM_TIERS && f in Tier(s', t);
        assert t > 0 ==> f in Tier(s, t);
      }
      if f in All(s) {
        var t :| 0 <= t < NUM_TIERS && f in Tier(s, t);
        assert f in Tier(s', t);
      }
      assert e in Tier(s', 0);
    }
    forall i, j | 0 <= i < j < NUM_TIERS ensures Newer(Tier(s', i), Tier(s', j)) {
      assert Newer(Tier(s, i), Tier(s, j));
      assert Tier(s, j) <= All(s);
    }
  }

  /** The memtable is written out as a table at level 0. */
  method FlushRecovered(s: Store, next: nat, ghost h: seq<Entry>) returns (s': Store, next': nat)
    requires Structured(s, h, next) && s.imm.None?
    ensures Structured(s', h, next') && s'.imm.None? && s'.mem == [] && next <= next' && All(s') == All(s)
    ensures next' == if |s.mem| > 0 then next + 1 else next
    ensures LevelsGrow(s.levels, s'.levels)
  {
    if |s.mem| == 0 {
      return Store([], None, s.levels), next;
    }
    var f := FileMeta(next, s.mem);
    ghost var switched := Store([], Some(s.mem), s.levels);
    SwitchStep(s, h, next);
    ImmIsAFile(switched, h, next);
    OneFreshFile(s.levels, next, 0, f);
    var levels' := NewVersion(s.levels, MakeEdit(NUM_LEVELS, [], [], 0, [f]));
    FlushEditIsLevelEdit(s.levels, levels', next, 0, f);
    s', next' := Store([], None, levels'), next + 1;
    FlushStep(switched, s', h, next, 0, f);
  }

  lemma {:induction false} OneFreshFile(levels: Levels, next: nat, to: nat, f: FileMeta)
    requires |levels| == NUM_LEVELS && NumbersUnique(levels, next) && f.number == next && |f.entries| > 0
    requires to < NUM_LEVELS
    ensures var e := MakeEdit(NUM_LEVELS, [], [], to, [f]);
            && EditOk(e)
            && (forall l :: 0 <= l < NUM_LEVELS ==> NumbersAgree(AddedAt(e, l, |e.added|), AddedAt(e, l, |e.added|)))
            && (forall l :: 0 <= l < NUM_LEVELS ==> NoSharedNumber(FileSet(levels[l]), AddedAt(e, l, |e.added|)))
    ensures NoSharedNumber(FileSet(levels[to]), {f})
  {
    var e := MakeEdit(NUM_LEVELS, [], [], to, [f]);
    assert FileSet([f]) == {f};
    FreshNumbers(levels, next, to, [f], next);
    forall l | 0 <= l < NUM_LEVELS
      ensures NumbersAgree(AddedAt(e, l, |e.added|), AddedAt(e, l, |e.added|))
      ensures NoSharedNumber(FileSet(levels[l]), AddedAt(e, l, |e.added|))
    {
      MakeEditAt(NUM_LEVELS, [], [], to, [f], l);
      FreshNumbers(levels, next, l, [f], next);
    }
  }

  /** Where the records of log `i` stand among everything that is replayed. */
  lemma {:induction false} LiveUpTo(logs: seq<LogFile>, logNumber: nat, i: nat)
    requires i <= |logs|
    ensures LiveEntries(logs[..i], logNumber) <= LiveEntries(logs, logNumber)
    ensures i < |logs| ==>
              (LiveEntries(logs[..i + 1], logNumber) ==
               LiveEntries(logs[..i], logNumber) + (if logs[i].number >= logNumber then Concat(logs[i].records) else []))
    decreases |logs| - i
  {
    if i < |logs| {
      assert logs[..i + 1][..i] == logs[..i];
      LiveUpTo(logs, logNumber, i + 1);
    } else {
      assert logs[..i] == logs;
    }
  }

  /** An operation that was not replayed yet is not in the store. */
  lemma {:induction false} NotYetThere(s: Store, s0: Store, live: seq<Entry>, k: nat, h: seq<Entry>, next: nat)
    requires Replayable(s0, live, h) && k < |live| && Replayed(s, s0, live[..k], h, next)
    ensures forall f :: f in All(s) ==> f != live[k]
  {
    OpenReplayed();
    assert live[k] in Elements(live);
    forall f | f in All(s) ensures f != live[k] {
      assert SameUser(live[k], live[k]);
      if f in Elements(live[..k]) {
        var i :| 0 <= i < k && live[i] == f;
      }
    }
  }

  /** Inserting a batch, operation by operation. */
  function InsertAll(mem: seq<Entry>, batch: seq<Entry>): seq<Entry> {
    if |batch| == 0 then mem else Insert(InsertAll(mem, batch[..|batch| - 1]), batch[|batch| - 1])
  }

  function Latest(last: nat, batch: seq<Entry>): nat {
    if |batch| == 0 then last
    else
      var before, sn := Latest(last, batch[..|batch| - 1]), batch[|batch| - 1].key.sn;
      if sn > before then sn else before
  }

  /** One record of a log: its operations enter the memtable in order. */
  method InsertInto(mem: seq<Entry>, last: nat, batch: seq<Entry>) returns (mem': seq<Entry>, last': nat)
    ensures mem' == InsertAll(mem, batch) && last' == Latest(last, batch)
  {
    mem', last' := mem, last;
    for i := 0 to |batch|
      invariant mem' == InsertAll(mem, batch[..i]) && last' == Latest(last, batch[..i])
    {
      assert batch[..i + 1][..i] == batch[..i];
      mem' := Insert(mem', batch[i]);
      if batch[i].key.sn > last' {
        last' := batch[i].key.sn;
      }
    }
    assert batch[..|batch|] == batch;
  }

  lemma {:induction false} ReplayNext(s: Store, s0: Store, live: seq<Entry>, k: nat, h: seq<Entry>, next: nat)
    requires Replayable(s0, live, h) && k < |live| && Replayed(s, s0, live[..k], h, next)
    ensures Replayed(s.(mem := Insert(s.mem, live[k])), s0, live[..k + 1], h, next)
  {
    NotYetThere(s, s0, live, k, h, next);
    ReplayOne(s, s0, live, k, h, next);
  }

  lemma {:induction false} ReplayedBatch(s: Store, s0: Store, live: seq<Entry>, k: nat, m: nat, h: seq<Entry>,
      next: nat)
    requires Replayable(s0, live, h) && k <= m <= |live| && Replayed(s, s0, live[..k], h, next)
    ensures Replayed(s.(mem := InsertAll(s.mem, live[k..m])), s0, live[..m], h, next)
    decreases m - k
  {
    if k < m {
      assert live[k..m][..m - k - 1] == live[k..m - 1] && live[k..m][m - k - 1] == live[m - 1];
      ReplayedBatch(s, s0, live, k, m - 1, h, next);
      ReplayNext(s.(mem := InsertAll(s.mem, live[k..m - 1])), s0, live, m - 1, h, next);
    }
  }

  lemma {:induction false} LatestSeen(last: nat, live: seq<Entry>, k: nat, batch: seq<Entry>)
    requires k + |batch| <= |live| && live[k..k + |batch|] == batch && Seen(live, k, last)
    ensures Seen(live, k + |batch|, Latest(last, batch)) && last <= Latest(last, batch)
    ensures Latest(last, batch) == last || exists e :: e in live && e.key.sn == Latest(last, batch)
  {
    if |batch| > 0 {
      var n := |batch| - 1;
      assert live[k..k + n] == batch[..n] && live[k + n] == batch[n];
      LatestSeen(last, live, k, batch[..n]);
    }
  }

  /** No operation replayed so far is later than `last`. */
  ghost predicate Seen(live: seq<Entry>, k: nat, last: nat)
    requires k <= |live|
  {
    forall i :: 0 <= i < k ==> live[i].key.sn <= last
  }

  /** How far the replay has come, and what it has seen. */
  ghost predicate Progress(s: Store, s0: Store, live: seq<Entry>, k: nat, h: seq<Entry>, next: nat, last0: nat,
      last: nat) {
    && k <= |live| && Replayed(s, s0, live[..k], h, next) && Seen(live, k, last)
    && last0 <= last && (last == last0 || exists e :: e in live && e.key.sn == last)
  }

  lemma {:induction false} ProgressBatch(s: Store, s0: Store, live: seq<Entry>, k: nat, batch: seq<Entry>,
      h: seq<Entry>, next: nat, last0: nat, last: nat)
    requires Replayable(s0, live, h) && k + |batch| <= |live| && live[k..k + |batch|] == batch
    requires Progress(s, s0, live, k, h, next, last0, last)
    ensures Progress(s.(mem := InsertAll(s.mem, batch)), s0, live, k + |batch|, h, next, last0, Latest(last, batch))
  {
    ReplayedBatch(s, s0, live, k, k + |batch|, h, next);
    LatestSeen(last, live, k, batch);
  }

  /** A flush does not disturb the replay. */
  method FlushInReplay(s: Store, next: nat, ghost s0: Store, ghost live: seq<Entry>, ghost k: nat,
      ghost h: seq<Entry>, ghost last0: nat, ghost last: nat) returns (s': Store, next': nat)
    requires Progress(s, s0, live, k, h, next, last0, last)
    ensures Progress(s', s0, live, k, h, next', last0, last) && s'.mem == [] && next <= next' <= next + 1
  {
    OpenReplayed();
    s', next' := FlushRecovered(s, next, h);
  }

  /** Replays one record, and writes the memtable out if it is full then. */
  method RecoverRecord(s: Store, next: nat, last: nat, batch: seq<Entry>, full: bool, ghost s0: Store,
      ghost live: seq<Entry>, ghost at: nat, ghost h: seq<Entry>, ghost last0: nat)
    returns (s': Store, next': nat, last': nat)
    requires Replayable(s0, live, h) && Progress(s, s0, live, at, h, next, last0, last)
    requires at + |batch| <= |live| && live[at..at + |batch|] == batch
    ensures Progress(s', s0, live, at + |batch|, h, next', last0, last') && next <= next' <= next + 1
    ensures if full then s'.mem == [] else s' == s.(mem := InsertAll(s.mem, batch)) && next' == next
  {
    ProgressBatch(s, s0, live, at, batch, h, next, last0, last);
    var mem;
    mem, last' := InsertInto(s.mem, last, batch);
    s', next' := s.(mem := mem), next;
    if full {
      s', next' := FlushInReplay(s', next', s0, live, at + |batch|, h, last0, last');
    }
  }

  /** Replays one log. A memtable is written out after any record (`full`), and what
      is left of it at the end. */
  method RecoverLogFile(s: Store, next: nat, last: nat, log: LogFile, full: nat -> bool, ghost s0: Store,
      ghost live: seq<Entry>, ghost k: nat, ghost h: seq<Entry>, ghost last0: nat)
    returns (s': Store, next': nat, last': nat)
    requires Replayable(s0, live, h)
    requires k + |Concat(log.records)| <= |live| && live[k..k + |Concat(log.records)|] == Concat(log.records)
    requires Progress(s, s0, live, k, h, next, last0, last)
    ensures Progress(s', s0, live, k + |Concat(log.records)|, h, next', last0, last') && s'.mem == []
    ensures next <= next' <= next + |log.records| + 1
  {
    s', next', last' := s, next, last;
    ghost var at := k;
    for j := 0 to |log.records|
      invariant at == k + |Concat(log.records[..j])|
      invariant Progress(s', s0, live, at, h, next', last0, last') && next <= next' <= next + j
    {
      RecordsAreLive(log.records, j, live, k);
      s', next', last' := RecoverRecord(s', next', last', log.records[j], full(j), s0, live, at, h, last0);
      at := at + |log.records[j]|;
    }
    assert log.records[..|log.records|] == log.records;
    s', next' := FlushInReplay(s', next', s0, live, at, h, last0, last');
  }

  lemma {:induction false} RecordsAreLive(records: seq<seq<Entry>>, j: nat, live: seq<Entry>, k: nat)
    requires j < |records| && k + |Concat(records)| <= |live| && live[k..k + |Concat(records)|] == Concat(records)
    ensures var at := k + |Concat(records[..j])|;
            && at + |records[j]| <= k + |Concat(records)| && live[at..at + |records[j]|] == records[j]
            && at + |records[j]| == k + |Concat(records[..j + 1])|
  {
    ConcatUpTo(records, j);
    ConcatUpTo(records, j + 1);
    var n := |Concat(records[..j])|;
    forall i | 0 <= i < |records[j]| ensures live[k + n + i] == records[j][i] {
      assert Concat(records)[n + i] == Concat(records[..j + 1])[n + i];
      assert live[k..k + |Concat(records)|][n + i] == live[k + n + i];
    }
  }

  /** How far file numbers may have gone once these logs are replayed: every record and
      every log can give rise to a table. */
  function NumbersUpTo(logs: seq<LogFile>, logNumber: nat, next: nat): nat {
    if |logs| == 0 then next
    else
      var log, before := logs[|logs| - 1], NumbersUpTo(logs[..|logs| - 1], logNumber, next);
      if log.number >= logNumber then Max(before + |log.records| + 1, log.number + 1) else before
  }

  function Max(a: nat, b: nat): nat {
    if a >= b then a else b
  }

  /** Replays every log that the manifest does not cover, oldest first. Numbers go on from
      the last one that the manifest or a log has: the manifest may have recorded one of
      operations that were lost with the end of a log. */
  method RecoverLogs(d: Disk, full: nat -> nat -> bool, ghost h: seq<Entry>, ghost horizon: nat)
    returns (s: Store, next: nat, last: nat)
    requires Recoverable(d, h, horizon)
    ensures Structured(s, h, next) && s.mem == [] && s.imm.None? && d.nextFile < next
    ensures Faithful(s, h, horizon) && last == Max(d.lastSequence, LastOf(h))
    ensures LevelsGrow(d.levels, s.levels) && next <= NumbersUpTo(d.logs, d.logNumber, d.nextFile + 1)
    ensures forall i :: 0 <= i < |d.logs| ==> d.logs[i].number < next
  {
    RecoveryStarts(d, h, horizon);
    s, next, last := Store([], None, d.levels), d.nextFile + 1, d.lastSequence;
    ghost var k;
    s, next, last, k := ReplayLogs(s, next, last, d.logs, d.logNumber, full, h);
    RecoveryEnds(d, s, k, h, next, last, horizon);
  }

  method ReplayLogs(s0: Store, next0: nat, last0: nat, logs: seq<LogFile>, logNumber: nat,
      full: nat -> nat -> bool, ghost h: seq<Entry>) returns (s: Store, next: nat, last: nat, ghost k: nat)
    requires Replayable(s0, LiveEntries(logs, logNumber), h) && s0.mem == []
    requires Progress(s0, s0, LiveEntries(logs, logNumber), 0, h, next0, last0, last0)
    ensures k == |LiveEntries(logs[..|logs|], logNumber)|
    ensures Progress(s, s0, LiveEntries(logs, logNumber), k, h, next, last0, last) && s.mem == [] && next0 <= next
    ensures forall i :: 0 <= i < |logs| && logs[i].number >= logNumber ==> logs[i].number < next
    ensures next <= NumbersUpTo(logs, logNumber, next0)
  {
    s, next, last, k := s0, next0, last0, 0;
    ghost var live := LiveEntries(logs, logNumber);
    for i := 0 to |logs|
      invariant s.mem == [] && next0 <= next && k == |LiveEntries(logs[..i], logNumber)|
      invariant Progress(s, s0, live, k, h, next, last0, last)
      invariant forall j :: 0 <= j < i && logs[j].number >= logNumber ==> logs[j].number < next
      invariant next <= NumbersUpTo(logs[..i], logNumber, next0)
    {
      s, next, last, k := ReplayOneLog(s, next, last, logs, logNumber, i, full(i), s0, k, h, last0, next0);
    }
    assert logs[..|logs|] == logs;
  }

  /** The next log, unless the manifest covers it. */
  method ReplayOneLog(s: Store, next: nat, last: nat, logs: seq<LogFile>, logNumber: nat, i: nat, full: nat -> bool,
      ghost s0: Store, ghost k: nat, ghost h: seq<Entry>, ghost last0: nat, ghost next0: nat)
    returns (s': Store, next': nat, last': nat, ghost k': nat)
    requires i < |logs| && Replayable(s0, LiveEntries(logs, logNumber), h) && s.mem == []
    requires k == |LiveEntries(logs[..i], logNumber)| && next <= NumbersUpTo(logs[..i], logNumber, next0)
    requires Progress(s, s0, LiveEntries(logs, logNumber), k, h, next, last0, last)
    ensures k' == |LiveEntries(logs[..i + 1], logNumber)| && next' <= NumbersUpTo(logs[..i + 1], logNumber, next0)
    ensures Progress(s', s0, LiveEntries(logs, logNumber), k', h, next', last0, last') && s'.mem == []
    ensures next <= next' && (logs[i].number >= logNumber ==> logs[i].number < next')
  {
    assert logs[..i + 1][..i] == logs[..i];
    LogIsLive(logs, logNumber, i);
    s', next', last', k' := s, next, last, k;
    if logs[i].number >= logNumber {
      s', next', last' := RecoverLogFile(s, next, last, logs[i], full, s0, LiveEntries(logs, logNumber), k, h, last0);
      k' := k + |Concat(logs[i].records)|;
      next' := MarkFileNumberUsed(logs[i].number, s', next', s0, LiveEntries(logs, logNumber), k', h, last0, last');
    }
  }

  method MarkFileNumberUsed(number: nat, s: Store, next: nat, ghost s0: Store, ghost live: seq<Entry>,
      ghost k: nat, ghost h: seq<Entry>, ghost last0: nat, ghost last: nat) returns (next': nat)
    requires Progress(s, s0, live, k, h, next, last0, last)
    ensures Progress(s, s0, live, k, h, next', last0, last) && next <= next' && number < next' && next' == Max(next, number + 1)
  {
    OpenReplayed();
    next' := next;
    if next <= number {
      next' := number + 1;
      NumbersGrow(s, h, next, next');
    }
  }

  lemma {:induction false} LogIsLive(logs: seq<LogFile>, logNumber: nat, i: nat)
    requires i < |logs|
    ensures var live, k := LiveEntries(logs, logNumber), |LiveEntries(logs[..i], logNumber)|;
            if logs[i].number >= logNumber then
              && k + |Concat(logs[i].records)| <= |live| && live[k..k + |Concat(logs[i].records)|] == Concat(logs[i].records)
              && |LiveEntries(logs[..i + 1], logNumber)| == k + |Concat(logs[i].records)|
            else |LiveEntries(logs[..i + 1], logNumber)| == k
  {
    LiveUpTo(logs, logNumber, i);
    LiveUpTo(logs, logNumber, i + 1);
  }

  lemma {:induction false} RecoveryStarts(d: Disk, h: seq<Entry>, horizon: nat)
    requires Recoverable(d, h, horizon)
    ensures var s0, live := Store([], None, d.levels), LiveEntries(d.logs, d.logNumber);
            && Replayable(s0, live, h) && d.logs[..0] == []
            && Progress(s0, s0, live, 0, h, d.nextFile + 1, d.lastSequence, d.lastSequence)
  {
    OpenReplayed();
    var s0 := Store([], None, d.levels);
    NumbersGrow(s0, h, d.nextFile, d.nextFile + 1);
    assert LiveEntries(d.logs, d.logNumber)[..0] == [];
    assert Elements([]) == {};
  }

  lemma {:induction false} RecoveryEnds(d: Disk, s: Store, k: nat, h: seq<Entry>, next: nat, last: nat, horizon: nat)
    requires Recoverable(d, h, horizon) && k == |LiveEntries(d.logs[..|d.logs|], d.logNumber)|
    requires Progress(s, Store([], None, d.levels), LiveEntries(d.logs, d.logNumber), k, h, next, d.lastSequence, last)
    ensures Structured(s, h, next) && s.imm.None? && Faithful(s, h, horizon) && last == Max(d.lastSequence, LastOf(h))
    ensures LevelsGrow(d.levels, s.levels)
  {
    OpenReplayed();
    var live := LiveEntries(d.logs, d.logNumber);
    assert d.logs[..|d.logs|] == d.logs && live[..k] == live;
    LastIsNewest(d, h, live, last);
  }

  lemma {:induction false} NumbersGrow(s: Store, h: seq<Entry>, next: nat, next': nat)
    requires Structured(s, h, next) && next <= next'
    ensures Structured(s, h, next')
  {
  }

  lemma {:induction false} LastIsNewest(d: Disk, h: seq<Entry>, live: seq<Entry>, last: nat)
    requires IsHistory(h) && Elements(live) <= Elements(h)
    requires d.lastSequence <= last && Seen(live, |live|, last)
    requires last == d.lastSequence || exists e :: e in live && e.key.sn == last
    requires d.lastSequence < LastOf(h) ==> h[|h| - 1] in Elements(live)
    ensures last == Max(d.lastSequence, LastOf(h))
  {
    if e :| e in live && e.key.sn == last {
      assert e in Elements(live);
      HistoryBound(h, e);
    }
    if d.lastSequence < LastOf(h) {
      var i :| 0 <= i < |live| && live[i] == h[|h| - 1];
    }
  }
}
