// What survives a crash: the manifest's version and the write-ahead logs
// (db/db_impl.cc, db/version_set.cc).
module Durable {
  import opened Keys
  import opened Seqs
  import opened Version
  import opened Compaction
  import opened CompactionReads
  import opened Lsm

  /** One write-ahead log: each record is the batch of one group commit. */
  datatype LogFile = LogFile(number: nat, records: seq<seq<Entry>>)

  /** The files of the database: what the manifest says, the logs in number order,
      and the tables by number. */
  datatype Disk = Disk(levels: Levels, logNumber: nat, nextFile: nat, lastSequence: nat, logs: seq<LogFile>, tables: set<nat>)

  /** The operations in the logs that recovery replays, in log order. */
  function LiveEntries(logs: seq<LogFile>, logNumber: nat): seq<Entry> {
    if |logs| == 0 then []
    else
      var n := |logs| - 1;
      LiveEntries(logs[..n], logNumber) + (if logs[n].number >= logNumber then Concat(logs[n].records) else [])
  }

  ghost predicate Ascending(es: seq<Entry>) {
    forall i, j :: 0 <= i < j < |es| ==> es[i].key.sn < es[j].key.sn
  }

  ghost predicate LogsInOrder(logs: seq<LogFile>) {
    forall i, j :: 0 <= i < j < |logs| ==> logs[i].number < logs[j].number
  }

  lemma {:induction false} OldLogsAreDead(logs: seq<LogFile>, logNumber: nat)
    requires forall i :: 0 <= i < |logs| ==> logs[i].number < logNumber
    ensures LiveEntries(logs, logNumber) == []
  {
    if |logs| > 0 {
      OldLogsAreDead(logs[..|logs| - 1], logNumber);
    }
  }

  /** What memory holds is what the live logs hold. */
  ghost predicate Mirror(d: Disk, s: Store, logfileNumber: nat, next: nat, h: seq<Entry>) {
    && |d.levels| == NUM_LEVELS && d.levels == s.levels
    && d.logNumber <= logfileNumber < next && d.logNumber < d.nextFile <= next && NumbersUnique(d.levels, d.nextFile)
    && LogsInOrder(d.logs) && |d.logs| > 0 && d.logs[|d.logs| - 1].number == logfileNumber
    && (s.imm.None? ==> d.logNumber == logfileNumber)
    && Elements(LiveEntries(d.logs[..|d.logs| - 1], d.logNumber)) == (if s.imm.Some? then Elements(s.imm.value) else {})
    && Elements(Concat(d.logs[|d.logs| - 1].records)) == Elements(s.mem)
    && Ascending(LiveEntries(d.logs, d.logNumber))
    && (d.lastSequence < LastOf(h) ==> h[|h| - 1] in Elements(LiveEntries(d.logs, d.logNumber)))
  }

  /** The operations of `h` can all be found again from the disk alone, and nothing
      else; `horizon` as for a faithful store. */
  ghost predicate Recoverable(d: Disk, h: seq<Entry>, horizon: nat) {
    var live := LiveEntries(d.logs, d.logNumber);
    var s := Store([], None, d.levels);
    && Structured(s, h, d.nextFile) && d.logNumber < d.nextFile
    && LogsInOrder(d.logs)
    && Ascending(live) && Elements(live) <= Elements(h) && Newer(Elements(live), All(s))
    && SameReads(Elements(h), All(s) + Elements(live), horizon)
    && (d.lastSequence < LastOf(h) ==> h[|h| - 1] in Elements(live))
  }

  /** Crash safety: whatever the store holds, the disk alone can recover it. */
  lemma {:induction false} MirrorIsRecoverable(d: Disk, s: Store, logfileNumber: nat, next: nat, h: seq<Entry>,
      horizon: nat)
    requires Structured(s, h, next) && Mirror(d, s, logfileNumber, next, h) && Faithful(s, h, horizon)
    ensures Recoverable(d, h, horizon)
  {
    var live := LiveEntries(d.logs, d.logNumber);
    var bare := Store([], None, d.levels);
    LiveIsMemory(d, s, logfileNumber, next, h);
    forall t | 0 <= t < NUM_TIERS ensures Tier(bare, t) == if t < 2 then {} else Tier(s, t) {
    }
    forall i, j | 0 <= i < j < NUM_TIERS ensures Newer(Tier(bare, i), Tier(bare, j)) {
      assert Newer(Tier(s, i), Tier(s, j));
    }
    assert All(s) == All(bare) + Elements(live) by {
      AllSplits(s, bare);
    }
    forall x, y {:trigger SameUser(x, y)} | x in Elements(live) && y in All(bare) && SameUser(x, y)
      ensures x.key.sn > y.key.sn {
      var t :| 0 <= t < NUM_TIERS && y in Tier(bare, t);
      assert Newer(Tier(s, 0), Tier(s, t)) && Newer(Tier(s, 1), Tier(s, t));
    }
  }

  lemma {:induction false} AllSplits(s: Store, bare: Store)
    requires |s.levels| == NUM_LEVELS && bare == Store([], None, s.levels)
    ensures All(s) == All(bare) + (Tier(s, 0) + Tier(s, 1))
  {
    forall e ensures e in All(s) <==> e in All(bare) + (Tier(s, 0) + Tier(s, 1)) {
      if e in All(s) {
        var t :| 0 <= t < NUM_TIERS && e in Tier(s, t);
        assert t >= 2 ==> e in Tier(bare, t);
      }
      if e in All(bare) {
        var t :| 0 <= t < NUM_TIERS && e in Tier(bare, t);
        assert e in Tier(s, t);
      }
      assert e in Tier(s, 0) + Tier(s, 1) ==> e in All(s);
    }
  }

  // ----- keeping the mirror -----

  /** A group commit appends one record to the current log. */
  function AppendRecord(logs: seq<LogFile>, batch: seq<Entry>): seq<LogFile>
    requires |logs| > 0
  {
    var n := |logs| - 1;
    logs[..n] + [LogFile(logs[n].number, logs[n].records + [batch])]
  }

  lemma {:induction false} LiveAfterAppend(logs: seq<LogFile>, logNumber: nat, batch: seq<Entry>)
    requires |logs| > 0 && logs[|logs| - 1].number >= logNumber
    ensures LiveEntries(AppendRecord(logs, batch), logNumber) == LiveEntries(logs, logNumber) + batch
  {
    var n := |logs| - 1;
    assert AppendRecord(logs, batch)[..n] == logs[..n];
    ConcatAppend(logs[n].records, batch);
  }

  /** New operations are later than everything the live logs hold. */
  lemma {:induction false} LaterOperations(live: seq<Entry>, h: seq<Entry>, batch: seq<Entry>)
    requires Ascending(live) && Elements(live) <= Elements(h) && IsHistory(h) && IsHistory(h + batch)
    ensures Ascending(live + batch)
    ensures |batch| > 0 ==> (h + batch)[|h + batch| - 1] in Elements(live + batch)
  {
    forall i | 0 <= i < |live| ensures live[i].key.sn <= LastOf(h) {
      assert live[i] in Elements(live);
      HistoryBound(h, live[i]);
    }
    forall i, j | 0 <= i < |live| && 0 <= j < |batch| ensures live[i].key.sn < batch[j].key.sn {
      assert (h + batch)[|h| + j] == batch[j];
      assert live[i] in Elements(live);
      var k :| 0 <= k < |h| && h[k] == live[i];
      assert (h + batch)[k] == live[i];
    }
    forall i, j | 0 <= i < j < |batch| ensures batch[i].key.sn < batch[j].key.sn {
      assert (h + batch)[|h| + i] == batch[i] && (h + batch)[|h| + j] == batch[j];
    }
    if |batch| > 0 {
      assert (live + batch)[|live| + |batch| - 1] == (h + batch)[|h + batch| - 1];
    }
  }

  lemma {:induction false} LiveIsMemory(d: Disk, s: Store, logfileNumber: nat, next: nat, h: seq<Entry>)
    requires Structured(s, h, next) && Mirror(d, s, logfileNumber, next, h)
    ensures Elements(LiveEntries(d.logs, d.logNumber)) == Tier(s, 0) + Tier(s, 1)
    ensures Elements(LiveEntries(d.logs, d.logNumber)) <= Elements(h)
  {
    var n := |d.logs| - 1;
    var older, newest := LiveEntries(d.logs[..n], d.logNumber), Concat(d.logs[n].records);
    assert LiveEntries(d.logs, d.logNumber) == older + newest;
    assert Elements(older + newest) == Elements(older) + Elements(newest);
    assert Tier(s, 0) <= All(s) && Tier(s, 1) <= All(s);
  }

  lemma {:induction false} MirrorWrite(d: Disk, s: Store, s': Store, logfileNumber: nat, next: nat,
      h: seq<Entry>, batch: seq<Entry>)
    requires Structured(s, h, next) && Mirror(d, s, logfileNumber, next, h)
    requires IsHistory(h + batch) && s'.levels == s.levels && s'.imm == s.imm
    requires Elements(s'.mem) == Elements(s.mem) + Elements(batch)
    ensures Mirror(d.(logs := AppendRecord(d.logs, batch)), s', logfileNumber, next, h + batch)
  {
    LiveIsMemory(d, s, logfileNumber, next, h);
    LaterOperations(LiveEntries(d.logs, d.logNumber), h, batch);
    LogsAfterAppend(d.logs, d.logNumber, batch);
    assert |batch| == 0 ==> h + batch == h;
  }

  lemma {:induction false} LogsAfterAppend(logs: seq<LogFile>, logNumber: nat, batch: seq<Entry>)
    requires LogsInOrder(logs) && |logs| > 0 && logs[|logs| - 1].number >= logNumber
    ensures var logs' := AppendRecord(logs, batch);
            && |logs'| == |logs| && LogsInOrder(logs') && logs'[|logs| - 1].number == logs[|logs| - 1].number
            && LiveEntries(logs'[..|logs| - 1], logNumber) == LiveEntries(logs[..|logs| - 1], logNumber)
            && Elements(Concat(logs'[|logs| - 1].records)) == Elements(Concat(logs[|logs| - 1].records)) + Elements(batch)
            && LiveEntries(logs', logNumber) == LiveEntries(logs, logNumber) + batch
            && (|batch| == 0 ==> LiveEntries(logs', logNumber) == LiveEntries(logs, logNumber))
  {
    var n := |logs| - 1;
    assert AppendRecord(logs, batch)[..n] == logs[..n];
    LiveAfterAppend(logs, logNumber, batch);
    ConcatAppend(logs[n].records, batch);
    assert Elements(Concat(logs[n].records) + batch) == Elements(Concat(logs[n].records)) + Elements(batch);
  }

  lemma {:induction false} NonEmptyHasElements(es: seq<Entry>)
    ensures |es| > 0 ==> Elements(es) != {}
  {
    if |es| > 0 {
      assert es[0] in Elements(es);
    }
  }

  lemma {:induction false} MirrorSwitch(d: Disk, s: Store, logfileNumber: nat, next: nat, h: seq<Entry>)
    requires Mirror(d, s, logfileNumber, next, h) && s.imm.None?
    ensures Mirror(d.(logs := d.logs + [LogFile(next, [])]), Store([], Some(s.mem), s.levels), next, next + 1, h)
  {
    var logs' := d.logs + [LogFile(next, [])];
    var n := |d.logs| - 1;
    assert logs'[..n + 1] == d.logs;
    assert LiveEntries(logs', d.logNumber) == LiveEntries(d.logs, d.logNumber) + [];
    assert LiveEntries(d.logs, d.logNumber) == LiveEntries(d.logs[..n], d.logNumber) + Concat(d.logs[n].records);
    var older := LiveEntries(d.logs[..n], d.logNumber);
    NonEmptyHasElements(older);
    assert LiveEntries(d.logs, d.logNumber) == Concat(d.logs[n].records);
    assert Concat<Entry>([]) == [];
  }

  /** A flush moves the manifest past the flushed log. */
  lemma {:induction false} MirrorFlush(d: Disk, s: Store, levels': Levels, logfileNumber: nat, next: nat,
      next': nat, h: seq<Entry>, last: nat, tables: set<nat>)
    requires Mirror(d, s, logfileNumber, next, h) && LastOf(h) <= last && |levels'| == NUM_LEVELS && NumbersUnique(levels', next') && next <= next'
    ensures Mirror(Disk(levels', logfileNumber, next', last, d.logs, tables), Store(s.mem, None, levels'), logfileNumber, next', h)
  {
    FlushedLive(d.logs, d.logNumber);
    assert Ascending(LiveEntries(d.logs, logfileNumber));
  }

  /** Replaying from the last log on is replaying that log. */
  lemma {:induction false} FlushedLive(logs: seq<LogFile>, logNumber: nat)
    requires |logs| > 0 && LogsInOrder(logs) && logNumber <= logs[|logs| - 1].number && Ascending(LiveEntries(logs, logNumber))
    ensures var n := |logs| - 1;
            && LiveEntries(logs[..n], logs[n].number) == [] && LiveEntries(logs, logs[n].number) == Concat(logs[n].records)
            && Ascending(Concat(logs[n].records))
  {
    var n := |logs| - 1;
    OldLogsAreDead(logs[..n], logs[n].number);
    AscendingEnd(LiveEntries(logs[..n], logNumber), Concat(logs[n].records));
  }

  lemma {:induction false} AscendingEnd(a: seq<Entry>, b: seq<Entry>)
    requires Ascending(a + b)
    ensures Ascending(b)
  {
    assert forall i :: 0 <= i < |b| ==> (a + b)[|a| + i] == b[i];
  }

  /** Any other edit only changes the file lists. */
  lemma {:induction false} MirrorEdit(d: Disk, s: Store, levels': Levels, logfileNumber: nat, next: nat,
      next': nat, h: seq<Entry>, last: nat, tables: set<nat>)
    requires Mirror(d, s, logfileNumber, next, h) && LastOf(h) <= last && |levels'| == NUM_LEVELS && NumbersUnique(levels', next') && next <= next'
    ensures Mirror(Disk(levels', d.logNumber, next', last, d.logs, tables), s.(levels := levels'), logfileNumber, next', h)
  {
  }

  // ----- obsolete files -----

  function KeepLogs(logs: seq<LogFile>, logNumber: nat): seq<LogFile> {
    if |logs| == 0 then []
    else
      var n := |logs| - 1;
      KeepLogs(logs[..n], logNumber) + (if logs[n].number >= logNumber then [logs[n]] else [])
  }

  lemma {:induction false} KeptLogsAre(logs: seq<LogFile>, logNumber: nat, f: LogFile)
    ensures f in KeepLogs(logs, logNumber) <==> f in logs && f.number >= logNumber
  {
    if |logs| > 0 {
      KeptLogsAre(logs[..|logs| - 1], logNumber, f);
      assert logs == logs[..|logs| - 1] + [logs[|logs| - 1]];
    }
  }

  lemma {:induction false} KeptLogsReplayAlike(logs: seq<LogFile>, logNumber: nat)
    ensures LiveEntries(KeepLogs(logs, logNumber), logNumber) == LiveEntries(logs, logNumber)
  {
    if |logs| > 0 {
      var n := |logs| - 1;
      var before := KeepLogs(logs[..n], logNumber);
      KeptLogsReplayAlike(logs[..n], logNumber);
      if logs[n].number >= logNumber {
        LiveOfOneMore(before, logs[n], logNumber);
        assert KeepLogs(logs, logNumber) == before + [logs[n]];
      } else {
        assert KeepLogs(logs, logNumber) == before + [] == before;
        assert LiveEntries(logs, logNumber) == LiveEntries(logs[..n], logNumber) + [] == LiveEntries(logs[..n], logNumber);
      }
    }
  }

  lemma {:induction false} KeptLogsInOrder(logs: seq<LogFile>, logNumber: nat)
    requires LogsInOrder(logs)
    ensures LogsInOrder(KeepLogs(logs, logNumber))
  {
    if |logs| > 0 {
      var n := |logs| - 1;
      var before := KeepLogs(logs[..n], logNumber);
      KeptLogsInOrder(logs[..n], logNumber);
      forall i | 0 <= i < |before| ensures before[i].number < logs[n].number {
        KeptLogsAre(logs[..n], logNumber, before[i]);
      }
    }
  }

  lemma {:induction false} LiveOfOneMore(logs: seq<LogFile>, f: LogFile, logNumber: nat)
    ensures LiveEntries(logs + [f], logNumber) == LiveEntries(logs, logNumber) + (if f.number >= logNumber then Concat(f.records) else [])
  {
    assert (logs + [f])[..|logs|] == logs;
  }

  /** Deleting the logs below the manifest's number changes nothing that is replayed. */
  lemma {:induction false} MirrorDelete(d: Disk, s: Store, logfileNumber: nat, next: nat, h: seq<Entry>,
      tables: set<nat>)
    requires Mirror(d, s, logfileNumber, next, h)
    ensures Mirror(d.(logs := KeepLogs(d.logs, d.logNumber), tables := tables), s, logfileNumber, next, h)
  {
    var n := |d.logs| - 1;
    KeptLogsReplayAlike(d.logs, d.logNumber);
    KeptLogsReplayAlike(d.logs[..n], d.logNumber);
    KeptLogsInOrder(d.logs, d.logNumber);
    var before := KeepLogs(d.logs[..n], d.logNumber);
    assert KeepLogs(d.logs, d.logNumber) == before + [d.logs[n]];
    assert (before + [d.logs[n]])[..|before|] == before;
  }
}
