// From group commits to bytes and back: what the recovery of a log file
// (DBImpl::RecoverLogFile in db/db_impl.cc) applies when the file was cut off anywhere.
module LogReplay {
  import opened Keys
  import opened Coding
  import opened Log
  import opened LogRoundTrip
  import opened WriteBatches
  import opened WriteQueue

  type Applied = seq<(nat, BatchOp)>

  /** The records that the leaders of the groups hand to the log writer. */
  function RecordsOf(log: seq<LogRecord>): (r: seq<Bytes>)
    ensures |r| == |log| && forall i :: 0 <= i < |log| ==> r[i] == Rep(log[i].first, log[i].ops)
  {
    seq(|log|, i requires 0 <= i < |log| => Rep(log[i].first, log[i].ops))
  }

  function NumberedFrom(sn: nat, ops: seq<BatchOp>): (r: Applied)
    ensures |r| == |ops| && forall i :: 0 <= i < |ops| ==> r[i] == (sn + i, ops[i])
  {
    seq(|ops|, i requires 0 <= i < |ops| => (sn + i, ops[i]))
  }

  /** What one record adds: too short a record is dropped, a bad batch counts up to where it is bad. */
  function FromRecord(record: Bytes): Applied {
    if |record| < BATCH_HEADER then [] else NumberedFrom(DecodeFixed(record[..8]), Handled(record).0)
  }

  function FromRecords(records: seq<Bytes>): Applied {
    if |records| == 0 then [] else FromRecord(records[0]) + FromRecords(records[1..])
  }

  /** What is still to come from position `pos` on. */
  ghost function Rest(crc: Crc, file: Bytes, pos: nat): Applied
    requires pos <= |file|
  {
    FromRecords(ReadAll(crc, file, pos).0)
  }

  lemma {:induction false} RestStep(crc: Crc, file: Bytes, pos: nat, applied: Applied)
    requires pos <= |file|
    ensures var r := RecordFrom(crc, file, pos, false, []);
      applied + Rest(crc, file, pos) ==
        if r.record.None? then applied else (applied + FromRecord(r.record.value)) + Rest(crc, file, r.next)
  {
    var r := RecordFrom(crc, file, pos, false, []);
    if r.record.Some? {
      assert ReadAll(crc, file, pos).0 == [r.record.value] + ReadAll(crc, file, r.next).0;
      OneMoreRecord(applied, r.record.value, ReadAll(crc, file, r.next).0);
    } else {
      assert applied + [] == applied;
    }
  }

  /** The loop of RecoverLogFile, with errors in the log ignored. */
  method ReplayLog(crc: Crc, file: Bytes) returns (applied: Applied)
    ensures applied == FromRecords(ReadAll(crc, file, 0).0)
  {
    var reader := new Reader(crc, file);
    applied := [];
    ghost var want := Rest(crc, file, 0);
    assert [] + want == want;
    var done := false;
    while !done
      invariant reader.Valid() && reader.crc == crc && reader.file == file && 0 <= reader.Pos() <= |file| && fresh(reader)
      invariant if done then want == applied else want == applied + Rest(crc, file, reader.Pos())
      decreases !done, |file| - reader.Pos()
    {
      RestStep(crc, file, reader.Pos(), applied);
      var record := reader.ReadRecord();
      if record == None {
        done := true;
      } else {
        var more := ApplyRecord(record.value);
        applied := applied + more;
      }
    }
  }

  /** A record's batch, if it is long enough to be one. */
  method ApplyRecord(record: Bytes) returns (more: Applied)
    ensures more == FromRecord(record)
  {
    if |record| < BATCH_HEADER {
      return [];
    }
    var batch := new WriteBatch();
    batch.rep := record;
    var ops, status := batch.Iterate();
    more := NumberedFrom(DecodeFixed(record[..8]), ops);
  }

  lemma {:induction false} OneMoreRecord(applied: Applied, record: Bytes, rest: seq<Bytes>)
    ensures applied + FromRecords([record] + rest) == (applied + FromRecord(record)) + FromRecords(rest)
  {
    assert ([record] + rest)[1..] == rest;
  }

  ghost predicate Loggable(log: seq<LogRecord>) {
    forall i :: 0 <= i < |log| ==> log[i].first < TWO_64 && Fit(log[i].ops)
  }

  lemma {:induction false} RecordApplies(r: LogRecord)
    requires r.first < TWO_64 && Fit(r.ops)
    ensures FromRecord(Rep(r.first, r.ops)) == NumberedFrom(r.first, r.ops)
  {
    RepHeader(r.first, r.ops);
    HandledRep(r.first, r.ops);
  }

  lemma {:induction false} RecordsAppend(a: seq<Bytes>, b: seq<Bytes>)
    ensures FromRecords(a + b) == FromRecords(a) + FromRecords(b)
  {
    if |a| == 0 {
      assert a + b == b;
    } else {
      assert (a + b)[1..] == a[1..] + b;
      RecordsAppend(a[1..], b);
    }
  }

  /** Replaying the records of a log gives its operations, numbered from 1 without a gap. */
  lemma {:induction false} RecordsApply(log: seq<LogRecord>)
    requires Loggable(log) && RecordsNumbered(log)
    ensures MemHolds(FromRecords(RecordsOf(log)), Logged(log))
  {
    if |log| > 0 {
      var n := |log| - 1;
      NumberedPrefix(log, n);
      RecordsApply(log[..n]);
      LastApplies(log[..n], log[n]);
      assert log == log[..n] + [log[n]];
    }
  }

  lemma {:induction false} NumberedPrefix(log: seq<LogRecord>, m: nat)
    requires m <= |log| && Loggable(log) && RecordsNumbered(log)
    ensures Loggable(log[..m]) && RecordsNumbered(log[..m])
  {
    assert forall r :: 0 <= r < m ==> log[..m][..r] == log[..r];
  }

  lemma {:induction false} LastApplies(before: seq<LogRecord>, last: LogRecord)
    requires MemHolds(FromRecords(RecordsOf(before)), Logged(before))
    requires last.first == |Logged(before)| + 1 < TWO_64 && Fit(last.ops)
    ensures MemHolds(FromRecords(RecordsOf(before + [last])), Logged(before + [last]))
  {
    var record := Rep(last.first, last.ops);
    assert RecordsOf(before + [last]) == RecordsOf(before) + [record];
    RecordsAppend(RecordsOf(before), [record]);
    RecordApplies(last);
    OneRecord(record);
    LoggedAppend(before, last);
    MoreHolds(FromRecords(RecordsOf(before)), Logged(before), last.ops);
  }

  lemma {:induction false} OneRecord(record: Bytes)
    ensures FromRecords([record]) == FromRecord(record)
  {
    assert FromRecord(record) + [] == FromRecord(record);
  }

  lemma {:induction false} MoreHolds(mem: Applied, ops: seq<BatchOp>, more: seq<BatchOp>)
    requires MemHolds(mem, ops)
    ensures MemHolds(mem + NumberedFrom(|ops| + 1, more), ops + more)
  {
  }

  /** However many bytes of the file survive, replay applies the operations of the first `m` group
      commits under the sequence numbers they were committed with, where `m` counts the records that
      survived whole; it is all of them if the file did. */
  lemma {:induction false} CutLogReplaysPrefix(crc: Crc, log: seq<LogRecord>, k: nat) returns (m: nat)
    requires Loggable(log) && RecordsNumbered(log) && k <= |FileOf(crc, RecordsOf(log))|
    ensures m == Whole(crc, 0, RecordsOf(log), k) && m <= |log|
    ensures MemHolds(FromRecords(ReadAll(crc, FileOf(crc, RecordsOf(log))[..k], 0).0), Logged(log[..m]))
    ensures Logged(log[..m]) <= Logged(log)
    ensures forall j :: 0 <= j <= |log| && |FileOf(crc, RecordsOf(log)[..j])| <= k ==> j <= m
  {
    var records := RecordsOf(log);
    m := Whole(crc, 0, records, k);
    PrefixReadsBack(crc, records, k);
    assert records[..m] == RecordsOf(log[..m]);
    NumberedPrefix(log, m);
    RecordsApply(log[..m]);
    LoggedPrefix(log, m);
    forall j | 0 <= j <= |log| && |FileOf(crc, records[..j])| <= k ensures j <= m {
      WholeIsExact(crc, 0, records, k, j);
    }
  }

  lemma {:induction false} LoggedPrefix(log: seq<LogRecord>, m: nat)
    requires m <= |log|
    ensures Logged(log[..m]) <= Logged(log)
    decreases |log|
  {
    if m == |log| {
      assert log[..m] == log;
    } else {
      var n := |log| - 1;
      assert log[..n][..m] == log[..m];
      LoggedPrefix(log[..n], m);
    }
  }
}
