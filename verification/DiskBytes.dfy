// The files of a database as bytes (db/db_impl.cc, db/version_set.cc): what each step
// writes to the manifest and the logs, what recovery reads from them, and what it reads
// when a crash has cut the current log off at any byte.
module DiskBytes {
  import opened Keys
  import opened Coding
  import opened KeyOrder
  import opened Log
  import opened LogRoundTrip
  import opened WriteBatches
  import opened WriteQueue
  import opened LogReplay
  import opened Version
  import opened Builder
  import opened Manifest
  import opened Durable
  import opened TornLogs
  import VE = VersionEdits
  import Db

  // ----- operations as entries of the store -----

  function Text(v: Bytes): (r: string)
    ensures |r| == |v|
  {
    seq(|v|, i requires 0 <= i < |v| => v[i] as char)
  }

  /** An operation of a batch as the store sees it: the rank stands for the key. */
  function OpOf(op: BatchOp): Db.Op {
    match op
    case Put(key, value) => Db.Put(Rank(key), Text(value))
    case Delete(key) => Db.Delete(Rank(key))
  }

  function EntriesFrom(applied: Applied): (r: seq<Entry>)
    ensures |r| == |applied| && forall i :: 0 <= i < |r| ==> r[i] == Db.OpEntry(OpOf(applied[i].1), applied[i].0)
  {
    seq(|applied|, i requires 0 <= i < |applied| => Db.OpEntry(OpOf(applied[i].1), applied[i].0))
  }

  function OpsFrom(ops: seq<BatchOp>): (r: seq<Db.Op>)
    ensures |r| == |ops| && forall i :: 0 <= i < |r| ==> r[i] == OpOf(ops[i])
  {
    seq(|ops|, i requires 0 <= i < |ops| => OpOf(ops[i]))
  }

  /** The batch that the group commit of these operations adds to the history. */
  function BatchOf(r: LogRecord): seq<Entry> {
    EntriesFrom(NumberedFrom(r.first, r.ops))
  }

  lemma {:induction false} BatchIsCommit(r: LogRecord)
    ensures BatchOf(r) == Db.BatchEntries(OpsFrom(r.ops), r.first)
  {
  }

  // ----- what a key's bytes are read as -----

  /** The bytes that a stored text stands for. */
  function BytesOf(t: string): (v: Bytes)
    ensures |v| == |t|
  {
    seq(|t|, i requires 0 <= i < |t| => (t[i] as int % 256) as Byte)
  }

  lemma {:induction false} TextReadsBack(v: Bytes)
    ensures BytesOf(Text(v)) == v
  {
  }

  function AsBytes(r: Option<string>): Option<Bytes> {
    match r
    case None => None
    case Some(t) => Some(BytesOf(t))
  }

  /** What the history has for a key at a snapshot, in bytes. */
  ghost function BytesRead(h: seq<Entry>, key: Bytes, sn: nat): Option<Bytes> {
    AsBytes(HistoryRead(h, Rank(key), sn))
  }

  /** What a read of `key` gives after some operations, if it gave `before` until then: the
      value of the last put of that key, nothing after its delete. */
  function BytesAfter(ops: seq<BatchOp>, key: Bytes, before: Option<Bytes>): Option<Bytes> {
    if |ops| == 0 then before
    else
      var n := |ops| - 1;
      match ops[n]
      case Put(k, value) => if key == k then Some(value) else BytesAfter(ops[..n], key, before)
      case Delete(k) => if key == k then None else BytesAfter(ops[..n], key, before)
  }

  lemma {:induction false} OpsAreRead(ops: seq<BatchOp>, key: Bytes, before: Option<string>)
    ensures AsBytes(Db.ReadAfter(OpsFrom(ops), Rank(key), before)) == BytesAfter(ops, key, AsBytes(before))
  {
    if |ops| > 0 {
      var n := |ops| - 1;
      OpsAreRead(ops[..n], key, before);
      assert OpsFrom(ops)[..n] == OpsFrom(ops[..n]);
      RankOrders(key, ops[n].key);
      if ops[n].Put? {
        TextReadsBack(ops[n].value);
      }
    }
  }

  /** After the commit of `ops` every key reads as its last operation says. Sealed;
      `OpenReadsMove` opens it. */
  ghost predicate ReadsMove(h: seq<Entry>, last: nat, h': seq<Entry>, last': nat, ops: seq<BatchOp>) {
    MoveSeal(last' + 9, h, last, h', last', ops)
  }

  ghost predicate MoveSeal(n: nat, h: seq<Entry>, last: nat, h': seq<Entry>, last': nat, ops: seq<BatchOp>) {
    if n == 0 then forall key :: BytesRead(h', key, last') == BytesAfter(ops, key, BytesRead(h, key, last))
    else MoveSeal(n - 1, h, last, h', last', ops)
  }

  lemma {:induction false} MoveSealOpens(n: nat, m: nat, h: seq<Entry>, last: nat, h': seq<Entry>, last': nat, ops: seq<BatchOp>)
    requires m <= n
    ensures MoveSeal(n, h, last, h', last', ops) == MoveSeal(m, h, last, h', last', ops)
  {
    if m < n {
      MoveSealOpens(n - 1, m, h, last, h', last', ops);
    }
  }

  lemma {:induction false} OpenReadsMove(h: seq<Entry>, last: nat, h': seq<Entry>, last': nat, ops: seq<BatchOp>)
    ensures ReadsMove(h, last, h', last', ops) <==>
            forall key :: BytesRead(h', key, last') == BytesAfter(ops, key, BytesRead(h, key, last))
  {
    MoveSealOpens(last' + 9, 0, h, last, h', last', ops);
  }

  /** What a commit makes of the reads of all keys, in bytes. */
  lemma {:induction false} CommitIsRead(h: seq<Entry>, last: nat, h': seq<Entry>, last': nat, ops: seq<BatchOp>)
    requires forall u :: HistoryRead(h', u, last') == Db.ReadAfter(OpsFrom(ops), u, HistoryRead(h, u, last))
    ensures ReadsMove(h, last, h', last', ops)
  {
    forall key ensures BytesRead(h', key, last') == BytesAfter(ops, key, BytesRead(h, key, last)) {
      OpsAreRead(ops, key, HistoryRead(h, Rank(key), last));
    }
    OpenReadsMove(h, last, h', last', ops);
  }

  // ----- a log -----

  /** The batches that recovery takes from the records of a log; one that is too short to
      be a batch is dropped. */
  function BatchesIn(records: seq<Bytes>): seq<seq<Entry>> {
    if |records| == 0 then []
    else
      var last := records[|records| - 1];
      BatchesIn(records[..|records| - 1]) + (if |last| < BATCH_HEADER then [] else [EntriesFrom(FromRecord(last))])
  }

  function DecodeLog(crc: Crc, file: Bytes): seq<seq<Entry>> {
    BatchesIn(ReadAll(crc, file, 0).0)
  }

  function BatchesOf(log: seq<LogRecord>): (r: seq<seq<Entry>>)
    ensures |r| == |log| && forall i :: 0 <= i < |r| ==> r[i] == BatchOf(log[i])
  {
    seq(|log|, i requires 0 <= i < |log| => BatchOf(log[i]))
  }

  lemma {:induction false} RecordsDecode(log: seq<LogRecord>)
    requires Loggable(log)
    ensures BatchesIn(RecordsOf(log)) == BatchesOf(log)
  {
    if |log| > 0 {
      var n := |log| - 1;
      RecordsDecode(log[..n]);
      assert RecordsOf(log)[..n] == RecordsOf(log[..n]);
      RecordApplies(log[n]);
      RepHeader(log[n].first, log[n].ops);
      assert BatchesOf(log) == BatchesOf(log[..n]) + [BatchOf(log[n])];
    }
  }

  /** A log cut off at any byte gives the batches of the records that are whole. */
  lemma {:induction false} CutLogDecodes(crc: Crc, log: seq<LogRecord>, k: nat)
    requires Loggable(log) && k <= |FileOf(crc, RecordsOf(log))|
    ensures var m := Whole(crc, 0, RecordsOf(log), k);
            m <= |log| && DecodeLog(crc, FileOf(crc, RecordsOf(log))[..k]) == BatchesOf(log)[..m]
    ensures k == |FileOf(crc, RecordsOf(log))| ==> Whole(crc, 0, RecordsOf(log), k) == |log|
  {
    var m := Whole(crc, 0, RecordsOf(log), k);
    PrefixReadsBack(crc, RecordsOf(log), k);
    assert RecordsOf(log)[..m] == RecordsOf(log[..m]);
    RecordsDecode(log[..m]);
    assert BatchesOf(log)[..m] == BatchesOf(log[..m]);
    assert RecordsOf(log)[..|log|] == RecordsOf(log);
    WholeIsExact(crc, 0, RecordsOf(log), k, |log|);
  }

  // ----- the manifest -----

  /** The edit that a record of a manifest holds, or nothing if it is malformed. */
  function EditIn(record: Bytes): Option<VE.Edit> {
    var (fields, status) := VE.ParseFields(record);
    if status.Ok? then Some(VE.PutAll(VE.EmptyEdit([]), fields)) else None
  }

  /** All edits, or nothing if a record is malformed. */
  function EditsIn(records: seq<Bytes>): Option<seq<VE.Edit>> {
    if |records| == 0 then Some([])
    else
      match (EditsIn(records[..|records| - 1]), EditIn(records[|records| - 1]))
      case (Some(before), Some(e)) => Some(before + [e])
      case _ => None
  }

  function EditRecord(e: VE.Edit): Bytes {
    VE.FieldsBytes(VE.FieldsOf(e))
  }

  function DecodeManifest(crc: Crc, file: Bytes): Option<seq<VE.Edit>> {
    EditsIn(ReadAll(crc, file, 0).0)
  }

  function EditRecords(edits: seq<VE.Edit>): (r: seq<Bytes>)
    ensures |r| == |edits| && forall i :: 0 <= i < |r| ==> r[i] == EditRecord(edits[i])
  {
    seq(|edits|, i requires 0 <= i < |edits| => EditRecord(edits[i]))
  }

  ghost predicate EditsFit(edits: seq<VE.Edit>) {
    forall i :: 0 <= i < |edits| ==> VE.EditFits(edits[i])
  }

  lemma {:induction false} EditDecodes(e: VE.Edit)
    requires VE.EditFits(e)
    ensures EditIn(EditRecord(e)) == Some(e)
  {
    VE.EditRoundTrip(e, []);
  }

  lemma {:induction false} EachDecodes(records: seq<Bytes>, edits: seq<VE.Edit>)
    requires |records| == |edits| && forall i :: 0 <= i < |records| ==> EditIn(records[i]) == Some(edits[i])
    ensures EditsIn(records) == Some(edits)
  {
    if |edits| > 0 {
      var n := |edits| - 1;
      EachDecodes(records[..n], edits[..n]);
      assert EditIn(records[n]) == Some(edits[n]);
      assert edits == edits[..n] + [edits[n]];
    }
  }

  lemma {:induction false} EditsDecode(edits: seq<VE.Edit>)
    requires EditsFit(edits)
    ensures EditsIn(EditRecords(edits)) == Some(edits)
  {
    forall i | 0 <= i < |edits| ensures EditIn(EditRecords(edits)[i]) == Some(edits[i]) {
      EditDecodes(edits[i]);
    }
    EachDecodes(EditRecords(edits), edits);
  }

  /** A manifest cut off at any byte gives the edits whose records are whole. */
  lemma {:induction false} CutManifestDecodes(crc: Crc, edits: seq<VE.Edit>, k: nat)
    requires EditsFit(edits) && k <= |FileOf(crc, EditRecords(edits))|
    ensures var m := Whole(crc, 0, EditRecords(edits), k);
            m <= |edits| && DecodeManifest(crc, FileOf(crc, EditRecords(edits))[..k]) == Some(edits[..m])
    ensures k == |FileOf(crc, EditRecords(edits))| ==> Whole(crc, 0, EditRecords(edits), k) == |edits|
  {
    var m := Whole(crc, 0, EditRecords(edits), k);
    PrefixReadsBack(crc, EditRecords(edits), k);
    EditRecordsPrefix(edits, m);
    EditsDecode(edits[..m]);
    EditRecordsPrefix(edits, |edits|);
    WholeIsExact(crc, 0, EditRecords(edits), k, |edits|);
  }

  lemma {:induction false} EditRecordsPrefix(edits: seq<VE.Edit>, m: nat)
    requires m <= |edits|
    ensures EditRecords(edits)[..m] == EditRecords(edits[..m])
    ensures m == |edits| ==> edits[..m] == edits
  {
  }

  /** An edit whose record was being written when the crash came is forgotten. */
  lemma {:induction false} UnfinishedEditIsForgotten(crc: Crc, edits: seq<VE.Edit>, e: VE.Edit, k: nat)
    requires EditsFit(edits + [e])
    requires |FileOf(crc, EditRecords(edits))| <= k < |FileOf(crc, EditRecords(edits + [e]))|
    ensures DecodeManifest(crc, FileOf(crc, EditRecords(edits + [e]))[..k]) == Some(edits)
  {
    var all, n := edits + [e], |edits|;
    CutManifestDecodes(crc, all, k);
    EditRecordsPrefix(all, n);
    EditRecordsPrefix(all, n + 1);
    WholeIsExact(crc, 0, EditRecords(all), k, n);
    WholeIsExact(crc, 0, EditRecords(all), k, n + 1);
    assert all[..n] == edits;
  }

  // ----- what the edits say -----

  /** What table file `n` holds. A number is given to one table only. */
  type Tables = nat -> seq<Entry>

  function StoreEdit(e: VE.Edit, tables: Tables): Edit {
    Edit(e.deletedFiles, seq(|e.newFiles|, i requires 0 <= i < |e.newFiles| =>
      (e.newFiles[i].0, FileMeta(e.newFiles[i].1.number, tables(e.newFiles[i].1.number)))))
  }

  function StoreEdits(edits: seq<VE.Edit>, tables: Tables): (r: seq<Edit>)
    ensures |r| == |edits| && forall i :: 0 <= i < |r| ==> r[i] == StoreEdit(edits[i], tables)
  {
    seq(|edits|, i requires 0 <= i < |edits| => StoreEdit(edits[i], tables))
  }

  datatype Which = LogNumber | NextFile | LastSequence

  function NumberIn(e: VE.Edit, which: Which): Option<nat> {
    match which
    case LogNumber => e.logNumber
    case NextFile => e.nextFile
    case LastSequence => e.lastSequence
  }

  /** The last value that any of the edits gives to a number. */
  function Latest(edits: seq<VE.Edit>, which: Which): Option<nat> {
    if |edits| == 0 then None
    else
      var last := NumberIn(edits[|edits| - 1], which);
      if last.Some? then last else Latest(edits[..|edits| - 1], which)
  }

  /** VersionSet::Recover: the file lists are those of all edits in turn, the numbers the
      last that were given. */
  ghost predicate Recovered(edits: seq<VE.Edit>, tables: Tables, d: Disk) {
    && |d.levels| == NUM_LEVELS && (forall i :: 0 <= i < |edits| ==> EditOk(StoreEdit(edits[i], tables)))
    && (forall l :: 0 <= l < NUM_LEVELS ==>
          SortedByKey(d.levels[l]) && FileSet(d.levels[l]) == Replay({}, StoreEdits(edits, tables), l))
    && Latest(edits, LogNumber) == Some(d.logNumber)
    && Latest(edits, NextFile) == Some(d.nextFile)
    && Latest(edits, LastSequence) == Some(d.lastSequence)
  }

  /** The manifest, and every log by its number. */
  datatype Files = Files(manifest: Bytes, logs: seq<(nat, Bytes)>)

  /** What recovery finds in the files is this disk. */
  ghost predicate Finds(crc: Crc, f: Files, tables: Tables, d: Disk) {
    && DecodeManifest(crc, f.manifest).Some?
    && Recovered(DecodeManifest(crc, f.manifest).value, tables, d)
    && |f.logs| == |d.logs|
    && forall i :: 0 <= i < |f.logs| ==> LogFound(crc, f.logs[i], d.logs[i])
  }

  ghost predicate LogFound(crc: Crc, file: (nat, Bytes), l: LogFile) {
    l == LogFile(file.0, DecodeLog(crc, file.1))
  }

  /** Recovery finds one disk only, up to what tables there are. */
  lemma {:induction false} FindsOnce(crc: Crc, f: Files, tables: Tables, a: Disk, b: Disk)
    requires Finds(crc, f, tables, a) && Finds(crc, f, tables, b)
    ensures a.(tables := {}) == b.(tables := {})
  {
    forall l | 0 <= l < NUM_LEVELS ensures a.levels[l] == b.levels[l] {
      SortedListingIsUnique(a.levels[l], b.levels[l]);
    }
    forall i | 0 <= i < |f.logs| ensures a.logs[i] == b.logs[i] {
      assert LogFound(crc, f.logs[i], a.logs[i]) && LogFound(crc, f.logs[i], b.logs[i]);
    }
    assert a.logs == b.logs;
  }

  // ----- what the steps write -----

  /** The manifest is the records of these edits and the current log those of these commits;
      of older logs, which may have lost their ends, what can be read is what counts. */
  ghost predicate Written(crc: Crc, f: Files, tables: Tables, d: Disk, edits: seq<VE.Edit>, log: seq<LogRecord>) {
    ManifestWritten(crc, f.manifest, tables, d, edits) && LogsWritten(crc, f.logs, d.logs, log)
  }

  ghost predicate ManifestWritten(crc: Crc, manifest: Bytes, tables: Tables, d: Disk, edits: seq<VE.Edit>) {
    manifest == FileOf(crc, EditRecords(edits)) && EditsFit(edits) && Recovered(edits, tables, d)
  }

  ghost predicate LogsWritten(crc: Crc, files: seq<(nat, Bytes)>, logs: seq<LogFile>, log: seq<LogRecord>) {
    && |files| == |logs| > 0
    && (forall i :: 0 <= i < |files| - 1 ==> LogFound(crc, files[i], logs[i]))
    && LogWritten(crc, files[|files| - 1], logs[|logs| - 1], log)
  }

  ghost predicate LogWritten(crc: Crc, file: (nat, Bytes), l: LogFile, log: seq<LogRecord>) {
    Loggable(log) && file == (l.number, FileOf(crc, RecordsOf(log))) && l.records == BatchesOf(log)
  }

  lemma {:induction false} LogReadsBack(crc: Crc, file: (nat, Bytes), l: LogFile, log: seq<LogRecord>)
    requires LogWritten(crc, file, l, log)
    ensures LogFound(crc, file, l)
  {
    CutLogDecodes(crc, log, |file.1|);
    assert file.1[..|file.1|] == file.1 && BatchesOf(log)[..|log|] == BatchesOf(log);
  }

  /** Files that are whole give the disk back. */
  lemma {:induction false} WrittenIsFound(crc: Crc, f: Files, tables: Tables, d: Disk, edits: seq<VE.Edit>, log: seq<LogRecord>)
    requires Written(crc, f, tables, d, edits, log)
    ensures Finds(crc, f, tables, d)
  {
    ManifestReadsBack(crc, f.manifest, tables, d, edits);
    LogsReadBack(crc, f.logs, d.logs, log);
  }

  lemma {:induction false} ManifestReadsBack(crc: Crc, manifest: Bytes, tables: Tables, d: Disk, edits: seq<VE.Edit>)
    requires ManifestWritten(crc, manifest, tables, d, edits)
    ensures DecodeManifest(crc, manifest) == Some(edits) && Recovered(edits, tables, d)
  {
    CutManifestDecodes(crc, edits, |manifest|);
    assert manifest[..|manifest|] == manifest && edits[..|edits|] == edits;
  }

  lemma {:induction false} LogsReadBack(crc: Crc, files: seq<(nat, Bytes)>, logs: seq<LogFile>, log: seq<LogRecord>)
    requires LogsWritten(crc, files, logs, log)
    ensures forall i :: 0 <= i < |files| ==> LogFound(crc, files[i], logs[i])
  {
    LogReadsBack(crc, files[|files| - 1], logs[|logs| - 1], log);
  }

  function AppendBytes(f: Files, bytes: Bytes): Files
    requires |f.logs| > 0
  {
    var n := |f.logs| - 1;
    f.(logs := f.logs[..n] + [(f.logs[n].0, f.logs[n].1 + bytes)])
  }

  lemma {:induction false} LogGrows(crc: Crc, file: (nat, Bytes), l: LogFile, log: seq<LogRecord>, r: LogRecord)
    requires LogWritten(crc, file, l, log) && r.first < TWO_64 && Fit(r.ops)
    ensures LogWritten(crc, (file.0, file.1 + RecordBytes(crc, |file.1| % BLOCK_SIZE, Rep(r.first, r.ops))),
                       LogFile(l.number, l.records + [BatchOf(r)]), log + [r])
  {
    assert RecordsOf(log + [r]) == RecordsOf(log) + [Rep(r.first, r.ops)];
    AppendedRecord(crc, 0, RecordsOf(log), Rep(r.first, r.ops));
    assert BatchesOf(log + [r]) == BatchesOf(log) + [BatchOf(r)];
  }

  /** A group commit adds one record to the current log. */
  lemma {:induction false} CommitIsWritten(crc: Crc, f: Files, tables: Tables, d: Disk, edits: seq<VE.Edit>,
      log: seq<LogRecord>, r: LogRecord)
    requires Written(crc, f, tables, d, edits, log) && r.first < TWO_64 && Fit(r.ops)
    ensures var size := |f.logs[|f.logs| - 1].1|;
            Written(crc, AppendBytes(f, RecordBytes(crc, size % BLOCK_SIZE, Rep(r.first, r.ops))), tables,
                    d.(logs := AppendRecord(d.logs, BatchOf(r))), edits, log + [r])
  {
    LogGrows(crc, f.logs[|f.logs| - 1], LastLog(d), log, r);
  }

  /** A switched memtable gets an empty log. */
  lemma {:induction false} NewLogIsWritten(crc: Crc, f: Files, tables: Tables, d: Disk, edits: seq<VE.Edit>,
      log: seq<LogRecord>, number: nat)
    requires Written(crc, f, tables, d, edits, log)
    ensures Written(crc, f.(logs := f.logs + [(number, [])]), tables, d.(logs := d.logs + [LogFile(number, [])]), edits, [])
  {
    LogsAfterSwitch(crc, f.logs, d.logs, log, number);
  }

  lemma {:induction false} LogsAfterSwitch(crc: Crc, files: seq<(nat, Bytes)>, logs: seq<LogFile>, log: seq<LogRecord>, number: nat)
    requires LogsWritten(crc, files, logs, log)
    ensures LogsWritten(crc, files + [(number, [])], logs + [LogFile(number, [])], [])
  {
    var n := |files| - 1;
    EmptyLogIsWritten(crc, number);
    LogReadsBack(crc, files[n], logs[n], log);
    forall i | 0 <= i < |files| ensures LogFound(crc, (files + [(number, [])])[i], (logs + [LogFile(number, [])])[i]) {
      assert i < n ==> LogFound(crc, files[i], logs[i]);
    }
  }

  lemma {:induction false} EmptyLogIsWritten(crc: Crc, number: nat)
    ensures LogWritten(crc, (number, []), LogFile(number, []), [])
  {
    assert RecordsOf([]) == [] && BatchesOf([]) == [];
  }

  lemma {:induction false} LatestGrows(edits: seq<VE.Edit>, e: VE.Edit, which: Which)
    ensures Latest(edits + [e], which) == if NumberIn(e, which).Some? then NumberIn(e, which) else Latest(edits, which)
  {
    assert (edits + [e])[..|edits|] == edits;
  }

  /** LogAndApply adds one record to the manifest. */
  lemma {:induction false} EditIsWritten(crc: Crc, f: Files, tables: Tables, d: Disk, edits: seq<VE.Edit>,
      log: seq<LogRecord>, e: VE.Edit, d': Disk)
    requires Written(crc, f, tables, d, edits, log) && VE.EditFits(e) && EditOk(StoreEdit(e, tables))
    requires |d'.levels| == NUM_LEVELS && d'.logs == d.logs
    requires forall l :: 0 <= l < NUM_LEVELS ==>
               SortedByKey(d'.levels[l]) && FileSet(d'.levels[l]) == Builder.Applied(FileSet(d.levels[l]), StoreEdit(e, tables), l)
    requires d'.logNumber == (if e.logNumber.Some? then e.logNumber.value else d.logNumber)
    requires e.nextFile == Some(d'.nextFile) && e.lastSequence == Some(d'.lastSequence)
    ensures Written(crc, f.(manifest := f.manifest + RecordBytes(crc, |f.manifest| % BLOCK_SIZE, EditRecord(e))),
                    tables, d', edits + [e], log)
  {
    ManifestGrows(crc, f.manifest, tables, d, edits, e, d');
  }

  lemma {:induction false} ManifestGrows(crc: Crc, manifest: Bytes, tables: Tables, d: Disk, edits: seq<VE.Edit>, e: VE.Edit, d': Disk)
    requires ManifestWritten(crc, manifest, tables, d, edits) && VE.EditFits(e) && EditOk(StoreEdit(e, tables))
    requires |d'.levels| == NUM_LEVELS
    requires forall l :: 0 <= l < NUM_LEVELS ==>
               SortedByKey(d'.levels[l]) && FileSet(d'.levels[l]) == Builder.Applied(FileSet(d.levels[l]), StoreEdit(e, tables), l)
    requires d'.logNumber == (if e.logNumber.Some? then e.logNumber.value else d.logNumber)
    requires e.nextFile == Some(d'.nextFile) && e.lastSequence == Some(d'.lastSequence)
    ensures ManifestWritten(crc, manifest + RecordBytes(crc, |manifest| % BLOCK_SIZE, EditRecord(e)), tables, d', edits + [e])
  {
    EditAppended(crc, edits, e);
    OneMoreEdit(edits, tables, d, e, d');
  }

  lemma {:induction false} EditAppended(crc: Crc, edits: seq<VE.Edit>, e: VE.Edit)
    requires EditsFit(edits) && VE.EditFits(e)
    ensures EditsFit(edits + [e])
    ensures var before := FileOf(crc, EditRecords(edits));
            FileOf(crc, EditRecords(edits + [e])) == before + RecordBytes(crc, |before| % BLOCK_SIZE, EditRecord(e))
  {
    OneMoreRecord(crc, EditRecords(edits), EditRecords(edits + [e]), EditRecord(e));
  }

  lemma {:induction false} OneMoreRecord(crc: Crc, before: seq<Bytes>, after: seq<Bytes>, record: Bytes)
    requires |after| == |before| + 1 && (forall i :: 0 <= i < |before| ==> after[i] == before[i]) && after[|before|] == record
    ensures FileOf(crc, after) == FileOf(crc, before) + RecordBytes(crc, |FileOf(crc, before)| % BLOCK_SIZE, record)
  {
    assert after == before + [record];
    AppendedRecord(crc, 0, before, record);
  }

  lemma {:induction false} OneMoreEdit(edits: seq<VE.Edit>, tables: Tables, d: Disk, e: VE.Edit, d': Disk)
    requires Recovered(edits, tables, d) && EditOk(StoreEdit(e, tables)) && |d'.levels| == NUM_LEVELS
    requires forall l :: 0 <= l < NUM_LEVELS ==>
               SortedByKey(d'.levels[l]) && FileSet(d'.levels[l]) == Builder.Applied(FileSet(d.levels[l]), StoreEdit(e, tables), l)
    requires d'.logNumber == (if e.logNumber.Some? then e.logNumber.value else d.logNumber)
    requires e.nextFile == Some(d'.nextFile) && e.lastSequence == Some(d'.lastSequence)
    ensures Recovered(edits + [e], tables, d')
  {
    var before, now := StoreEdits(edits, tables), StoreEdit(e, tables);
    assert StoreEdits(edits + [e], tables) == before + [now];
    forall l | 0 <= l < NUM_LEVELS ensures Replay({}, before + [now], l) == Builder.Applied(Replay({}, before, l), now, l) {
      ReplayGrows(before, now, l);
    }
    LatestGrows(edits, e, LogNumber);
    LatestGrows(edits, e, NextFile);
    LatestGrows(edits, e, LastSequence);
  }

  lemma {:induction false} ReplayGrows(before: seq<Edit>, now: Edit, l: nat)
    ensures Replay({}, before + [now], l) == Builder.Applied(Replay({}, before, l), now, l)
  {
    assert (before + [now])[..|before|] == before;
  }

  /** Obsolete logs are the oldest ones. */
  lemma {:induction false} KeptLogsAreLast(logs: seq<LogFile>, logNumber: nat) returns (i: nat)
    requires LogsInOrder(logs)
    ensures i <= |logs| && KeepLogs(logs, logNumber) == logs[i..]
  {
    if |logs| == 0 {
      i := 0;
    } else {
      var n := |logs| - 1;
      i := KeptLogsAreLast(logs[..n], logNumber);
      if logs[n].number >= logNumber {
        assert logs[..n][i..] + [logs[n]] == logs[i..];
      } else {
        NoneKept(logs[..n], logNumber);
        i := |logs|;
      }
    }
  }

  lemma {:induction false} NoneKept(logs: seq<LogFile>, logNumber: nat)
    requires forall j :: 0 <= j < |logs| ==> logs[j].number < logNumber
    ensures KeepLogs(logs, logNumber) == []
  {
    if |logs| > 0 {
      NoneKept(logs[..|logs| - 1], logNumber);
    }
  }

  /** Deleting the obsolete logs leaves the others as they are. */
  lemma {:induction false} DeletionIsWritten(crc: Crc, f: Files, tables: Tables, d: Disk, edits: seq<VE.Edit>,
      log: seq<LogRecord>) returns (i: nat)
    requires Written(crc, f, tables, d, edits, log) && LogsInOrder(d.logs) && LastLog(d).number >= d.logNumber
    ensures i < |f.logs| && KeepLogs(d.logs, d.logNumber) == d.logs[i..]
    ensures Written(crc, f.(logs := f.logs[i..]), tables, d.(logs := KeepLogs(d.logs, d.logNumber)), edits, log)
  {
    i := KeptLogsAreLast(d.logs, d.logNumber);
    KeptLogsAre(d.logs, d.logNumber, LastLog(d));
  }

  // ----- a crash -----

  /** The current log cut off after `k` bytes. */
  function CutFiles(f: Files, k: nat): Files
    requires |f.logs| > 0 && k <= |f.logs[|f.logs| - 1].1|
  {
    var n := |f.logs| - 1;
    f.(logs := f.logs[..n] + [(f.logs[n].0, f.logs[n].1[..k])])
  }

  /** Cutting the current log off at any byte leaves exactly its first whole records. */
  lemma {:induction false} CutIsTorn(crc: Crc, f: Files, tables: Tables, d: Disk, edits: seq<VE.Edit>,
      log: seq<LogRecord>, k: nat) returns (m: nat)
    requires Written(crc, f, tables, d, edits, log) && k <= |f.logs[|f.logs| - 1].1|
    ensures m <= |LastLog(d).records| && Finds(crc, CutFiles(f, k), tables, Torn(d, m))
    ensures forall j {:trigger log[..j]} :: 0 <= j <= |log| ==> (j <= m <==> |FileOf(crc, RecordsOf(log[..j]))| <= k)
  {
    WrittenIsFound(crc, f, tables, d, edits, log);
    var n := |f.logs| - 1;
    assert LogWritten(crc, f.logs[n], d.logs[n], log);
    m := CutLog(crc, f.logs[n].1, d.logs[n].records, log, k);
    CutIsFound(crc, f, tables, d, k, m);
  }

  lemma {:induction false} CutLog(crc: Crc, file: Bytes, records: seq<seq<Entry>>, log: seq<LogRecord>, k: nat) returns (m: nat)
    requires Loggable(log) && file == FileOf(crc, RecordsOf(log)) && records == BatchesOf(log) && k <= |file|
    ensures m <= |records| && DecodeLog(crc, file[..k]) == records[..m]
    ensures forall j {:trigger log[..j]} :: 0 <= j <= |log| ==> (j <= m <==> |FileOf(crc, RecordsOf(log[..j]))| <= k)
  {
    CutLogDecodes(crc, log, k);
    m := Whole(crc, 0, RecordsOf(log), k);
    forall j {:trigger log[..j]} | 0 <= j <= |log| ensures j <= m <==> |FileOf(crc, RecordsOf(log[..j]))| <= k {
      assert RecordsOf(log)[..j] == RecordsOf(log[..j]);
      WholeIsExact(crc, 0, RecordsOf(log), k, j);
    }
  }

  lemma {:induction false} CutIsFound(crc: Crc, f: Files, tables: Tables, d: Disk, k: nat, m: nat)
    requires Finds(crc, f, tables, d) && |d.logs| > 0 && k <= |f.logs[|f.logs| - 1].1| && m <= |LastLog(d).records|
    requires DecodeLog(crc, f.logs[|f.logs| - 1].1[..k]) == LastLog(d).records[..m]
    ensures Finds(crc, CutFiles(f, k), tables, Torn(d, m))
  {
    var g, e := CutFiles(f, k), Torn(d, m);
    var n := |f.logs| - 1;
    assert LogFound(crc, f.logs[n], d.logs[n]);
    forall i | 0 <= i < |g.logs| ensures LogFound(crc, g.logs[i], e.logs[i]) {
      assert i < n ==> LogFound(crc, f.logs[i], d.logs[i]);
    }
  }

  /** A crash that cuts the current log off at any byte. From the bytes that are left,
      recovery finds the other files as they were and the whole records of that log; and
      with those it has the write history up to the last of them, so every write whose
      record was complete in the file. */
  lemma {:induction false} CrashAtAnyByte(db: Db.DbImpl, crc: Crc, f: Files, tables: Tables, edits: seq<VE.Edit>,
      log: seq<LogRecord>, k: nat) returns (m: nat)
    requires db.Standing() && db.ReadsLikeBase() && Written(crc, f, tables, db.disk, edits, log)
    requires k <= |f.logs[|f.logs| - 1].1|
    ensures m <= |LastLog(db.disk).records| && Finds(crc, CutFiles(f, k), tables, Torn(db.disk, m))
    ensures forall j {:trigger log[..j]} :: 0 <= j <= |log| ==> (j <= m <==> |FileOf(crc, RecordsOf(log[..j]))| <= k)
    ensures var n := Surviving(db.disk, db.base, m);
            n <= |db.history| && Recoverable(Torn(db.disk, m), db.history[..n], BaseHorizon(db.history, db.base, db.horizon))
  {
    m := CutIsTorn(crc, f, tables, db.disk, edits, log, k);
    db.SurvivesTornLog(m);
  }
}
