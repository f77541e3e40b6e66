// The database object together with the bytes of its manifest and its logs: what every
// step writes to them, from opening on, and reopening after a crash at any byte of the
// current log (db/db_impl.cc, db/version_set.cc).
module FileDbs {
  import opened Keys
  import opened Coding
  import opened Log
  import opened WriteBatches
  import opened WriteQueue
  import opened LogReplay
  import opened Version
  import Selection
  import opened Builder
  import Lsm
  import opened InFlight
  import opened Edits
  import opened Manifest
  import opened Durable
  import Recovery
  import opened DbSteps
  import opened TornLogs
  import opened DiskBytes
  import VE = VersionEdits
  import Db

  // ----- the record of an edit -----

  /** What the builder of a table reports of it; the manifest keeps it, and no result
      depends on it. */
  datatype Report = Report(size: nat, smallest: Bytes, largest: Bytes)

  type About = FileMeta -> Report

  ghost predicate ReportsFit(about: About) {
    forall f :: about(f).size < TWO_64 && |about(f).smallest| < TWO_32 && |about(f).largest| < TWO_32
  }

  /** The deleted files, kept in a std::set. */
  function SetOf(deleted: seq<(nat, nat)>): seq<(nat, nat)> {
    if |deleted| == 0 then [] else VE.SetInsert(SetOf(deleted[..|deleted| - 1]), deleted[|deleted| - 1])
  }

  lemma {:induction false} SetOfMembers(deleted: seq<(nat, nat)>)
    ensures VE.SetOk(SetOf(deleted)) && forall x :: x in SetOf(deleted) <==> x in deleted
  {
    if |deleted| > 0 {
      var n := |deleted| - 1;
      SetOfMembers(deleted[..n]);
      VE.SetInsertOk(SetOf(deleted[..n]), deleted[n]);
      assert deleted == deleted[..n] + [deleted[n]];
    }
  }

  function RecordOf(f: FileMeta, about: About): VE.FileRecord {
    VE.FileRecord(f.number, about(f).size, about(f).smallest, about(f).largest)
  }

  function RecordsFor(added: seq<(nat, FileMeta)>, about: About): (r: seq<(nat, VE.FileRecord)>)
    ensures |r| == |added| && forall i :: 0 <= i < |r| ==> r[i] == (added[i].0, RecordOf(added[i].1, about))
  {
    seq(|added|, i requires 0 <= i < |added| => (added[i].0, RecordOf(added[i].1, about)))
  }

  /** The numbers that LogAndApply puts into every edit. */
  datatype Counters = Counters(logNumber: nat, nextFile: nat, lastSequence: nat)

  function VersionEditOf(e: Edit, about: About, c: Counters): VE.Edit {
    VE.Edit(None, Some(c.logNumber), Some(0), Some(c.nextFile), Some(c.lastSequence), [], SetOf(e.deleted), RecordsFor(e.added, about))
  }

  const COMPARATOR: string := "leveldb.BytewiseComparator"

  function ComparatorName(): (r: Bytes)
    ensures |r| == |COMPARATOR|
  {
    seq(|COMPARATOR|, i requires 0 <= i < |COMPARATOR| => (COMPARATOR[i] as int % 256) as Byte)
  }

  /** WriteSnapshot: all files of a version, and no numbers. */
  function SnapshotEditOf(e: Edit, about: About): VE.Edit {
    VE.Edit(Some(ComparatorName()), None, None, None, None, [], [], RecordsFor(e.added, about))
  }

  /** The numbers of an edit fit 64 bits. */
  ghost predicate NumbersFit(e: Edit, next: nat) {
    && next < TWO_64 && EditOk(e)
    && (forall i :: 0 <= i < |e.deleted| ==> e.deleted[i].1 < next)
    && forall i :: 0 <= i < |e.added| ==> e.added[i].1.number < next
  }

  lemma {:induction false} VersionEditFits(e: Edit, about: About, c: Counters)
    requires NumbersFit(e, c.nextFile) && ReportsFit(about) && c.logNumber < TWO_64 && c.lastSequence < TWO_64
    ensures VE.EditFits(VersionEditOf(e, about, c))
  {
    SetOfMembers(e.deleted);
    var ve := VersionEditOf(e, about, c);
    DeletionsFit(e, SetOf(e.deleted), c.nextFile);
    AdditionsFit(e, about, c.nextFile);
    var singles := [VE.LogNumber(c.logNumber), VE.PrevLogNumber(0), VE.NextFile(c.nextFile), VE.LastSequence(c.lastSequence)];
    assert VE.Singles(ve) == singles;
    assert VE.FieldsOf(ve) == singles + ([] + (VE.Deletions(ve.deletedFiles) + VE.Additions(ve.newFiles)));
    assert forall i :: 0 <= i < |singles| ==> VE.Fits(singles[i]);
  }

  lemma {:induction false} DeletionsFit(e: Edit, deleted: seq<(nat, nat)>, next: nat)
    requires NumbersFit(e, next) && forall x :: x in deleted ==> x in e.deleted
    ensures forall i :: 0 <= i < |VE.Deletions(deleted)| ==> VE.Fits(VE.Deletions(deleted)[i])
  {
    forall i | 0 <= i < |deleted| ensures VE.Fits(VE.Deletions(deleted)[i]) {
      assert deleted[i] in deleted;
      var j :| 0 <= j < |e.deleted| && e.deleted[j] == deleted[i];
    }
  }

  lemma {:induction false} AdditionsFit(e: Edit, about: About, next: nat)
    requires NumbersFit(e, next) && ReportsFit(about)
    ensures var added := RecordsFor(e.added, about);
            forall i :: 0 <= i < |VE.Additions(added)| ==> VE.Fits(VE.Additions(added)[i])
  {
  }

  lemma {:induction false} SnapshotEditFits(e: Edit, about: About, next: nat)
    requires NumbersFit(e, next) && ReportsFit(about)
    ensures VE.EditFits(SnapshotEditOf(e, about))
  {
    var ve := SnapshotEditOf(e, about);
    AdditionsFit(e, about, next);
    var singles := [VE.Comparator(ComparatorName())];
    assert VE.Singles(ve) == singles;
    assert VE.FieldsOf(ve) == singles + ([] + ([] + VE.Additions(ve.newFiles)));
    assert VE.Fits(singles[0]);
  }

  /** The files that an edit adds are the tables of those numbers. */
  ghost predicate AddedAreTables(e: Edit, tables: Tables) {
    forall i :: 0 <= i < |e.added| ==> tables(e.added[i].1.number) == e.added[i].1.entries
  }

  lemma {:induction false} AddedReadBack(e: Edit, about: About, c: Counters, tables: Tables)
    requires AddedAreTables(e, tables)
    ensures StoreEdit(VersionEditOf(e, about, c), tables).added == e.added
    ensures StoreEdit(SnapshotEditOf(e, about), tables).added == e.added
  {
  }

  /** Read back, the record of an edit does what the edit does. */
  lemma {:induction false} RecordDoesTheSame(e: Edit, about: About, c: Counters, tables: Tables, files: set<FileMeta>, l: nat)
    requires AddedAreTables(e, tables) && EditOk(e)
    ensures var r := StoreEdit(VersionEditOf(e, about, c), tables);
            EditOk(r) && Builder.Applied(files, r, l) == Builder.Applied(files, e, l)
  {
    var r := StoreEdit(VersionEditOf(e, about, c), tables);
    AddedReadBack(e, about, c, tables);
    SetOfMembers(e.deleted);
    forall i | 0 <= i < |r.deleted| ensures r.deleted[i].0 < NUM_LEVELS {
      assert r.deleted[i] in r.deleted;
      var j :| 0 <= j < |e.deleted| && e.deleted[j] == r.deleted[i];
    }
    SameDeletions(r, e, l);
  }

  lemma {:induction false} SameDeletions(a: Edit, b: Edit, l: nat)
    requires forall x :: x in a.deleted <==> x in b.deleted
    ensures DeletedAt(a, l, |a.deleted|) == DeletedAt(b, l, |b.deleted|)
  {
    forall n ensures n in DeletedAt(a, l, |a.deleted|) <==> (l, n) in a.deleted {
      if (l, n) in a.deleted {
        var i :| 0 <= i < |a.deleted| && a.deleted[i] == (l, n);
      }
    }
    forall n ensures n in DeletedAt(b, l, |b.deleted|) <==> (l, n) in b.deleted {
      if (l, n) in b.deleted {
        var i :| 0 <= i < |b.deleted| && b.deleted[i] == (l, n);
      }
    }
  }

  // ----- tables by number -----

  function WithTable(tables: Tables, f: FileMeta): Tables {
    (n: nat) => if n == f.number then f.entries else tables(n)
  }

  function WithTables(tables: Tables, files: seq<FileMeta>): Tables {
    if |files| == 0 then tables else WithTable(WithTables(tables, files[..|files| - 1]), files[|files| - 1])
  }

  ghost predicate DistinctNumbers(files: seq<FileMeta>) {
    forall i, j :: 0 <= i < j < |files| ==> files[i].number != files[j].number
  }

  lemma {:induction false} WithTablesAre(tables: Tables, files: seq<FileMeta>)
    requires DistinctNumbers(files)
    ensures forall i :: 0 <= i < |files| ==> WithTables(tables, files)(files[i].number) == files[i].entries
    ensures forall n :: (forall i :: 0 <= i < |files| ==> files[i].number != n) ==> WithTables(tables, files)(n) == tables(n)
  {
    if |files| > 0 {
      WithTablesAre(tables, files[..|files| - 1]);
    }
  }

  /** Every edit so far only speaks of tables numbered below `next`. */
  ghost predicate NumbersBelow(edits: seq<VE.Edit>, next: nat) {
    forall i, j {:trigger edits[i].newFiles[j]} :: 0 <= i < |edits| && 0 <= j < |edits[i].newFiles| ==> edits[i].newFiles[j].1.number < next
  }

  /** New tables change nothing of what older edits say. */
  lemma {:induction false} NewTablesAreUnseen(edits: seq<VE.Edit>, tables: Tables, tables': Tables, next: nat)
    requires NumbersBelow(edits, next) && forall n :: 0 <= n < next ==> tables'(n) == tables(n)
    ensures StoreEdits(edits, tables') == StoreEdits(edits, tables)
  {
    forall i | 0 <= i < |edits| ensures StoreEdit(edits[i], tables') == StoreEdit(edits[i], tables) {
      forall j | 0 <= j < |edits[i].newFiles|
        ensures StoreEdit(edits[i], tables').added[j] == StoreEdit(edits[i], tables).added[j] {
        assert edits[i].newFiles[j].1.number < next;
      }
      assert StoreEdit(edits[i], tables').added == StoreEdit(edits[i], tables).added;
    }
  }

  lemma {:induction false} WrittenWithTables(crc: Crc, f: Files, tables: Tables, tables': Tables, d: Disk, edits: seq<VE.Edit>,
      log: seq<LogRecord>, next: nat)
    requires Written(crc, f, tables, d, edits, log) && NumbersBelow(edits, next)
    requires forall n :: 0 <= n < next ==> tables'(n) == tables(n)
    ensures Written(crc, f, tables', d, edits, log)
  {
    NewTablesAreUnseen(edits, tables, tables', next);
    RecoveredAlike(edits, tables, tables', d);
  }

  lemma {:induction false} RecoveredAlike(edits: seq<VE.Edit>, tables: Tables, tables': Tables, d: Disk)
    requires Recovered(edits, tables, d) && StoreEdits(edits, tables') == StoreEdits(edits, tables)
    ensures Recovered(edits, tables', d)
  {
    assert forall i :: 0 <= i < |edits| ==> StoreEdits(edits, tables)[i] == StoreEdit(edits[i], tables);
    assert forall i :: 0 <= i < |edits| ==> StoreEdits(edits, tables')[i] == StoreEdit(edits[i], tables');
  }

  /** Every file that replaying the edits leaves is the table of its number. */
  lemma {:induction false} ReplayedAreTables(edits: seq<VE.Edit>, tables: Tables, l: nat, f: FileMeta)
    requires f in Replay({}, StoreEdits(edits, tables), l)
    ensures f.entries == tables(f.number)
  {
    var n := |edits| - 1;
    assert |edits| > 0;
    assert StoreEdits(edits, tables)[..n] == StoreEdits(edits[..n], tables);
    var e := StoreEdits(edits, tables)[n];
    if f in Replay({}, StoreEdits(edits[..n], tables), l) {
      ReplayedAreTables(edits[..n], tables, l, f);
    } else {
      var i :| 0 <= i < |e.added| && e.added[i].0 == l && e.added[i].1 == f;
    }
  }

  lemma {:induction false} LiveAreTables(edits: seq<VE.Edit>, tables: Tables, d: Disk, l: nat, f: FileMeta)
    requires Recovered(edits, tables, d) && l < NUM_LEVELS && f in d.levels[l]
    ensures f.entries == tables(f.number)
  {
    assert f in FileSet(d.levels[l]);
    ReplayedAreTables(edits, tables, l, f);
  }

  // ----- opening -----

  /** The tables that recovery wrote: those of the new level 0 that the old one had not. */
  function NewFiles(files: seq<FileMeta>, before: seq<FileMeta>): seq<FileMeta> {
    if |files| == 0 then []
    else
      var n := |files| - 1;
      NewFiles(files[..n], before) + (if files[n] in before then [] else [files[n]])
  }

  lemma {:induction false} NewFilesAre(files: seq<FileMeta>, before: seq<FileMeta>, f: FileMeta)
    ensures f in NewFiles(files, before) <==> f in files && f !in before
  {
    if |files| > 0 {
      var n := |files| - 1;
      NewFilesAre(files[..n], before, f);
      assert files == files[..n] + [files[n]];
    }
  }

  /** Recovery finds `d` in the files, and `d` holds the history. Sealed; `OpenStored` opens it. */
  ghost predicate Stored(crc: Crc, f: Files, tables: Tables, d: Disk, h: seq<Entry>, hz: nat) {
    StoredSeal(hz + 9, crc, f, tables, d, h, hz)
  }

  ghost predicate StoredSeal(n: nat, crc: Crc, f: Files, tables: Tables, d: Disk, h: seq<Entry>, hz: nat) {
    if n == 0 then Finds(crc, f, tables, d) && Recoverable(d, h, hz) else StoredSeal(n - 1, crc, f, tables, d, h, hz)
  }

  lemma {:induction false} StoredSealOpens(n: nat, m: nat, crc: Crc, f: Files, tables: Tables, d: Disk, h: seq<Entry>, hz: nat)
    requires m <= n
    ensures StoredSeal(n, crc, f, tables, d, h, hz) == StoredSeal(m, crc, f, tables, d, h, hz)
  {
    if m < n {
      StoredSealOpens(n - 1, m, crc, f, tables, d, h, hz);
    }
  }

  lemma {:induction false} OpenStored(crc: Crc, f: Files, tables: Tables, d: Disk, h: seq<Entry>, hz: nat)
    ensures Stored(crc, f, tables, d, h, hz) <==> Finds(crc, f, tables, d) && Recoverable(d, h, hz)
  {
    StoredSealOpens(hz + 9, 0, crc, f, tables, d, h, hz);
  }

  /** VersionSet::Recover and the reading of the logs, as far as they only read. */
  method ReadFiles(crc: Crc, f: Files, tables: Tables, have: set<nat>, ghost d: Disk, ghost h: seq<Entry>, ghost hz: nat) returns (d': Disk)
    requires Stored(crc, f, tables, d, h, hz)
    ensures d' == d.(tables := have)
  {
    OpenStored(crc, f, tables, d, h, hz);
    var edits := DecodeManifest(crc, f.manifest).value;
    OneTableANumber(edits, tables);
    var levels := RecoverVersion(StoreEdits(edits, tables));
    d' := Disk(levels, Latest(edits, LogNumber).value, Latest(edits, NextFile).value, Latest(edits, LastSequence).value,
               seq(|f.logs|, i requires 0 <= i < |f.logs| => LogFile(f.logs[i].0, DecodeLog(crc, f.logs[i].1))), have);
    assert Finds(crc, f, tables, d') by {
      assert forall i :: 0 <= i < |f.logs| ==> LogFound(crc, f.logs[i], d'.logs[i]);
    }
    FindsOnce(crc, f, tables, d, d');
  }

  lemma {:induction false} OneTableANumber(edits: seq<VE.Edit>, tables: Tables)
    ensures OneFileANumber(StoreEdits(edits, tables))
  {
    var all := StoreEdits(edits, tables);
    forall l ensures NumbersAgree(EverAdded(all, l), EverAdded(all, l)) {
      forall f, g {:trigger SameNumber(f, g)} | f in EverAdded(all, l) && g in EverAdded(all, l) && SameNumber(f, g) ensures f == g {
        EverAddedAreTables(edits, tables, l, f);
        EverAddedAreTables(edits, tables, l, g);
      }
    }
  }

  lemma {:induction false} EverAddedAreTables(edits: seq<VE.Edit>, tables: Tables, l: nat, f: FileMeta)
    requires f in EverAdded(StoreEdits(edits, tables), l)
    ensures f.entries == tables(f.number)
  {
    var n := |edits| - 1;
    assert |edits| > 0;
    assert StoreEdits(edits, tables)[..n] == StoreEdits(edits[..n], tables);
    var e := StoreEdits(edits, tables)[n];
    if f in EverAdded(StoreEdits(edits[..n], tables), l) {
      EverAddedAreTables(edits[..n], tables, l, f);
    } else {
      var i :| 0 <= i < |e.added| && e.added[i].0 == l && e.added[i].1 == f;
    }
  }

  // ----- what opening writes -----

  /** The two records that begin a new manifest: the version that was read, and what
      recovery changed. */
  lemma {:induction false} OpenedIsRecovered(d: Disk, d': Disk, snapshot: Edit, added: seq<FileMeta>, about: About, tables: Tables,
      c: Counters)
    requires |d.levels| == |d'.levels| == NUM_LEVELS && Recovery.LevelsGrow(d.levels, d'.levels)
    requires forall l :: 0 <= l < NUM_LEVELS ==> SortedByKey(d'.levels[l])
    requires EditOk(snapshot) && snapshot.deleted == []
    requires forall l :: 0 <= l < NUM_LEVELS ==> AddedAt(snapshot, l, |snapshot.added|) == FileSet(d.levels[l])
    requires added == NewFiles(d'.levels[0], d.levels[0])
    requires c == Counters(d'.logNumber, d'.nextFile, d'.lastSequence)
    requires var e := Edit([], Additions(0, added)); EditOk(e) && AddedAreTables(snapshot, tables) && AddedAreTables(e, tables)
    ensures Recovered([SnapshotEditOf(snapshot, about), VersionEditOf(Edit([], Additions(0, added)), about, c)], tables, d')
  {
    var e := Edit([], Additions(0, added));
    var s, v := SnapshotEditOf(snapshot, about), VersionEditOf(e, about, c);
    AddedReadBack(snapshot, about, c, tables);
    assert StoreEdit(s, tables) == snapshot;
    assert StoreEdits([s, v], tables) == [snapshot, StoreEdit(v, tables)];
    forall l | 0 <= l < NUM_LEVELS
      ensures FileSet(d'.levels[l]) == Replay({}, [snapshot, StoreEdit(v, tables)], l) && EditOk(StoreEdit(v, tables))
    {
      RecordDoesTheSame(e, about, c, tables, FileSet(d.levels[l]), l);
      TwoRecords(FileSet(d.levels[l]), snapshot, StoreEdit(v, tables), l);
      AddedByRecovery(d.levels[l], d'.levels[l], d.levels[0], d'.levels[0], l);
    }
    LatestOfTwo(s, v);
  }

  lemma {:induction false} TwoRecords(files: set<FileMeta>, snapshot: Edit, e: Edit, l: nat)
    requires snapshot.deleted == [] && AddedAt(snapshot, l, |snapshot.added|) == files
    ensures Replay({}, [snapshot, e], l) == Builder.Applied(files, e, l)
  {
    SnapshotFirst(files, snapshot, [e], l);
    assert [snapshot] + [e] == [snapshot, e] && [e][..0] == [];
  }

  lemma {:induction false} AddedByRecovery(before: seq<FileMeta>, after: seq<FileMeta>, before0: seq<FileMeta>, after0: seq<FileMeta>, l: nat)
    requires l == 0 ==> before == before0 && after == after0 && FileSet(before) <= FileSet(after)
    requires l > 0 ==> FileSet(after) == FileSet(before)
    ensures Builder.Applied(FileSet(before), Edit([], Additions(0, NewFiles(after0, before0))), l) == FileSet(after)
  {
    var added := NewFiles(after0, before0);
    var e := Edit([], Additions(0, added));
    assert DeletedAt(e, l, 0) == {};
    forall f ensures f in AddedAt(e, l, |e.added|) <==> l == 0 && f in added {
      if l == 0 && f in added {
        var i :| 0 <= i < |added| && added[i] == f;
        assert e.added[i] == (0, f);
      }
    }
    forall f ensures f in added <==> f in after0 && f !in before0 {
      NewFilesAre(after0, before0, f);
    }
  }

  lemma {:induction false} LatestOfTwo(s: VE.Edit, v: VE.Edit)
    requires v.logNumber.Some? && v.nextFile.Some? && v.lastSequence.Some?
    ensures Latest([s, v], LogNumber) == v.logNumber && Latest([s, v], NextFile) == v.nextFile
    ensures Latest([s, v], LastSequence) == v.lastSequence
  {
  }

  lemma {:induction false} SortedAreDistinct(levels: Levels, next: nat, l: nat)
    requires |levels| == NUM_LEVELS && Lsm.NumbersUnique(levels, next) && l < NUM_LEVELS && SortedByKey(levels[l])
    ensures DistinctNumbers(levels[l])
  {
    var files := levels[l];
    forall i, j | 0 <= i < j < |files| ensures files[i].number != files[j].number {
      assert ByKey(files[i], files[j]);
      assert Lsm.At(levels, l, files[i]) && Lsm.At(levels, l, files[j]);
    }
  }

  lemma {:induction false} NewFilesDistinct(files: seq<FileMeta>, before: seq<FileMeta>)
    requires DistinctNumbers(files)
    ensures DistinctNumbers(NewFiles(files, before))
  {
    if |files| > 0 {
      var n := |files| - 1;
      NewFilesDistinct(files[..n], before);
      var r := NewFiles(files[..n], before);
      forall i | 0 <= i < |r| ensures r[i].number != files[n].number {
        assert r[i] in r;
        NewFilesAre(files[..n], before, r[i]);
      }
    }
  }

  /** After recovery the old tables are what they were, and the new ones are there. */
  lemma {:induction false} TablesAfterRecovery(levels: Levels, levels': Levels, next: nat, tables: Tables, added: seq<FileMeta>)
    requires Recovery.LevelsGrow(levels, levels') && Lsm.NumbersUnique(levels', next) && SortedByKey(levels'[0])
    requires added == NewFiles(levels'[0], levels[0])
    requires forall l, f :: 0 <= l < NUM_LEVELS && f in levels[l] ==> tables(f.number) == f.entries
    ensures var t := WithTables(tables, added);
            && (forall i :: 0 <= i < |added| ==> t(added[i].number) == added[i].entries)
            && forall l, f :: 0 <= l < NUM_LEVELS && f in levels[l] ==> t(f.number) == f.entries
  {
    var t := WithTables(tables, added);
    SortedAreDistinct(levels', next, 0);
    NewFilesDistinct(levels'[0], levels[0]);
    WithTablesAre(tables, added);
    forall l, f | 0 <= l < NUM_LEVELS && f in levels[l] ensures t(f.number) == f.entries {
      assert f in FileSet(levels[l]) && FileSet(levels[l]) <= FileSet(levels'[l]);
      forall i | 0 <= i < |added| ensures added[i].number != f.number {
        assert added[i] in added;
        NewFilesAre(levels'[0], levels[0], added[i]);
        assert Lsm.At(levels', 0, added[i]) && Lsm.At(levels', l, f);
      }
    }
  }

  /** What the two records need: files that exist, with tables and numbers that fit. */
  lemma {:induction false} OpenedFits(levels: Levels, levels': Levels, snapshot: Edit, added: seq<FileMeta>, tables: Tables, next: nat)
    requires Recovery.LevelsGrow(levels, levels') && Lsm.NumbersUnique(levels', next) && SortedByKey(levels'[0]) && next < TWO_64
    requires AllValid(levels'[0]) && added == NewFiles(levels'[0], levels[0])
    requires EditOk(snapshot) && snapshot.deleted == []
    requires forall l :: 0 <= l < NUM_LEVELS ==> AddedAt(snapshot, l, |snapshot.added|) == FileSet(levels[l])
    requires forall l, f :: 0 <= l < NUM_LEVELS && f in levels[l] ==> tables(f.number) == f.entries
    ensures var e, t := Edit([], Additions(0, added)), WithTables(tables, added);
            NumbersFit(snapshot, next) && NumbersFit(e, next) && AddedAreTables(snapshot, t) && AddedAreTables(e, t)
  {
    var e, t := Edit([], Additions(0, added)), WithTables(tables, added);
    TablesAfterRecovery(levels, levels', next, tables, added);
    forall i | 0 <= i < |snapshot.added|
      ensures snapshot.added[i].1.number < next && t(snapshot.added[i].1.number) == snapshot.added[i].1.entries {
      var l, f := snapshot.added[i].0, snapshot.added[i].1;
      assert f in AddedAt(snapshot, l, |snapshot.added|);
      assert f in FileSet(levels[l]) && FileSet(levels[l]) <= FileSet(levels'[l]);
      assert f in levels'[l];
    }
    forall i | 0 <= i < |added| ensures added[i].number < next && |added[i].entries| > 0 {
      assert added[i] in added;
      NewFilesAre(levels'[0], levels[0], added[i]);
    }
  }

  lemma {:induction false} OpenedLogs(crc: Crc, files: seq<(nat, Bytes)>, logs: seq<LogFile>, number: nat)
    requires |files| == |logs| && forall i :: 0 <= i < |files| ==> LogFound(crc, files[i], logs[i])
    ensures LogsWritten(crc, files + [(number, [])], logs + [LogFile(number, [])], [])
  {
    EmptyLogIsWritten(crc, number);
    forall i | 0 <= i < |files| ensures LogFound(crc, (files + [(number, [])])[i], (logs + [LogFile(number, [])])[i]) {
    }
  }

  lemma {:induction false} OpenedManifest(crc: Crc, d: Disk, d': Disk, snapshot: Edit, added: seq<FileMeta>, about: About, tables: Tables,
      c: Counters)
    requires |d.levels| == |d'.levels| == NUM_LEVELS && Recovery.LevelsGrow(d.levels, d'.levels)
    requires forall l :: 0 <= l < NUM_LEVELS ==> SortedByKey(d'.levels[l])
    requires EditOk(snapshot) && snapshot.deleted == []
    requires forall l :: 0 <= l < NUM_LEVELS ==> AddedAt(snapshot, l, |snapshot.added|) == FileSet(d.levels[l])
    requires added == NewFiles(d'.levels[0], d.levels[0])
    requires c == Counters(d'.logNumber, d'.nextFile, d'.lastSequence) && c.logNumber < TWO_64 && c.lastSequence < TWO_64
    requires ReportsFit(about) && NumbersFit(snapshot, c.nextFile) && NumbersFit(Edit([], Additions(0, added)), c.nextFile)
    requires AddedAreTables(snapshot, tables) && AddedAreTables(Edit([], Additions(0, added)), tables)
    ensures var edits := [SnapshotEditOf(snapshot, about), VersionEditOf(Edit([], Additions(0, added)), about, c)];
            ManifestWritten(crc, FileOf(crc, EditRecords(edits)), tables, d', edits) && NumbersBelow(edits, c.nextFile)
  {
    var e := Edit([], Additions(0, added));
    SnapshotEditFits(snapshot, about, c.nextFile);
    VersionEditFits(e, about, c);
    OpenedIsRecovered(d, d', snapshot, added, about, tables, c);
    TwoBelow(snapshot, e, about, c);
  }

  lemma {:induction false} TwoBelow(snapshot: Edit, e: Edit, about: About, c: Counters)
    requires NumbersFit(snapshot, c.nextFile) && NumbersFit(e, c.nextFile)
    ensures NumbersBelow([SnapshotEditOf(snapshot, about), VersionEditOf(e, about, c)], c.nextFile)
  {
  }

  /** The manifest of a database that was just created (NewDB). */
  function EmptyEdit(): VE.Edit {
    VE.Edit(Some(ComparatorName()), Some(0), None, Some(2), Some(0), [], [], [])
  }

  function CreatedFiles(crc: Crc): Files {
    Files(FileOf(crc, [EditRecord(EmptyEdit())]), [])
  }

  /** A database that was just created is found empty. */
  lemma {:induction false} CreatedIsFound(crc: Crc, tables: Tables)
    ensures var d := Disk(seq(NUM_LEVELS, _ => []), 0, 2, 0, [], {});
            Finds(crc, CreatedFiles(crc), tables, d) && Recoverable(d, [], 0)
  {
    EmptyIsRecoverable();
    var d := Disk(seq(NUM_LEVELS, _ => []), 0, 2, 0, [], {});
    CreatedFits();
    CreatedIsRecovered(tables, d);
    CreatedReadsBack(crc, CreatedFiles(crc).manifest, tables, d, EmptyEdit());
  }

  lemma {:induction false} CreatedReadsBack(crc: Crc, manifest: Bytes, tables: Tables, d: Disk, e: VE.Edit)
    requires VE.EditFits(e) && Recovered([e], tables, d) && manifest == FileOf(crc, [EditRecord(e)])
    ensures DecodeManifest(crc, manifest) == Some([e])
  {
    assert EditRecords([e]) == [EditRecord(e)];
    ManifestReadsBack(crc, manifest, tables, d, [e]);
  }

  lemma {:induction false} CreatedFits()
    ensures VE.EditFits(EmptyEdit())
  {
    var e := EmptyEdit();
    var singles := [VE.Comparator(ComparatorName()), VE.LogNumber(0), VE.NextFile(2), VE.LastSequence(0)];
    assert VE.Singles(e) == singles && VE.FieldsOf(e) == singles + ([] + ([] + []));
    assert forall i :: 0 <= i < |singles| ==> VE.Fits(singles[i]);
  }

  lemma {:induction false} CreatedIsRecovered(tables: Tables, d: Disk)
    requires d == Disk(seq(NUM_LEVELS, _ => []), 0, 2, 0, [], {})
    ensures Recovered([EmptyEdit()], tables, d)
  {
    var e := StoreEdit(EmptyEdit(), tables);
    assert StoreEdits([EmptyEdit()], tables) == [e];
    forall l | 0 <= l < NUM_LEVELS ensures FileSet(d.levels[l]) == Replay({}, [e], l) {
      assert [e][..0] == [];
      assert AddedAt(e, l, 0) == {};
    }
    assert Latest([EmptyEdit()], LogNumber) == Some(0);
  }

  // ----- what the files keep -----

  /** The files hold `d`, and every edit in the manifest speaks of known tables. Sealed;
      `OpenKept` opens it. */
  ghost predicate Kept(crc: Crc, about: About, f: Files, tables: Tables, d: Disk, edits: seq<VE.Edit>, log: seq<LogRecord>, next: nat) {
    |f.logs| > 0 && |d.logs| > 0 && KeptSeal(next + 9, crc, about, f, tables, d, edits, log, next)
  }

  ghost predicate KeptSeal(n: nat, crc: Crc, about: About, f: Files, tables: Tables, d: Disk, edits: seq<VE.Edit>, log: seq<LogRecord>,
      next: nat) {
    if n == 0 then Written(crc, f, tables, d, edits, log) && NumbersBelow(edits, next) && ReportsFit(about)
    else KeptSeal(n - 1, crc, about, f, tables, d, edits, log, next)
  }

  lemma {:induction false} KeptSealOpens(n: nat, m: nat, crc: Crc, about: About, f: Files, tables: Tables, d: Disk, edits: seq<VE.Edit>,
      log: seq<LogRecord>, next: nat)
    requires m <= n
    ensures KeptSeal(n, crc, about, f, tables, d, edits, log, next) == KeptSeal(m, crc, about, f, tables, d, edits, log, next)
  {
    if m < n {
      KeptSealOpens(n - 1, m, crc, about, f, tables, d, edits, log, next);
    }
  }

  lemma {:induction false} OpenKept(crc: Crc, about: About, f: Files, tables: Tables, d: Disk, edits: seq<VE.Edit>,
      log: seq<LogRecord>, next: nat)
    ensures Kept(crc, about, f, tables, d, edits, log, next) <==>
            Written(crc, f, tables, d, edits, log) && NumbersBelow(edits, next) && ReportsFit(about)
  {
    KeptSealOpens(next + 9, 0, crc, about, f, tables, d, edits, log, next);
  }

  function CommittedFiles(crc: Crc, f: Files, first: nat, ops: seq<BatchOp>): Files
    requires |f.logs| > 0
  {
    AppendBytes(f, RecordBytes(crc, |f.logs[|f.logs| - 1].1| % BLOCK_SIZE, Rep(first, ops)))
  }

  lemma {:induction false} CommitKept(crc: Crc, about: About, f: Files, tables: Tables, d: Disk, edits: seq<VE.Edit>,
      log: seq<LogRecord>, next: nat, first: nat, ops: seq<BatchOp>, sync: bool)
    requires Kept(crc, about, f, tables, d, edits, log, next) && first < TWO_64 && Fit(ops)
    ensures Kept(crc, about, CommittedFiles(crc, f, first, ops), tables,
                 d.(logs := AppendRecord(d.logs, Db.BatchEntries(OpsFrom(ops), first))), edits, log + [LogRecord(first, ops, sync)], next)
  {
    var r := LogRecord(first, ops, sync);
    OpenKept(crc, about, f, tables, d, edits, log, next);
    CommitIsWritten(crc, f, tables, d, edits, log, r);
    BatchIsCommit(r);
    OpenKept(crc, about, CommittedFiles(crc, f, first, ops), tables,
             d.(logs := AppendRecord(d.logs, BatchOf(r))), edits, log + [r], next);
  }

  lemma {:induction false} SwitchKept(crc: Crc, about: About, f: Files, tables: Tables, d: Disk, edits: seq<VE.Edit>,
      log: seq<LogRecord>, next: nat)
    requires Kept(crc, about, f, tables, d, edits, log, next)
    ensures Kept(crc, about, f.(logs := f.logs + [(next, [])]), tables, d.(logs := d.logs + [LogFile(next, [])]), edits, [], next + 1)
  {
    OpenKept(crc, about, f, tables, d, edits, log, next);
    NewLogIsWritten(crc, f, tables, d, edits, log, next);
    OpenKept(crc, about, f.(logs := f.logs + [(next, [])]), tables, d.(logs := d.logs + [LogFile(next, [])]), edits, [], next + 1);
  }

  function EditedFiles(crc: Crc, f: Files, ve: VE.Edit): Files {
    f.(manifest := f.manifest + RecordBytes(crc, |f.manifest| % BLOCK_SIZE, EditRecord(ve)))
  }

  /** The record of an edit that leads from the version of `d` to that of `d'`. */
  lemma {:induction false} EditKept(crc: Crc, about: About, f: Files, tables: Tables, d: Disk, edits: seq<VE.Edit>,
      log: seq<LogRecord>, next: nat, e: Edit, d': Disk)
    requires Kept(crc, about, f, tables, d, edits, log, next) && next <= d'.nextFile && d'.logs == d.logs
    requires Follows(d.levels, d'.levels, e) && NumbersFit(e, d'.nextFile) && AddedAreTables(e, tables)
    requires d'.logNumber < TWO_64 && d'.lastSequence < TWO_64
    ensures var ve := VersionEditOf(e, about, Counters(d'.logNumber, d'.nextFile, d'.lastSequence));
            Kept(crc, about, EditedFiles(crc, f, ve), tables, d', edits + [ve], log, d'.nextFile)
  {
    var c := Counters(d'.logNumber, d'.nextFile, d'.lastSequence);
    var ve := VersionEditOf(e, about, c);
    OpenKept(crc, about, f, tables, d, edits, log, next);
    OneEditMore(d, d', e, about, c, tables);
    OneMoreBelow(edits, ve, e, about, c, next);
    EditIsWritten(crc, f, tables, d, edits, log, ve, d');
    OpenKept(crc, about, EditedFiles(crc, f, ve), tables, d', edits + [ve], log, d'.nextFile);
  }

  lemma {:induction false} OneEditMore(d: Disk, d': Disk, e: Edit, about: About, c: Counters, tables: Tables)
    requires Follows(d.levels, d'.levels, e) && NumbersFit(e, c.nextFile) && AddedAreTables(e, tables) && ReportsFit(about)
    requires c.logNumber < TWO_64 && c.lastSequence < TWO_64
    ensures var ve := VersionEditOf(e, about, c);
            VE.EditFits(ve) && EditOk(StoreEdit(ve, tables)) && FollowsAt(d.levels, d'.levels, StoreEdit(ve, tables))
  {
    var ve := VersionEditOf(e, about, c);
    VersionEditFits(e, about, c);
    OpenFollows(d.levels, d'.levels, e);
    RecordDoesTheSame(e, about, c, tables, {}, 0);
    forall l | 0 <= l < NUM_LEVELS
      ensures FileSet(d'.levels[l]) == Builder.Applied(FileSet(d.levels[l]), StoreEdit(ve, tables), l) {
      RecordDoesTheSame(e, about, c, tables, FileSet(d.levels[l]), l);
    }
  }

  lemma {:induction false} OneMoreBelow(edits: seq<VE.Edit>, ve: VE.Edit, e: Edit, about: About, c: Counters, next: nat)
    requires NumbersBelow(edits, next) && next <= c.nextFile && NumbersFit(e, c.nextFile) && ve == VersionEditOf(e, about, c)
    ensures NumbersBelow(edits + [ve], c.nextFile)
  {
    var all := edits + [ve];
    forall i, j {:trigger all[i].newFiles[j]} | 0 <= i < |all| && 0 <= j < |all[i].newFiles| ensures all[i].newFiles[j].1.number < c.nextFile {
      assert i < |edits| ==> edits[i].newFiles[j].1.number < next;
    }
  }

  /** Tables with new numbers, and numbers given out. */
  lemma {:induction false} TablesKept(crc: Crc, about: About, f: Files, tables: Tables, tables': Tables, d: Disk, d': Disk,
      edits: seq<VE.Edit>, log: seq<LogRecord>, next: nat, next': nat)
    requires Kept(crc, about, f, tables, d, edits, log, next) && next <= next' && d'.(tables := {}) == d.(tables := {})
    requires forall n :: 0 <= n < next ==> tables'(n) == tables(n)
    ensures Kept(crc, about, f, tables', d', edits, log, next')
  {
    OpenKept(crc, about, f, tables, d, edits, log, next);
    WrittenWithTables(crc, f, tables, tables', d, edits, log, next);
    WrittenElsewhere(crc, f, tables', d, d', edits, log);
    OpenKept(crc, about, f, tables', d', edits, log, next');
  }

  lemma {:induction false} WrittenElsewhere(crc: Crc, f: Files, tables: Tables, d: Disk, d': Disk, edits: seq<VE.Edit>, log: seq<LogRecord>)
    requires Written(crc, f, tables, d, edits, log) && d'.(tables := {}) == d.(tables := {})
    ensures Written(crc, f, tables, d', edits, log)
  {
    assert d'.levels == d.(tables := {}).levels && d'.logs == d.(tables := {}).logs && d'.logNumber == d.(tables := {}).logNumber;
    assert d'.nextFile == d.(tables := {}).nextFile && d'.lastSequence == d.(tables := {}).lastSequence;
  }

  lemma {:induction false} DeletionKept(crc: Crc, about: About, f: Files, tables: Tables, d: Disk, edits: seq<VE.Edit>,
      log: seq<LogRecord>, next: nat, have: set<nat>)
    requires Kept(crc, about, f, tables, d, edits, log, next) && LogsInOrder(d.logs) && LastLog(d).number >= d.logNumber
    ensures var i := ObsoleteLogs(f.logs, d.logNumber);
            i < |f.logs| && |f.logs| == |d.logs| && KeepLogs(d.logs, d.logNumber) == d.logs[i..]
            && Kept(crc, about, f.(logs := f.logs[i..]), tables, d.(logs := KeepLogs(d.logs, d.logNumber), tables := have), edits, log, next)
  {
    OpenKept(crc, about, f, tables, d, edits, log, next);
    DeletionWritten(crc, f, tables, d, edits, log, have);
    var i := ObsoleteLogs(f.logs, d.logNumber);
    OpenKept(crc, about, f.(logs := f.logs[i..]), tables, d.(logs := KeepLogs(d.logs, d.logNumber), tables := have), edits, log, next);
  }

  lemma {:induction false} DeletionWritten(crc: Crc, f: Files, tables: Tables, d: Disk, edits: seq<VE.Edit>, log: seq<LogRecord>,
      have: set<nat>)
    requires Written(crc, f, tables, d, edits, log) && LogsInOrder(d.logs) && LastLog(d).number >= d.logNumber
    ensures var i := ObsoleteLogs(f.logs, d.logNumber);
            i < |f.logs| && |f.logs| == |d.logs| && KeepLogs(d.logs, d.logNumber) == d.logs[i..]
            && Written(crc, f.(logs := f.logs[i..]), tables, d.(logs := KeepLogs(d.logs, d.logNumber), tables := have), edits, log)
  {
    var i := DeletionIsWritten(crc, f, tables, d, edits, log);
    LoggedNumbers(crc, f.logs, d.logs, log);
    ObsoleteAre(f.logs, d.logs, d.logNumber, i);
    WrittenElsewhere(crc, f.(logs := f.logs[i..]), tables, d.(logs := KeepLogs(d.logs, d.logNumber)),
                     d.(logs := KeepLogs(d.logs, d.logNumber), tables := have), edits, log);
  }

  /** The logs that stay are those that recovery would replay. */
  lemma {:induction false} KeptFiles(crc: Crc, about: About, f: Files, tables: Tables, d: Disk, edits: seq<VE.Edit>,
      log: seq<LogRecord>, next: nat)
    requires Kept(crc, about, f, tables, d, edits, log, next) && LogsInOrder(d.logs)
    ensures forall file :: file in f.logs[ObsoleteLogs(f.logs, d.logNumber)..] <==> file in f.logs && file.0 >= d.logNumber
  {
    KeptNumbers(crc, about, f, tables, d, edits, log, next);
    ObsoleteSplits(f.logs, d.logNumber);
  }

  lemma {:induction false} KeptNumbers(crc: Crc, about: About, f: Files, tables: Tables, d: Disk, edits: seq<VE.Edit>,
      log: seq<LogRecord>, next: nat)
    requires Kept(crc, about, f, tables, d, edits, log, next)
    ensures |f.logs| == |d.logs| && forall i :: 0 <= i < |f.logs| ==> f.logs[i].0 == d.logs[i].number
  {
    OpenKept(crc, about, f, tables, d, edits, log, next);
    LoggedNumbers(crc, f.logs, d.logs, log);
  }

  lemma {:induction false} LoggedNumbers(crc: Crc, files: seq<(nat, Bytes)>, logs: seq<LogFile>, log: seq<LogRecord>)
    requires LogsWritten(crc, files, logs, log)
    ensures |files| == |logs| && forall i :: 0 <= i < |files| ==> files[i].0 == logs[i].number
  {
    forall i | 0 <= i < |files| ensures files[i].0 == logs[i].number {
      assert i < |files| - 1 ==> LogFound(crc, files[i], logs[i]);
    }
  }

  lemma {:induction false} ObsoleteSplits(logs: seq<(nat, Bytes)>, logNumber: nat)
    requires forall i, j :: 0 <= i < j < |logs| ==> logs[i].0 < logs[j].0
    ensures forall file :: file in logs[ObsoleteLogs(logs, logNumber)..] <==> file in logs && file.0 >= logNumber
  {
    if |logs| > 0 && logs[0].0 < logNumber {
      ObsoleteSplits(logs[1..], logNumber);
      assert logs[1..][ObsoleteLogs(logs[1..], logNumber)..] == logs[ObsoleteLogs(logs, logNumber)..];
      assert logs == [logs[0]] + logs[1..];
    }
  }

  /** How many of the logs, which are in order, have a number below the log number. */
  function ObsoleteLogs(logs: seq<(nat, Bytes)>, logNumber: nat): (i: nat)
    ensures i <= |logs|
  {
    if |logs| == 0 || logs[0].0 >= logNumber then 0 else 1 + ObsoleteLogs(logs[1..], logNumber)
  }

  lemma {:induction false} ObsoleteAre(files: seq<(nat, Bytes)>, logs: seq<LogFile>, logNumber: nat, i: nat)
    requires |files| == |logs| && (forall j :: 0 <= j < |logs| ==> files[j].0 == logs[j].number) && LogsInOrder(logs)
    requires i < |logs| && KeepLogs(logs, logNumber) == logs[i..]
    ensures ObsoleteLogs(files, logNumber) == i
  {
    KeptLogsAre(logs, logNumber, logs[i]);
    assert logs[i..][0] == logs[i];
    forall j | 0 <= j < i ensures files[j].0 < logNumber {
      KeptLogsAre(logs, logNumber, logs[j]);
    }
    CountObsolete(files, logNumber, i);
  }

  lemma {:induction false} CountObsolete(files: seq<(nat, Bytes)>, logNumber: nat, i: nat)
    requires i < |files| && (forall j :: 0 <= j < i ==> files[j].0 < logNumber) && files[i].0 >= logNumber
    ensures ObsoleteLogs(files, logNumber) == i
  {
    if i > 0 {
      CountObsolete(files[1..], logNumber, i - 1);
    }
  }

  lemma {:induction false} FoundAreTables(crc: Crc, f: Files, tables: Tables, d: Disk)
    requires Finds(crc, f, tables, d)
    ensures forall l, g :: 0 <= l < NUM_LEVELS && g in d.levels[l] ==> tables(g.number) == g.entries
  {
    forall l, g | 0 <= l < NUM_LEVELS && g in d.levels[l] ensures tables(g.number) == g.entries {
      LiveAreTables(DecodeManifest(crc, f.manifest).value, tables, d, l, g);
    }
  }

  /** The same of the tables that the files speak of. */
  lemma {:induction false} KeptAreTables(crc: Crc, about: About, f: Files, tables: Tables, d: Disk, edits: seq<VE.Edit>,
      log: seq<LogRecord>, next: nat)
    requires Kept(crc, about, f, tables, d, edits, log, next)
    ensures |d.levels| == NUM_LEVELS && ReportsFit(about)
    ensures forall l, g :: 0 <= l < NUM_LEVELS && g in d.levels[l] ==> tables(g.number) == g.entries
  {
    OpenKept(crc, about, f, tables, d, edits, log, next);
    forall l, g | 0 <= l < NUM_LEVELS && g in d.levels[l] ensures tables(g.number) == g.entries {
      LiveAreTables(edits, tables, d, l, g);
    }
  }

  /** A new manifest and a new log after recovery. */
  lemma {:induction false} OpenedKept(crc: Crc, about: About, f: Files, tables: Tables, d: Disk, d': Disk, snapshot: Edit, number: nat)
    requires Finds(crc, f, tables, d) && ReportsFit(about) && Recovery.LevelsGrow(d.levels, d'.levels)
    requires d'.logNumber == number && number < TWO_64 && d'.nextFile < TWO_64 && d'.lastSequence < TWO_64
    requires d'.logs == d.logs + [LogFile(number, [])]
    requires Lsm.NumbersUnique(d'.levels, d'.nextFile) && forall l :: 0 <= l < NUM_LEVELS ==> SortedByKey(d'.levels[l]) && AllValid(d'.levels[l])
    requires EditOk(snapshot) && snapshot.deleted == []
    requires forall l :: 0 <= l < NUM_LEVELS ==> AddedAt(snapshot, l, |snapshot.added|) == FileSet(d.levels[l])
    ensures var added := NewFiles(d'.levels[0], d.levels[0]);
            var edits := OpeningEdits(snapshot, added, about, d');
            Kept(crc, about, Files(FileOf(crc, EditRecords(edits)), f.logs + [(number, [])]), WithTables(tables, added), d', edits, [], d'.nextFile)
  {
    var added := NewFiles(d'.levels[0], d.levels[0]);
    var edits := OpeningEdits(snapshot, added, about, d');
    FoundAreTables(crc, f, tables, d);
    OpenedFits(d.levels, d'.levels, snapshot, added, tables, d'.nextFile);
    OpenedManifest(crc, d, d', snapshot, added, about, WithTables(tables, added), CountersOf(d'));
    OpenedLogs(crc, f.logs, d.logs, number);
    OpenKept(crc, about, Files(FileOf(crc, EditRecords(edits)), f.logs + [(number, [])]), WithTables(tables, added), d', edits, [], d'.nextFile);
  }

  function CountersOf(d: Disk): Counters {
    Counters(d.logNumber, d.nextFile, d.lastSequence)
  }

  /** The snapshot of the version that was read, and the edit that recovery made. */
  function OpeningEdits(snapshot: Edit, added: seq<FileMeta>, about: About, d: Disk): seq<VE.Edit> {
    [SnapshotEditOf(snapshot, about), VersionEditOf(Edit([], Additions(0, added)), about, CountersOf(d))]
  }

  /** An edit without files leads nowhere. */
  lemma {:induction false} EmptyEditFollows(levels: Levels, next: nat)
    requires |levels| == NUM_LEVELS && (forall l :: 0 <= l < NUM_LEVELS ==> SortedByKey(levels[l])) && next < TWO_64
    ensures Follows(levels, levels, Edit([], [])) && NumbersFit(Edit([], []), next)
  {
    var e := Edit([], []);
    OpenFollows(levels, levels, e);
    forall l | 0 <= l < NUM_LEVELS ensures FileSet(levels[l]) == Builder.Applied(FileSet(levels[l]), e, l) {
      assert AddedAt(e, l, 0) == {} && DeletedAt(e, l, 0) == {};
    }
  }

  /** The numbers in the edit of a move or of a compaction's results. */
  lemma {:induction false} MadeEditFits(levels: Levels, live: nat, level: nat, gone0: seq<FileMeta>, gone1: seq<FileMeta>,
      added: seq<FileMeta>, next: nat)
    requires |levels| == NUM_LEVELS && Lsm.NumbersUnique(levels, live) && live <= next < TWO_64 && level + 1 < NUM_LEVELS
    requires forall f :: f in gone0 ==> f in levels[level]
    requires forall f :: f in gone1 ==> f in levels[level + 1]
    requires forall i :: 0 <= i < |added| ==> added[i].number < next && |added[i].entries| > 0
    ensures NumbersFit(MakeEdit(level, gone0, gone1, level + 1, added), next)
  {
    var e := MakeEdit(level, gone0, gone1, level + 1, added);
    forall i | 0 <= i < |e.deleted| ensures e.deleted[i].0 < NUM_LEVELS && e.deleted[i].1 < next {
      if i < |gone0| {
        assert gone0[i] in gone0;
      } else {
        assert gone1[i - |gone0|] in gone1;
      }
    }
  }

  // ----- the database on its files -----

  /** Output tables are on disk as soon as they are written, before they are installed. */
  ghost predicate OutputsAreTables(job: Option<Job>, tables: Tables, next: nat) {
    job.Some? && job.value.outs.Some? ==>
      forall i :: 0 <= i < |job.value.outs.value| ==>
        job.value.outs.value[i].number < next && tables(job.value.outs.value[i].number) == job.value.outs.value[i].entries
  }

  /** The new manifest and the new log of a database that was just recovered from `d`. */
  method BeginFiles(crc: Crc, about: About, f: Files, tables: Tables, d: Disk, db: Db.DbImpl, ghost h: seq<Entry>, ghost hz: nat)
    returns (f': Files, tables': Tables, edits: seq<VE.Edit>)
    requires db.Valid() && Stored(crc, f, tables, d, h, hz) && ReportsFit(about) && Recovery.LevelsGrow(d.levels, db.levels)
    requires |d.levels| == NUM_LEVELS && forall l :: 0 <= l < NUM_LEVELS ==> SortedByKey(d.levels[l])
    requires db.disk == Disk(db.levels, db.logfileNumber, db.nextFile, db.lastSequence, d.logs + [LogFile(db.logfileNumber, [])], db.disk.tables)
    requires db.nextFile < TWO_64 && db.lastSequence < TWO_64
    ensures Kept(crc, about, f', tables', db.disk, edits, [], db.nextFile)
  {
    db.OnDisk();
    var snapshot := SnapshotOf(d.levels);
    var added := NewFiles(db.levels[0], d.levels[0]);
    OpenStored(crc, f, tables, d, h, hz);
    OpenedKept(crc, about, f, tables, d, db.disk, snapshot, db.logfileNumber);
    edits := OpeningEdits(snapshot, added, about, db.disk);
    tables' := WithTables(tables, added);
    f' := Files(FileOf(crc, EditRecords(edits)), f.logs + [(db.logfileNumber, [])]);
  }

  /** The database object on the disk that was found. */
  method RecoverDb(ghost crc: Crc, ghost f: Files, ghost tables: Tables, d: Disk, full: nat -> nat -> bool, ghost h: seq<Entry>, ghost hz: nat)
    returns (db: Db.DbImpl)
    requires Stored(crc, f, tables, d, h, hz) && Db.TableNumbers(d.levels) <= d.tables
    requires hz <= Recovery.Max(d.lastSequence, LastOf(h)) < MAX_SEQUENCE
    ensures fresh(db) && db.Valid() && db.ReadsLikeHistory() && db.ReadsLikeBase()
    ensures db.history == h && db.horizon == hz && db.base == |h| && db.job.None? && db.snapshots == [] && db.imm.None? && db.mem == []
    ensures db.lastSequence == Recovery.Max(d.lastSequence, LastOf(h)) && Recovery.LevelsGrow(d.levels, db.levels)
    ensures db.disk == Disk(db.levels, db.logfileNumber, db.nextFile, db.lastSequence, d.logs + [LogFile(db.logfileNumber, [])], db.disk.tables)
    ensures db.nextFile <= Recovery.NumbersUpTo(d.logs, d.logNumber, d.nextFile + 1) + 1
  {
    OpenStored(crc, f, tables, d, h, hz);
    db := new Db.DbImpl(d, full, h, hz);
  }

  method OpenFiles(crc: Crc, about: About, f: Files, tables: Tables, have: set<nat>, full: nat -> nat -> bool, ghost d: Disk,
      ghost h: seq<Entry>, ghost hz: nat) returns (db: Db.DbImpl, f': Files, tables': Tables, edits: seq<VE.Edit>)
    requires Stored(crc, f, tables, d, h, hz) && hz <= Recovery.Max(d.lastSequence, LastOf(h)) < MAX_SEQUENCE
    requires Db.TableNumbers(d.levels) <= have && ReportsFit(about)
    requires Recovery.NumbersUpTo(d.logs, d.logNumber, d.nextFile + 1) + 1 < TWO_64
    ensures fresh(db) && db.Valid() && Kept(crc, about, f', tables', db.disk, edits, [], db.nextFile)
    ensures db.history == h && db.horizon == hz && db.base == |h| && db.job.None? && db.snapshots == [] && db.imm.None? && db.mem == []
    ensures db.ReadsLikeHistory() && db.ReadsLikeBase()
  {
    var d' := ReadFiles(crc, f, tables, have, d, h, hz);
    StoredWithTables(crc, f, tables, d, d', h, hz);
    db := RecoverDb(crc, f, tables, d', full, h, hz);
    f', tables', edits := BeginFiles(crc, about, f, tables, d', db, h, hz);
  }

  /** An empty memtable is not written. */
  function FlushEdit(level: nat, f: FileMeta): Edit {
    if f.entries == [] then Edit([], []) else MakeEdit(NUM_LEVELS, [], [], level, [f])
  }

  function WithFlushed(tables: Tables, f: FileMeta): Tables {
    if f.entries == [] then tables else WithTable(tables, f)
  }

  class FileDb {
    const crc: Crc
    const about: About
    const db: Db.DbImpl
    var files: Files
    var tables: Tables
    ghost var edits: seq<VE.Edit>
    ghost var log: seq<LogRecord>

    ghost predicate Valid()
      reads this, db
    {
      db.Valid() && Filed()
    }

    /** The files hold what the object has on disk. */
    ghost predicate Filed()
      reads this, db
    {
      && Kept(crc, about, files, tables, db.disk, edits, log, db.nextFile)
      && OutputsAreTables(db.job, tables, db.nextFile)
    }

    /** Opening reads the files, recovers, and begins a new manifest with the version that
        was read and the tables that recovery wrote. */
    constructor (crc: Crc, about: About, f: Files, tables0: Tables, have: set<nat>, full: nat -> nat -> bool, ghost d: Disk,
        ghost h: seq<Entry>, ghost hz: nat)
      requires Stored(crc, f, tables0, d, h, hz) && hz <= Recovery.Max(d.lastSequence, LastOf(h)) < MAX_SEQUENCE
      requires Db.TableNumbers(d.levels) <= have && ReportsFit(about)
      requires Recovery.NumbersUpTo(d.logs, d.logNumber, d.nextFile + 1) + 1 < TWO_64
      ensures Valid() && fresh(db) && this.crc == crc && this.about == about && log == []
      ensures db.history == h && db.horizon == hz && db.base == |h| && db.job.None? && db.snapshots == [] && db.imm.None? && db.mem == []
      ensures db.ReadsLikeHistory() && db.ReadsLikeBase()
    {
      var database, f1, t, es := OpenFiles(crc, about, f, tables0, have, full, d, h, hz);
      this.crc, this.about, db, files, tables := crc, about, database, f1, t;
      edits, log := es, [];
    }

    /** A group commit: its record goes to the current log. The last operation on a key decides
        what is read of it from then on. */
    method Write(ops: seq<BatchOp>, sync: bool)
      requires Valid() && db.lastSequence + |ops| < MAX_SEQUENCE && Fit(ops)
      modifies this`files, this`log, db
      ensures Valid() && edits == old(edits) && files.manifest == old(files.manifest)
      ensures log == old(log) + [LogRecord(old(db.lastSequence) + 1, ops, sync)]
      ensures db.history == old(db.history) + Db.BatchEntries(OpsFrom(ops), old(db.lastSequence) + 1)
      ensures ReadsMove(old(db.history), old(db.lastSequence), db.history, db.lastSequence, ops)
      ensures db.mem == Db.Memory(old(db.mem), Db.BatchEntries(OpsFrom(ops), old(db.lastSequence) + 1)) && db.imm == old(db.imm)
      ensures db.lastSequence == old(db.lastSequence) + |ops| && db.snapshots == old(db.snapshots) && db.horizon == old(db.horizon)
      ensures old(db.ReadsLikeHistory()) ==> db.ReadsLikeHistory()
      ensures old(db.ReadsLikeBase()) ==> db.ReadsLikeBase()
    {
      CommitKept(crc, about, files, tables, db.disk, edits, log, db.nextFile, db.lastSequence + 1, ops, sync);
      files := CommittedFiles(crc, files, db.lastSequence + 1, ops);
      log := log + [LogRecord(db.lastSequence + 1, ops, sync)];
      ghost var h, last := db.history, db.lastSequence;
      db.Write(OpsFrom(ops));
      CommitIsRead(h, last, db.history, db.lastSequence, ops);
    }

    /** A new log file for the new memtable. */
    method SwitchMemTable()
      requires Valid() && db.imm.None?
      modifies this`files, this`log, db
      ensures Valid() && edits == old(edits) && log == [] && db.history == old(db.history)
      ensures db.mem == [] && db.imm == Some(old(db.mem)) && db.snapshots == old(db.snapshots) && db.lastSequence == old(db.lastSequence)
      ensures files == old(files).(logs := old(files.logs) + [(db.logfileNumber, [])])
      ensures old(db.ReadsLikeHistory()) ==> db.ReadsLikeHistory() && db.ReadsLikeBase()
    {
      SwitchKept(crc, about, files, tables, db.disk, edits, log, db.nextFile);
      files := files.(logs := files.logs + [(db.nextFile, [])]);
      log := [];
      db.SwitchMemTable();
    }

    /** LogAndApply: the record of an edit that led from the version of `d` to the current one. */
    method LogAndApply(e: Edit, ghost d: Disk, ghost next: nat)
      requires db.Standing() && Kept(crc, about, files, tables, d, edits, log, next) && next <= db.nextFile
      requires Follows(d.levels, db.levels, e) && NumbersFit(e, db.nextFile) && AddedAreTables(e, tables)
      requires db.disk == Disk(db.levels, db.disk.logNumber, db.nextFile, db.lastSequence, d.logs, db.disk.tables)
      modifies this`files, this`edits
      ensures Kept(crc, about, files, tables, db.disk, edits, log, db.nextFile)
      ensures edits == old(edits) + [VersionEditOf(e, about, CountersOf(db.disk))]
      ensures files == EditedFiles(crc, old(files), VersionEditOf(e, about, CountersOf(db.disk)))
    {
      db.OnDisk();
      var ve := VersionEditOf(e, about, CountersOf(db.disk));
      EditKept(crc, about, files, tables, d, edits, log, next, e, db.disk);
      files := EditedFiles(crc, files, ve);
      edits := edits + [ve];
    }

    /** Writes the immutable memtable to a table, and the edit that adds it to the manifest. */
    method CompactMemTable(crowded: nat -> bool) returns (level: nat)
      requires Valid() && db.imm.Some? && db.nextFile + 1 < TWO_64
      modifies this`files, this`tables, this`edits, db
      ensures db.Standing() && Filed()
      ensures Valid() <==> (db.job.Some? ==>
                              AvoidsGaps(old(db.levels), db.job.value, FileMeta(old(db.nextFile), old(db.imm).value), crowded))
      ensures log == old(log) && db.imm.None? && db.history == old(db.history) && level <= 2
      ensures db.mem == old(db.mem) && db.snapshots == old(db.snapshots) && db.lastSequence == old(db.lastSequence)
      ensures var f := FileMeta(old(db.nextFile), old(db.imm).value);
              && edits == old(edits) + [VersionEditOf(FlushEdit(level, f), about, CountersOf(db.disk))]
              && files == EditedFiles(crc, old(files), VersionEditOf(FlushEdit(level, f), about, CountersOf(db.disk)))
              && tables == WithFlushed(old(tables), f)
      ensures old(db.ReadsLikeHistory()) ==> db.ReadsLikeHistory()
      ensures old(db.ReadsLikeBase()) ==> db.ReadsLikeBase()
    {
      ghost var d, next := db.disk, db.nextFile;
      var f := FileMeta(db.nextFile, db.imm.value);
      db.OnDisk();
      level := db.CompactMemTable(crowded);
      FlushKept(crc, about, files, tables, d, edits, log, next, level, f, db.levels);
      tables := WithFlushed(tables, f);
      LogAndApply(FlushEdit(level, f), d, next + 1);
    }

    /** Choosing inputs writes nothing; nor do Get, the snapshots and the pins, which are
        called on `db` as they are. */
    method PickAutomatic(level: nat, picked: nat, mayExpand: bool)
      requires Valid() && db.job.None? && level + 1 < NUM_LEVELS && picked < |db.levels[level]|
      modifies db`job
      ensures Valid() && db.job.Some? && db.job.value.outs.None? && db.levels[level][picked] in db.job.value.c.in0
    {
      db.PickAutomatic(level, picked, mayExpand);
    }

    method PickManual(level: nat, begin: Option<UserKey>, end: Option<UserKey>, limit: nat, mayExpand: bool)
      requires Valid() && db.job.None? && level + 1 < NUM_LEVELS
      modifies db`job
      ensures Valid() && (db.job.Some? <==> Selection.SomeMeets(db.levels[level], begin, end))
    {
      db.PickManual(level, begin, end, limit, mayExpand);
    }

    method TrivialMove()
      requires Valid() && db.nextFile < TWO_64
      requires db.job.Some? && db.job.value.outs.None? && |db.job.value.c.in0| == 1 && db.job.value.c.in1 == []
      modifies this`files, this`edits, db
      ensures Valid() && log == old(log) && db.job.None? && db.history == old(db.history)
      ensures db.mem == old(db.mem) && db.imm == old(db.imm) && db.snapshots == old(db.snapshots) && db.lastSequence == old(db.lastSequence)
      ensures var c := old(db.job.value.c);
              var e := MakeEdit(c.level, c.in0, [], c.level + 1, c.in0);
              && edits == old(edits) + [VersionEditOf(e, about, CountersOf(db.disk))]
              && files == EditedFiles(crc, old(files), VersionEditOf(e, about, CountersOf(db.disk)))
      ensures old(db.ReadsLikeHistory()) ==> db.ReadsLikeHistory()
      ensures old(db.ReadsLikeBase()) ==> db.ReadsLikeBase()
    {
      ghost var d := db.disk;
      var c := db.job.value.c;
      db.JobOnDisk();
      db.OnDisk();
      MovedAreTables(crc, about, files, tables, d, edits, log, db.nextFile, c);
      db.TrivialMove();
      LogAndApply(MakeEdit(c.level, c.in0, [], c.level + 1, c.in0), d, db.nextFile);
    }

    /** The output tables are written before they are installed. */
    method DoCompactionWork(stopBefore: nat -> bool, full: nat -> bool)
      requires Valid() && db.job.Some? && db.job.value.outs.None?
      modifies this`tables, db
      ensures Valid() && db.job.Some? && db.job.value.outs.Some? && db.job.value.c == old(db.job.value.c)
      ensures tables == WithTables(old(tables), db.job.value.outs.value) && db.history == old(db.history)
      ensures Db.OutputsAre(db.job.value.c, db.job.value.outs.value, stopBefore, full)
      ensures db.mem == old(db.mem) && db.imm == old(db.imm) && db.snapshots == old(db.snapshots) && db.lastSequence == old(db.lastSequence)
      ensures old(db.ReadsLikeHistory()) ==> db.ReadsLikeHistory()
      ensures old(db.ReadsLikeBase()) ==> db.ReadsLikeBase()
    {
      ghost var d, next := db.disk, db.nextFile;
      db.DoCompactionWork(stopBefore, full);
      var outs := db.job.value.outs.value;
      WithTablesAre(tables, outs);
      TablesKept(crc, about, files, tables, WithTables(tables, outs), d, db.disk, edits, log, next, db.nextFile);
      tables := WithTables(tables, outs);
    }

    method InstallCompactionResults()
      requires Valid() && db.job.Some? && db.job.value.outs.Some? && db.nextFile < TWO_64
      modifies this`files, this`edits, db
      ensures Valid() && log == old(log) && db.job.None? && db.history == old(db.history)
      ensures db.mem == old(db.mem) && db.imm == old(db.imm) && db.snapshots == old(db.snapshots) && db.lastSequence == old(db.lastSequence)
      ensures var c := old(db.job.value.c);
              var e := MakeEdit(c.level, c.in0, c.in1, c.level + 1, old(db.job.value.outs.value));
              && edits == old(edits) + [VersionEditOf(e, about, CountersOf(db.disk))]
              && files == EditedFiles(crc, old(files), VersionEditOf(e, about, CountersOf(db.disk)))
      ensures old(db.ReadsLikeHistory()) ==> (db.ReadsLikeHistory() <==> !old(Unsafe(db.Abs(), db.job.value)))
      ensures old(db.ReadsLikeBase()) ==> (db.ReadsLikeBase() <==> !old(Unsafe(BaseStore(db.Abs()), db.job.value)))
    {
      ghost var d := db.disk;
      var c, outs := db.job.value.c, db.job.value.outs.value;
      db.JobOnDisk();
      db.OnDisk();
      MadeEditFits(d.levels, d.nextFile, c.level, c.in0, c.in1, outs, db.nextFile);
      db.InstallCompactionResults();
      LogAndApply(MakeEdit(c.level, c.in0, c.in1, c.level + 1, outs), d, db.nextFile);
    }

    method RemoveObsoleteFiles()
      requires Valid()
      modifies this`files, db`disk
      ensures Valid() && db.history == old(db.history) && files.manifest == old(files.manifest)
      ensures forall file :: file in files.logs <==> file in old(files.logs) && file.0 >= db.disk.logNumber
      ensures db.disk.tables == old(db.disk.tables) * db.LiveTables()
      ensures old(db.ReadsLikeHistory()) ==> db.ReadsLikeHistory()
      ensures old(db.ReadsLikeBase()) ==> db.ReadsLikeBase()
    {
      db.OnDisk();
      ghost var d := db.disk;
      var i := ObsoleteLogs(files.logs, db.disk.logNumber);
      KeptFiles(crc, about, files, tables, d, edits, log, db.nextFile);
      db.DeleteObsolete();
      DeletionKept(crc, about, files, tables, d, edits, log, db.nextFile, db.disk.tables);
      files := files.(logs := files.logs[i..]);
    }

    /** What a crash that cut the current log off at byte `k` leaves can be opened. */
    lemma {:induction false} AfterCrash(k: nat) returns (m: nat)
      requires db.Standing() && Filed() && db.ReadsLikeBase() && k <= |files.logs[|files.logs| - 1].1|
      ensures m <= |log| && forall j {:trigger log[..j]} :: 0 <= j <= |log| ==> (j <= m <==> |FileOf(crc, RecordsOf(log[..j]))| <= k)
      ensures m <= |LastLog(db.disk).records| && db.base <= Surviving(db.disk, db.base, m) <= |db.history|
      ensures var d, h, hz := Torn(db.disk, m), db.history[..Surviving(db.disk, db.base, m)], BaseHorizon(db.history, db.base, db.horizon);
              && Stored(crc, CutFiles(files, k), tables, d, h, hz) && hz <= Recovery.Max(d.lastSequence, LastOf(h)) < MAX_SEQUENCE
              && Recovery.NumbersUpTo(d.logs, d.logNumber, d.nextFile + 1) <=
                   Recovery.NumbersUpTo(db.disk.logs, db.disk.logNumber, db.disk.nextFile + 1)
              && Db.TableNumbers(d.levels) <= db.disk.tables && ReportsFit(about)
              && (k == |files.logs[|files.logs| - 1].1| ==> h == db.history)
    {
      m := CutIsStored(crc, about, files, tables, db.disk, edits, log, db.nextFile, k);
      db.SurvivesTornLog(m);
      NumbersUpToTorn(db.disk, m);
      if m == |LastLog(db.disk).records| {
        WholeHistory(db, m);
      }
    }

    /** The same for a crash that came while an edit was being written to the manifest: of
        its record all bytes but the last may be there. */
    lemma {:induction false} AfterCrashInEdit(k: nat, ve: VE.Edit, j: nat) returns (m: nat)
      requires db.Standing() && Filed() && db.ReadsLikeBase() && k <= |files.logs[|files.logs| - 1].1|
      requires VE.EditFits(ve) && |files.manifest| <= j < |EditedFiles(crc, files, ve).manifest|
      ensures m <= |log| && forall i {:trigger log[..i]} :: 0 <= i <= |log| ==> (i <= m <==> |FileOf(crc, RecordsOf(log[..i]))| <= k)
      ensures m <= |LastLog(db.disk).records| && db.base <= Surviving(db.disk, db.base, m) <= |db.history|
      ensures Stored(crc, CutFiles(files, k).(manifest := EditedFiles(crc, files, ve).manifest[..j]), tables, Torn(db.disk, m),
                     db.history[..Surviving(db.disk, db.base, m)], BaseHorizon(db.history, db.base, db.horizon))
    {
      m := AfterCrash(k);
      UnfinishedEditIsUnseen(crc, about, files, tables, db.disk, edits, log, db.nextFile, ve, j);
      StoredAlike(crc, CutFiles(files, k), tables, Torn(db.disk, m), db.history[..Surviving(db.disk, db.base, m)],
                  BaseHorizon(db.history, db.base, db.horizon), EditedFiles(crc, files, ve).manifest[..j]);
    }

    /** Opening again after a crash that cut the current log off at byte `k`, at any moment of
        any run: the database has the history up to the last record that was whole, and reads
        like it. */
    method Reopen(k: nat, full: nat -> nat -> bool) returns (again: FileDb, ghost m: nat)
      requires db.Standing() && Filed() && db.ReadsLikeBase() && k <= |files.logs[|files.logs| - 1].1|
      requires Recovery.NumbersUpTo(db.disk.logs, db.disk.logNumber, db.disk.nextFile + 1) + 1 < TWO_64
      ensures fresh(again) && fresh(again.db) && again.Valid() && again.crc == crc && again.about == about
      ensures m <= |log| && forall j {:trigger log[..j]} :: 0 <= j <= |log| ==> (j <= m <==> |FileOf(crc, RecordsOf(log[..j]))| <= k)
      ensures m <= |LastLog(db.disk).records| && Surviving(db.disk, db.base, m) <= |db.history|
      ensures again.db.history == db.history[..Surviving(db.disk, db.base, m)]
      ensures again.db.ReadsLikeHistory() && again.db.ReadsLikeBase() && again.db.snapshots == [] && again.db.imm.None? && again.db.mem == []
      ensures k == |files.logs[|files.logs| - 1].1| ==> again.db.history == db.history
    {
      m := AfterCrash(k);
      ghost var h := db.history[..Surviving(db.disk, db.base, m)];
      again := new FileDb(crc, about, CutFiles(files, k), tables, db.disk.tables, full, Torn(db.disk, m), h,
                          BaseHorizon(db.history, db.base, db.horizon));
    }
  }

  /** Opening where there is no database yet: an empty one is created and then recovered
      like any other. */
  method Create(crc: Crc, about: About, tables: Tables, full: nat -> nat -> bool) returns (r: FileDb)
    requires ReportsFit(about)
    ensures fresh(r) && fresh(r.db) && r.Valid() && r.crc == crc && r.about == about && r.log == []
    ensures forall u, sn :: HistoryRead(r.db.history, u, sn) == None
    ensures r.db.history == [] && r.db.ReadsLikeHistory() && r.db.ReadsLikeBase() && r.db.snapshots == [] && r.db.imm.None? && r.db.mem == []
  {
    ghost var d := Disk(seq(NUM_LEVELS, _ => []), 0, 2, 0, [], {});
    CreatedIsFound(crc, tables);
    OpenStored(crc, CreatedFiles(crc), tables, d, [], 0);
    r := new FileDb(crc, about, CreatedFiles(crc), tables, {}, full, d, [], 0);
  }

  lemma {:induction false} FlushKept(crc: Crc, about: About, files: Files, tables: Tables, d: Disk, edits: seq<VE.Edit>,
      log: seq<LogRecord>, next: nat, level: nat, f: FileMeta, levels: Levels)
    requires Kept(crc, about, files, tables, d, edits, log, next) && f.number == next && next + 1 < TWO_64 && level < NUM_LEVELS
    requires |d.levels| == NUM_LEVELS && forall l :: 0 <= l < NUM_LEVELS ==> SortedByKey(d.levels[l])
    requires if f.entries == [] then levels == d.levels else Follows(d.levels, levels, MakeEdit(NUM_LEVELS, [], [], level, [f]))
    ensures var e, t := FlushEdit(level, f), WithFlushed(tables, f);
            && Kept(crc, about, files, t, d, edits, log, next + 1)
            && Follows(d.levels, levels, e) && NumbersFit(e, next + 1) && AddedAreTables(e, t)
  {
    TablesKept(crc, about, files, tables, WithFlushed(tables, f), d, d, edits, log, next, next + 1);
    if f.entries == [] {
      EmptyEditFollows(levels, next + 1);
    } else {
      FlushEditFits(level, f, next + 1);
    }
  }

  lemma {:induction false} FlushEditFits(level: nat, f: FileMeta, next: nat)
    requires level < NUM_LEVELS && f.number < next < TWO_64 && |f.entries| > 0
    ensures NumbersFit(MakeEdit(NUM_LEVELS, [], [], level, [f]), next)
  {
    assert MakeEdit(NUM_LEVELS, [], [], level, [f]).deleted == [];
  }

  lemma {:induction false} MovedAreTables(crc: Crc, about: About, f: Files, tables: Tables, d: Disk, edits: seq<VE.Edit>,
      log: seq<LogRecord>, next: nat, c: Pending)
    requires Kept(crc, about, f, tables, d, edits, log, next) && d.nextFile <= next < TWO_64 && c.level + 1 < NUM_LEVELS
    requires |d.levels| == NUM_LEVELS && Lsm.NumbersUnique(d.levels, d.nextFile)
    requires forall g :: g in c.in0 ==> g in d.levels[c.level] && g.Valid()
    ensures var e := MakeEdit(c.level, c.in0, [], c.level + 1, c.in0);
            NumbersFit(e, next) && AddedAreTables(e, tables)
  {
    KeptAreTables(crc, about, f, tables, d, edits, log, next);
    forall i | 0 <= i < |c.in0| ensures c.in0[i].number < next && |c.in0[i].entries| > 0 && tables(c.in0[i].number) == c.in0[i].entries {
      assert c.in0[i] in c.in0;
    }
    MadeEditFits(d.levels, d.nextFile, c.level, c.in0, [], c.in0, next);
  }

  lemma {:induction false} CutIsStored(crc: Crc, about: About, f: Files, tables: Tables, d: Disk, edits: seq<VE.Edit>,
      log: seq<LogRecord>, next: nat, k: nat) returns (m: nat)
    requires Kept(crc, about, f, tables, d, edits, log, next) && k <= |f.logs[|f.logs| - 1].1|
    ensures m <= |LastLog(d).records| && |log| == |LastLog(d).records| && ReportsFit(about)
    ensures forall j {:trigger log[..j]} :: 0 <= j <= |log| ==> (j <= m <==> |FileOf(crc, RecordsOf(log[..j]))| <= k)
    ensures k == |f.logs[|f.logs| - 1].1| ==> m == |log|
    ensures forall h, hz :: Recoverable(Torn(d, m), h, hz) ==> Stored(crc, CutFiles(f, k), tables, Torn(d, m), h, hz)
  {
    OpenKept(crc, about, f, tables, d, edits, log, next);
    m := CutIsTorn(crc, f, tables, d, edits, log, k);
    CutWhole(crc, f, tables, d, edits, log);
    FoundIsStored(crc, CutFiles(f, k), tables, Torn(d, m));
  }

  lemma {:induction false} CutWhole(crc: Crc, f: Files, tables: Tables, d: Disk, edits: seq<VE.Edit>, log: seq<LogRecord>)
    requires Written(crc, f, tables, d, edits, log)
    ensures |log| == |LastLog(d).records| && log[..|log|] == log
    ensures |FileOf(crc, RecordsOf(log))| == |f.logs[|f.logs| - 1].1|
  {
  }

  lemma {:induction false} FoundIsStored(crc: Crc, f: Files, tables: Tables, d: Disk)
    requires Finds(crc, f, tables, d)
    ensures forall h, hz :: Recoverable(d, h, hz) ==> Stored(crc, f, tables, d, h, hz)
  {
    forall h, hz | Recoverable(d, h, hz) ensures Stored(crc, f, tables, d, h, hz) {
      OpenStored(crc, f, tables, d, h, hz);
    }
  }

  lemma {:induction false} WholeHistory(db: Db.DbImpl, m: nat)
    requires db.Standing() && |db.disk.logs| > 0 && m == |LastLog(db.disk).records|
    ensures Surviving(db.disk, db.base, m) == |db.history|
  {
    Db.OpenCore(db.Abs(), db.disk, db.logfileNumber, db.nextFile, db.lastSequence, db.history, db.base);
    assert LastLog(db.disk).records[..m] == LastLog(db.disk).records;
  }

  lemma {:induction false} UnfinishedEditIsUnseen(crc: Crc, about: About, f: Files, tables: Tables, d: Disk, edits: seq<VE.Edit>,
      log: seq<LogRecord>, next: nat, ve: VE.Edit, j: nat)
    requires Kept(crc, about, f, tables, d, edits, log, next) && VE.EditFits(ve)
    requires |f.manifest| <= j < |EditedFiles(crc, f, ve).manifest|
    ensures DecodeManifest(crc, EditedFiles(crc, f, ve).manifest[..j]) == DecodeManifest(crc, f.manifest)
  {
    OpenKept(crc, about, f, tables, d, edits, log, next);
    ManifestReadsBack(crc, f.manifest, tables, d, edits);
    EditAppended(crc, edits, ve);
    UnfinishedEditIsForgotten(crc, edits, ve, j);
  }

  lemma {:induction false} StoredAlike(crc: Crc, f: Files, tables: Tables, d: Disk, h: seq<Entry>, hz: nat, manifest: Bytes)
    requires Stored(crc, f, tables, d, h, hz) && DecodeManifest(crc, manifest) == DecodeManifest(crc, f.manifest)
    ensures Stored(crc, f.(manifest := manifest), tables, d, h, hz)
  {
    OpenStored(crc, f, tables, d, h, hz);
    OpenStored(crc, f.(manifest := manifest), tables, d, h, hz);
  }

  lemma {:induction false} NumbersUpToTorn(d: Disk, m: nat)
    requires |d.logs| > 0 && m <= |LastLog(d).records|
    ensures Recovery.NumbersUpTo(Torn(d, m).logs, d.logNumber, d.nextFile + 1) <= Recovery.NumbersUpTo(d.logs, d.logNumber, d.nextFile + 1)
  {
    var n := |d.logs| - 1;
    assert Torn(d, m).logs[..n] == d.logs[..n];
  }

  lemma {:induction false} StoredWithTables(crc: Crc, f: Files, tables: Tables, d: Disk, d': Disk, h: seq<Entry>, hz: nat)
    requires Stored(crc, f, tables, d, h, hz) && d' == d.(tables := d'.tables)
    ensures Stored(crc, f, tables, d', h, hz)
    ensures |d'.levels| == NUM_LEVELS && forall l :: 0 <= l < NUM_LEVELS ==> SortedByKey(d'.levels[l])
  {
    OpenStored(crc, f, tables, d, h, hz);
    OpenStored(crc, f, tables, d', h, hz);
    forall i | 0 <= i < |f.logs| ensures LogFound(crc, f.logs[i], d'.logs[i]) {
      assert LogFound(crc, f.logs[i], d.logs[i]);
    }
  }
}
