// The database with everything that a caller meets at once: the bytes of its files, its
// memtables as skip lists, and the list of its snapshots (db/db_impl.cc). A batch is
// logged, then inserted entry by entry, then published; readers may come at any time.
module LiveDbs {
  import opened Keys
  import opened Coding
  import opened KeyOrder
  import opened Version
  import opened Lsm
  import opened Recovery
  import opened DbSteps
  import WriteBatches
  import WriteQueue
  import SkipLists
  import opened MemTables
  import opened Snapshots
  import DiskBytes
  import opened FileDbs
  import Db

  // ----- a memtable that a batch is on its way to -----

  /** Up to a sequence number the two hold the same. Sealed; `OpenAgree` opens it. */
  ghost predicate AgreeUpTo(a: seq<Entry>, b: seq<Entry>, above: nat) {
    AgreeSeal(above + 9, a, b, above)
  }

  ghost predicate AgreeSeal(n: nat, a: seq<Entry>, b: seq<Entry>, above: nat) {
    if n == 0 then forall e: Entry :: e.key.sn <= above ==> (e in a <==> e in b) else AgreeSeal(n - 1, a, b, above)
  }

  lemma {:induction false} AgreeSealOpens(n: nat, m: nat, a: seq<Entry>, b: seq<Entry>, above: nat)
    requires m <= n
    ensures AgreeSeal(n, a, b, above) == AgreeSeal(m, a, b, above)
  {
    if m < n {
      AgreeSealOpens(n - 1, m, a, b, above);
    }
  }

  lemma {:induction false} OpenAgree(a: seq<Entry>, b: seq<Entry>, above: nat)
    ensures AgreeUpTo(a, b, above) <==> forall e: Entry :: e.key.sn <= above ==> (e in a <==> e in b)
  {
    AgreeSealOpens(above + 9, 0, a, b, above);
  }

  /** A read up to there finds the same in both. */
  lemma {:induction false} FindsAlike(a: seq<Entry>, b: seq<Entry>, above: nat, u: UserKey, sn: nat, r: Option<Entry>)
    requires AgreeUpTo(a, b, above) && sn <= above && Finds(Elements(a), u, sn, r)
    ensures Finds(Elements(b), u, sn, r)
  {
    OpenAgree(a, b, above);
    forall e | e in Elements(b) && Candidate(e, u, sn) ensures e in Elements(a) {
      assert e.key.sn <= above;
    }
  }

  lemma {:induction false} AgreeWithNewer(a: seq<Entry>, a': seq<Entry>, b: seq<Entry>, above: nat)
    requires AgreeUpTo(a, b, above) && AddsOnlyNewer(a, a', above)
    ensures AgreeUpTo(a', b, above)
  {
    OpenAgree(a, b, above);
    OpenAgree(a', b, above);
  }

  lemma {:induction false} AgreeWithSelf(a: seq<Entry>, above: nat)
    ensures AgreeUpTo(a, a, above)
  {
    OpenAgree(a, a, above);
  }

  /** `mem` holds the first `done` entries of a batch numbered on from `published`, and `full`
      all of them, on top of older ones. */
  ghost predicate HoldsPart(mem: seq<Entry>, full: seq<Entry>, before: seq<Entry>, batch: seq<Entry>, done: nat, published: nat) {
    && done <= |batch| && mem == InsertAll(before, batch[..done]) && full == InsertAll(before, batch)
    && (forall i :: 0 <= i < |batch| ==> batch[i].key.sn == published + 1 + i) && forall e :: e in before ==> e.key.sn <= published
  }

  /** `HoldsPart`, sealed; `OpenPart` opens it. */
  ghost predicate Partly(mem: seq<Entry>, full: seq<Entry>, before: seq<Entry>, batch: seq<Entry>, done: nat, published: nat) {
    PartlySeal(done + 9, mem, full, before, batch, done, published)
  }

  ghost predicate PartlySeal(n: nat, mem: seq<Entry>, full: seq<Entry>, before: seq<Entry>, batch: seq<Entry>, done: nat, published: nat) {
    if n == 0 then HoldsPart(mem, full, before, batch, done, published)
    else PartlySeal(n - 1, mem, full, before, batch, done, published)
  }

  lemma {:induction false} PartlySealOpens(n: nat, m: nat, mem: seq<Entry>, full: seq<Entry>, before: seq<Entry>, batch: seq<Entry>,
      done: nat, published: nat)
    requires m <= n
    ensures PartlySeal(n, mem, full, before, batch, done, published) == PartlySeal(m, mem, full, before, batch, done, published)
  {
    if m < n {
      PartlySealOpens(n - 1, m, mem, full, before, batch, done, published);
    }
  }

  lemma {:induction false} OpenPart(mem: seq<Entry>, full: seq<Entry>, before: seq<Entry>, batch: seq<Entry>, done: nat, published: nat)
    ensures Partly(mem, full, before, batch, done, published) <==> HoldsPart(mem, full, before, batch, done, published)
  {
    PartlySealOpens(done + 9, 0, mem, full, before, batch, done, published);
  }

  /** Whatever part of the batch is in, reads up to what is published see no difference. */
  lemma {:induction false} PartAgrees(mem: seq<Entry>, full: seq<Entry>, before: seq<Entry>, batch: seq<Entry>, done: nat, published: nat)
    requires HoldsPart(mem, full, before, batch, done, published)
    ensures AgreeUpTo(mem, full, published)
  {
    OpenAgree(mem, full, published);
    InsertAllElements(before, batch[..done]);
    InsertAllElements(before, batch);
    forall e: Entry | e.key.sn <= published ensures e in mem <==> e in full {
      assert e !in Elements(batch) && e !in Elements(batch[..done]);
      assert e in Elements(mem) <==> e in Elements(before);
      assert e in Elements(full) <==> e in Elements(before);
    }
  }

  lemma {:induction false} PartStarts(before: seq<Entry>, full: seq<Entry>, batch: seq<Entry>, published: nat)
    requires full == Db.Memory(before, batch) && forall e :: e in before ==> e.key.sn <= published
    requires forall i :: 0 <= i < |batch| ==> batch[i].key.sn == published + 1 + i
    ensures Partly(before, full, before, batch, 0, published) && AgreeUpTo(before, full, published)
  {
    Db.MemoryIs(before, batch);
    assert batch[..0] == [];
    OpenPart(before, full, before, batch, 0, published);
    PartAgrees(before, full, before, batch, 0, published);
  }

  /** The next entry of the batch is not in the memtable yet, and goes to its place. */
  lemma {:induction false} PartGrows(mem: seq<Entry>, full: seq<Entry>, before: seq<Entry>, batch: seq<Entry>, done: nat, published: nat)
    requires Partly(mem, full, before, batch, done, published) && done < |batch|
    ensures forall f :: f in mem ==> f.key != batch[done].key
    ensures var mem' := SkipLists.Inserted(mem, batch[done]);
            Partly(mem', full, before, batch, done + 1, published) && AgreeUpTo(mem', full, published)
  {
    OpenPart(mem, full, before, batch, done, published);
    InsertAllElements(before, batch[..done]);
    forall f | f in mem ensures f.key != batch[done].key {
      assert f in Elements(mem);
      if f in Elements(batch[..done]) {
        var j :| 0 <= j < done && batch[j] == f;
      }
    }
    assert batch[..done + 1][..done] == batch[..done];
    var mem' := SkipLists.Inserted(mem, batch[done]);
    OpenPart(mem', full, before, batch, done + 1, published);
    PartAgrees(mem', full, before, batch, done + 1, published);
  }

  lemma {:induction false} PartEnds(mem: seq<Entry>, full: seq<Entry>, before: seq<Entry>, batch: seq<Entry>, published: nat)
    requires Partly(mem, full, before, batch, |batch|, published)
    ensures mem == full
  {
    OpenPart(mem, full, before, batch, |batch|, published);
    assert batch[..|batch|] == batch;
  }

  class LiveDb {
    const files: FileDb
    var mem: MemTable
    var imm: MemTable?
    const snapshots: SnapshotList
    /** The last sequence number that readers use. */
    var published: nat
    /** The batch that is being inserted, and how much of it is in. */
    var batch: seq<Entry>
    var done: nat
    ghost var before: seq<Entry>

    /** The memtable that is being written out, and the snapshots. */
    ghost predicate Parts()
      reads this, files.db, snapshots, imm, if imm == null then {} else {imm.table}
    {
      && snapshots.Valid() && snapshots.Live() == files.db.snapshots
      && (imm == null <==> files.db.imm.None?)
      && (imm != null ==> imm.Valid() && imm.table.writer.Idle? && imm.Contents() == files.db.imm.value && imm.table != mem.table)
    }

    /** The memtable has all that is published; what else it has is newer. */
    ghost predicate MemOk()
      reads this, files.db, mem, mem.table
    {
      && files.db.horizon <= published <= files.db.lastSequence
      && mem.Valid() && SkipLists.WritesAbove(mem.table.writer, published) && AgreeUpTo(mem.Contents(), files.db.mem, published)
    }

    ghost predicate Valid()
      reads this, files, files.db, mem, mem.table, snapshots, imm, if imm == null then {} else {imm.table}
    {
      files.db.Standing() && files.Filed() && Parts() && MemOk()
    }

    /** No batch is under way. */
    ghost predicate Settled()
      reads this, files, files.db, mem, mem.table, snapshots, imm, if imm == null then {} else {imm.table}
    {
      Valid() && published == files.db.lastSequence && mem.table.writer.Idle? && mem.Contents() == files.db.mem
    }

    /** A batch is in the log, and its first entries are in the memtable. */
    ghost predicate Inserting()
      reads this, files, files.db, mem, mem.table, snapshots, imm, if imm == null then {} else {imm.table}
    {
      && Valid() && mem.table.writer.Idle? && done <= |batch| && published + |batch| == files.db.lastSequence
      && Partly(mem.Contents(), files.db.mem, before, batch, done, published)
    }

    constructor (files: FileDb, unused: Entry)
      requires files.Valid() && files.db.mem == [] && files.db.imm.None? && files.db.snapshots == []
      ensures Settled() && this.files == files && imm == null
      ensures fresh(mem) && fresh(mem.table) && fresh(snapshots)
    {
      this.files, imm, published, batch, done, before := files, null, files.db.lastSequence, [], 0, [];
      mem := new MemTable(unused);
      snapshots := new SnapshotList();
      AgreeWithSelf([], files.db.lastSequence);
    }

    /** The record of a group commit is in the log before anything is in the memtable. */
    method Commit(ops: seq<WriteBatches.BatchOp>, sync: bool)
      requires Settled() && files.Valid() && files.db.lastSequence + |ops| < MAX_SEQUENCE && WriteBatches.Fit(ops)
      modifies this`batch, this`done, this`before, files`files, files`log, files.db
      ensures Inserting() && files.Valid() && done == 0 && published == old(published)
      ensures batch == Db.BatchEntries(DiskBytes.OpsFrom(ops), published + 1)
      ensures files.log == old(files.log) + [WriteQueue.LogRecord(published + 1, ops, sync)]
      ensures files.db.history == old(files.db.history) + batch
      ensures DiskBytes.ReadsMove(old(files.db.history), published, files.db.history, published + |ops|, ops)
      ensures old(files.db.ReadsLikeHistory()) ==> files.db.ReadsLikeHistory()
      ensures old(files.db.ReadsLikeBase()) ==> files.db.ReadsLikeBase()
    {
      ghost var es := files.db.mem;
      files.db.MemoryOk();
      files.Write(ops, sync);
      var next := Db.BatchEntries(DiskBytes.OpsFrom(ops), published + 1);
      PartStarts(es, files.db.mem, next, published);
      Begin(next);
    }

    /** From here on the batch is on its way. */
    method Begin(next: seq<Entry>)
      requires files.db.Standing() && files.Filed() && Parts() && MemOk() && mem.table.writer.Idle?
      requires published + |next| == files.db.lastSequence
      requires Partly(mem.Contents(), files.db.mem, mem.Contents(), next, 0, published)
      modifies this`batch, this`done, this`before
      ensures Inserting() && batch == next && done == 0
    {
      batch, done, before := next, 0, mem.Contents();
    }

    /** MemTableInserter: the next entry of the batch, in a node of some height. */
    method InsertNext(height: nat)
      requires Inserting() && done < |batch| && 1 <= height <= SkipLists.MAX_HEIGHT
      modifies this`done, mem.table
      ensures Inserting() && done == old(done) + 1
    {
      var e := batch[done];
      PartGrows(mem.Contents(), files.db.mem, before, batch, done, published);
      mem.Add(e.key.sn, e.key.kind, e.key.user, e.value, height);
      done := done + 1;
    }

    /** SetLastSequence: the batch becomes visible. */
    method Publish()
      requires Inserting() && done == |batch|
      modifies this`published
      ensures Settled() && published == old(published) + |batch|
    {
      PartEnds(mem.Contents(), files.db.mem, before, batch, published);
      AgreeWithSelf(files.db.mem, published + |batch|);
      published := published + |batch|;
    }

    /** A read at a snapshot, or at what is published; while it runs, up to `steps` stores of a
        writer fall in between. It answers what the history says. */
    method Get(u: UserKey, snapshot: Option<nat>, steps: nat) returns (r: Option<string>)
      requires Valid() && (snapshot.Some? ==> files.db.horizon <= snapshot.value <= published)
      modifies mem.table, if imm == null then {} else {imm.table}
      ensures Valid() && (steps == 0 ==> unchanged(mem.table))
      ensures files.db.ReadsLikeHistory() ==>
                r == HistoryRead(files.db.history, u, if snapshot.Some? then snapshot.value else published)
    {
      var sn := if snapshot.Some? then snapshot.value else published;
      var inMem := AskMem(u, sn, steps);
      var inImm := None;
      if inMem.None? && imm != null {
        inImm := imm.Get(u, sn, 0, sn);
      }
      r := files.db.GetBelowMemory(u, sn, inMem, inImm);
    }

    /** The same with a key and a value in bytes. */
    method GetValue(key: Bytes, snapshot: Option<nat>, steps: nat) returns (r: Option<Bytes>)
      requires Valid() && (snapshot.Some? ==> files.db.horizon <= snapshot.value <= published)
      modifies mem.table, if imm == null then {} else {imm.table}
      ensures Valid() && (steps == 0 ==> unchanged(mem.table))
      ensures files.db.ReadsLikeHistory() ==>
                r == DiskBytes.BytesRead(files.db.history, key, if snapshot.Some? then snapshot.value else published)
    {
      var text := Get(Rank(key), snapshot, steps);
      r := DiskBytes.AsBytes(text);
    }

    method AskMem(u: UserKey, sn: nat, steps: nat) returns (r: Option<Entry>)
      requires MemOk() && sn <= published
      modifies mem.table
      ensures MemOk() && (steps == 0 ==> unchanged(mem.table)) && Finds(Elements(files.db.mem), u, sn, r)
    {
      ghost var es := mem.Contents();
      r := mem.Get(u, sn, steps, published);
      FindsAlike(es, files.db.mem, published, u, sn, r);
      AgreeWithNewer(es, mem.Contents(), files.db.mem, published);
    }

    /** A whole write by the leader of a group. */
    method Write(ops: seq<WriteBatches.BatchOp>, sync: bool, heights: seq<nat>)
      requires Settled() && files.Valid() && files.db.lastSequence + |ops| < MAX_SEQUENCE && WriteBatches.Fit(ops)
      requires |heights| == |ops| && forall i :: 0 <= i < |heights| ==> 1 <= heights[i] <= SkipLists.MAX_HEIGHT
      modifies this`batch, this`done, this`before, this`published, files`files, files`log, files.db, mem.table
      ensures Settled() && files.Valid() && published == old(published) + |ops|
      ensures files.db.history == old(files.db.history) + Db.BatchEntries(DiskBytes.OpsFrom(ops), old(published) + 1)
      ensures DiskBytes.ReadsMove(old(files.db.history), old(published), files.db.history, published, ops)
      ensures files.log == old(files.log) + [WriteQueue.LogRecord(old(published) + 1, ops, sync)]
      ensures old(files.db.ReadsLikeHistory()) ==> files.db.ReadsLikeHistory()
      ensures old(files.db.ReadsLikeBase()) ==> files.db.ReadsLikeBase()
    {
      Commit(ops, sync);
      InsertInto(heights);
    }

    /** WriteBatchInternal::InsertInto, and the new last sequence number. */
    method InsertInto(heights: seq<nat>)
      requires Inserting() && done == 0 && |heights| == |batch| && forall i :: 0 <= i < |heights| ==> 1 <= heights[i] <= SkipLists.MAX_HEIGHT
      modifies this`done, this`published, mem.table
      ensures Settled() && published == old(published) + |batch|
    {
      while done < |batch|
        invariant Inserting() && published == old(published)
      {
        InsertNext(heights[done]);
      }
      Publish();
    }

    method GetSnapshot() returns (x: nat)
      requires Settled()
      modifies snapshots, files.db`snapshots
      ensures Settled() && snapshots.Live() == old(snapshots.Live()) + [published] && (old(files.Valid()) ==> files.Valid())
      ensures x < |snapshots.numbers| && snapshots.numbers[x] == published && x == snapshots.ids[|snapshots.ids| - 1]
    {
      files.db.SnapshotsOrdered();
      x := snapshots.New(published);
      ghost var s := files.db.GetSnapshot();
    }

    /** The snapshot `x`, the `j`th live one, is let go. */
    method ReleaseSnapshot(x: nat, j: nat)
      requires Settled() && 0 < j < |snapshots.ids| && snapshots.ids[j] == x
      modifies snapshots`links, snapshots`ids, files.db`snapshots
      ensures Settled() && snapshots.Live() == old(snapshots.Live()[..j - 1] + snapshots.Live()[j..])
      ensures old(files.Valid()) ==> files.Valid()
    {
      snapshots.Delete(x, j);
      files.db.ReleaseSnapshot(j - 1);
    }

    /** SmallestSnapshot of a compaction: the oldest in the list. */
    method SmallestSnapshot() returns (n: nat)
      requires Settled()
      ensures n == files.db.SmallestSnapshot()
    {
      var none := snapshots.Empty();
      if none {
        n := published;
      } else {
        var x := snapshots.Oldest();
        n := snapshots.numbers[x];
      }
    }

    /** A full memtable becomes immutable, and a new one begins. */
    method SwitchMemTable(unused: Entry)
      requires Settled() && files.Valid() && imm == null
      modifies this`mem, this`imm, files`files, files`log, files.db
      ensures Settled() && files.Valid() && imm == old(mem) && fresh(mem) && fresh(mem.table)
      ensures files.db.history == old(files.db.history)
      ensures old(files.db.ReadsLikeHistory()) ==> files.db.ReadsLikeHistory() && files.db.ReadsLikeBase()
    {
      files.SwitchMemTable();
      imm := mem;
      mem := new MemTable(unused);
      AgreeWithSelf([], published);
    }

    /** The immutable memtable is written out and given up. */
    method CompactMemTable(crowded: nat -> bool) returns (level: nat)
      requires Settled() && files.Valid() && imm != null && files.db.nextFile + 1 < TWO_64
      modifies this`imm, files`files, files`tables, files`edits, files.db
      ensures Settled() && imm == null && files.db.history == old(files.db.history)
      ensures files.Valid() <==> (files.db.job.Some? ==>
                AvoidsGaps(old(files.db.levels), files.db.job.value, FileMeta(old(files.db.nextFile), old(imm.Contents())), crowded))
      ensures old(files.db.ReadsLikeHistory()) ==> files.db.ReadsLikeHistory()
      ensures old(files.db.ReadsLikeBase()) ==> files.db.ReadsLikeBase()
    {
      level := files.CompactMemTable(crowded);
      DropImm();
    }

    method DropImm()
      requires files.db.Standing() && files.Filed() && files.db.imm.None? && MemOk() && published == files.db.lastSequence
      requires snapshots.Valid() && snapshots.Live() == files.db.snapshots && mem.table.writer.Idle? && mem.Contents() == files.db.mem
      modifies this`imm
      ensures Settled() && imm == null
    {
      imm := null;
    }

    /** The steps of a compaction leave memtables and snapshots alone. */
    method PickAutomatic(level: nat, picked: nat, mayExpand: bool)
      requires Settled() && files.Valid() && files.db.job.None? && level + 1 < NUM_LEVELS && picked < |files.db.levels[level]|
      modifies files.db`job
      ensures Settled() && files.Valid() && files.db.job.Some? && files.db.job.value.outs.None?
    {
      files.PickAutomatic(level, picked, mayExpand);
    }

    method TrivialMove()
      requires Settled() && files.Valid() && files.db.nextFile < TWO_64
      requires files.db.job.Some? && files.db.job.value.outs.None?
      requires |files.db.job.value.c.in0| == 1 && files.db.job.value.c.in1 == []
      modifies files`files, files`edits, files.db
      ensures Settled() && files.Valid() && files.db.job.None? && files.db.history == old(files.db.history)
      ensures old(files.db.ReadsLikeHistory()) ==> files.db.ReadsLikeHistory()
      ensures old(files.db.ReadsLikeBase()) ==> files.db.ReadsLikeBase()
    {
      files.TrivialMove();
    }

    method DoCompactionWork(stopBefore: nat -> bool, full: nat -> bool)
      requires Settled() && files.Valid() && files.db.job.Some? && files.db.job.value.outs.None?
      modifies files`tables, files.db
      ensures Settled() && files.Valid() && files.db.job.Some? && files.db.job.value.outs.Some? && files.db.history == old(files.db.history)
      ensures Db.OutputsAre(files.db.job.value.c, files.db.job.value.outs.value, stopBefore, full)
      ensures old(files.db.ReadsLikeHistory()) ==> files.db.ReadsLikeHistory()
      ensures old(files.db.ReadsLikeBase()) ==> files.db.ReadsLikeBase()
    {
      files.DoCompactionWork(stopBefore, full);
    }

    method InstallCompactionResults()
      requires Settled() && files.Valid() && files.db.job.Some? && files.db.job.value.outs.Some? && files.db.nextFile < TWO_64
      modifies files`files, files`edits, files.db
      ensures Settled() && files.Valid() && files.db.job.None? && files.db.history == old(files.db.history)
      ensures old(files.db.ReadsLikeHistory()) ==> (files.db.ReadsLikeHistory() <==> !old(Unsafe(files.db.Abs(), files.db.job.value)))
    {
      files.InstallCompactionResults();
    }

    method RemoveObsoleteFiles()
      requires Settled() && files.Valid()
      modifies files`files, files.db`disk
      ensures Settled() && files.Valid() && files.db.history == old(files.db.history)
      ensures forall file :: file in files.files.logs <==> file in old(files.files.logs) && file.0 >= files.db.disk.logNumber
      ensures files.db.disk.tables == old(files.db.disk.tables) * files.db.LiveTables()
      ensures old(files.db.ReadsLikeHistory()) ==> files.db.ReadsLikeHistory()
      ensures old(files.db.ReadsLikeBase()) ==> files.db.ReadsLikeBase()
    {
      files.RemoveObsoleteFiles();
    }
  }
}
