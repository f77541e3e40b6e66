// Version::Get (db/version_set.cc): level by level, newest file first.
module Search {
  import opened Keys
  import opened Version
  import opened Compaction
  import opened Builder
  import opened Lsm

  ghost predicate NewestFirst(files: seq<FileMeta>) {
    forall i, j :: 0 <= i < j < |files| ==> files[i].number > files[j].number
  }

  ghost predicate DistinctNumbers(files: seq<FileMeta>) {
    forall i, j :: 0 <= i < j < |files| ==> files[i].number != files[j].number
  }

  lemma {:induction false} InsertKeepsOrder(r: seq<FileMeta>, i: nat, f: FileMeta)
    requires NewestFirst(r) && i <= |r|
    requires forall k :: 0 <= k < i ==> r[k].number > f.number
    requires i < |r| ==> r[i].number < f.number
    ensures NewestFirst(r[..i] + [f] + r[i..])
    ensures FileSet(r[..i] + [f] + r[i..]) == FileSet(r) + {f}
  {
    forall g ensures g in FileSet(r[..i] + [f] + r[i..]) <==> g in FileSet(r) + {f} {
      if g in r {
        assert g in r[..i] || g in r[i..];
      }
    }
  }

  method SortNewestFirst(files: seq<FileMeta>) returns (r: seq<FileMeta>)
    requires DistinctNumbers(files)
    ensures NewestFirst(r) && FileSet(r) == FileSet(files)
  {
    r := [];
    for n := 0 to |files|
      invariant NewestFirst(r) && FileSet(r) == FileSet(files[..n])
    {
      var f := files[n];
      var i := 0;
      while i < |r| && r[i].number > f.number
        invariant 0 <= i <= |r|
        invariant forall k :: 0 <= k < i ==> r[k].number > f.number
      {
        i := i + 1;
      }
      if i < |r| {
        assert r[i] in FileSet(files[..n]);
      }
      InsertKeepsOrder(r, i, f);
      TakeOne(files, n);
      r := r[..i] + [f] + r[i..];
    }
    assert files[..|files|] == files;
  }

  lemma {:induction false} EntriesOfOne(S: set<FileMeta>, f: FileMeta)
    ensures EntriesOf(S + {f}) == EntriesOf(S) + Elements(f.entries)
  {
    forall e ensures e in EntriesOf(S + {f}) <==> e in EntriesOf(S) + Elements(f.entries) {
      if e in f.entries {
        assert f in S + {f};
      }
    }
  }

  /** Level 0: the files that cover the key, newest first. */
  method SearchLevelZero(files: seq<FileMeta>, u: UserKey, sn: nat) returns (r: Option<Entry>)
    requires AllValid(files) && DistinctNumbers(files) && NumberedByAge(FileSet(files))
    ensures Finds(EntriesOf(FileSet(files)), u, sn, r)
  {
    var tmp := [];
    ghost var skipped := {};
    for i := 0 to |files|
      invariant DistinctNumbers(tmp) && (forall f :: f in tmp ==> f in files[..i])
      invariant FileSet(tmp) + skipped == FileSet(files[..i]) && forall f :: f in skipped ==> f.Valid() && !Covers(f, u)
    {
      TakeOne(files, i);
      var f := files[i];
      ghost var before := tmp;
      if f.Smallest().user <= u && u <= f.Largest().user {
        forall k | 0 <= k < |tmp| ensures tmp[k].number != f.number {
          assert tmp[k] in files[..i];
        }
        tmp := tmp + [f];
        assert FileSet(tmp) == FileSet(before) + {f};
      } else {
        skipped := skipped + {f};
      }
    }
    assert files[..|files|] == files;
    tmp := SortNewestFirst(tmp);
    r := SearchNewestFirst(files, tmp, u, sn);
    SkippedHoldNothing(FileSet(tmp), skipped, FileSet(files), u, sn, r);
  }

  lemma {:induction false} SkippedHoldNothing(a: set<FileMeta>, skipped: set<FileMeta>, all: set<FileMeta>,
      u: UserKey, sn: nat, r: Option<Entry>)
    requires a + skipped == all && Finds(EntriesOf(a), u, sn, r)
    requires forall f :: f in skipped ==> f.Valid() && !Covers(f, u)
    ensures Finds(EntriesOf(all), u, sn, r)
  {
    forall e | e in EntriesOf(all) && Candidate(e, u, sn) ensures e in EntriesOf(a) {
      var f :| f in all && e in f.entries;
      if f in skipped {
        EntryInRange(f, e);
      }
    }
    if r.Some? {
      var f :| f in a && r.value in f.entries;
      assert f in all;
    }
  }

  method SearchNewestFirst(files: seq<FileMeta>, tmp: seq<FileMeta>, u: UserKey, sn: nat) returns (r: Option<Entry>)
    requires AllValid(files) && NumberedByAge(FileSet(files)) && FileSet(tmp) <= FileSet(files) && NewestFirst(tmp)
    ensures Finds(EntriesOf(FileSet(tmp)), u, sn, r)
  {
    for i := 0 to |tmp|
      invariant forall e :: e in EntriesOf(FileSet(tmp[..i])) ==> !Candidate(e, u, sn)
    {
      var f := tmp[i];
      assert f in FileSet(tmp);
      TableGetFinds(f.entries, u, sn);
      r := TableGet(f.entries, u, sn);
      TakeOne(tmp, i);
      EntriesOfOne(FileSet(tmp[..i]), f);
      if r.Some? {
        OlderFilesLose(files, tmp, i, u, sn, r);
        return;
      }
    }
    assert tmp[..|tmp|] == tmp;
    r := None;
  }

  lemma {:induction false} PrefixMembers(files: seq<FileMeta>, i: nat)
    requires i <= |files|
    ensures forall j :: 0 <= j < i ==> files[j] in FileSet(files[..i])
  {
    assert forall j :: 0 <= j < i ==> files[..i][j] == files[j];
  }

  lemma {:induction false} OlderFilesLose(files: seq<FileMeta>, tmp: seq<FileMeta>, i: nat, u: UserKey, sn: nat,
      r: Option<Entry>)
    requires AllValid(files) && NumberedByAge(FileSet(files)) && FileSet(tmp) <= FileSet(files) && NewestFirst(tmp)
    requires i < |tmp| && r.Some? && Finds(Elements(tmp[i].entries), u, sn, r)
    requires forall e :: e in EntriesOf(FileSet(tmp[..i])) ==> !Candidate(e, u, sn)
    ensures Finds(EntriesOf(FileSet(tmp)), u, sn, r)
  {
    PrefixMembers(tmp, i);
    assert tmp[i] in FileSet(tmp);
    assert r.value in tmp[i].entries;
    assert r.value in EntriesOf(FileSet(tmp));
    forall e | e in EntriesOf(FileSet(tmp)) && Candidate(e, u, sn) ensures e.key.sn <= r.value.key.sn {
      var f :| f in FileSet(tmp) && e in f.entries;
      var j :| 0 <= j < |tmp| && tmp[j] == f;
      if i < j {
        assert Newer(Elements(tmp[i].entries), Elements(f.entries));
        assert SameUser(r.value, e);
      }
    }
  }

  /** A deeper level: the one file that can hold the key. */
  method SearchSorted(files: seq<FileMeta>, u: UserKey, sn: nat) returns (r: Option<Entry>)
    requires LevelSorted(files)
    ensures Finds(EntriesOf(FileSet(files)), u, sn, r)
  {
    var index := FindFile(files, SeekKey(u, sn));
    if index >= |files| {
      r := None;
      NothingReaches(files, u, sn, index);
    } else if u < files[index].Smallest().user {
      r := None;
      NothingReaches(files, u, sn, index);
    } else {
      r := TableGet(files[index].entries, u, sn);
      TableGetFinds(files[index].entries, u, sn);
      OneFileDecides(files, u, sn, index, r);
    }
  }

  lemma {:induction false} CandidateIsLate(files: seq<FileMeta>, u: UserKey, sn: nat, index: nat, j: nat, e: Entry)
    requires LevelSorted(files) && IsFirstReaching(files, SeekKey(u, sn), index)
    requires j < |files| && e in files[j].entries && Candidate(e, u, sn)
    ensures index <= j
  {
    EntryInRange(files[j], e);
  }

  lemma {:induction false} NothingReaches(files: seq<FileMeta>, u: UserKey, sn: nat, index: nat)
    requires LevelSorted(files) && IsFirstReaching(files, SeekKey(u, sn), index)
    requires index < |files| ==> u < files[index].Smallest().user
    ensures Finds(EntriesOf(FileSet(files)), u, sn, None)
  {
    forall e | e in EntriesOf(FileSet(files)) ensures !Candidate(e, u, sn) {
      var f :| f in FileSet(files) && e in f.entries;
      var j :| 0 <= j < |files| && files[j] == f;
      EntryInRange(f, e);
      if index < |files| {
        EntryInRange(files[index], files[index].entries[0]);
      }
      assert index < j ==> Before(files[index], files[j]);
    }
  }

  lemma {:induction false} OneFileDecides(files: seq<FileMeta>, u: UserKey, sn: nat, index: nat, r: Option<Entry>)
    requires LevelSorted(files) && IsFirstReaching(files, SeekKey(u, sn), index) && index < |files|
    requires files[index].Smallest().user <= u && Finds(Elements(files[index].entries), u, sn, r)
    ensures Finds(EntriesOf(FileSet(files)), u, sn, r)
  {
    assert files[index] in FileSet(files);
    forall e | e in EntriesOf(FileSet(files)) && Candidate(e, u, sn)
      ensures r.Some? && e.key.sn <= r.value.key.sn
    {
      var f :| f in FileSet(files) && e in f.entries;
      var j :| 0 <= j < |files| && files[j] == f;
      CandidateIsLate(files, u, sn, index, j, e);
      if index < j {
        var last := files[index].entries[|files[index].entries| - 1];
        EntryInRange(f, e);
        assert Before(files[index], files[j]);
        assert Candidate(last, u, sn);
        assert last in Elements(files[index].entries);
      }
    }
  }

  /** Everything at the first `n` levels. */
  ghost function UpToLevel(levels: Levels, n: nat): set<Entry>
    requires n <= |levels|
  {
    set l, e | 0 <= l < n && e in EntriesOf(FileSet(levels[l])) :: e
  }

  method VersionGet(levels: Levels, u: UserKey, sn: nat) returns (r: Option<Entry>)
    requires LevelsOk(levels) && DistinctNumbers(levels[0]) && NumberedByAge(FileSet(levels[0]))
    requires forall i, j :: 0 <= i < j < NUM_LEVELS ==> Newer(EntriesOf(FileSet(levels[i])), EntriesOf(FileSet(levels[j])))
    ensures Finds(UpToLevel(levels, NUM_LEVELS), u, sn, r)
  {
    for level := 0 to NUM_LEVELS
      invariant forall e :: e in UpToLevel(levels, level) ==> !Candidate(e, u, sn)
    {
      if |levels[level]| == 0 {
        r := None;
      } else if level == 0 {
        r := SearchLevelZero(levels[0], u, sn);
      } else {
        r := SearchSorted(levels[level], u, sn);
      }
      if r.Some? {
        DeeperLevelsLose(levels, level, u, sn, r);
        return;
      }
    }
    r := None;
  }

  lemma {:induction false} DeeperLevelsLose(levels: Levels, level: nat, u: UserKey, sn: nat, r: Option<Entry>)
    requires level < |levels| == NUM_LEVELS
    requires forall i, j :: 0 <= i < j < NUM_LEVELS ==> Newer(EntriesOf(FileSet(levels[i])), EntriesOf(FileSet(levels[j])))
    requires forall e :: e in UpToLevel(levels, level) ==> !Candidate(e, u, sn)
    requires r.Some? && Finds(EntriesOf(FileSet(levels[level])), u, sn, r)
    ensures Finds(UpToLevel(levels, NUM_LEVELS), u, sn, r)
  {
    forall e | e in UpToLevel(levels, NUM_LEVELS) && Candidate(e, u, sn) ensures e.key.sn <= r.value.key.sn {
      var l :| 0 <= l < NUM_LEVELS && e in EntriesOf(FileSet(levels[l]));
      if level < l {
        assert Newer(EntriesOf(FileSet(levels[level])), EntriesOf(FileSet(levels[l])));
        assert SameUser(r.value, e);
      }
    }
  }

  /** The whole read path of DBImpl::Get. */
  method StoreGet(s: Store, u: UserKey, sn: nat, ghost h: seq<Entry>, ghost next: nat) returns (r: Option<Entry>)
    requires Structured(s, h, next)
    ensures Finds(All(s), u, sn, r)
  {
    TableGetFinds(s.mem, u, sn);
    var inMem := TableGet(s.mem, u, sn);
    var inImm := None;
    if inMem.None? && s.imm.Some? {
      TableGetFinds(s.imm.value, u, sn);
      inImm := TableGet(s.imm.value, u, sn);
    }
    r := GetBelow(s, u, sn, inMem, inImm, h, next);
  }

  /** The rest of the read path, after what the memtables answered. */
  method GetBelow(s: Store, u: UserKey, sn: nat, inMem: Option<Entry>, inImm: Option<Entry>, ghost h: seq<Entry>, ghost next: nat)
    returns (r: Option<Entry>)
    requires Structured(s, h, next) && Finds(Elements(s.mem), u, sn, inMem)
    requires if inMem.None? && s.imm.Some? then Finds(Elements(s.imm.value), u, sn, inImm) else inImm.None?
    ensures Finds(All(s), u, sn, r)
  {
    if inMem.Some? {
      DeeperTiersLose(s, 0, u, sn, inMem);
      return inMem;
    }
    if inImm.Some? {
      DeeperTiersLose(s, 1, u, sn, inImm);
      return inImm;
    }
    FilesQualify(s, h, next);
    r := VersionGet(s.levels, u, sn);
    FilesAreTheRest(s, u, sn, r);
  }

  lemma {:induction false} DeeperTiersLose(s: Store, t: nat, u: UserKey, sn: nat, r: Option<Entry>)
    requires |s.levels| == NUM_LEVELS && t < NUM_TIERS && Layered(s)
    requires forall i, e :: 0 <= i < t && e in Tier(s, i) ==> !Candidate(e, u, sn)
    requires r.Some? && Finds(Tier(s, t), u, sn, r)
    ensures Finds(All(s), u, sn, r)
  {
    forall e | e in All(s) && Candidate(e, u, sn) ensures e.key.sn <= r.value.key.sn {
      var i :| 0 <= i < NUM_TIERS && e in Tier(s, i);
      if t < i {
        assert Newer(Tier(s, t), Tier(s, i));
        assert SameUser(r.value, e);
      }
    }
  }

  lemma {:induction false} FilesQualify(s: Store, h: seq<Entry>, next: nat)
    requires Structured(s, h, next)
    ensures DistinctNumbers(s.levels[0])
    ensures forall i, j :: 0 <= i < j < NUM_LEVELS ==> Newer(EntriesOf(FileSet(s.levels[i])), EntriesOf(FileSet(s.levels[j])))
  {
    forall i, j | 0 <= i < j < NUM_LEVELS ensures Newer(EntriesOf(FileSet(s.levels[i])), EntriesOf(FileSet(s.levels[j]))) {
      assert Newer(Tier(s, i + 2), Tier(s, j + 2));
    }
    var files := s.levels[0];
    forall i, j | 0 <= i < j < |files| ensures files[i].number != files[j].number {
      assert ByKey(files[i], files[j]);
      assert At(s.levels, 0, files[i]) && At(s.levels, 0, files[j]);
    }
  }

  lemma {:induction false} FilesAreTheRest(s: Store, u: UserKey, sn: nat, r: Option<Entry>)
    requires |s.levels| == NUM_LEVELS && Layered(s)
    requires forall e :: e in Tier(s, 0) || e in Tier(s, 1) ==> !Candidate(e, u, sn)
    requires Finds(UpToLevel(s.levels, NUM_LEVELS), u, sn, r)
    ensures Finds(All(s), u, sn, r)
  {
    forall e ensures e in UpToLevel(s.levels, NUM_LEVELS) ==> e in All(s) {
      if e in UpToLevel(s.levels, NUM_LEVELS) {
        var l :| 0 <= l < NUM_LEVELS && e in EntriesOf(FileSet(s.levels[l]));
        assert e in Tier(s, l + 2);
      }
    }
    forall e | e in All(s) && Candidate(e, u, sn) ensures e in UpToLevel(s.levels, NUM_LEVELS) {
      var t :| 0 <= t < NUM_TIERS && e in Tier(s, t);
      assert t >= 2;
    }
  }
}
