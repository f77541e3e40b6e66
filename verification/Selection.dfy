// Choosing the inputs of a compaction (db/version_set.cc): PickCompaction,
// CompactRange and SetupOtherInputs.
module Selection {
  import opened Keys
  import opened Version

  /** Moving `ins` down leaves no older entry of a moved user key above it. */
  ghost predicate NothingOlderLeft(files: seq<FileMeta>, ins: seq<FileMeta>) {
    forall g, f, e, d {:trigger ShareKey(g, f, e, d)} ::
      g in files && g !in ins && f in ins && ShareKey(g, f, e, d) ==> Less(e.key, d.key)
  }

  ghost predicate ShareKey(g: FileMeta, f: FileMeta, e: Entry, d: Entry) {
    e in g.entries && d in f.entries && e.key.user == d.key.user
  }

  /** Every other file lies wholly before or after the chosen ones in user keys. */
  ghost predicate Apart(files: seq<FileMeta>, ins: seq<FileMeta>)
    requires AllValid(files) && AllValid(ins)
  {
    forall g :: g in files && g !in ins ==>
      || (forall f :: f in ins ==> g.Largest().user < f.Smallest().user)
      || (forall f :: f in ins ==> f.Largest().user < g.Smallest().user)
  }

  /** What the first inputs of a compaction look like before `SetupOtherInputs`. */
  ghost predicate Selected(level: nat, files: seq<FileMeta>, ins: seq<FileMeta>)
    requires AllValid(files)
  {
    && |ins| > 0 && (forall f :: f in ins ==> f in files) && AllValid(ins)
    && Distinct(files) && Distinct(ins)
    && (if level == 0 then Apart(files, ins) else LevelSorted(files) && Run(files, ins))
  }

  /** `[lo, hi]` is the least user-key range that holds every file of `ins`. */
  ghost predicate IsHull(ins: seq<FileMeta>, lo: UserKey, hi: UserKey)
    requires AllValid(ins)
  {
    && (forall f :: f in ins ==> lo <= f.Smallest().user && f.Largest().user <= hi)
    && (exists f :: f in ins && f.Smallest().user == lo)
    && (exists f :: f in ins && f.Largest().user == hi)
  }

  method GetRange(ins: seq<FileMeta>) returns (lo: UserKey, hi: UserKey)
    requires |ins| > 0 && AllValid(ins)
    ensures IsHull(ins, lo, hi)
  {
    var smallest, largest := ins[0].Smallest(), ins[0].Largest();
    ghost var s, l := 0, 0;
    for i := 1 to |ins|
      invariant 0 <= s < i && 0 <= l < i && ins[s].Smallest() == smallest && ins[l].Largest() == largest
      invariant forall k :: 0 <= k < i ==> LessEq(smallest, ins[k].Smallest()) && LessEq(ins[k].Largest(), largest)
    {
      if Less(ins[i].Smallest(), smallest) {
        smallest, s := ins[i].Smallest(), i;
      }
      if Less(largest, ins[i].Largest()) {
        largest, l := ins[i].Largest(), i;
      }
    }
    lo, hi := smallest.user, largest.user;
  }

  lemma {:induction false} AllValidOf(files: seq<FileMeta>, ins: seq<FileMeta>)
    requires AllValid(files) && forall f :: f in ins ==> f in files
    ensures AllValid(ins)
  {
    forall i | 0 <= i < |ins| ensures ins[i].Valid() {
      assert ins[i] in files;
    }
  }

  lemma {:induction false} AllValidUnion(a: seq<FileMeta>, b: seq<FileMeta>)
    requires AllValid(a) && AllValid(b)
    ensures AllValid(a + b)
  {
  }

  // ----- what the two selection loops guarantee -----

  lemma {:induction false} LevelIsDistinct(files: seq<FileMeta>)
    ensures LevelSorted(files) ==> Distinct(files)
  {
    if LevelSorted(files) {
      forall i, j ensures Differ(files, i, j) {
        if 0 <= i < j < |files| {
          assert Before(files[i], files[j]);
          EntryInRange(files[i], files[i].entries[0]);
        }
      }
    }
  }

  lemma {:induction false} PrefixIsDistinct(files: seq<FileMeta>, n: nat)
    requires Distinct(files) && n <= |files|
    ensures Distinct(files[..n])
  {
    forall i, j ensures Differ(files[..n], i, j) {
      assert Differ(files, i, j);
    }
  }

  lemma {:induction false} OverlappingDistinct(files: seq<FileMeta>, lo: Option<UserKey>, hi: Option<UserKey>)
    requires AllValid(files) && Distinct(files)
    ensures Distinct(Overlapping(files, lo, hi))
  {
    if |files| > 0 {
      var n := |files| - 1;
      PrefixIsDistinct(files, n);
      var before := Overlapping(files[..n], lo, hi);
      OverlappingDistinct(files[..n], lo, hi);
      forall i, j ensures Differ(Overlapping(files, lo, hi), i, j) {
        assert Differ(before, i, j);
        if 0 <= i < j == |before| && j < |Overlapping(files, lo, hi)| {
          assert before[i] in files[..n];
          var k :| 0 <= k < n && files[k] == before[i];
          assert Differ(files, k, n);
        }
      }
    }
  }

  lemma {:induction false} OverlappingIsSelected(level: nat, files: seq<FileMeta>, lo: Option<UserKey>,
      hi: Option<UserKey>)
    requires AllValid(files) && |Overlapping(files, lo, hi)| > 0
    requires if level == 0 then ClosedRange(files, lo, hi) && Distinct(files) else LevelSorted(files)
    ensures Selected(level, files, Overlapping(files, lo, hi))
  {
    var ins := Overlapping(files, lo, hi);
    AllValidOf(files, ins);
    LevelIsDistinct(files);
    OverlappingDistinct(files, lo, hi);
    forall f | f in ins ensures Overlaps(f, lo, hi) && (level == 0 ==> Within(f, lo, hi)) {
      var i :| 0 <= i < |files| && files[i] == f;
    }
    if level > 0 {
      OverlappingIsRun(files, lo, hi);
    }
  }

  lemma {:induction false} OverlappingIsRun(files: seq<FileMeta>, lo: Option<UserKey>, hi: Option<UserKey>)
    requires LevelSorted(files) && AllValid(Overlapping(files, lo, hi))
    ensures Run(files, Overlapping(files, lo, hi))
  {
    var ins := Overlapping(files, lo, hi);
    forall g | g in files && g !in ins
      ensures (forall f :: f in ins ==> Before(f, g)) || (forall f :: f in ins ==> Before(g, f))
    {
      var j :| 0 <= j < |files| && files[j] == g;
      EntryInRange(g, g.entries[0]);
      forall f | f in ins ensures if AfterFile(lo, g) then Before(g, f) else Before(f, g) {
        var i :| 0 <= i < |files| && files[i] == f;
        EntryInRange(f, f.entries[0]);
        assert if i < j then Before(f, g) else Before(g, f);
      }
    }
  }

  /** A leading part of a run of a sorted level is still a run. */
  lemma {:induction false} PrefixIsRun(files: seq<FileMeta>, lo: Option<UserKey>, hi: Option<UserKey>, n: nat)
    requires LevelSorted(files) && 0 < n <= |Overlapping(files, lo, hi)|
    ensures forall f :: f in Overlapping(files, lo, hi)[..n] ==> f in files
    ensures AllValid(Overlapping(files, lo, hi)[..n]) && Run(files, Overlapping(files, lo, hi)[..n])
    ensures Distinct(Overlapping(files, lo, hi)[..n])
  {
    var all := Overlapping(files, lo, hi);
    OverlappingIsSelected(1, files, lo, hi);
    OverlappingSorted(files, lo, hi);
    PrefixIsDistinct(all, n);
    var ins := all[..n];
    forall g | g in files && g !in ins
      ensures (forall f :: f in ins ==> Before(f, g)) || (forall f :: f in ins ==> Before(g, f))
    {
      if g in all {
        var j :| 0 <= j < |all| && all[j] == g;
        assert j >= n;
        forall f | f in ins ensures Before(f, g) {
          var i :| 0 <= i < |ins| && ins[i] == f;
          assert all[i] == f && i < j;
        }
      }
    }
  }

  lemma {:induction false} OverlappingSorted(files: seq<FileMeta>, lo: Option<UserKey>, hi: Option<UserKey>)
    requires LevelSorted(files)
    ensures LevelSorted(Overlapping(files, lo, hi))
  {
    if |files| > 0 {
      var n := |files| - 1;
      var before := Overlapping(files[..n], lo, hi);
      OverlappingSorted(files[..n], lo, hi);
      forall i | 0 <= i < |before| ensures Before(before[i], files[n]) {
        assert before[i] in files[..n];
      }
    }
  }

  /** A file after all of `ins` that shares a user key with them continues the last one. */
  lemma {:induction false} SharedKeyIsLast(ins: seq<FileMeta>, last: InternalKey, g: FileMeta, f: FileMeta, u: UserKey)
    requires AllValid(ins) && g.Valid() && IsLargestKey(ins, last) && f in ins && f.Valid()
    requires Covers(g, u) && Covers(f, u)
    ensures (forall x :: x in ins ==> Before(x, g)) ==> Continues(last, g)
  {
    var m :| 0 <= m < |ins| && ins[m].Largest() == last;
    assert ins[m] in ins;
    EntryInRange(f, f.entries[|f.entries| - 1]);
    EntryInRange(g, g.entries[0]);
  }

  /** The closure of the selection loops is what keeps shallow entries newer. */
  lemma {:induction false} NothingOlder(level: nat, files: seq<FileMeta>, ins: seq<FileMeta>, last: InternalKey)
    requires AllValid(files) && Selected(level, files, ins)
    requires IsLargestKey(ins, last) && forall f :: f in files ==> !Continues(last, f)
    ensures NothingOlderLeft(files, ins)
  {
    forall g, f, e, d {:trigger ShareKey(g, f, e, d)} | g in files && g !in ins && f in ins && ShareKey(g, f, e, d)
      ensures Less(e.key, d.key)
    {
      EntryInRange(g, e);
      EntryInRange(f, d);
      if level > 0 {
        SharedKeyIsLast(ins, last, g, f, d.key.user);
        assert Before(g, f);
      }
    }
  }

  /** At level 0 the boundary loop has nothing to add to a closed selection. */
  lemma {:induction false} NoBoundaryAtLevelZero(files: seq<FileMeta>, ins: seq<FileMeta>, f: FileMeta, k: InternalKey)
    requires AllValid(files) && Selected(0, files, ins) && IsLargestKey(ins, k) && f in files
    ensures !Continues(k, f)
  {
    var m :| 0 <= m < |ins| && ins[m].Largest() == k;
    EntryInRange(ins[m], ins[m].entries[0]);
    EntryInRange(f, f.entries[0]);
  }

  // ----- SetupOtherInputs -----

  /** The inputs of a compaction from `level` into the next one. */
  ghost predicate InputsOk(level: nat, files: seq<FileMeta>, parents: seq<FileMeta>, in0: seq<FileMeta>,
      in1: seq<FileMeta>, lo: UserKey, hi: UserKey)
    requires AllValid(files) && AllValid(parents)
  {
    && Selected(level, files, in0)
    && NothingOlderLeft(files, in0)
    && IsHull(in0, lo, hi)
    && in1 == Overlapping(parents, Some(lo), Some(hi))
  }

  /** `r` has `ins` and leaves nothing older behind, and no fewer files would do. */
  ghost predicate LeastClosed(files: seq<FileMeta>, ins: seq<FileMeta>, r: seq<FileMeta>) {
    && (forall f :: f in ins ==> f in r) && (forall f :: f in r ==> f in files) && NothingOlderLeft(files, r)
    && forall whole: seq<FileMeta> :: (forall f :: f in ins ==> f in whole) && NothingOlderLeft(files, whole) ==>
         forall f :: f in r ==> f in whole
  }

  /** A file that continues a key of the selection cannot be left out. */
  lemma {:induction false} ChainIsNeeded(files: seq<FileMeta>, r: seq<FileMeta>, n: nat, m: nat, whole: seq<FileMeta>)
    requires AllValid(r) && n <= m <= |r| && Chained(r, n) && (forall f :: f in r ==> f in files)
    requires (forall f :: f in r[..n] ==> f in whole) && NothingOlderLeft(files, whole)
    ensures forall f :: f in r[..m] ==> f in whole
    decreases m
  {
    if n < m {
      ChainIsNeeded(files, r, n, m - 1, whole);
      assert Linked(r, m - 1);
      var k :| IsLargestKey(r[..m - 1], k) && Continues(k, r[m - 1]);
      LinkIsNeeded(files, r[..m - 1], k, r[m - 1], whole);
      assert r[..m] == r[..m - 1] + [r[m - 1]];
    }
  }

  lemma {:induction false} LinkIsNeeded(files: seq<FileMeta>, ins: seq<FileMeta>, k: InternalKey, g: FileMeta, whole: seq<FileMeta>)
    requires AllValid(ins) && IsLargestKey(ins, k) && g.Valid() && g in files && Continues(k, g)
    requires (forall f :: f in ins ==> f in whole) && NothingOlderLeft(files, whole)
    ensures g in whole
  {
    if g !in whole {
      var f :| f in ins && f.Valid() && f.Largest() == k;
      var e, d := g.entries[0], f.entries[|f.entries| - 1];
      assert ShareKey(g, f, e, d);
    }
  }

  /** `AddBoundaryInputs` on a selection: still a selection, and closed. */
  method Extend(level: nat, files: seq<FileMeta>, ins: seq<FileMeta>, ghost also: seq<FileMeta>)
    returns (r: seq<FileMeta>)
    requires AllValid(files) && Selected(level, files, ins) && AllValid(also)
    ensures Selected(level, files, r) && NothingOlderLeft(files, r) && ins <= r && Chained(r, |ins|)
    ensures Connected(also + ins) ==> Connected(also + r)
  {
    ghost var last;
    if level == 0 {
      forall f, k | f in files && IsLargestKey(ins, k) ensures !Continues(k, f) {
        NoBoundaryAtLevelZero(files, ins, f, k);
      }
    }
    r, last := AddBoundaryInputs(files, ins, also);
    NothingOlder(level, files, r, last);
  }

  lemma {:induction false} ChainIsLeast(files: seq<FileMeta>, ins: seq<FileMeta>, r: seq<FileMeta>)
    requires AllValid(r) && ins <= r && Chained(r, |ins|) && (forall f :: f in r ==> f in files) && NothingOlderLeft(files, r)
    ensures LeastClosed(files, ins, r)
  {
    forall whole: seq<FileMeta> | (forall f :: f in ins ==> f in whole) && NothingOlderLeft(files, whole)
      ensures forall f :: f in r ==> f in whole
    {
      assert r[..|ins|] == ins && r[..|r|] == r;
      ChainIsNeeded(files, r, |ins|, |r|, whole);
    }
  }

  /** The inputs that come of `in0`: at the level the least selection that leaves nothing older
      behind, and the parents that meet its range; or, if that is allowed, more files of the level
      that need no more parents. */
  ghost predicate ComesOf(files: seq<FileMeta>, parents: seq<FileMeta>, in0: seq<FileMeta>, mayExpand: bool,
      c0: seq<FileMeta>, c1: seq<FileMeta>)
    requires AllValid(parents)
  {
    exists a, lo, hi :: AllValid(a) && LeastClosed(files, in0, a) && IsHull(a, lo, hi) && var p := Overlapping(parents, Some(lo), Some(hi));
      (c0 == a && c1 == p) || (mayExpand && |c0| > |a| && |c1| == |p| > 0)
  }

  lemma {:induction false} ParentsTouch(in0: seq<FileMeta>, lo: UserKey, hi: UserKey, parents: seq<FileMeta>)
    requires AllValid(in0) && AllValid(parents) && IsHull(in0, lo, hi)
    ensures AllValid(Overlapping(parents, Some(lo), Some(hi)))
    ensures forall b :: b in Overlapping(parents, Some(lo), Some(hi)) ==> Touches(in0, b)
    ensures |in0| > 0 && Connected(in0) ==> Connected(in0 + Overlapping(parents, Some(lo), Some(hi)))
  {
    var in1 := Overlapping(parents, Some(lo), Some(hi));
    AllValidOf(parents, in1);
    forall b | b in in1 ensures Touches(in0, b) {
      assert Overlaps(b, Some(lo), Some(hi));
      var f :| f in in0 && f.Smallest().user == lo;
      var g :| g in in0 && g.Largest().user == hi;
      assert f.Smallest().user <= b.Largest().user && b.Smallest().user <= g.Largest().user;
    }
    if |in0| > 0 && Connected(in0) {
      AllValidUnion(in0, in1);
      ConnectedUnion(in0, in1, in0 + in1);
    }
  }

  /** A connected seed grown by `GetOverlappingInputs` stays connected. */
  lemma {:induction false} GrownIsConnected(seed: seq<FileMeta>, begin: UserKey, end: UserKey,
      files: seq<FileMeta>, lo: Option<UserKey>, hi: Option<UserKey>, ins: seq<FileMeta>, also: seq<FileMeta>)
    requires AllValid(seed) && AllValid(files) && Connected(seed) && IsHull(seed, begin, end)
    requires lo.Some? && hi.Some? && RangeIncluded(Some(begin), Some(end), lo, hi)
    requires GrownByFiles(files, Some(begin), Some(end), lo, hi)
    requires ins == Overlapping(files, lo, hi) && AllValid(ins) && AllValid(also)
    requires forall f :: f in ins || f in also ==> lo.value <= f.Smallest().user && f.Largest().user <= hi.value
    requires forall f :: f in seed ==> f in ins || f in also
    requires AllValid(ins + also)
    ensures Connected(ins + also)
  {
    forall u, f, g | f in ins + also && g in ins + also && Between(f, u, g)
      ensures exists x :: x in ins + also && Covers(x, u)
    {
      if Gained(Some(begin), Some(end), lo, hi, u) {
        assert CoveredBySelected(files, lo, hi, u);
        var x :| x in files && Covers(x, u) && Overlaps(x, lo, hi);
        assert x in ins + also;
      } else {
        var f' :| f' in seed && f'.Smallest().user == begin;
        var g' :| g' in seed && g'.Largest().user == end;
        assert Between(f', u, g');
        var x :| x in seed && Covers(x, u);
        assert x in ins + also;
      }
    }
  }

  lemma {:induction false} SeedGrows(level: nat, files: seq<FileMeta>, seed: seq<FileMeta>, begin: UserKey,
      end: UserKey, lo: Option<UserKey>, hi: Option<UserKey>)
    requires AllValid(seed) && AllValid(files) && Connected(seed) && IsHull(seed, begin, end) && |seed| > 0
    requires lo.Some? && hi.Some? && RangeIncluded(Some(begin), Some(end), lo, hi)
    requires GrownByFiles(files, Some(begin), Some(end), lo, hi)
    requires level > 0 ==> lo == Some(begin) && hi == Some(end)
    requires level == 0 ==> ClosedRange(files, lo, hi)
    ensures AllValid(seed + Overlapping(files, lo, hi)) && Connected(seed + Overlapping(files, lo, hi))
  {
    var ins := Overlapping(files, lo, hi);
    AllValidOf(files, ins);
    AllValidUnion(seed, ins);
    AllValidUnion(ins, seed);
    if level == 0 {
      forall f | f in ins ensures Within(f, lo, hi) {
        var i :| 0 <= i < |files| && files[i] == f;
      }
      GrownIsConnected(seed, begin, end, files, lo, hi, ins, seed);
      ConnectedSame(ins + seed, seed + ins);
    } else {
      forall b | b in ins ensures Touches(seed, b) {
        assert Overlaps(b, lo, hi);
        var f :| f in seed && f.Smallest().user == begin;
        var g :| g in seed && g.Largest().user == end;
        assert f.Smallest().user <= b.Largest().user && b.Smallest().user <= g.Largest().user;
      }
      ConnectedUnion(seed, ins, seed + ins);
    }
  }

  lemma {:induction false} ConnectedSame(a: seq<FileMeta>, b: seq<FileMeta>)
    requires AllValid(a) && AllValid(b) && Connected(a) && forall f :: f in a <==> f in b
    ensures Connected(b)
  {
    forall u, f, g | f in b && g in b && Between(f, u, g)
      ensures exists x :: x in b && Covers(x, u)
    {
      assert f in a && g in a;
      var x :| x in a && Covers(x, u);
    }
  }

  /** The expanded inputs hold the inputs they replace, and stay connected. */
  lemma {:induction false} ExpandedInputs(files: seq<FileMeta>, parents: seq<FileMeta>, in0: seq<FileMeta>,
      lo: UserKey, hi: UserKey, wide0: seq<FileMeta>, wlo: UserKey, whi: UserKey)
    requires AllValid(files) && AllValid(parents) && AllValid(in0) && AllValid(wide0)
    requires IsHull(in0, lo, hi) && IsHull(wide0, wlo, whi) && (forall f :: f in in0 ==> f in wide0)
    ensures forall f :: f in Overlapping(parents, Some(lo), Some(hi)) ==> f in Overlapping(parents, Some(wlo), Some(whi))
    ensures AllValid((in0 + Overlapping(parents, Some(lo), Some(hi))) + wide0)
    ensures AllValid(wide0 + Overlapping(parents, Some(wlo), Some(whi)))
    ensures |in0| > 0 && Connected((in0 + Overlapping(parents, Some(lo), Some(hi))) + wide0) ==>
              Connected(wide0 + Overlapping(parents, Some(wlo), Some(whi)))
  {
    var in1, wide1 := Overlapping(parents, Some(lo), Some(hi)), Overlapping(parents, Some(wlo), Some(whi));
    ParentsTouch(in0, lo, hi, parents);
    ParentsTouch(wide0, wlo, whi, parents);
    assert wlo <= lo && hi <= whi by {
      var f :| f in in0 && f.Smallest().user == lo;
      var g :| g in in0 && g.Largest().user == hi;
      assert f in wide0 && g in wide0;
    }
    AllValidUnion(in0, in1);
    AllValidUnion(in0 + in1, wide0);
    AllValidUnion(wide0, wide1);
    var a := (in0 + in1) + wide0;
    if |in0| > 0 && Connected(a) {
      forall b | b in wide1 ensures Touches(a, b) {
        assert Touches(wide0, b);
        var f :| f in wide0 && f.Smallest().user <= b.Largest().user;
        var g :| g in wide0 && b.Smallest().user <= g.Largest().user;
        assert f in a && g in a;
      }
      ConnectedUnion(a, wide1, wide0 + wide1);
    }
  }

  lemma {:induction false} InputsCome(files: seq<FileMeta>, parents: seq<FileMeta>, in0: seq<FileMeta>, mayExpand: bool,
      a: seq<FileMeta>, lo: UserKey, hi: UserKey, c0: seq<FileMeta>, c1: seq<FileMeta>)
    requires AllValid(parents) && AllValid(a) && IsHull(a, lo, hi)
    requires in0 <= a && Chained(a, |in0|) && (forall f :: f in a ==> f in files) && NothingOlderLeft(files, a)
    requires var p := Overlapping(parents, Some(lo), Some(hi)); (c0 == a && c1 == p) || (mayExpand && |c0| > |a| && |c1| == |p| > 0)
    ensures ComesOf(files, parents, in0, mayExpand, c0, c1)
  {
    ChainIsLeast(files, in0, a);
  }

  /** Completes the inputs of a compaction: boundary files, then the parents that
      meet them, then more files of `level` if that needs no more parents. The
      size limits are left to the caller. */
  method SetupOtherInputs(level: nat, files: seq<FileMeta>, parents: seq<FileMeta>, in0: seq<FileMeta>,
      mayExpand: bool) returns (c0: seq<FileMeta>, c1: seq<FileMeta>, ghost lo: UserKey, ghost hi: UserKey)
    requires AllValid(files) && LevelSorted(parents) && Selected(level, files, in0)
    ensures InputsOk(level, files, parents, c0, c1, lo, hi)
    ensures forall f :: f in in0 ==> f in c0
    ensures AllValid(c0 + c1) && (Connected(in0) ==> Connected(c0 + c1))
    ensures ComesOf(files, parents, in0, mayExpand, c0, c1)
  {
    var a, p;
    ghost var alo, ahi;
    a, p, alo, ahi := CloseInputs(level, files, parents, in0);
    c0, c1, lo, hi := Widen(level, files, parents, a, p, alo, ahi, mayExpand);
    InputsCome(files, parents, in0, mayExpand, a, alo, ahi, c0, c1);
  }

  /** Boundary files, and the parents that meet the range. */
  method CloseInputs(level: nat, files: seq<FileMeta>, parents: seq<FileMeta>, in0: seq<FileMeta>)
    returns (c0: seq<FileMeta>, c1: seq<FileMeta>, ghost lo: UserKey, ghost hi: UserKey)
    requires AllValid(files) && LevelSorted(parents) && Selected(level, files, in0)
    ensures InputsOk(level, files, parents, c0, c1, lo, hi) && in0 <= c0 && Chained(c0, |in0|)
    ensures AllValid(c0 + c1) && (Connected(in0) ==> Connected(c0 + c1))
  {
    assert in0 == [] + in0;
    c0 := Extend(level, files, in0, []);
    assert c0 == [] + c0;
    var smallest, largest := GetRange(c0);
    lo, hi := smallest, largest;
    ghost var plo, phi;
    c1, plo, phi := GetOverlappingInputs(level + 1, parents, Some(smallest), Some(largest));
    ParentsTouch(c0, lo, hi, parents);
    AllValidUnion(c0, c1);
  }

  /** More files of `level`, if that needs no more parents. */
  method Widen(level: nat, files: seq<FileMeta>, parents: seq<FileMeta>, in0: seq<FileMeta>, in1: seq<FileMeta>,
      ghost lo0: UserKey, ghost hi0: UserKey, mayExpand: bool)
    returns (c0: seq<FileMeta>, c1: seq<FileMeta>, ghost lo: UserKey, ghost hi: UserKey)
    requires AllValid(files) && LevelSorted(parents) && InputsOk(level, files, parents, in0, in1, lo0, hi0)
    requires AllValid(in0 + in1)
    ensures InputsOk(level, files, parents, c0, c1, lo, hi) && AllValid(c0 + c1)
    ensures forall f :: f in in0 ==> f in c0
    ensures Connected(in0 + in1) ==> Connected(c0 + c1)
    ensures (c0 == in0 && c1 == in1) || (mayExpand && |c0| > |in0| && |c1| == |in1| > 0)
  {
    c0, c1, lo, hi := in0, in1, lo0, hi0;
    AllValidParts(in0, in1);
    if |c1| > 0 {
      var expanded0 := Expand(level, files, c0, c1);
      if |expanded0| > |c0| && mayExpand {
        var newStart, newLimit := GetRange(expanded0);
        var expanded1;
        ghost var plo, phi;
        expanded1, plo, phi := GetOverlappingInputs(level + 1, parents, Some(newStart), Some(newLimit));
        if |expanded1| == |c1| {
          ExpandedInputs(files, parents, c0, lo, hi, expanded0, newStart, newLimit);
          lo, hi := newStart, newLimit;
          c0, c1 := expanded0, expanded1;
        }
      }
    }
  }

  lemma {:induction false} AllValidParts(a: seq<FileMeta>, b: seq<FileMeta>)
    requires AllValid(a + b)
    ensures AllValid(a) && AllValid(b)
  {
    forall i | 0 <= i < |a| ensures a[i].Valid() {
      assert (a + b)[i] == a[i];
    }
    forall i | 0 <= i < |b| ensures b[i].Valid() {
      assert (a + b)[|a| + i] == b[i];
    }
  }

  /** The files of `level` that meet the whole range of the inputs so far. */
  method Expand(level: nat, files: seq<FileMeta>, c0: seq<FileMeta>, c1: seq<FileMeta>) returns (r: seq<FileMeta>)
    requires AllValid(files) && Selected(level, files, c0) && AllValid(c1)
    ensures Selected(level, files, r) && NothingOlderLeft(files, r)
    ensures forall f :: f in c0 ==> f in r
    ensures AllValid(c0 + c1) && AllValid((c0 + c1) + r)
    ensures Connected(c0 + c1) ==> Connected((c0 + c1) + r)
  {
    AllValidUnion(c0, c1);
    var allStart, allLimit := GetRange(c0 + c1);
    ghost var elo, ehi;
    r, elo, ehi := GetOverlappingInputs(level, files, Some(allStart), Some(allLimit));
    ContainsPart(files, c0, c0 + c1, allStart, allLimit, elo, ehi);
    OverlappingIsSelected(level, files, elo, ehi);
    if Connected(c0 + c1) {
      SeedGrows(level, files, c0 + c1, allStart, allLimit, elo, ehi);
    }
    r := Extend(level, files, r, c0 + c1);
    AllValidUnion(c0 + c1, r);
  }

  lemma {:induction false} ContainsPart(files: seq<FileMeta>, part: seq<FileMeta>, whole: seq<FileMeta>,
      begin: UserKey, end: UserKey, lo: Option<UserKey>, hi: Option<UserKey>)
    requires AllValid(files) && AllValid(whole) && IsHull(whole, begin, end) && |part| > 0
    requires forall f :: f in part ==> f in whole && f in files
    requires RangeIncluded(Some(begin), Some(end), lo, hi)
    ensures forall f :: f in part ==> f in Overlapping(files, lo, hi)
    ensures |Overlapping(files, lo, hi)| > 0
  {
    forall f | f in part ensures f in Overlapping(files, lo, hi) {
      assert f in whole;
      var i :| 0 <= i < |whole| && whole[i] == f;
      EntryInRange(f, f.entries[0]);
      assert Overlaps(f, lo, hi);
    }
    assert part[0] in part;
  }

  /** The files that meet the least range around the given one that no file straddles. */
  ghost predicate ClosedStart(files: seq<FileMeta>, begin: Option<UserKey>, end: Option<UserKey>, in0: seq<FileMeta>)
    requires AllValid(files)
  {
    exists lo, hi ::
      && RangeIncluded(begin, end, lo, hi) && ClosedRange(files, lo, hi) && LeastRange(files, begin, end, lo, hi)
      && in0 == Overlapping(files, lo, hi)
  }

  /** What an automatic compaction of a file starts with. */
  ghost predicate FirstOf(level: nat, files: seq<FileMeta>, f: FileMeta, in0: seq<FileMeta>)
    requires AllValid(files) && f.Valid()
  {
    if level > 0 then in0 == [f]
    else ClosedStart(files, Some(f.Smallest().user), Some(f.Largest().user), in0)
  }

  /** An automatic compaction starts from one file; at level 0 from all that
      transitively overlap it. The choice of file is left to the caller. What is said of
      `first` stands under a quantifier, so that it burdens no caller that does not use it. */
  method PickCompaction(level: nat, files: seq<FileMeta>, parents: seq<FileMeta>, picked: nat, mayExpand: bool)
    returns (c0: seq<FileMeta>, c1: seq<FileMeta>, ghost lo: UserKey, ghost hi: UserKey, ghost first: seq<FileMeta>)
    requires AllValid(files) && Distinct(files) && LevelSorted(parents) && picked < |files|
    requires level > 0 ==> LevelSorted(files)
    ensures InputsOk(level, files, parents, c0, c1, lo, hi)
    ensures files[picked] in c0 && AllValid(c0 + c1) && Connected(c0 + c1)
    ensures forall in0 :: in0 == first ==> FirstOf(level, files, files[picked], in0) && ComesOf(files, parents, in0, mayExpand, c0, c1)
  {
    var in0 := FirstInputs(level, files, picked);
    c0, c1, lo, hi := SetupOtherInputs(level, files, parents, in0, mayExpand);
    first := in0;
  }

  method FirstInputs(level: nat, files: seq<FileMeta>, picked: nat) returns (in0: seq<FileMeta>)
    requires AllValid(files) && Distinct(files) && picked < |files|
    requires level > 0 ==> LevelSorted(files)
    ensures Selected(level, files, in0) && Connected(in0) && files[picked] in in0
    ensures FirstOf(level, files, files[picked], in0)
  {
    in0 := [files[picked]];
    ghost var seed := in0;
    OneFile(files, picked);
    assert files[picked] == seed[0] && seed[0] in seed;
    if level == 0 {
      var smallest, largest := GetRange(in0);
      ghost var l, h;
      in0, l, h := GetOverlappingInputs(0, files, Some(smallest), Some(largest));
      ContainsPart(files, seed, seed, smallest, largest, l, h);
      OverlappingIsSelected(0, files, l, h);
      SeedGrows(0, files, seed, smallest, largest, l, h);
      ConnectedSame(seed + in0, in0);
    } else {
      RunOfOne(files, picked);
    }
  }

  lemma {:induction false} OneFile(files: seq<FileMeta>, i: nat)
    requires AllValid(files) && i < |files|
    ensures AllValid([files[i]]) && Connected([files[i]])
  {
    var one := [files[i]];
    forall u, f, g | f in one && g in one && Between(f, u, g)
      ensures exists x :: x in one && Covers(x, u)
    {
      assert one[0] in one && f == one[0] && g == one[0];
    }
  }

  lemma {:induction false} RunOfOne(files: seq<FileMeta>, i: nat)
    requires LevelSorted(files) && i < |files|
    ensures AllValid([files[i]]) && Run(files, [files[i]])
  {
    forall g | g in files && g != files[i] ensures Before(files[i], g) || Before(g, files[i]) {
      var j :| 0 <= j < |files| && files[j] == g;
    }
  }

  ghost predicate SomeMeets(files: seq<FileMeta>, begin: Option<UserKey>, end: Option<UserKey>) {
    exists f :: f in files && |f.entries| > 0 && Overlaps(f, begin, end)
  }

  /** Growing a range does not find a first file. */
  lemma {:induction false} GrownMeetsAlike(files: seq<FileMeta>, begin: Option<UserKey>, end: Option<UserKey>,
      lo: Option<UserKey>, hi: Option<UserKey>)
    requires AllValid(files) && RangeIncluded(begin, end, lo, hi)
    requires (lo == begin && hi == end) || LeastRange(files, begin, end, lo, hi)
    ensures |Overlapping(files, lo, hi)| > 0 <==> SomeMeets(files, begin, end)
  {
    forall f | f in files ensures |f.entries| > 0 && (Overlaps(f, begin, end) ==> Overlaps(f, lo, hi)) {
      var i :| 0 <= i < |files| && files[i] == f;
      EntryInRange(f, f.entries[0]);
    }
    var all := Overlapping(files, lo, hi);
    assert |all| > 0 ==> all[0] in all;
    if SomeMeets(files, begin, end) {
      var f :| f in files && |f.entries| > 0 && Overlaps(f, begin, end);
      assert f in all;
    } else {
      assert ClosedRange(files, begin, end);
    }
  }

  function Least(a: nat, b: nat): nat {
    if a < b then a else b
  }

  /** What a manual compaction starts with: at level 0 all that meet the least closed range, below
      the first `limit + 1` of those that meet the range. */
  ghost predicate RangeStart(level: nat, files: seq<FileMeta>, begin: Option<UserKey>, end: Option<UserKey>, limit: nat,
      in0: seq<FileMeta>)
    requires AllValid(files)
  {
    if level > 0 then in0 == Overlapping(files, begin, end)[..Least(limit + 1, |Overlapping(files, begin, end)|)]
    else ClosedStart(files, begin, end, in0)
  }

  /** A manual compaction takes what meets the requested range, cut short above
      level 0 at an arbitrary point; there is none if nothing meets it. */
  method CompactRange(level: nat, files: seq<FileMeta>, parents: seq<FileMeta>, begin: Option<UserKey>,
      end: Option<UserKey>, limit: nat, mayExpand: bool)
    returns (some: bool, c0: seq<FileMeta>, c1: seq<FileMeta>, ghost lo: UserKey, ghost hi: UserKey, ghost first: seq<FileMeta>)
    requires AllValid(files) && Distinct(files) && LevelSorted(parents)
    requires level > 0 ==> LevelSorted(files)
    ensures some ==> InputsOk(level, files, parents, c0, c1, lo, hi) && AllValid(c0 + c1)
    ensures some <==> SomeMeets(files, begin, end)
    ensures some && level == 0 ==> forall f :: f in files && Overlaps(f, begin, end) ==> f in c0
    ensures some ==> forall in0 :: in0 == first ==> RangeStart(level, files, begin, end, limit, in0) && ComesOf(files, parents, in0, mayExpand, c0, c1)
    ensures some && level > 0 ==>
              forall f :: f in Overlapping(files, begin, end)[..Least(limit + 1, |Overlapping(files, begin, end)|)] ==> f in c0
  {
    c0, c1, lo, hi := [], [], 0.0, 0.0;
    var inputs;
    some, inputs := RangeInputs(level, files, begin, end, limit);
    first := inputs;
    if some {
      c0, c1, lo, hi := SetupOtherInputs(level, files, parents, inputs, mayExpand);
    }
  }

  /** The files to begin with, if there are any. */
  method RangeInputs(level: nat, files: seq<FileMeta>, begin: Option<UserKey>, end: Option<UserKey>, limit: nat)
    returns (some: bool, inputs: seq<FileMeta>)
    requires AllValid(files) && Distinct(files) && (level > 0 ==> LevelSorted(files))
    ensures some <==> SomeMeets(files, begin, end)
    ensures some ==> Selected(level, files, inputs) && RangeStart(level, files, begin, end, limit, inputs)
    ensures some && level == 0 ==> forall f :: f in files && Overlaps(f, begin, end) ==> f in inputs
  {
    ghost var l, h;
    inputs, l, h := GetOverlappingInputs(level, files, begin, end);
    GrownMeetsAlike(files, begin, end, l, h);
    some := |inputs| > 0;
    if some {
      OverlappingIsSelected(level, files, l, h);
      if level > 0 && limit + 1 < |inputs| {
        PrefixIsRun(files, l, h, limit + 1);
        inputs := inputs[..limit + 1];
      }
    }
  }
}
