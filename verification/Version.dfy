// Table files, levels, and the file selection loops of db/version_set.cc.
module Version {
  import opened Keys

  const NUM_LEVELS: nat := 7
  const MAX_MEM_COMPACT_LEVEL: nat := 2

  /** A table file: its number and the entries a reader finds in it. */
  datatype FileMeta = FileMeta(number: nat, entries: seq<Entry>) {
    ghost predicate Valid() {
      && |entries| > 0
      && Sorted(entries)
      && forall i :: 0 <= i < |entries| ==> entries[i].key.sn <= MAX_SEQUENCE
    }
    function Smallest(): InternalKey requires |entries| > 0 { entries[0].key }
    function Largest(): InternalKey requires |entries| > 0 { entries[|entries| - 1].key }
  }

  ghost predicate AllValid(files: seq<FileMeta>) {
    forall i :: 0 <= i < |files| ==> files[i].Valid()
  }

  ghost predicate Differ(files: seq<FileMeta>, i: int, j: int) {
    0 <= i < j < |files| ==> files[i] != files[j]
  }

  ghost predicate Distinct(files: seq<FileMeta>) {
    forall i, j {:trigger Differ(files, i, j)} :: Differ(files, i, j)
  }

  ghost predicate Before(f: FileMeta, g: FileMeta)
    requires |f.entries| > 0 && |g.entries| > 0
  {
    Less(f.Largest(), g.Smallest())
  }

  /** A level above 0: files in key order with disjoint ranges. */
  ghost predicate LevelSorted(files: seq<FileMeta>) {
    && AllValid(files)
    && forall i, j :: 0 <= i < j < |files| ==> Before(files[i], files[j])
  }

  lemma {:induction false} EntryInRange(f: FileMeta, e: Entry)
    requires f.Valid() && e in f.entries
    ensures LessEq(f.Smallest(), e.key) && LessEq(e.key, f.Largest())
    ensures f.Smallest().user <= e.key.user <= f.Largest().user
  {
  }

  // ----- FindFile -----

  /** `r` is the first file whose largest key is at or after `key`. */
  ghost predicate IsFirstReaching(files: seq<FileMeta>, key: InternalKey, r: nat)
    requires AllValid(files)
  {
    && r <= |files|
    && (forall i :: 0 <= i < r ==> Less(files[i].Largest(), key))
    && (forall i :: r <= i < |files| ==> !Less(files[i].Largest(), key))
  }

  method FindFile(files: seq<FileMeta>, key: InternalKey) returns (r: nat)
    requires LevelSorted(files)
    ensures IsFirstReaching(files, key, r)
  {
    var left, right := 0, |files|;
    while left < right
      invariant 0 <= left <= right <= |files|
      invariant forall i :: 0 <= i < left ==> Less(files[i].Largest(), key)
      invariant forall i :: right <= i < |files| ==> !Less(files[i].Largest(), key)
    {
      var mid := (left + right) / 2;
      if Less(files[mid].Largest(), key) {
        assert forall i :: 0 <= i < mid ==> Before(files[i], files[mid]);
        left := mid + 1;
      } else {
        assert forall i :: mid < i < |files| ==> Before(files[mid], files[i]);
        right := mid;
      }
    }
    r := right;
  }

  // ----- range overlap -----

  predicate AfterFile(u: Option<UserKey>, f: FileMeta)
    requires |f.entries| > 0
  {
    u.Some? && u.value > f.Largest().user
  }

  predicate BeforeFile(u: Option<UserKey>, f: FileMeta)
    requires |f.entries| > 0
  {
    u.Some? && u.value < f.Smallest().user
  }

  /** The user-key range of `f` meets `[lo, hi]`; `None` is unbounded. */
  predicate Overlaps(f: FileMeta, lo: Option<UserKey>, hi: Option<UserKey>)
    requires |f.entries| > 0
  {
    !AfterFile(lo, f) && !BeforeFile(hi, f)
  }

  /** A file meets a range exactly if some user key is in both. */
  lemma {:induction false} OverlapsMeans(f: FileMeta, lo: Option<UserKey>, hi: Option<UserKey>)
    requires f.Valid() && (lo.Some? && hi.Some? ==> lo.value <= hi.value)
    ensures Overlaps(f, lo, hi) <==> exists u :: Covers(f, u) && (lo.Some? ==> lo.value <= u) && (hi.Some? ==> u <= hi.value)
  {
    EntryInRange(f, f.entries[0]);
    if Overlaps(f, lo, hi) {
      var u := if lo.Some? && lo.value > f.Smallest().user then lo.value else f.Smallest().user;
      assert Covers(f, u);
    }
  }

  method SomeFileOverlapsRange(disjointSorted: bool, files: seq<FileMeta>, lo: Option<UserKey>,
      hi: Option<UserKey>) returns (r: bool)
    requires if disjointSorted then LevelSorted(files) else AllValid(files)
    ensures r <==> exists i :: 0 <= i < |files| && Overlaps(files[i], lo, hi)
  {
    if !disjointSorted {
      for i := 0 to |files|
        invariant forall k :: 0 <= k < i ==> !Overlaps(files[k], lo, hi)
      {
        if AfterFile(lo, files[i]) || BeforeFile(hi, files[i]) {
        } else {
          return true;
        }
      }
      return false;
    }
    var index := 0;
    if lo.Some? {
      index := FindFile(files, SeekKey(lo.value, MAX_SEQUENCE));
      assert forall i :: 0 <= i < index ==> AfterFile(lo, files[i]) by {
        forall i | 0 <= i < index ensures AfterFile(lo, files[i]) {
          assert Less(files[i].Largest(), SeekKey(lo.value, MAX_SEQUENCE));
          assert files[i].entries[|files[i].entries| - 1].key.sn <= MAX_SEQUENCE;
        }
      }
    }
    if index >= |files| {
      return false;
    }
    r := !BeforeFile(hi, files[index]);
    if r {
      assert Overlaps(files[index], lo, hi);
    } else {
      forall i | index <= i < |files| ensures BeforeFile(hi, files[i]) {
        if index < i {
          assert Before(files[index], files[i]);
          EntryInRange(files[index], files[index].entries[0]);
        }
      }
    }
  }

  // ----- GetOverlappingInputs -----

  /** `f` stays within the range. */
  predicate Within(f: FileMeta, lo: Option<UserKey>, hi: Option<UserKey>)
    requires |f.entries| > 0
  {
    && (lo.Some? ==> lo.value <= f.Smallest().user)
    && (hi.Some? ==> f.Largest().user <= hi.value)
  }

  /** No file straddles an end of the range. */
  ghost predicate ClosedRange(files: seq<FileMeta>, lo: Option<UserKey>, hi: Option<UserKey>)
    requires AllValid(files)
  {
    forall i :: 0 <= i < |files| && Overlaps(files[i], lo, hi) ==> Within(files[i], lo, hi)
  }

  ghost predicate RangeIncluded(lo: Option<UserKey>, hi: Option<UserKey>, lo': Option<UserKey>, hi': Option<UserKey>) {
    && (lo'.Some? ==> lo.Some? && lo'.value <= lo.value)
    && (hi'.Some? ==> hi.Some? && hi.value <= hi'.value)
  }

  /** The files of `files` that meet `[lo, hi]`, in list order. */
  function Overlapping(files: seq<FileMeta>, lo: Option<UserKey>, hi: Option<UserKey>): (r: seq<FileMeta>)
    requires forall i :: 0 <= i < |files| ==> |files[i].entries| > 0
    ensures forall f :: f in r <==> f in files && Overlaps(f, lo, hi)
  {
    if |files| == 0 then []
    else
      var n := |files| - 1;
      Overlapping(files[..n], lo, hi) + (if Overlaps(files[n], lo, hi) then [files[n]] else [])
  }

  /** How many files reach beyond each end: what every restart lowers. */
  ghost function Starting(files: seq<FileMeta>, lo: Option<UserKey>): set<int>
    requires AllValid(files)
  {
    if lo.None? then {} else set i | 0 <= i < |files| && files[i].Smallest().user < lo.value
  }

  ghost function Ending(files: seq<FileMeta>, hi: Option<UserKey>): set<int>
    requires AllValid(files)
  {
    if hi.None? then {} else set i | 0 <= i < |files| && files[i].Largest().user > hi.value
  }

  lemma {:induction false} ShrinkSet(small: set<int>, big: set<int>, x: int)
    requires small <= big && x in big && x !in small
    ensures |small| < |big|
  {
    assert |big - small| == |big| - |small|;
    assert x in big - small;
  }

  /** No range that covers the request and that no file straddles is smaller. */
  ghost predicate LeastRange(files: seq<FileMeta>, begin: Option<UserKey>, end: Option<UserKey>,
      lo: Option<UserKey>, hi: Option<UserKey>)
    requires AllValid(files)
  {
    forall lo', hi' :: RangeIncluded(begin, end, lo', hi') && ClosedRange(files, lo', hi') ==> RangeIncluded(lo, hi, lo', hi')
  }

  lemma {:induction false} GrowRange(files: seq<FileMeta>, begin: Option<UserKey>, end: Option<UserKey>,
      lo: Option<UserKey>, hi: Option<UserKey>, at: nat)
    requires AllValid(files) && at < |files| && Overlaps(files[at], lo, hi)
    requires RangeIncluded(begin, end, lo, hi) && LeastRange(files, begin, end, lo, hi)
    ensures lo.Some? && files[at].Smallest().user < lo.value ==>
              var lo1 := Some(files[at].Smallest().user);
              LeastRange(files, begin, end, lo1, hi) && |Starting(files, lo1)| < |Starting(files, lo)|
    ensures hi.Some? && files[at].Largest().user > hi.value ==>
              var hi1 := Some(files[at].Largest().user);
              LeastRange(files, begin, end, lo, hi1) && |Ending(files, hi1)| < |Ending(files, hi)|
  {
    var f := files[at];
    forall lo', hi' | RangeIncluded(begin, end, lo', hi') && ClosedRange(files, lo', hi')
      ensures Within(f, lo', hi') && RangeIncluded(lo, hi, lo', hi')
    {
      assert RangeIncluded(lo, hi, lo', hi');
      assert Overlaps(files[at], lo', hi');
    }
    if lo.Some? && f.Smallest().user < lo.value {
      ShrinkSet(Starting(files, Some(f.Smallest().user)), Starting(files, lo), at);
    }
    if hi.Some? && f.Largest().user > hi.value {
      ShrinkSet(Ending(files, Some(f.Largest().user)), Ending(files, hi), at);
    }
  }

  predicate Covers(f: FileMeta, u: UserKey)
    requires |f.entries| > 0
  {
    f.Smallest().user <= u <= f.Largest().user
  }

  /** `u` came into the range while it grew from `[begin, end]` to `[lo, hi]`. */
  predicate Gained(begin: Option<UserKey>, end: Option<UserKey>, lo: Option<UserKey>, hi: Option<UserKey>, u: UserKey) {
    || (lo.Some? && begin.Some? && lo.value <= u < begin.value)
    || (hi.Some? && end.Some? && end.value < u <= hi.value)
  }

  ghost predicate CoveredBySelected(files: seq<FileMeta>, lo: Option<UserKey>, hi: Option<UserKey>, u: UserKey)
    requires AllValid(files)
  {
    exists f :: f in files && Covers(f, u) && Overlaps(f, lo, hi)
  }

  /** Every key by which the range grew lies in a file that the range meets. */
  ghost predicate GrownByFiles(files: seq<FileMeta>, begin: Option<UserKey>, end: Option<UserKey>,
      lo: Option<UserKey>, hi: Option<UserKey>)
    requires AllValid(files)
  {
    forall u :: Gained(begin, end, lo, hi, u) ==> CoveredBySelected(files, lo, hi, u)
  }

  lemma {:induction false} GrowthIsCovered(files: seq<FileMeta>, begin: Option<UserKey>, end: Option<UserKey>,
      lo: Option<UserKey>, hi: Option<UserKey>, lo': Option<UserKey>, hi': Option<UserKey>, f: FileMeta)
    requires AllValid(files) && f in files && Overlaps(f, lo, hi) && GrownByFiles(files, begin, end, lo, hi)
    requires lo' == lo || (lo.Some? && f.Smallest().user < lo.value && lo' == Some(f.Smallest().user))
    requires hi' == hi || (hi.Some? && f.Largest().user > hi.value && hi' == Some(f.Largest().user))
    ensures GrownByFiles(files, begin, end, lo', hi')
  {
    forall u | Gained(begin, end, lo', hi', u)
      ensures CoveredBySelected(files, lo', hi', u)
    {
      EntryInRange(f, f.entries[0]);
      if Gained(begin, end, lo, hi, u) {
        assert CoveredBySelected(files, lo, hi, u);
        var x :| x in files && Covers(x, u) && Overlaps(x, lo, hi);
        assert Overlaps(x, lo', hi');
      } else {
        assert Covers(f, u) && Overlaps(f, lo', hi');
      }
    }
  }

  /** What the scan has gathered from the first `i` files. */
  ghost predicate Gathered(level: nat, files: seq<FileMeta>, i: nat, lo: Option<UserKey>, hi: Option<UserKey>,
      inputs: seq<FileMeta>)
    requires AllValid(files)
  {
    && i <= |files|
    && inputs == Overlapping(files[..i], lo, hi)
    && (level == 0 ==> ClosedRange(files[..i], lo, hi))
  }

  lemma {:induction false} GatherOne(level: nat, files: seq<FileMeta>, i: nat, lo: Option<UserKey>,
      hi: Option<UserKey>, inputs: seq<FileMeta>)
    requires AllValid(files) && i < |files| && Gathered(level, files, i, lo, hi, inputs)
    ensures !Overlaps(files[i], lo, hi) ==> Gathered(level, files, i + 1, lo, hi, inputs)
    ensures Overlaps(files[i], lo, hi) && (level == 0 ==> Within(files[i], lo, hi)) ==>
              Gathered(level, files, i + 1, lo, hi, inputs + [files[i]])
  {
    assert files[..i + 1][..i] == files[..i];
  }

  /** The files of one level that a compaction of `[begin, end]` must read. At
      level 0 the range grows to the least one that no file straddles. */
  method GetOverlappingInputs(level: nat, files: seq<FileMeta>, begin: Option<UserKey>, end: Option<UserKey>)
    returns (inputs: seq<FileMeta>, ghost lo: Option<UserKey>, ghost hi: Option<UserKey>)
    requires AllValid(files)
    ensures inputs == Overlapping(files, lo, hi)
    ensures begin.Some? == lo.Some? && end.Some? == hi.Some? && RangeIncluded(begin, end, lo, hi)
    ensures level > 0 ==> lo == begin && hi == end
    ensures level == 0 ==> ClosedRange(files, lo, hi) && LeastRange(files, begin, end, lo, hi)
    ensures GrownByFiles(files, begin, end, lo, hi)
  {
    inputs := [];
    var userBegin, userEnd := begin, end;
    var i := 0;
    while i < |files|
      invariant begin.Some? == userBegin.Some? && end.Some? == userEnd.Some?
      invariant RangeIncluded(begin, end, userBegin, userEnd)
      invariant level > 0 ==> userBegin == begin && userEnd == end
      invariant Gathered(level, files, i, userBegin, userEnd, inputs)
      invariant LeastRange(files, begin, end, userBegin, userEnd)
      invariant GrownByFiles(files, begin, end, userBegin, userEnd)
      decreases |Starting(files, userBegin)| + |Ending(files, userEnd)|, |files| - i
    {
      var f := files[i];
      GatherOne(level, files, i, userBegin, userEnd, inputs);
      ghost var at := i;
      i := i + 1;
      if AfterFile(userBegin, f) {
      } else if BeforeFile(userEnd, f) {
      } else {
        inputs := inputs + [f];
        if level == 0 {
          GrowRange(files, begin, end, userBegin, userEnd, at);
          if userBegin.Some? && f.Smallest().user < userBegin.value {
            GrowthIsCovered(files, begin, end, userBegin, userEnd, Some(f.Smallest().user), userEnd, f);
            userBegin, inputs, i := Some(f.Smallest().user), [], 0;
          } else if userEnd.Some? && f.Largest().user > userEnd.value {
            GrowthIsCovered(files, begin, end, userBegin, userEnd, userBegin, Some(f.Largest().user), f);
            userEnd, inputs, i := Some(f.Largest().user), [], 0;
          }
        }
      }
    }
    assert files[..i] == files;
    lo, hi := userBegin, userEnd;
  }

  // ----- connected file sets -----

  /** No user key between two of the files is outside all of them. */
  ghost predicate Connected(fs: seq<FileMeta>)
    requires AllValid(fs)
  {
    forall u, f, g :: f in fs && g in fs && Between(f, u, g) ==> exists x :: x in fs && Covers(x, u)
  }

  predicate Between(f: FileMeta, u: UserKey, g: FileMeta)
    requires |f.entries| > 0 && |g.entries| > 0
  {
    f.Smallest().user <= u <= g.Largest().user
  }

  /** `b` meets the range spanned by the files of `fs`. */
  ghost predicate Touches(fs: seq<FileMeta>, b: FileMeta)
    requires AllValid(fs) && b.Valid()
  {
    && (exists f :: f in fs && f.Smallest().user <= b.Largest().user)
    && (exists g :: g in fs && b.Smallest().user <= g.Largest().user)
  }

  lemma {:induction false} ConnectedUnion(a: seq<FileMeta>, b: seq<FileMeta>, c: seq<FileMeta>)
    requires AllValid(a) && AllValid(b) && AllValid(c) && Connected(a) && |a| > 0
    requires forall f :: f in c <==> f in a || f in b
    requires forall f :: f in b ==> Touches(a, f)
    ensures Connected(c)
  {
    forall u, f, g | f in c && g in c && Between(f, u, g)
      ensures exists x :: x in c && Covers(x, u)
    {
      if f' :| f' in a && f'.Smallest().user <= u {
        if g' :| g' in a && u <= g'.Largest().user {
          assert Between(f', u, g');
          var x :| x in a && Covers(x, u);
          assert x in c;
        } else {
          assert g in b;
          assert Touches(a, g);
          assert Covers(g, u);
        }
      } else {
        assert f in b;
        assert Touches(a, f);
        assert Covers(f, u);
      }
    }
  }

  // ----- boundary files -----

  ghost predicate IsLargestKey(files: seq<FileMeta>, k: InternalKey)
    requires AllValid(files)
  {
    && (exists i :: 0 <= i < |files| && files[i].Largest() == k)
    && forall i :: 0 <= i < |files| ==> LessEq(files[i].Largest(), k)
  }

  method FindLargestKey(files: seq<FileMeta>) returns (k: InternalKey)
    requires AllValid(files) && |files| > 0
    ensures IsLargestKey(files, k)
  {
    k := files[0].Largest();
    for i := 1 to |files|
      invariant IsLargestKey(files[..i], k)
    {
      if Less(k, files[i].Largest()) {
        k := files[i].Largest();
      }
      assert files[..i + 1][i] == files[i];
      assert files[..i + 1][..i] == files[..i];
    }
    assert files[..|files|] == files;
  }

  /** `f` starts after `k` but still in the user key of `k`. */
  predicate Continues(k: InternalKey, f: FileMeta)
    requires |f.entries| > 0
  {
    Less(k, f.Smallest()) && f.Smallest().user == k.user
  }

  method FindSmallestBoundaryFile(files: seq<FileMeta>, k: InternalKey) returns (r: Option<nat>)
    requires AllValid(files)
    ensures r.None? ==> forall i :: 0 <= i < |files| ==> !Continues(k, files[i])
    ensures r.Some? ==> r.value < |files| && Continues(k, files[r.value])
    ensures r.Some? ==> forall i :: 0 <= i < |files| && Continues(k, files[i]) ==>
                          LessEq(files[r.value].Smallest(), files[i].Smallest())
  {
    r := None;
    for i := 0 to |files|
      invariant r.None? ==> forall j :: 0 <= j < i ==> !Continues(k, files[j])
      invariant r.Some? ==> r.value < i && Continues(k, files[r.value])
      invariant r.Some? ==> forall j :: 0 <= j < i && Continues(k, files[j]) ==>
                              LessEq(files[r.value].Smallest(), files[j].Smallest())
    {
      if Continues(k, files[i]) && (r.None? || Less(files[i].Smallest(), files[r.value].Smallest())) {
        r := Some(i);
      }
    }
  }

  ghost function StartingAfter(files: seq<FileMeta>, k: InternalKey): set<int>
    requires AllValid(files)
  {
    set i | 0 <= i < |files| && Less(k, files[i].Smallest())
  }

  /** Every file of `r` from number `i` on continues the last user key of those before it. */
  ghost predicate Chained(r: seq<FileMeta>, n: nat)
    requires AllValid(r)
  {
    forall i :: n <= i < |r| ==> Linked(r, i)
  }

  ghost predicate Linked(r: seq<FileMeta>, i: nat)
    requires AllValid(r) && i < |r|
  {
    exists k :: IsLargestKey(r[..i], k) && Continues(k, r[i])
  }

  lemma {:induction false} ChainGrows(r: seq<FileMeta>, n: nat, largest: InternalKey, b: FileMeta)
    requires AllValid(r) && Chained(r, n) && IsLargestKey(r, largest) && b.Valid() && Continues(largest, b)
    ensures AllValid(r + [b]) && Chained(r + [b], n)
  {
    var to := r + [b];
    forall i | n <= i < |to| ensures Linked(to, i) {
      if i < |r| {
        assert Linked(r, i) && to[..i] == r[..i];
      } else {
        assert to[..i] == r && IsLargestKey(to[..i], largest) && Continues(largest, to[i]);
      }
    }
  }

  /** Extends `inputs` until no file of the level continues its last user key. */
  method AddBoundaryInputs(levelFiles: seq<FileMeta>, inputs: seq<FileMeta>, ghost also: seq<FileMeta>)
    returns (r: seq<FileMeta>, ghost last: InternalKey)
    requires AllValid(levelFiles) && AllValid(inputs) && AllValid(also)
    requires |inputs| > 0 && forall f :: f in inputs ==> f in levelFiles
    ensures inputs <= r && AllValid(r) && forall f :: f in r ==> f in levelFiles
    ensures Chained(r, |inputs|)
    ensures IsLargestKey(r, last) && forall f :: f in levelFiles ==> !Continues(last, f)
    ensures LevelSorted(levelFiles) && Run(levelFiles, inputs) ==> Run(levelFiles, r)
    ensures Connected(also + inputs) ==> Connected(also + r)
    ensures Distinct(inputs) ==> Distinct(r)
    ensures (forall f, k :: f in levelFiles && IsLargestKey(inputs, k) ==> !Continues(k, f)) ==> r == inputs
  {
    r := inputs;
    var largest := FindLargestKey(inputs);
    var searching := true;
    while searching
      invariant inputs <= r && AllValid(r) && forall f :: f in r ==> f in levelFiles
      invariant Chained(r, |inputs|)
      invariant IsLargestKey(r, largest)
      invariant !searching ==> forall f :: f in levelFiles ==> !Continues(largest, f)
      invariant LevelSorted(levelFiles) && Run(levelFiles, inputs) ==> Run(levelFiles, r)
      invariant Connected(also + inputs) ==> Connected(also + r)
      invariant Distinct(inputs) ==> Distinct(r)
      invariant r == inputs || exists f, k :: f in levelFiles && IsLargestKey(inputs, k) && Continues(k, f)
      decreases |StartingAfter(levelFiles, largest)| + (if searching then 1 else 0)
    {
      var found := FindSmallestBoundaryFile(levelFiles, largest);
      if found.Some? {
        var b := levelFiles[found.value];
        AddBoundaryStep(levelFiles, r, largest, b);
        ConnectedStep(also, r, largest, b);
        ChainGrows(r, |inputs|, largest, b);
        assert r == inputs ==> b in levelFiles && IsLargestKey(inputs, largest) && Continues(largest, b);
        r, largest := r + [b], b.Largest();
      } else {
        searching := false;
      }
    }
    last := largest;
  }

  /** Every other file lies wholly before or wholly after the chosen ones. */
  ghost predicate Run(files: seq<FileMeta>, ins: seq<FileMeta>)
    requires AllValid(files) && AllValid(ins)
  {
    forall g :: g in files && g !in ins ==> (forall f :: f in ins ==> Before(f, g)) || (forall f :: f in ins ==> Before(g, f))
  }

  /** One round of the boundary search: the key advances, the run stays a run. */
  lemma {:induction false} AddBoundaryStep(files: seq<FileMeta>, ins: seq<FileMeta>, k: InternalKey, b: FileMeta)
    requires AllValid(files) && AllValid(ins) && IsLargestKey(ins, k) && (forall f :: f in ins ==> f in files)
    requires b in files && b.Valid() && Continues(k, b)
    requires forall f :: f in files && Continues(k, f) ==> LessEq(b.Smallest(), f.Smallest())
    ensures AllValid(ins + [b]) && IsLargestKey(ins + [b], b.Largest())
    ensures |StartingAfter(files, b.Largest())| < |StartingAfter(files, k)|
    ensures Distinct(ins) ==> Distinct(ins + [b])
    ensures LevelSorted(files) && Run(files, ins) ==> Run(files, ins + [b])
  {
    EntryInRange(b, b.entries[0]);
    var i :| 0 <= i < |files| && files[i] == b;
    ShrinkSet(StartingAfter(files, b.Largest()), StartingAfter(files, k), i);
    assert (ins + [b])[|ins|] == b;
    forall i, j | Distinct(ins) ensures Differ(ins + [b], i, j) {
      assert Differ(ins, i, j);
    }
    if LevelSorted(files) && Run(files, ins) {
      var m :| 0 <= m < |ins| && ins[m].Largest() == k;
      forall g | g in files && g !in ins + [b]
        ensures (forall x :: x in ins + [b] ==> Before(x, g)) || (forall x :: x in ins + [b] ==> Before(g, x))
      {
        RunStep(files, ins, k, b, m, g);
      }
    }
  }

  lemma {:induction false} RunStep(files: seq<FileMeta>, ins: seq<FileMeta>, k: InternalKey, b: FileMeta,
      m: nat, g: FileMeta)
    requires LevelSorted(files) && AllValid(ins) && (forall f :: f in ins ==> f in files) && Run(files, ins)
    requires IsLargestKey(ins, k) && m < |ins| && ins[m].Largest() == k
    requires b in files && b.Valid() && Continues(k, b)
    requires forall f :: f in files && Continues(k, f) ==> LessEq(b.Smallest(), f.Smallest())
    requires g in files && g !in ins && g != b && g.Valid()
    ensures (forall x :: x in ins + [b] ==> Before(x, g)) || (forall x :: x in ins + [b] ==> Before(g, x))
  {
    var i :| 0 <= i < |files| && files[i] == g;
    var j :| 0 <= j < |files| && files[j] == b;
    EntryInRange(g, g.entries[0]);
    EntryInRange(b, b.entries[0]);
    EntryInRange(ins[m], ins[m].entries[0]);
    if forall x :: x in ins ==> Before(x, g) {
      assert Before(ins[m], g);
      assert j < i && Before(b, g);
    } else {
      assert Before(g, ins[m]);
      assert Before(g, b);
    }
  }

  lemma {:induction false} ConnectedStep(also: seq<FileMeta>, ins: seq<FileMeta>, k: InternalKey, b: FileMeta)
    requires AllValid(also) && AllValid(ins) && b.Valid() && IsLargestKey(ins, k) && Continues(k, b)
    ensures AllValid(also + ins) && AllValid(also + (ins + [b]))
    ensures Connected(also + ins) ==> Connected(also + (ins + [b]))
  {
    var all := also + ins;
    var m :| 0 <= m < |ins| && ins[m].Largest() == k;
    assert all[|also| + m] == ins[m];
    EntryInRange(ins[m], ins[m].entries[0]);
    EntryInRange(b, b.entries[0]);
    if Connected(all) {
      assert ins[m] in all && Touches(all, b);
      ConnectedUnion(all, [b], also + (ins + [b]));
    }
  }
}
