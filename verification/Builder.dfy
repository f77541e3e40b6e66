// Applying version edits to the file lists of a version (VersionSet::Builder in
// db/version_set.cc), and replaying a manifest.
module Builder {
  import opened Keys
  import opened Version

  type Levels = seq<seq<FileMeta>>

  /** The order of the files of a level: smallest key, then file number. */
  predicate ByKey(f: FileMeta, g: FileMeta)
    requires |f.entries| > 0 && |g.entries| > 0
  {
    Less(f.Smallest(), g.Smallest()) || (f.Smallest() == g.Smallest() && f.number < g.number)
  }

  ghost predicate SortedByKey(files: seq<FileMeta>) {
    && (forall i :: 0 <= i < |files| ==> |files[i].entries| > 0)
    && forall i, j :: 0 <= i < j < |files| ==> ByKey(files[i], files[j])
  }

  ghost function FileSet(files: seq<FileMeta>): set<FileMeta> {
    set f | f in files
  }

  /** A file set has only one sorted listing. */
  lemma {:induction false} SortedListingIsUnique(a: seq<FileMeta>, b: seq<FileMeta>)
    requires SortedByKey(a) && SortedByKey(b) && FileSet(a) == FileSet(b)
    ensures a == b
  {
    if |a| == 0 {
      assert forall f :: f in b ==> f in FileSet(b);
    } else {
      assert a[0] in FileSet(b);
      assert b[0] in FileSet(a);
      var i :| 0 <= i < |b| && b[i] == a[0];
      var j :| 0 <= j < |a| && a[j] == b[0];
      assert a[0] == b[0];
      forall f ensures f in FileSet(a[1..]) <==> f in FileSet(b[1..]) {
        assert f in FileSet(a) <==> f in FileSet(b);
        assert f in a[1..] <==> f in a && f != a[0];
        assert f in b[1..] <==> f in b && f != b[0];
      }
      SortedListingIsUnique(a[1..], b[1..]);
      assert a == [a[0]] + a[1..] && b == [b[0]] + b[1..];
    }
  }

  datatype Edit = Edit(deleted: seq<(nat, nat)>, added: seq<(nat, FileMeta)>)

  ghost predicate EditOk(e: Edit) {
    && (forall i :: 0 <= i < |e.deleted| ==> e.deleted[i].0 < NUM_LEVELS)
    && (forall i :: 0 <= i < |e.added| ==> e.added[i].0 < NUM_LEVELS && |e.added[i].1.entries| > 0)
  }

  ghost function DeletedAt(e: Edit, level: nat, n: nat): set<nat>
    requires n <= |e.deleted|
  {
    set i | 0 <= i < n && e.deleted[i].0 == level :: e.deleted[i].1
  }

  ghost function AddedAt(e: Edit, level: nat, n: nat): set<FileMeta>
    requires n <= |e.added|
  {
    set i | 0 <= i < n && e.added[i].0 == level :: e.added[i].1
  }

  ghost function Numbers(files: set<FileMeta>): set<nat> {
    set f | f in files :: f.number
  }

  /** The effect of one edit on one level, as a set of files. */
  ghost function Applied(files: set<FileMeta>, e: Edit, level: nat): set<FileMeta> {
    var added := AddedAt(e, level, |e.added|);
    set f | f in files + added && (f.number !in DeletedAt(e, level, |e.deleted|) || f.number in Numbers(added))
  }

  /** A number is never given to a second, different file. */
  ghost predicate NumbersAgree(a: set<FileMeta>, b: set<FileMeta>) {
    forall f, g {:trigger SameNumber(f, g)} :: f in a && g in b && SameNumber(f, g) ==> f == g
  }

  ghost predicate SameNumber(f: FileMeta, g: FileMeta) {
    f.number == g.number
  }

  lemma {:induction false} ByKeyTransitive(f: FileMeta, g: FileMeta, h: FileMeta)
    requires |f.entries| > 0 && |g.entries| > 0 && |h.entries| > 0
    requires ByKey(f, g) && ByKey(g, h)
    ensures ByKey(f, h)
  {
  }

  lemma {:induction false} ByKeyTotal(f: FileMeta, g: FileMeta)
    requires |f.entries| > 0 && |g.entries| > 0
    ensures ByKey(f, g) || ByKey(g, f) || (f.Smallest() == g.Smallest() && f.number == g.number)
  {
  }

  lemma {:induction false} InsertAt(files: seq<FileMeta>, i: nat, f: FileMeta)
    requires SortedByKey(files) && |f.entries| > 0 && i <= |files|
    requires forall k :: 0 <= k < i ==> ByKey(files[k], f)
    requires i < |files| ==> ByKey(f, files[i])
    ensures SortedByKey(files[..i] + [f] + files[i..])
    ensures FileSet(files[..i] + [f] + files[i..]) == FileSet(files) + {f}
  {
    var r := files[..i] + [f] + files[i..];
    forall k | i < k < |files| ensures ByKey(f, files[k]) {
      ByKeyTransitive(f, files[i], files[k]);
    }
    forall g ensures g in FileSet(r) <==> g in FileSet(files) + {f} {
      if g in files {
        assert g in files[..i] || g in files[i..];
      }
    }
  }

  /** `std::set` insertion under `ByKey`. */
  method InsertFile(files: seq<FileMeta>, f: FileMeta) returns (r: seq<FileMeta>)
    requires SortedByKey(files) && |f.entries| > 0
    requires forall g :: g in files && g.number == f.number ==> g == f
    ensures SortedByKey(r) && FileSet(r) == FileSet(files) + {f}
  {
    var i := 0;
    while i < |files| && ByKey(files[i], f)
      invariant 0 <= i <= |files|
      invariant forall k :: 0 <= k < i ==> ByKey(files[k], f)
    {
      i := i + 1;
    }
    if i < |files| && files[i].Smallest() == f.Smallest() && files[i].number == f.number {
      assert files[i] in files;
      return files;
    }
    if i < |files| {
      ByKeyTotal(files[i], f);
    }
    InsertAt(files, i, f);
    r := files[..i] + [f] + files[i..];
  }

  /** Collects edits against a base version. */
  class VersionBuilder {
    const base: Levels
    var deletedFiles: seq<set<nat>>
    var addedFiles: seq<seq<FileMeta>>

    ghost predicate Valid()
      reads this
    {
      && |base| == NUM_LEVELS == |deletedFiles| == |addedFiles|
      && LevelsValid(base, addedFiles)
    }

    /** Every file the builder has heard of at a level, deleted or not. */
    ghost function Known(level: nat): set<FileMeta>
      requires Valid() && level < NUM_LEVELS
      reads this
    {
      FileSet(base[level]) + FileSet(addedFiles[level])
    }

    /** The files the level would hold if it were saved now. */
    ghost function Live(level: nat): set<FileMeta>
      requires Valid() && level < NUM_LEVELS
      reads this
    {
      Remaining(Known(level), deletedFiles[level])
    }

    constructor (base: Levels)
      requires |base| == NUM_LEVELS && forall l :: 0 <= l < NUM_LEVELS ==> SortedByKey(base[l])
      ensures Valid() && this.base == base
      ensures forall l :: 0 <= l < NUM_LEVELS ==> Live(l) == FileSet(base[l]) && Known(l) == FileSet(base[l])
    {
      this.base := base;
      this.deletedFiles := seq(NUM_LEVELS, _ => {});
      this.addedFiles := seq(NUM_LEVELS, _ => []);
    }

    /** Deletions first, then additions, which also cancel a deletion. */
    method Apply(e: Edit)
      requires Valid() && EditOk(e)
      requires forall l :: 0 <= l < NUM_LEVELS ==> NumbersAgree(Known(l) + AddedAt(e, l, |e.added|), AddedAt(e, l, |e.added|))
      requires forall l :: 0 <= l < NUM_LEVELS ==> NoSharedNumber(FileSet(base[l]), AddedAt(e, l, |e.added|))
      modifies this
      ensures Valid()
      ensures forall l :: 0 <= l < NUM_LEVELS ==> Known(l) == old(Known(l)) + AddedAt(e, l, |e.added|)
      ensures forall l :: 0 <= l < NUM_LEVELS ==> Live(l) == Applied(old(Live(l)), e, l)
    {
      ApplyDeletions(e);
      ApplyAdditions(e);
      forall l | 0 <= l < NUM_LEVELS ensures Live(l) == Applied(old(Live(l)), e, l) {
        LiveAfter(old(Known(l)), old(deletedFiles)[l], e, l);
      }
    }

    /** The file lists the edits so far lead to. */
    method SaveTo() returns (v: Levels)
      requires Valid()
      ensures |v| == NUM_LEVELS
      ensures forall l :: 0 <= l < NUM_LEVELS ==> SortedByKey(v[l]) && FileSet(v[l]) == Live(l)
    {
      v := [];
      for level := 0 to NUM_LEVELS
        invariant |v| == level
        invariant forall l :: 0 <= l < level ==> SortedByKey(v[l]) && FileSet(v[l]) == Live(l)
      {
        var files := SaveLevel(base[level], addedFiles[level], deletedFiles[level]);
        v := v + [files];
      }
    }

    method ApplyDeletions(e: Edit)
      requires Valid() && EditOk(e)
      modifies this`deletedFiles
      ensures Valid()
      ensures forall l :: 0 <= l < NUM_LEVELS ==> deletedFiles[l] == old(deletedFiles)[l] + DeletedAt(e, l, |e.deleted|)
    {
      for i := 0 to |e.deleted|
        invariant Valid()
        invariant forall l :: 0 <= l < NUM_LEVELS ==> deletedFiles[l] == old(deletedFiles)[l] + DeletedAt(e, l, i)
      {
        var (level, number) := e.deleted[i];
        deletedFiles := deletedFiles[level := deletedFiles[level] + {number}];
      }
    }

    method ApplyAdditions(e: Edit)
      requires Valid() && EditOk(e)
      requires forall l :: 0 <= l < NUM_LEVELS ==> NumbersAgree(Known(l) + AddedAt(e, l, |e.added|), AddedAt(e, l, |e.added|))
      requires forall l :: 0 <= l < NUM_LEVELS ==> NoSharedNumber(FileSet(base[l]), AddedAt(e, l, |e.added|))
      modifies this
      ensures Valid()
      ensures AddedSoFar(old(addedFiles), old(deletedFiles), addedFiles, deletedFiles, e, |e.added|)
    {
      for i := 0 to |e.added|
        invariant Valid()
        invariant AddedSoFar(old(addedFiles), old(deletedFiles), addedFiles, deletedFiles, e, i)
      {
        ApplyAddition(e, i, old(addedFiles), old(deletedFiles));
      }
    }

    /** A new file is taken in, and is not deleted even if its number was. */
    method ApplyAddition(e: Edit, i: nat, ghost files0: seq<seq<FileMeta>>, ghost del0: seq<set<nat>>)
      requires Valid() && EditOk(e) && i < |e.added| && |files0| == |del0| == NUM_LEVELS
      requires AddedSoFar(files0, del0, addedFiles, deletedFiles, e, i)
      requires var l := e.added[i].0;
               NumbersAgree(FileSet(base[l]) + FileSet(files0[l]) + AddedAt(e, l, |e.added|), AddedAt(e, l, |e.added|))
      requires NoSharedNumber(FileSet(base[e.added[i].0]), AddedAt(e, e.added[i].0, |e.added|))
      modifies this`addedFiles, this`deletedFiles
      ensures Valid() && AddedSoFar(files0, del0, addedFiles, deletedFiles, e, i + 1)
    {
      var (level, f) := e.added[i];
      AddedGrows(e, i, level);
      NoOtherFile(FileSet(base[level]) + FileSet(files0[level]) + AddedAt(e, level, |e.added|),
          AddedAt(e, level, |e.added|), addedFiles[level], f);
      var inserted := InsertFile(addedFiles[level], f);
      AddStep(base, files0, del0, addedFiles, deletedFiles, e, i, inserted);
      addedFiles, deletedFiles := addedFiles[level := inserted], deletedFiles[level := deletedFiles[level] - {f.number}];
    }
  }

  /** Base and added files are listed in order and share no number. */
  ghost predicate LevelsValid(base: Levels, added: seq<seq<FileMeta>>)
    requires |base| == |added| == NUM_LEVELS
  {
    forall l :: 0 <= l < NUM_LEVELS ==>
      SortedByKey(base[l]) && SortedByKey(added[l]) && NoSharedNumber(FileSet(base[l]), FileSet(added[l]))
  }

  ghost predicate NoSharedNumber(a: set<FileMeta>, b: set<FileMeta>) {
    forall f, g {:trigger SameNumber(f, g)} :: f in a && g in b ==> !SameNumber(f, g)
  }

  /** What the first `i` additions have done to every level. */
  ghost predicate AddedSoFar(files0: seq<seq<FileMeta>>, del0: seq<set<nat>>, files: seq<seq<FileMeta>>,
      del: seq<set<nat>>, e: Edit, i: nat)
    requires i <= |e.added| && |files0| == |del0| == |files| == |del| == NUM_LEVELS
  {
    forall l :: 0 <= l < NUM_LEVELS ==>
      FileSet(files[l]) == FileSet(files0[l]) + AddedAt(e, l, i) && del[l] == del0[l] - Numbers(AddedAt(e, l, i))
  }

  lemma {:induction false} NoOtherFile(a: set<FileMeta>, b: set<FileMeta>, files: seq<FileMeta>, f: FileMeta)
    requires NumbersAgree(a, b) && FileSet(files) <= a && f in b
    ensures forall g :: g in files && g.number == f.number ==> g == f
  {
    forall g | g in files && g.number == f.number ensures g == f {
      assert g in FileSet(files);
      assert SameNumber(g, f);
    }
  }

  lemma {:induction false} AddStep(base: Levels, files0: seq<seq<FileMeta>>, del0: seq<set<nat>>,
      files: seq<seq<FileMeta>>, del: seq<set<nat>>, e: Edit, i: nat, inserted: seq<FileMeta>)
    requires EditOk(e) && i < |e.added| && |files0| == |del0| == |files| == |del| == NUM_LEVELS
    requires |base| == NUM_LEVELS && LevelsValid(base, files) && SortedByKey(inserted)
    requires NoSharedNumber(FileSet(base[e.added[i].0]), AddedAt(e, e.added[i].0, |e.added|))
    requires AddedSoFar(files0, del0, files, del, e, i)
    requires FileSet(inserted) == FileSet(files[e.added[i].0]) + {e.added[i].1}
    ensures AddedSoFar(files0, del0, files[e.added[i].0 := inserted],
                       del[e.added[i].0 := del[e.added[i].0] - {e.added[i].1.number}], e, i + 1)
    ensures LevelsValid(base, files[e.added[i].0 := inserted])
  {
    AddedGrows(e, i, e.added[i].0);
    forall l | 0 <= l < NUM_LEVELS
      ensures AddedAt(e, l, i + 1) == AddedAt(e, l, i) + (if e.added[i].0 == l then {e.added[i].1} else {})
      ensures Numbers(AddedAt(e, l, i + 1)) == Numbers(AddedAt(e, l, i)) + (if e.added[i].0 == l then {e.added[i].1.number} else {})
    {
      AddedGrows(e, i, l);
    }
  }

  /** `v` lists, in order, what is left of the first `b` base and `a` added files. */
  ghost predicate Merged(base: seq<FileMeta>, b: nat, added: seq<FileMeta>, a: nat, deleted: set<nat>,
      v: seq<FileMeta>) {
    && b <= |base| && a <= |added| && SortedByKey(v)
    && FileSet(v) == Remaining(FileSet(base[..b]) + FileSet(added[..a]), deleted)
  }

  /** The next file comes after all that were taken. */
  lemma {:induction false} MergeOne(base: seq<FileMeta>, b: nat, added: seq<FileMeta>, a: nat,
      deleted: set<nat>, v: seq<FileMeta>, f: FileMeta)
    requires Merged(base, b, added, a, deleted, v) && |f.entries| > 0
    requires forall k :: 0 <= k < b ==> |base[k].entries| > 0 && ByKey(base[k], f)
    requires forall k :: 0 <= k < a ==> |added[k].entries| > 0 && ByKey(added[k], f)
    ensures f.number in deleted ==> Remaining(FileSet(base[..b]) + FileSet(added[..a]) + {f}, deleted) == FileSet(v)
    ensures f.number !in deleted ==> SortedByKey(v + [f]) && FileSet(v + [f]) == FileSet(v) + {f}
    ensures f.number !in deleted ==> Remaining(FileSet(base[..b]) + FileSet(added[..a]) + {f}, deleted) == FileSet(v) + {f}
  {
    forall k | 0 <= k < |v| ensures ByKey(v[k], f) {
      assert v[k] in FileSet(v);
      assert v[k] in base[..b] || v[k] in added[..a];
    }
    forall g ensures g in FileSet(v + [f]) <==> g in FileSet(v) + {f} {
      assert g in v + [f] <==> g in v || g == f;
    }
  }

  lemma {:induction false} TakeOne(files: seq<FileMeta>, i: nat)
    requires i < |files|
    ensures FileSet(files[..i + 1]) == FileSet(files[..i]) + {files[i]}
  {
    assert files[..i + 1] == files[..i] + [files[i]];
  }

  /** The file numbered `f.number` is dropped if deleted, else taken. */
  method MaybeAddFile(base: seq<FileMeta>, ghost b: nat, added: seq<FileMeta>, ghost a: nat, deleted: set<nat>,
      v: seq<FileMeta>, f: FileMeta) returns (r: seq<FileMeta>)
    requires Merged(base, b, added, a, deleted, v) && |f.entries| > 0
    requires forall k :: 0 <= k < b ==> |base[k].entries| > 0 && ByKey(base[k], f)
    requires forall k :: 0 <= k < a ==> |added[k].entries| > 0 && ByKey(added[k], f)
    ensures b < |base| && base[b] == f ==> Merged(base, b + 1, added, a, deleted, r)
    ensures a < |added| && added[a] == f ==> Merged(base, b, added, a + 1, deleted, r)
  {
    MergeOne(base, b, added, a, deleted, v, f);
    if b < |base| { TakeOne(base, b); }
    if a < |added| { TakeOne(added, a); }
    assert b < |base| && base[b] == f ==>
        FileSet(base[..b + 1]) + FileSet(added[..a]) == FileSet(base[..b]) + FileSet(added[..a]) + {f};
    assert a < |added| && added[a] == f ==>
        FileSet(base[..b]) + FileSet(added[..a + 1]) == FileSet(base[..b]) + FileSet(added[..a]) + {f};
    if f.number in deleted {
      r := v;
    } else {
      r := v + [f];
    }
  }

  /** All base files that come before the next added file. */
  method AddSmaller(base: seq<FileMeta>, b0: nat, added: seq<FileMeta>, a: nat, deleted: set<nat>, v0: seq<FileMeta>)
    returns (b: nat, v: seq<FileMeta>)
    requires SortedByKey(base) && SortedByKey(added) && NoSharedNumber(FileSet(base), FileSet(added))
    requires a < |added| && Merged(base, b0, added, a, deleted, v0)
    requires forall k :: 0 <= k < b0 ==> ByKey(base[k], added[a])
    requires forall k :: 0 <= k < a && b0 < |base| ==> ByKey(added[k], base[b0])
    ensures Merged(base, b, added, a, deleted, v) && (b < |base| ==> ByKey(added[a], base[b]))
    ensures forall k :: 0 <= k < b ==> ByKey(base[k], added[a])
    ensures forall k :: 0 <= k < a && b < |base| ==> ByKey(added[k], base[b])
  {
    b, v := b0, v0;
    while b < |base| && !ByKey(added[a], base[b])
      invariant Merged(base, b, added, a, deleted, v)
      invariant forall k :: 0 <= k < b ==> ByKey(base[k], added[a])
      invariant forall k :: 0 <= k < a && b < |base| ==> ByKey(added[k], base[b])
      decreases |base| - b
    {
      BaseComesFirst(base, b, added, a);
      v := MaybeAddFile(base, b, added, a, deleted, v, base[b]);
      NextBase(base, b, added, a);
      b := b + 1;
    }
  }

  /** One pass over the base files and the added files, in key order. */
  method SaveLevel(base: seq<FileMeta>, added: seq<FileMeta>, deleted: set<nat>) returns (v: seq<FileMeta>)
    requires SortedByKey(base) && SortedByKey(added) && NoSharedNumber(FileSet(base), FileSet(added))
    ensures SortedByKey(v) && FileSet(v) == Remaining(FileSet(base) + FileSet(added), deleted)
  {
    v := [];
    var b: nat := 0;
    for a := 0 to |added|
      invariant Merged(base, b, added, a, deleted, v)
      invariant a < |added| ==> forall k :: 0 <= k < b ==> ByKey(base[k], added[a])
      invariant forall k :: 0 <= k < a && b < |base| ==> ByKey(added[k], base[b])
    {
      b, v := AddSmaller(base, b, added, a, deleted, v);
      v := MaybeAddFile(base, b, added, a, deleted, v, added[a]);
      NextAdded(base, b, added, a);
    }
    while b < |base|
      invariant Merged(base, b, added, |added|, deleted, v)
      invariant forall k :: 0 <= k < |added| && b < |base| ==> ByKey(added[k], base[b])
    {
      v := MaybeAddFile(base, b, added, |added|, deleted, v, base[b]);
      NextBase(base, b, added, |added|);
      b := b + 1;
    }
    assert base[..b] == base && added[..|added|] == added;
  }

  lemma {:induction false} BaseComesFirst(base: seq<FileMeta>, b: nat, added: seq<FileMeta>, a: nat)
    requires SortedByKey(base) && SortedByKey(added) && NoSharedNumber(FileSet(base), FileSet(added))
    requires b < |base| && a < |added| && !ByKey(added[a], base[b])
    ensures ByKey(base[b], added[a])
  {
    assert base[b] in FileSet(base) && added[a] in FileSet(added);
    assert !SameNumber(base[b], added[a]);
    ByKeyTotal(base[b], added[a]);
  }

  lemma {:induction false} NextBase(base: seq<FileMeta>, b: nat, added: seq<FileMeta>, a: nat)
    requires SortedByKey(base) && SortedByKey(added) && b < |base| && a <= |added|
    requires forall k :: 0 <= k < a ==> ByKey(added[k], base[b])
    ensures forall k :: 0 <= k < a && b + 1 < |base| ==> ByKey(added[k], base[b + 1])
  {
    forall k | 0 <= k < a && b + 1 < |base| ensures ByKey(added[k], base[b + 1]) {
      ByKeyTransitive(added[k], base[b], base[b + 1]);
    }
  }

  lemma {:induction false} NextAdded(base: seq<FileMeta>, b: nat, added: seq<FileMeta>, a: nat)
    requires SortedByKey(base) && SortedByKey(added) && b <= |base| && a < |added|
    requires forall k :: 0 <= k < b ==> ByKey(base[k], added[a])
    requires b < |base| ==> ByKey(added[a], base[b])
    requires forall k :: 0 <= k < a && b < |base| ==> ByKey(added[k], base[b])
    ensures a + 1 < |added| ==> forall k :: 0 <= k < b ==> ByKey(base[k], added[a + 1])
    ensures forall k :: 0 <= k < a + 1 && b < |base| ==> ByKey(added[k], base[b])
  {
    forall k | 0 <= k < b && a + 1 < |added| ensures ByKey(base[k], added[a + 1]) {
      ByKeyTransitive(base[k], added[a], added[a + 1]);
    }
  }

  ghost function Remaining(known: set<FileMeta>, deleted: set<nat>): set<FileMeta> {
    set f | f in known && f.number !in deleted
  }

  lemma {:induction false} AddedGrows(e: Edit, i: nat, l: nat)
    requires i < |e.added|
    ensures AddedAt(e, l, i + 1) == AddedAt(e, l, i) + (if e.added[i].0 == l then {e.added[i].1} else {})
    ensures Numbers(AddedAt(e, l, i + 1)) == Numbers(AddedAt(e, l, i)) + (if e.added[i].0 == l then {e.added[i].1.number} else {})
    ensures AddedAt(e, l, i + 1) <= AddedAt(e, l, |e.added|)
  {
    var more := AddedAt(e, l, i) + (if e.added[i].0 == l then {e.added[i].1} else {});
    assert AddedAt(e, l, i + 1) == more;
    forall n ensures n in Numbers(more) <==> n in Numbers(AddedAt(e, l, i)) || (e.added[i].0 == l && n == e.added[i].1.number) {
      if e.added[i].0 == l && n == e.added[i].1.number {
        assert e.added[i].1 in more;
      }
    }
  }

  lemma {:induction false} LiveAfter(known: set<FileMeta>, del: set<nat>, e: Edit, l: nat)
    requires NumbersAgree(known + AddedAt(e, l, |e.added|), AddedAt(e, l, |e.added|))
    ensures Remaining(known + AddedAt(e, l, |e.added|), del + DeletedAt(e, l, |e.deleted|) - Numbers(AddedAt(e, l, |e.added|)))
            == Applied(Remaining(known, del), e, l)
  {
    var added := AddedAt(e, l, |e.added|);
    var del' := del + DeletedAt(e, l, |e.deleted|) - Numbers(added);
    forall f ensures f in Remaining(known + added, del') <==> f in Applied(Remaining(known, del), e, l) {
      if f in known + added && f.number in Numbers(added) {
        var g :| g in added && g.number == f.number;
        assert SameNumber(f, g);
      }
    }
  }
}
