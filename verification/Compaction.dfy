// The compaction loop: which entries it drops, how it cuts its output into
// files, and what that does to reads (db/db_impl.cc, db/version_set.cc).
module Compaction {
  import opened Keys
  import opened Version

  type Levels = seq<seq<FileMeta>>

  ghost predicate LevelsOk(levels: Levels) {
    && |levels| == NUM_LEVELS
    && AllValid(levels[0])
    && forall l :: 0 < l < NUM_LEVELS ==> LevelSorted(levels[l])
  }

  /** No file two or more levels below `level` has `u` in its range. */
  ghost predicate BaseLevel(levels: Levels, level: nat, u: UserKey)
    requires LevelsOk(levels)
  {
    forall l, f :: level + 2 <= l < NUM_LEVELS && f in levels[l] ==> f.Valid() && !Covers(f, u)
  }

  /** The state a compaction carries: its input version and one pointer a level. */
  class CompactionState {
    const level: nat
    const levels: Levels
    const ptrs: array<nat>
    ghost var asked: Option<UserKey>

    constructor (level: nat, levels: Levels)
      requires LevelsOk(levels) && level + 1 < NUM_LEVELS
      ensures Valid() && fresh(this) && fresh(ptrs)
      ensures this.level == level && this.levels == levels && asked == None
    {
      this.level, this.levels, this.asked := level, levels, None;
      this.ptrs := new nat[NUM_LEVELS](_ => 0);
    }

    ghost predicate Valid()
      reads this, ptrs
    {
      && LevelsOk(levels) && level + 1 < NUM_LEVELS && ptrs.Length == NUM_LEVELS
      && (forall l :: 0 <= l < NUM_LEVELS ==> ptrs[l] <= |levels[l]|)
      && (asked.None? ==> forall l :: 0 <= l < NUM_LEVELS ==> ptrs[l] == 0)
      && (asked.Some? ==> forall l, i :: 0 <= l < NUM_LEVELS && 0 <= i < ptrs[l] ==> AfterFile(asked, levels[l][i]))
    }

    /** Keys are asked about in increasing order, so the pointers only advance. */
    method IsBaseLevelForKey(u: UserKey) returns (base: bool)
      requires Valid() && (asked.Some? ==> asked.value <= u)
      modifies this`asked, ptrs
      ensures Valid() && asked == Some(u)
      ensures base <==> BaseLevel(levels, level, u)
    {
      asked := Some(u);
      for lvl := level + 2 to NUM_LEVELS
        invariant Valid() && asked == Some(u)
        invariant forall l, f :: level + 2 <= l < lvl && f in levels[l] ==> f.Valid() && !Covers(f, u)
      {
        while ptrs[lvl] < |levels[lvl]|
          invariant Valid() && asked == Some(u)
          decreases |levels[lvl]| - ptrs[lvl]
        {
          var f := levels[lvl][ptrs[lvl]];
          if u <= f.Largest().user {
            if f.Smallest().user <= u {
              assert f in levels[lvl] && Covers(f, u);
              return false;
            }
            break;
          }
          ptrs[lvl] := ptrs[lvl] + 1;
        }
        PointerSettles(levels[lvl], ptrs[lvl], u);
      }
      base := true;
    }
  }

  lemma {:induction false} PointerSettles(files: seq<FileMeta>, p: nat, u: UserKey)
    requires LevelSorted(files) && p <= |files|
    requires forall i :: 0 <= i < p ==> AfterFile(Some(u), files[i])
    requires p < |files| ==> u < files[p].Smallest().user
    ensures forall f :: f in files ==> f.Valid() && !Covers(f, u)
  {
    forall f | f in files ensures f.Valid() && !Covers(f, u) {
      var i :| 0 <= i < |files| && files[i] == f;
      if p < i {
        assert Before(files[p], files[i]);
        EntryInRange(files[p], files[p].entries[0]);
      }
    }
  }

  // ----- the drop rules -----

  /** Rule (A): the entry just before it, of the same key, is already old enough. */
  ghost predicate Hidden(es: seq<Entry>, i: nat, smallest: nat)
    requires i < |es|
  {
    i > 0 && es[i - 1].key.user == es[i].key.user && es[i - 1].key.sn <= smallest
  }

  /** Rule (B): an old enough tombstone with nothing two levels down. */
  ghost predicate Obsolete(e: Entry, smallest: nat, levels: Levels, level: nat)
    requires LevelsOk(levels)
  {
    e.key.kind.Deletion? && e.key.sn <= smallest && BaseLevel(levels, level, e.key.user)
  }

  ghost predicate Dropped(es: seq<Entry>, i: nat, smallest: nat, levels: Levels, level: nat)
    requires i < |es| && LevelsOk(levels)
  {
    Hidden(es, i, smallest) || Obsolete(es[i], smallest, levels, level)
  }

  /** What the loop writes for the first `n` entries. */
  ghost function Kept(es: seq<Entry>, n: nat, smallest: nat, levels: Levels, level: nat): seq<Entry>
    requires n <= |es| && LevelsOk(levels)
  {
    if n == 0 then []
    else Kept(es, n - 1, smallest, levels, level) + (if Dropped(es, n - 1, smallest, levels, level) then [] else [es[n - 1]])
  }

  lemma {:induction false} KeptMembers(es: seq<Entry>, n: nat, smallest: nat, levels: Levels, level: nat, e: Entry)
    requires n <= |es| && LevelsOk(levels)
    ensures e in Kept(es, n, smallest, levels, level)
            <==> exists i :: 0 <= i < n && es[i] == e && !Dropped(es, i, smallest, levels, level)
  {
    if n > 0 {
      KeptMembers(es, n - 1, smallest, levels, level, e);
    }
  }

  lemma {:induction false} KeptSorted(es: seq<Entry>, n: nat, smallest: nat, levels: Levels, level: nat)
    requires n <= |es| && LevelsOk(levels) && Sorted(es)
    ensures Sorted(Kept(es, n, smallest, levels, level))
  {
    if n > 0 {
      KeptSorted(es, n - 1, smallest, levels, level);
      var before := Kept(es, n - 1, smallest, levels, level);
      forall k | 0 <= k < |before| ensures Less(before[k].key, es[n - 1].key) {
        KeptMembers(es, n - 1, smallest, levels, level, before[k]);
      }
    }
  }

  /** Rule (A) in terms of the whole input: some entry of the key is old enough and newer. */
  lemma {:induction false} HiddenMeansCovered(es: seq<Entry>, i: nat, smallest: nat)
    requires Sorted(es) && i < |es|
    ensures Hidden(es, i, smallest) <==>
            exists j :: 0 <= j < i && es[j].key.user == es[i].key.user && es[j].key.sn <= smallest
  {
    if j :| 0 <= j < i && es[j].key.user == es[i].key.user && es[j].key.sn <= smallest {
      if j < i - 1 {
        assert Less(es[j].key, es[i - 1].key) && Less(es[i - 1].key, es[i].key);
      }
    }
  }

  /** `n` has a greater number than `e`; of two with one number, the value counts as the newer. */
  predicate Supersedes(n: Entry, e: Entry) {
    n.key.sn > e.key.sn || (n.key.sn == e.key.sn && n.key.kind.Value? && e.key.kind.Deletion?)
  }

  /** Both rules in terms of the inputs as a set: an entry stays unless a newer one of its key is
      old enough too, or it is an old enough tombstone and no deeper file's range has its key. */
  ghost predicate Survives(e: Entry, inputs: set<Entry>, smallest: nat, levels: Levels, level: nat) {
    && (forall n :: n in inputs && n.key.user == e.key.user && Supersedes(n, e) ==> n.key.sn > smallest)
    && !(e.key.kind.Deletion? && e.key.sn <= smallest
         && forall l, f :: level + 2 <= l < |levels| && f in levels[l] ==>
              |f.entries| > 0 && !(f.entries[0].key.user <= e.key.user <= f.entries[|f.entries| - 1].key.user))
  }

  lemma {:induction false} KeptSurvive(es: seq<Entry>, smallest: nat, levels: Levels, level: nat, e: Entry)
    requires Sorted(es) && LevelsOk(levels)
    ensures e in Kept(es, |es|, smallest, levels, level) <==> e in es && Survives(e, Elements(es), smallest, levels, level)
  {
    KeptMembers(es, |es|, smallest, levels, level, e);
    forall i | 0 <= i < |es| && es[i] == e
      ensures Dropped(es, i, smallest, levels, level) <==> !Survives(e, Elements(es), smallest, levels, level)
    {
      HiddenMeansNewer(es, i, smallest);
      LevelsValid(levels);
    }
  }

  lemma {:induction false} HiddenMeansNewer(es: seq<Entry>, i: nat, smallest: nat)
    requires Sorted(es) && i < |es|
    ensures Hidden(es, i, smallest) <==>
      !forall n :: n in Elements(es) && n.key.user == es[i].key.user && Supersedes(n, es[i]) ==> n.key.sn > smallest
  {
    HiddenMeansCovered(es, i, smallest);
    NewerIsBefore(es, i);
    if Hidden(es, i, smallest) {
      assert es[i - 1] in Elements(es);
    }
  }

  lemma {:induction false} NewerIsBefore(es: seq<Entry>, i: nat)
    requires Sorted(es) && i < |es|
    ensures forall j :: 0 <= j < |es| && es[j].key.user == es[i].key.user && Supersedes(es[j], es[i]) ==> j < i
    ensures forall j :: 0 <= j < i && es[j].key.user == es[i].key.user ==> Supersedes(es[j], es[i])
  {
    forall j | 0 <= j < |es| && j != i && es[j].key.user == es[i].key.user ensures j < i <==> Supersedes(es[j], es[i]) {
      assert if j < i then Less(es[j].key, es[i].key) else Less(es[i].key, es[j].key);
    }
  }

  lemma {:induction false} LevelsValid(levels: Levels)
    requires LevelsOk(levels)
    ensures forall l, f :: 0 <= l < NUM_LEVELS && f in levels[l] ==> f.Valid()
  {
    forall l, f | 0 <= l < NUM_LEVELS && f in levels[l] ensures f.Valid() {
      var i :| 0 <= i < |levels[l]| && levels[l][i] == f;
    }
  }

  // ----- the loop -----

  ghost function Flatten(outs: seq<FileMeta>): seq<Entry> {
    if |outs| == 0 then [] else Flatten(outs[..|outs| - 1]) + outs[|outs| - 1].entries
  }

  ghost predicate Numbered(outs: seq<FileMeta>, first: nat) {
    forall i :: 0 <= i < |outs| ==> outs[i].number == first + i
  }

  /** The output files, and the entries of the one still being built. */
  ghost predicate Written(outs: seq<FileMeta>, builder: Option<FileMeta>, first: nat, next: nat, all: seq<Entry>) {
    && Numbered(outs, first)
    && (forall i :: 0 <= i < |outs| ==> |outs[i].entries| > 0)
    && (builder.None? ==> next == first + |outs| && all == Flatten(outs))
    && (builder.Some? ==> next == first + |outs| + 1 && builder.value.number == first + |outs|
                          && |builder.value.entries| > 0 && all == Flatten(outs) + builder.value.entries)
  }

  lemma {:induction false} FinishOne(outs: seq<FileMeta>, builder: Option<FileMeta>, first: nat, next: nat,
      all: seq<Entry>)
    requires Written(outs, builder, first, next, all) && builder.Some?
    ensures Written(outs + [builder.value], None, first, next, all)
  {
    assert (outs + [builder.value])[..|outs|] == outs;
  }

  lemma {:induction false} AddOne(outs: seq<FileMeta>, builder: Option<FileMeta>, first: nat, next: nat,
      all: seq<Entry>, e: Entry)
    requires Written(outs, builder, first, next, all)
    ensures builder.None? ==> Written(outs, Some(FileMeta(next, [e])), first, next + 1, all + [e])
    ensures builder.Some? ==>
              Written(outs, Some(FileMeta(builder.value.number, builder.value.entries + [e])), first, next, all + [e])
  {
    if builder.Some? {
      assert Flatten(outs) + builder.value.entries + [e] == Flatten(outs) + (builder.value.entries + [e]);
    }
  }

  /** The loop's memory of the user key it is in. */
  ghost predicate Scanned(es: seq<Entry>, i: nat, current: Option<UserKey>, last: nat)
    requires i <= |es|
  {
    if i == 0 then current.None? else current == Some(es[i - 1].key.user) && last == es[i - 1].key.sn
  }

  /** One pass of the drop decision. */
  method Decide(es: seq<Entry>, i: nat, smallest: nat, c: CompactionState, current: Option<UserKey>, last: nat)
    returns (drop: bool, current': Option<UserKey>, last': nat)
    requires c.Valid() && Sorted(es) && i < |es| && smallest < MAX_SEQUENCE && Scanned(es, i, current, last)
    requires c.asked.Some? ==> i > 0 && c.asked.value <= es[i - 1].key.user
    modifies c`asked, c.ptrs
    ensures c.Valid() && (c.asked.Some? ==> c.asked.value <= es[i].key.user)
    ensures Scanned(es, i + 1, current', last')
    ensures drop <==> Dropped(es, i, smallest, c.levels, c.level)
  {
    assert i > 0 ==> Less(es[i - 1].key, es[i].key);
    var key := es[i].key;
    current', last', drop := current, last, false;
    if current.None? || key.user != current.value {
      current', last' := Some(key.user), MAX_SEQUENCE;
    }
    if last' <= smallest {
      drop := true;
    } else if key.kind.Deletion? && key.sn <= smallest {
      drop := c.IsBaseLevelForKey(key.user);
    }
    last' := key.sn;
  }

  lemma {:induction false} AllSurvive(es: seq<Entry>, smallest: nat, levels: Levels, level: nat)
    requires Sorted(es) && LevelsOk(levels)
    ensures forall e :: e in Kept(es, |es|, smallest, levels, level) <==> e in es && Survives(e, Elements(es), smallest, levels, level)
  {
    forall e ensures e in Kept(es, |es|, smallest, levels, level) <==> e in es && Survives(e, Elements(es), smallest, levels, level) {
      KeptSurvive(es, smallest, levels, level, e);
    }
  }

  // ----- where output files end -----

  /** No output ends between the entries at `p` and `q`, the next one that is kept. */
  predicate Unbroken(stopBefore: nat -> bool, full: nat -> bool, p: nat, q: int) {
    !full(p) && forall k :: p < k <= q ==> !stopBefore(k)
  }

  ghost predicate Together(files: seq<FileMeta>, a: Entry, b: Entry) {
    exists f :: f in files && a in f.entries && b in f.entries
  }

  /** The entries at `p` and `q` are kept, and none in between. */
  ghost predicate NextKept(es: seq<Entry>, p: nat, q: nat, smallest: nat, levels: Levels, level: nat)
    requires q < |es| && LevelsOk(levels)
  {
    && p < q && !Dropped(es, p, smallest, levels, level) && !Dropped(es, q, smallest, levels, level)
    && forall k :: p < k < q ==> Dropped(es, k, smallest, levels, level)
  }

  /** Of the first `n` entries, two that follow each other in the output are in the same file
      just if neither limit says that it ends between them. */
  ghost predicate CutAsAsked(es: seq<Entry>, n: nat, smallest: nat, levels: Levels, level: nat, files: seq<FileMeta>,
      stopBefore: nat -> bool, full: nat -> bool)
    requires n <= |es| && LevelsOk(levels)
  {
    forall p: nat, q: nat :: q < n && NextKept(es, p, q, smallest, levels, level) ==>
      (Together(files, es[p], es[q]) <==> Unbroken(stopBefore, full, p, q))
  }

  ghost function Open(builder: Option<FileMeta>): seq<FileMeta> {
    if builder.Some? then [builder.value] else []
  }

  /** The files so far, with `n` entries handled, and whether the last one takes more: it does unless
      a limit was met after the last entry that was kept, up to `m`. */
  ghost predicate CutSoFar(es: seq<Entry>, n: nat, m: int, smallest: nat, levels: Levels, level: nat, outs: seq<FileMeta>,
      builder: Option<FileMeta>, stopBefore: nat -> bool, full: nat -> bool)
    requires n <= |es| && LevelsOk(levels)
  {
    && CutAsAsked(es, n, smallest, levels, level, outs + Open(builder), stopBefore, full)
    && EntriesIn(outs + Open(builder), es[..n])
    && forall p: nat :: p < n && LastKept(es, p, n, smallest, levels, level) ==>
         (builder.Some? <==> Unbroken(stopBefore, full, p, m)) && (builder.Some? ==> es[p] in builder.value.entries)
  }

  ghost predicate EntriesIn(files: seq<FileMeta>, es: seq<Entry>) {
    forall f, e :: f in files && e in f.entries ==> e in es
  }

  ghost predicate LastKept(es: seq<Entry>, p: nat, n: nat, smallest: nat, levels: Levels, level: nat)
    requires p < n <= |es| && LevelsOk(levels)
  {
    !Dropped(es, p, smallest, levels, level) && forall k :: p < k < n ==> Dropped(es, k, smallest, levels, level)
  }

  lemma {:induction false} CutBefore(es: seq<Entry>, i: nat, smallest: nat, levels: Levels, level: nat, outs: seq<FileMeta>,
      builder: Option<FileMeta>, stopBefore: nat -> bool, full: nat -> bool)
    requires i < |es| && LevelsOk(levels) && CutSoFar(es, i, i - 1, smallest, levels, level, outs, builder, stopBefore, full)
    ensures if stopBefore(i) && builder.Some? then
              CutSoFar(es, i, i, smallest, levels, level, outs + [builder.value], None, stopBefore, full)
            else CutSoFar(es, i, i, smallest, levels, level, outs, builder, stopBefore, full)
  {
    if builder.Some? {
      assert outs + [builder.value] + Open(None) == outs + Open(builder);
    }
  }

  lemma {:induction false} CutPast(es: seq<Entry>, i: nat, smallest: nat, levels: Levels, level: nat, outs: seq<FileMeta>,
      builder: Option<FileMeta>, stopBefore: nat -> bool, full: nat -> bool)
    requires i < |es| && LevelsOk(levels) && CutSoFar(es, i, i, smallest, levels, level, outs, builder, stopBefore, full)
    requires Dropped(es, i, smallest, levels, level)
    ensures CutSoFar(es, i + 1, i, smallest, levels, level, outs, builder, stopBefore, full)
  {
    forall p: nat | p < i + 1 && LastKept(es, p, i + 1, smallest, levels, level)
      ensures p < i && LastKept(es, p, i, smallest, levels, level)
    {
    }
    EntriesInMore(outs + Open(builder), es, i);
  }

  lemma {:induction false} EntriesInMore(files: seq<FileMeta>, es: seq<Entry>, i: nat)
    requires i < |es| && EntriesIn(files, es[..i])
    ensures EntriesIn(files, es[..i + 1])
  {
    assert es[..i + 1] == es[..i] + [es[i]];
  }

  /** A kept entry joins the file that takes more, or begins one. */
  lemma {:induction false} CutWith(es: seq<Entry>, i: nat, smallest: nat, levels: Levels, level: nat, outs: seq<FileMeta>,
      builder: Option<FileMeta>, f: FileMeta, stopBefore: nat -> bool, full: nat -> bool)
    requires i < |es| && LevelsOk(levels) && CutSoFar(es, i, i, smallest, levels, level, outs, builder, stopBefore, full)
    requires Sorted(es) && !Dropped(es, i, smallest, levels, level)
    requires f.entries == (if builder.Some? then builder.value.entries else []) + [es[i]]
    ensures if full(i) then CutSoFar(es, i + 1, i, smallest, levels, level, outs + [f], None, stopBefore, full)
            else CutSoFar(es, i + 1, i, smallest, levels, level, outs, Some(f), stopBefore, full)
  {
    assert outs + Open(Some(f)) == outs + [f] && outs + [f] + Open(None) == outs + [f];
    CutIsKept(es, i, smallest, levels, level, outs, builder, f, stopBefore, full);
    JoinedIn(es, i, outs, builder, f);
  }

  lemma {:induction false} CutIsKept(es: seq<Entry>, i: nat, smallest: nat, levels: Levels, level: nat, outs: seq<FileMeta>,
      builder: Option<FileMeta>, f: FileMeta, stopBefore: nat -> bool, full: nat -> bool)
    requires i < |es| && LevelsOk(levels) && CutSoFar(es, i, i, smallest, levels, level, outs, builder, stopBefore, full)
    requires Sorted(es) && f.entries == (if builder.Some? then builder.value.entries else []) + [es[i]]
    ensures CutAsAsked(es, i + 1, smallest, levels, level, outs + [f], stopBefore, full)
  {
    forall p: nat, q: nat | q < i + 1 && NextKept(es, p, q, smallest, levels, level)
      ensures Together(outs + [f], es[p], es[q]) <==> Unbroken(stopBefore, full, p, q)
    {
      assert p < q && Less(es[p].key, es[q].key);
      if q < i {
        assert Less(es[q].key, es[i].key) && Less(es[p].key, es[i].key);
        TogetherStill(outs, builder, f, es[i], es[p], es[q]);
      } else {
        assert LastKept(es, p, i, smallest, levels, level);
        JoinsLast(es, i, outs, builder, f, p);
      }
    }
  }

  lemma {:induction false} JoinsLast(es: seq<Entry>, i: nat, outs: seq<FileMeta>, builder: Option<FileMeta>, f: FileMeta, p: nat)
    requires p < i < |es| && Sorted(es) && EntriesIn(outs + Open(builder), es[..i])
    requires f.entries == (if builder.Some? then builder.value.entries else []) + [es[i]]
    requires builder.Some? ==> es[p] in builder.value.entries
    ensures Together(outs + [f], es[p], es[i]) <==> builder.Some?
  {
    assert f in outs + [f] && Less(es[p].key, es[i].key);
    assert forall k :: 0 <= k < i ==> Less(es[k].key, es[i].key);
    assert es[i] !in es[..i];
    forall g | g in outs ensures es[i] !in g.entries {
      assert g in outs + Open(builder);
    }
  }

  lemma {:induction false} JoinedIn(es: seq<Entry>, i: nat, outs: seq<FileMeta>, builder: Option<FileMeta>, f: FileMeta)
    requires i < |es| && EntriesIn(outs + Open(builder), es[..i])
    requires f.entries == (if builder.Some? then builder.value.entries else []) + [es[i]]
    ensures EntriesIn(outs + [f], es[..i + 1])
  {
    EntriesInMore(outs + Open(builder), es, i);
    assert es[i] in es[..i + 1];
    forall g, e | g in outs + [f] && e in g.entries ensures e in es[..i + 1] {
      assert g in outs ==> g in outs + Open(builder);
      assert builder.Some? ==> builder.value in outs + Open(builder);
    }
  }

  lemma {:induction false} TogetherStill(outs: seq<FileMeta>, builder: Option<FileMeta>, f: FileMeta, e: Entry, a: Entry, b: Entry)
    requires f.entries == (if builder.Some? then builder.value.entries else []) + [e] && a != e && b != e
    ensures Together(outs + [f], a, b) <==> Together(outs + Open(builder), a, b)
  {
    var before, after := outs + Open(builder), outs + [f];
    if Together(after, a, b) {
      var g :| g in after && a in g.entries && b in g.entries;
      if g in outs {
        assert g in before;
      } else {
        assert builder.Some? && builder.value in before;
      }
    }
    if Together(before, a, b) {
      var g :| g in before && a in g.entries && b in g.entries;
      assert g in outs || (builder.Some? && g == builder.value);
      assert (if g in outs then g else f) in after;
    }
  }

  /** A kept entry goes to the open file, or to a new one, which is finished if it is full now. */
  method Write(es: seq<Entry>, i: nat, outs: seq<FileMeta>, builder: Option<FileMeta>, ghost firstNumber: nat,
      nextNumber: nat, ghost all: seq<Entry>, ghost smallest: nat, ghost levels: Levels, ghost level: nat,
      ghost stopBefore: nat -> bool, full: nat -> bool)
    returns (outs': seq<FileMeta>, builder': Option<FileMeta>, nextNumber': nat)
    requires i < |es| && LevelsOk(levels) && Sorted(es) && Written(outs, builder, firstNumber, nextNumber, all)
    requires CutSoFar(es, i, i, smallest, levels, level, outs, builder, stopBefore, full)
    requires !Dropped(es, i, smallest, levels, level)
    ensures Written(outs', builder', firstNumber, nextNumber', all + [es[i]])
    ensures CutSoFar(es, i + 1, i, smallest, levels, level, outs', builder', stopBefore, full)
  {
    AddOne(outs, builder, firstNumber, nextNumber, all, es[i]);
    outs', builder', nextNumber' := outs, builder, nextNumber;
    if builder'.None? {
      builder' := Some(FileMeta(nextNumber, [es[i]]));
      nextNumber' := nextNumber + 1;
    } else {
      builder' := Some(FileMeta(builder.value.number, builder.value.entries + [es[i]]));
    }
    CutWith(es, i, smallest, levels, level, outs, builder, builder'.value, stopBefore, full);
    if full(i) {
      FinishOne(outs, builder', firstNumber, nextNumber', all + [es[i]]);
      outs', builder' := outs + [builder'.value], None;
    }
  }

  /** Merges, drops and rewrites. Where an output file ends is left to the caller:
      `stopBefore` and `full` stand for the size and overlap limits. */
  method DoCompactionWork(es: seq<Entry>, smallest: nat, c: CompactionState, firstNumber: nat,
      stopBefore: nat -> bool, full: nat -> bool) returns (outs: seq<FileMeta>, nextNumber: nat)
    requires c.Valid() && c.asked.None? && Sorted(es) && smallest < MAX_SEQUENCE
    modifies c`asked, c.ptrs
    ensures nextNumber == firstNumber + |outs| && Numbered(outs, firstNumber)
    ensures forall i :: 0 <= i < |outs| ==> |outs[i].entries| > 0
    ensures Flatten(outs) == Kept(es, |es|, smallest, c.levels, c.level)
    ensures forall e :: e in Flatten(outs) <==> e in es && Survives(e, Elements(es), smallest, c.levels, c.level)
    ensures CutAsAsked(es, |es|, smallest, c.levels, c.level, outs, stopBefore, full)
  {
    outs, nextNumber := [], firstNumber;
    var builder: Option<FileMeta> := None;
    var current: Option<UserKey> := None;
    var last := MAX_SEQUENCE;
    ghost var all := [];
    for i := 0 to |es|
      invariant c.Valid() && (c.asked.Some? ==> i > 0 && c.asked.value <= es[i - 1].key.user)
      invariant Scanned(es, i, current, last)
      invariant Written(outs, builder, firstNumber, nextNumber, all)
      invariant all == Kept(es, i, smallest, c.levels, c.level)
      invariant CutSoFar(es, i, i - 1, smallest, c.levels, c.level, outs, builder, stopBefore, full)
    {
      CutBefore(es, i, smallest, c.levels, c.level, outs, builder, stopBefore, full);
      if stopBefore(i) && builder.Some? {
        FinishOne(outs, builder, firstNumber, nextNumber, all);
        outs, builder := outs + [builder.value], None;
      }
      var drop;
      drop, current, last := Decide(es, i, smallest, c, current, last);
      assert Kept(es, i + 1, smallest, c.levels, c.level) == all + (if drop then [] else [es[i]]);
      if !drop {
        outs, builder, nextNumber := Write(es, i, outs, builder, firstNumber, nextNumber, all, smallest, c.levels, c.level, stopBefore, full);
        all := all + [es[i]];
      } else {
        CutPast(es, i, smallest, c.levels, c.level, outs, builder, stopBefore, full);
      }
    }
    assert outs + Open(builder) == if builder.Some? then outs + [builder.value] else outs;
    if builder.Some? {
      FinishOne(outs, builder, firstNumber, nextNumber, all);
      outs := outs + [builder.value];
    }
    AllSurvive(es, smallest, c.levels, c.level);
  }
}
