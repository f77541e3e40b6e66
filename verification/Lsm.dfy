// The log-structured store as a value: two memtables and seven levels of files,
// the invariant that orders them by recency, and what each step does to it.
module Lsm {
  import opened Keys
  import opened Version
  import opened Compaction
  import opened CompactionReads
  import opened Builder

  datatype Store = Store(mem: seq<Entry>, imm: Option<seq<Entry>>, levels: Levels)

  // ----- tiers, in search order -----

  const NUM_TIERS: nat := NUM_LEVELS + 2

  ghost function EntriesOf(files: set<FileMeta>): set<Entry> {
    set f, e | f in files && e in f.entries :: e
  }

  /** The memtable, the immutable memtable, then the levels. */
  ghost function Tier(s: Store, t: nat): set<Entry>
    requires |s.levels| == NUM_LEVELS && t < NUM_TIERS
  {
    if t == 0 then Elements(s.mem)
    else if t == 1 then (if s.imm.Some? then Elements(s.imm.value) else {})
    else EntriesOf(FileSet(s.levels[t - 2]))
  }

  ghost function All(s: Store): set<Entry>
    requires |s.levels| == NUM_LEVELS
  {
    set t, e | 0 <= t < NUM_TIERS && e in Tier(s, t) :: e
  }

  ghost predicate SameUser(a: Entry, b: Entry) {
    a.key.user == b.key.user
  }

  /** For one user key, everything in `a` is newer than everything in `b`. */
  ghost predicate Newer(a: set<Entry>, b: set<Entry>) {
    forall x, y {:trigger SameUser(x, y)} :: x in a && y in b && SameUser(x, y) ==> x.key.sn > y.key.sn
  }

  /** Shallower tiers hold only newer entries. */
  ghost predicate Layered(s: Store)
    requires |s.levels| == NUM_LEVELS
  {
    forall i, j :: 0 <= i < j < NUM_TIERS ==> Newer(Tier(s, i), Tier(s, j))
  }

  /** At level 0 the file number says which file is newer. */
  ghost predicate NumberedByAge(files: set<FileMeta>) {
    forall f, g :: f in files && g in files && f.number > g.number ==> Newer(Elements(f.entries), Elements(g.entries))
  }

  ghost predicate NumbersUnique(levels: Levels, next: nat)
    requires |levels| == NUM_LEVELS
  {
    && (forall l, f :: 0 <= l < NUM_LEVELS && f in levels[l] ==> f.number < next)
    && forall l, m, f, g {:trigger At(levels, l, f), At(levels, m, g)} ::
         At(levels, l, f) && At(levels, m, g) && f.number == g.number ==> l == m && f == g
  }

  ghost predicate At(levels: Levels, l: int, f: FileMeta)
    requires |levels| == NUM_LEVELS
  {
    0 <= l < NUM_LEVELS && f in levels[l]
  }

  ghost predicate SortedTables(s: Store)
    requires |s.levels| == NUM_LEVELS
  {
    && Sorted(s.mem) && (s.imm.Some? ==> Sorted(s.imm.value))
    && LevelsOk(s.levels)
    && forall l :: 0 <= l < NUM_LEVELS ==> SortedByKey(s.levels[l])
  }

  /** The invariant: `h` is the write history and `next` the next file number. */
  ghost predicate Structured(s: Store, h: seq<Entry>, next: nat) {
    && |s.levels| == NUM_LEVELS
    && IsHistory(h) && LastOf(h) < MAX_SEQUENCE
    && SortedTables(s)
    && All(s) <= Elements(h)
    && Layered(s)
    && NumberedByAge(FileSet(s.levels[0]))
    && NumbersUnique(s.levels, next)
  }

  /** From snapshot `horizon` on, the store reads like the history. */
  ghost predicate Faithful(s: Store, h: seq<Entry>, horizon: nat)
    requires |s.levels| == NUM_LEVELS
  {
    SameReads(Elements(h), All(s), horizon)
  }

  lemma {:induction false} HistoryDistinct(h: seq<Entry>)
    requires IsHistory(h)
    ensures DistinctSequences(Elements(h))
  {
    forall e, f | e in Elements(h) && f in Elements(h) && e.key.sn == f.key.sn ensures e == f {
      var i :| 0 <= i < |h| && h[i] == e;
      var j :| 0 <= j < |h| && h[j] == f;
    }
  }

  lemma {:induction false} HistoryBound(h: seq<Entry>, e: Entry)
    requires IsHistory(h) && e in Elements(h)
    ensures 0 < e.key.sn <= LastOf(h)
  {
    var i :| 0 <= i < |h| && h[i] == e;
  }

  /** A faithful store answers a read exactly as the versioned map does. */
  lemma {:induction false} FaithfulAnswer(s: Store, h: seq<Entry>, horizon: nat, next: nat, u: UserKey, sn: nat,
      r: Option<string>)
    requires Structured(s, h, next) && Faithful(s, h, horizon) && horizon <= sn && Reads(All(s), u, sn, r)
    ensures r == HistoryRead(h, u, sn)
  {
    HistoryDistinct(h);
    HistoryReads(h, u, sn);
    var q := ReadIsDefined(Elements(h), u, sn);
  }

  // ----- searching -----

  /** What a search of one table for `u` at `sn` gives: mem->Get, Table::InternalGet. */
  function TableGet(es: seq<Entry>, u: UserKey, sn: nat): Option<Entry> {
    var i := LowerBound(es, SeekKey(u, sn));
    if i < |es| && es[i].key.user == u then Some(es[i]) else None
  }

  /** `r` is the newest visible entry of `S`, if there is any. */
  ghost predicate Finds(S: set<Entry>, u: UserKey, sn: nat, r: Option<Entry>) {
    match r
    case Some(e) => IsNewest(S, u, sn, e)
    case None => forall e :: e in S ==> !Candidate(e, u, sn)
  }

  lemma {:induction false} TableGetFinds(es: seq<Entry>, u: UserKey, sn: nat)
    requires Sorted(es)
    ensures Finds(Elements(es), u, sn, TableGet(es, u, sn))
  {
    var i := LowerBound(es, SeekKey(u, sn));
    forall e | e in es && Candidate(e, u, sn) ensures i < |es| && es[i].key.user == u && e.key.sn <= es[i].key.sn {
      var j :| 0 <= j < |es| && es[j] == e;
      assert !Less(es[j].key, SeekKey(u, sn));
      LowerBoundSplits(es, SeekKey(u, sn), j);
      assert i < j ==> Less(es[i].key, es[j].key);
    }
  }
}
