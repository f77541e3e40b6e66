// The user's iterator (db/db_iter.cc): of every user key, the newest entry that the
// snapshot may see, unless it is a deletion, in both directions.
module DbIter {
  import opened Keys
  import opened Iterators

  // ----- what an iterator at snapshot `s` shows of the entries `es` -----

  predicate Visible(es: seq<Entry>, s: nat, i: int) {
    0 <= i < |es| && es[i].key.sn <= s
  }

  ghost predicate Newest(es: seq<Entry>, s: nat, i: int) {
    Visible(es, s, i) && forall j :: 0 <= j < i && Visible(es, s, j) ==> es[j].key.user != es[i].key.user
  }

  ghost predicate ShownAt(es: seq<Entry>, s: nat, i: int) {
    Newest(es, s, i) && es[i].key.kind.Value?
  }

  /** Nothing is shown at the indices from `a` up to, not including, `b`. */
  ghost predicate NoneShown(es: seq<Entry>, s: nat, a: int, b: int) {
    forall i :: a <= i < b ==> !ShownAt(es, s, i)
  }

  lemma {:induction false} UsersAscend(es: seq<Entry>, i: int, j: int)
    requires Sorted(es) && 0 <= i <= j < |es|
    ensures es[i].key.user <= es[j].key.user
    ensures i < j && es[i].key.user == es[j].key.user ==> es[i].key.sn >= es[j].key.sn
  {
    assert i < j ==> Less(es[i].key, es[j].key);
  }

  /** What is shown is what reads return: at most one entry for a key, with the value
      a read of that key gives. */
  lemma {:induction false} ShownIsRead(es: seq<Entry>, s: nat, i: int)
    requires Sorted(es) && ShownAt(es, s, i)
    ensures Reads(Elements(es), es[i].key.user, s, Some(es[i].value))
  {
    forall f | f in Elements(es) && Candidate(f, es[i].key.user, s) ensures f.key.sn <= es[i].key.sn {
      var j :| 0 <= j < |es| && es[j] == f;
      assert Visible(es, s, j);
      UsersAscend(es, if i < j then i else j, if i < j then j else i);
    }
    assert IsNewest(Elements(es), es[i].key.user, s, es[i]);
  }

  /** Conversely, whatever a read returns is shown. */
  lemma {:induction false} ReadIsShown(es: seq<Entry>, s: nat, u: UserKey, v: string) returns (i: nat)
    requires Sorted(es) && DistinctSequences(Elements(es)) && Reads(Elements(es), u, s, Some(v))
    ensures ShownAt(es, s, i) && es[i].key.user == u && es[i].value == v
  {
    var e :| IsNewest(Elements(es), u, s, e) && Some(v) == Shown(e);
    i :| 0 <= i < |es| && es[i] == e;
    forall j | 0 <= j < i && Visible(es, s, j) ensures es[j].key.user != u {
      assert es[j] in Elements(es) && es[i] in Elements(es);
      assert Less(es[j].key, es[i].key);
    }
  }

  datatype Direction = Forward | Reverse

  class DBIter {
    const iter: EntryIter
    const sequence: nat
    var direction: Direction
    var valid: bool
    var savedKey: Option<UserKey>
    var savedValue: string
    /** The index of the current entry. */
    ghost var at: int

    /** The index of the internal iterator; -1 when it has run off the front. */
    ghost function Before(): int
      reads iter
    {
      if iter.pos < |iter.entries| then iter.pos else -1
    }

    ghost predicate Ok()
      reads this, iter
    {
      && Sorted(iter.entries)
      && (valid ==> ShownAt(iter.entries, sequence, at))
      && (valid && direction.Forward? ==> iter.pos == at)
      && (valid && direction.Reverse? ==> BehindCurrent(Before()))
    }

    /** Moving backwards: `q` is before everything visible of the current key, whose
        name and value are saved. */
    ghost predicate BehindCurrent(q: int)
      requires 0 <= at < |iter.entries|
      reads this
    {
      && -1 <= q < at
      && (forall i :: q < i < at ==> !Visible(iter.entries, sequence, i))
      && (q >= 0 ==> iter.entries[q].key.user < iter.entries[at].key.user)
      && savedKey == Some(iter.entries[at].key.user) && savedValue == iter.entries[at].value
    }

    constructor (iter: EntryIter, sequence: nat)
      requires Sorted(iter.entries)
      ensures Ok() && !valid && this.iter == iter && this.sequence == sequence
    {
      this.iter, this.sequence := iter, sequence;
      direction, valid, savedKey, savedValue, at := Forward, false, None, "", 0;
    }

    /** key() and value() report the entry at `at`. */
    function Key(): (u: UserKey)
      requires Ok() && valid
      reads this, iter
      ensures u == iter.entries[at].key.user
    {
      if direction.Forward? then iter.Current().key.user else savedKey.value
    }

    function Value(): (v: string)
      requires Ok() && valid
      reads this, iter
      ensures v == iter.entries[at].value
    {
      if direction.Forward? then iter.Current().value else savedValue
    }

    method SeekToFirst()
      requires Ok()
      modifies this, iter
      ensures Ok()
      ensures if valid then NoneShown(iter.entries, sequence, 0, at) else NoneShown(iter.entries, sequence, 0, |iter.entries|)
    {
      direction, savedValue := Forward, "";
      iter.SeekToFirst();
      if iter.Valid() {
        FindNextUserEntry(false, None, 0);
      } else {
        valid := false;
      }
    }

    method SeekToLast()
      requires Ok()
      modifies this, iter
      ensures Ok()
      ensures if valid then NoneShown(iter.entries, sequence, at + 1, |iter.entries|)
              else NoneShown(iter.entries, sequence, 0, |iter.entries|)
    {
      direction, savedValue := Reverse, "";
      iter.SeekToLast();
      FindPrevUserEntry(|iter.entries|);
    }

    /** The first shown key at or after `target`. */
    method Seek(target: UserKey)
      requires Ok()
      modifies this, iter
      ensures Ok()
      ensures valid ==> target <= iter.entries[at].key.user
      ensures forall i :: 0 <= i < (if valid then at else |iter.entries|) && ShownAt(iter.entries, sequence, i) ==>
                iter.entries[i].key.user < target
    {
      direction, savedValue, savedKey := Forward, "", None;
      iter.Seek(SeekKey(target, sequence));
      ghost var start := iter.pos;
      SeekSkipsRightly(iter.entries, sequence, target, start);
      if iter.Valid() {
        FindNextUserEntry(false, None, start);
        if valid {
          UsersAscend(iter.entries, start, at);
        }
      } else {
        valid := false;
      }
    }

    /** On to the next shown key. */
    method Next()
      requires Ok() && valid
      modifies this, iter
      ensures Ok()
      ensures valid ==> old(at) < at && NoneShown(iter.entries, sequence, old(at) + 1, at)
      ensures !valid ==> NoneShown(iter.entries, sequence, old(at) + 1, |iter.entries|)
    {
      ghost var from := at + 1;
      if direction.Reverse? {
        direction := Forward;
        AfterReverse(iter.entries, sequence, Before(), at);
        // The step below always lands at or before the current entry, so the
        // internal iterator cannot become invalid here.
        if !iter.Valid() {
          iter.SeekToFirst();
        } else {
          iter.Next();
        }
      } else {
        savedKey := Some(iter.Current().key.user);
        AfterForward(iter.entries, sequence, at);
      }
      FindNextUserEntry(true, savedKey, from);
    }

    /** Back to the previous shown key. */
    method Prev()
      requires Ok() && valid
      modifies this, iter
      ensures Ok()
      ensures valid ==> at < old(at) && NoneShown(iter.entries, sequence, at + 1, old(at))
      ensures !valid ==> NoneShown(iter.entries, sequence, 0, old(at))
    {
      if direction.Forward? {
        savedKey := Some(iter.Current().key.user);
        while true
          invariant iter.Valid() && iter.pos <= at && valid && at == old(at) && Ok0()
          invariant savedKey == Some(iter.entries[at].key.user)
          invariant forall i :: iter.pos <= i <= at ==> iter.entries[i].key.user == iter.entries[at].key.user
          decreases iter.pos
        {
          iter.Prev();
          if !iter.Valid() {
            valid, savedKey, savedValue := false, None, "";
            return;
          }
          UsersAscend(iter.entries, iter.pos, at);
          if iter.Current().key.user < savedKey.value {
            break;
          }
        }
        direction := Reverse;
      }
      FindPrevUserEntry(at);
    }

    ghost predicate Ok0()
      reads this, iter
    {
      Sorted(iter.entries) && (valid ==> ShownAt(iter.entries, sequence, at))
    }

    /** Scans forward from the internal iterator for the first shown entry at or after
        `from`. Entries up to user key `skip` are hidden while `skipping`. */
    method FindNextUserEntry(skipping0: bool, skip0: Option<UserKey>, ghost from: nat)
      requires Sorted(iter.entries) && iter.Valid() && direction.Forward?
      requires SkipState(iter.entries, sequence, iter.pos, from, skipping0, skip0)
      modifies this, iter
      ensures Ok() && direction.Forward?
      ensures valid ==> from <= at && old(iter.pos) <= at && NoneShown(iter.entries, sequence, Later(from, old(iter.pos)), at)
      ensures !valid ==> NoneShown(iter.entries, sequence, Later(from, old(iter.pos)), |iter.entries|)
    {
      var skipping, skip := skipping0, skip0;
      ghost var p0 := iter.pos;
      while true
        invariant iter.Valid() && p0 <= iter.pos && direction.Forward?
        invariant SkipState(iter.entries, sequence, iter.pos, from, skipping, skip)
        invariant NoneShown(iter.entries, sequence, Later(from, p0), iter.pos)
        decreases |iter.entries| - iter.pos
      {
        var found;
        found, skipping, skip := JudgeEntry(skipping, skip, from);
        if found {
          valid, savedKey, at := true, None, iter.pos;
          return;
        }
        iter.Next();
        if !iter.Valid() {
          break;
        }
      }
      savedKey, valid := None, false;
    }

    /** One turn of the forward scan: whether the internal iterator's entry is to be shown,
        and which key is skipped from there on. */
    method JudgeEntry(skipping0: bool, skip0: Option<UserKey>, ghost from: nat)
      returns (found: bool, skipping: bool, skip: Option<UserKey>)
      requires Sorted(iter.entries) && iter.Valid()
      requires SkipState(iter.entries, sequence, iter.pos, from, skipping0, skip0)
      ensures found ==> ShownAt(iter.entries, sequence, iter.pos) && from <= iter.pos
      ensures !found ==> (from <= iter.pos ==> !ShownAt(iter.entries, sequence, iter.pos))
      ensures !found && iter.pos + 1 < |iter.entries| ==> SkipState(iter.entries, sequence, iter.pos + 1, from, skipping, skip)
    {
      found, skipping, skip := false, skipping0, skip0;
      var e := iter.Current();
      if e.key.sn <= sequence {
        if e.key.kind.Deletion? {
          skip, skipping := Some(e.key.user), true;
        } else if skipping && e.key.user <= skip.value {
          // Hidden.
        } else {
          NotSkippedIsShown(iter.entries, sequence, iter.pos, from, skipping, skip);
          return true, skipping, skip;
        }
      }
      PassedIsNotShown(iter.entries, sequence, iter.pos, from, skipping0, skip0);
      if iter.pos + 1 < |iter.entries| {
        SkippingGoesOn(iter.entries, sequence, iter.pos, from, skipping0, skip0, skipping, skip);
      }
    }

    /** Scans backward from the internal iterator, which has nothing shown between it
        and `limit`. */
    method FindPrevUserEntry(ghost limit: int)
      requires Sorted(iter.entries) && direction.Reverse? && Before() < limit <= |iter.entries|
      requires NoneShown(iter.entries, sequence, Before() + 1, limit)
      modifies this, iter
      ensures Ok()
      ensures valid ==> 0 <= at < limit && NoneShown(iter.entries, sequence, at + 1, limit)
      ensures !valid ==> NoneShown(iter.entries, sequence, 0, limit)
    {
      var kind := Deletion;
      ghost var v: int := limit;
      if iter.Valid() {
        while true
          invariant iter.Valid() && direction.Reverse?
          invariant ScanState(kind, v, limit, iter.pos)
          decreases Before()
        {
          var e := iter.Current();
          ghost var p: int := iter.pos;
          if e.key.sn <= sequence {
            if kind.Value? && e.key.user < savedKey.value {
              break;
            }
            ScanVisible(kind, v, limit, p);
            kind := e.key.kind;
            if kind.Deletion? {
              savedKey, savedValue := None, "";
            } else {
              savedKey, savedValue := Some(e.key.user), e.value;
              v := p;
            }
          }
          assert ScanState(kind, v, limit, p - 1);
          iter.Prev();
          if !iter.Valid() {
            break;
          }
        }
      }
      if kind.Deletion? {
        valid, savedKey, savedValue, direction := false, None, "", Forward;
      } else {
        CandidateIsShown(iter.entries, sequence, v, Before());
        valid, at := true, v;
      }
    }

    /** What the backward scan knows once it has passed the entries after `q`: the last
        visible entry it met was a deletion or there was none; or it was the value `v`. */
    ghost predicate ScanState(kind: ValueType, v: int, limit: int, q: int)
      reads this
    {
      && -1 <= q < limit <= |iter.entries|
      && (kind.Deletion? ==> NoneShown(iter.entries, sequence, q + 1, limit))
      && (kind.Value? ==> Candidate(v, limit, q))
    }

    /** Meeting a visible entry of the same key, or after a deletion. */
    lemma {:induction false} ScanVisible(kind: ValueType, v: int, limit: int, p: int)
      requires Sorted(iter.entries) && ScanState(kind, v, limit, p) && Visible(iter.entries, sequence, p)
      requires kind.Value? ==> !(iter.entries[p].key.user < savedKey.value)
      ensures NoneShown(iter.entries, sequence, p + 1, limit)
    {
      if kind.Value? {
        OlderIsNotShown(iter.entries, sequence, p, v);
      }
    }

    /** `v` is the last visible entry met, a value; nothing after it is shown. */
    ghost predicate Candidate(v: int, limit: int, q: int)
      reads this
    {
      && q < v < limit && Visible(iter.entries, sequence, v) && iter.entries[v].key.kind.Value?
      && savedKey == Some(iter.entries[v].key.user) && savedValue == iter.entries[v].value
      && (forall i :: q < i < v ==> !Visible(iter.entries, sequence, i))
      && NoneShown(iter.entries, sequence, v + 1, limit)
    }
  }

  ghost function Later(a: int, b: int): int {
    if a < b then b else a
  }

  /** Where the forward scan stands before entry `p`, when entries before `from` do not
      count: the key being skipped was seen, nothing that counts has it or a smaller
      one, and the key at `p` is being skipped if it was seen before. */
  ghost predicate SkipState(es: seq<Entry>, s: nat, p: int, from: int, skipping: bool, skip: Option<UserKey>) {
    && 0 <= p < |es| && 0 <= from <= |es| && (skipping ==> skip.Some? && SkipIsSeen(es, s, p, from, skip.value))
    && (!skipping ==> from <= p)
    && (forall i :: p <= i < from ==> es[i].key.user <= skip.value && (Visible(es, s, i) ==> es[i].key.kind.Value?))
    && forall j :: 0 <= j < p && Visible(es, s, j) && es[j].key.user == es[p].key.user ==> skipping && es[j].key.user <= skip.value
  }

  ghost predicate SkipIsSeen(es: seq<Entry>, s: nat, p: int, from: int, skip: UserKey) {
    exists j :: Visible(es, s, j) && es[j].key.user == skip && (j < p || j < from)
  }

  lemma {:induction false} PassedIsNotShown(es: seq<Entry>, s: nat, p: int, from: int, skipping: bool,
      skip: Option<UserKey>)
    requires Sorted(es) && SkipState(es, s, p, from, skipping, skip)
    requires Visible(es, s, p) && es[p].key.kind.Value? ==> skipping && es[p].key.user <= skip.value
    ensures from <= p ==> !ShownAt(es, s, p)
  {
    if Visible(es, s, p) && es[p].key.kind.Value? {
      var j :| Visible(es, s, j) && es[j].key.user == skip.value && (j < p || j < from);
      if j < p {
        UsersAscend(es, j, p);
      }
    }
  }

  lemma {:induction false} NotSkippedIsShown(es: seq<Entry>, s: nat, p: int, from: int, skipping: bool,
      skip: Option<UserKey>)
    requires Sorted(es) && SkipState(es, s, p, from, skipping, skip) && Visible(es, s, p) && es[p].key.kind.Value?
    requires !(skipping && es[p].key.user <= skip.value)
    ensures ShownAt(es, s, p) && from <= p
  {
  }

  /** One step of the forward scan. */
  lemma {:induction false} SkippingGoesOn(es: seq<Entry>, s: nat, p: int, from: int, skipping: bool,
      skip: Option<UserKey>, skipping': bool, skip': Option<UserKey>)
    requires Sorted(es) && SkipState(es, s, p, from, skipping, skip) && p + 1 < |es|
    requires if es[p].key.sn <= s && es[p].key.kind.Deletion? then skipping' && skip' == Some(es[p].key.user)
             else skipping' == skipping && skip' == skip
    requires es[p].key.sn <= s && es[p].key.kind.Value? ==> skipping && es[p].key.user <= skip.value
    ensures SkipState(es, s, p + 1, from, skipping', skip')
  {
    if es[p].key.sn <= s && es[p].key.kind.Deletion? {
      assert Visible(es, s, p);
    }
    forall j | 0 <= j < p + 1 && Visible(es, s, j) && es[j].key.user == es[p + 1].key.user
      ensures skipping' && es[j].key.user <= skip'.value {
      UsersAscend(es, j, p);
      UsersAscend(es, p, p + 1);
    }
  }

  lemma {:induction false} SeekSkipsRightly(es: seq<Entry>, s: nat, target: UserKey, start: nat)
    requires Sorted(es) && start == LowerBound(es, SeekKey(target, s))
    ensures forall i :: 0 <= i < start && ShownAt(es, s, i) ==> es[i].key.user < target
    ensures start < |es| ==> target <= es[start].key.user && SkipState(es, s, start, start, false, None)
  {
  }

  /** Leaving reverse mode: the next entry of the internal iterator starts a key. */
  lemma {:induction false} AfterReverse(es: seq<Entry>, s: nat, q: int, at: int)
    requires Sorted(es) && -1 <= q < at < |es| && (forall i :: q < i < at ==> !Visible(es, s, i))
    requires q >= 0 ==> es[q].key.user < es[at].key.user
    requires ShownAt(es, s, at)
    ensures SkipState(es, s, q + 1, at + 1, true, Some(es[at].key.user))
  {
    assert Visible(es, s, at);
    forall i | q + 1 <= i < at + 1 ensures es[i].key.user <= es[at].key.user {
      UsersAscend(es, i, at);
    }
  }

  lemma {:induction false} AfterForward(es: seq<Entry>, s: nat, at: int)
    requires Sorted(es) && ShownAt(es, s, at)
    ensures SkipState(es, s, at, at + 1, true, Some(es[at].key.user))
  {
    assert Visible(es, s, at);
  }

  lemma {:induction false} CandidateIsShown(es: seq<Entry>, s: nat, v: int, q: int)
    requires Sorted(es) && -1 <= q < v && Visible(es, s, v) && es[v].key.kind.Value?
    requires forall i :: q < i < v ==> !Visible(es, s, i)
    requires q >= 0 ==> es[q].key.user < es[v].key.user
    ensures ShownAt(es, s, v)
  {
    forall j | 0 <= j < v && Visible(es, s, j) ensures es[j].key.user != es[v].key.user {
      UsersAscend(es, j, q);
    }
  }

  lemma {:induction false} OlderIsNotShown(es: seq<Entry>, s: nat, p: int, v: int)
    requires Sorted(es) && 0 <= p < v && Visible(es, s, p) && Visible(es, s, v) && !(es[p].key.user < es[v].key.user)
    ensures !ShownAt(es, s, v)
  {
    UsersAscend(es, p, v);
  }
}
