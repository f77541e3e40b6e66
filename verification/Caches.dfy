// The LRU cache (util/cache.cc, LRUCache): a hash table, two circular lists and a
// reference count for each entry.  An entry is known by its number; numbers 0 and 1
// are the dummy heads of the two lists.
module Caches {
  import opened Keys
  import opened Rings
  import opened HandleTables

  const LRU: nat := 0
  const IN_USE: nat := 1

  datatype Info = Info(value: string, charge: nat, refs: nat, inCache: bool)

  /** The lists' members, each list from its head, and the entries the cache holds. */
  datatype Books = Books(lru: seq<nat>, inUse: seq<nat>, cached: set<nat>)

  ghost function Sum(info: seq<Info>, ids: seq<nat>): nat {
    if |ids| == 0 then 0
    else
      var n := |ids| - 1;
      Sum(info, ids[..n]) + if ids[n] < |info| then info[ids[n]].charge else 0
  }

  /** What an entry counts for, if there is one. */
  ghost function Charge(info: seq<Info>, e: Option<nat>): nat {
    if e.Some? && e.value < |info| then info[e.value].charge else 0
  }

  lemma {:induction false} SumAppend(info: seq<Info>, ids: seq<nat>, h: nat)
    requires h < |info|
    ensures Sum(info, ids + [h]) == Sum(info, ids) + info[h].charge
  {
    assert (ids + [h])[..|ids|] == ids;
  }

  lemma {:induction false} SumWithout(info: seq<Info>, ids: seq<nat>, j: nat)
    requires j < |ids| && ids[j] < |info|
    ensures Sum(info, ids) == Sum(info, Without(ids, j)) + info[ids[j]].charge
    decreases |ids|
  {
    var n := |ids| - 1;
    if j == n {
      assert Without(ids, j) == ids[..n];
    } else {
      SumWithout(info, ids[..n], j);
      assert Without(ids, j)[..n - 1] == Without(ids[..n], j);
      WithoutAt(ids, j, n - 1);
    }
  }

  /** Value and charge of an entry never change. */
  ghost predicate SamePayload(a: seq<Info>, b: seq<Info>) {
    |a| <= |b| && forall h :: 0 <= h < |a| ==> a[h].charge == b[h].charge && a[h].value == b[h].value
  }

  lemma {:induction false} SumFrame(a: seq<Info>, b: seq<Info>, ids: seq<nat>)
    requires SamePayload(a, b) && forall j :: 0 <= j < |ids| ==> ids[j] < |a|
    ensures Sum(a, ids) == Sum(b, ids)
  {
    if |ids| > 0 {
      SumFrame(a, b, ids[..|ids| - 1]);
    }
  }

  // ----- the invariant of the lists and counts -----

  /** Which list an entry is in is what its count says; its deleter ran when the count reached 0. */
  ghost predicate EntryOk(info: seq<Info>, deleted: seq<nat>, g: Books, h: nat)
    requires h < |info|
  {
    var i := info[h];
    && (h in g.cached <==> i.inCache) && (i.inCache ==> i.refs > 0)
    && (h in g.lru <==> i.inCache && i.refs == 1)
    && (h in g.inUse <==> i.inCache && i.refs >= 2)
    && (h in deleted <==> i.refs == 0)
  }

  ghost predicate ListsOk(links: seq<Link>, g: Books) {
    && Ring(links, g.lru) && g.lru[0] == LRU
    && Ring(links, g.inUse) && g.inUse[0] == IN_USE
    && forall h :: h in g.lru ==> h !in g.inUse
  }

  ghost predicate Members(ids: seq<nat>, n: nat) {
    NoRepeats(ids) && forall h :: h in ids ==> IN_USE < h < n
  }

  ghost predicate ShelfOk(links: seq<Link>, info: seq<Info>, usage: nat, deleted: seq<nat>, g: Books) {
    && ListsOk(links, g) && |info| == |links| > IN_USE
    && info[LRU].charge == 0 && info[IN_USE].charge == 0
    && (forall h: nat :: IN_USE < h < |info| ==> EntryOk(info, deleted, g, h))
    && (forall h :: h in g.cached ==> IN_USE < h < |info|) && Members(deleted, |info|)
    && usage == Sum(info, g.lru) + Sum(info, g.inUse)
  }

  ghost function PositionOf(ids: seq<nat>, h: nat): (j: nat)
    requires h in ids
    ensures j < |ids| && ids[j] == h
  {
    var j :| 0 <= j < |ids| && ids[j] == h;
    j
  }

  ghost function Gone(ids: seq<nat>, h: nat): seq<nat> {
    if h in ids then Without(ids, PositionOf(ids, h)) else ids
  }

  /** The oldest entry is first in its list, after the head. */
  lemma {:induction false} GoneFirst(ids: seq<nat>)
    requires |ids| > 1 && NoRepeats(ids)
    ensures Gone(ids, ids[1]) == [ids[0]] + ids[2..]
  {
    assert ids[1] in ids;
    assert PositionOf(ids, ids[1]) == 1;
    assert Without(ids, 1) == [ids[0]] + ids[2..];
  }

  lemma {:induction false} GoneMembers(ids: seq<nat>, h: nat, x: nat)
    requires NoRepeats(ids)
    ensures x in Gone(ids, h) <==> x in ids && x != h
  {
    if h in ids {
      WithoutMembers(ids, PositionOf(ids, h), x);
    }
  }

  /** Taking an entry off the list it is in. */
  lemma {:induction false} TakeOff(links: seq<Link>, g: Books, h: nat)
    requires ListsOk(links, g) && (h in g.lru || h in g.inUse) && h > IN_USE
    ensures h < |links| && links[h].next < |links| && links[h].prev < |links|
    ensures ListsOk(Unlink(links, h), g.(lru := Gone(g.lru, h), inUse := Gone(g.inUse, h)))
    ensures h !in Gone(g.lru, h) && h !in Gone(g.inUse, h)
  {
    var to := g.(lru := Gone(g.lru, h), inUse := Gone(g.inUse, h));
    if h in g.lru {
      UnlinkKeeps(links, g.lru, PositionOf(g.lru, h));
      UnlinkElsewhere(links, g.lru, PositionOf(g.lru, h), g.inUse);
      WithoutAt(g.lru, PositionOf(g.lru, h), 0);
    } else {
      UnlinkKeeps(links, g.inUse, PositionOf(g.inUse, h));
      UnlinkElsewhere(links, g.inUse, PositionOf(g.inUse, h), g.lru);
      WithoutAt(g.inUse, PositionOf(g.inUse, h), 0);
    }
    forall x: nat ensures (x in to.lru <==> x in g.lru && x != h) && (x in to.inUse <==> x in g.inUse && x != h) {
      GoneMembers(g.lru, h, x);
      GoneMembers(g.inUse, h, x);
    }
  }

  /** Putting an entry at the new end of a list. */
  lemma {:induction false} PutOn(links: seq<Link>, g: Books, h: nat, toLru: bool)
    requires ListsOk(links, g) && h < |links| && h !in g.lru && h !in g.inUse
    ensures var head := if toLru then LRU else IN_USE;
      && head < |links| && links[head].prev < |links|
      && ListsOk(Append(links, head, h), if toLru then g.(lru := g.lru + [h]) else g.(inUse := g.inUse + [h]))
  {
    if toLru {
      AppendKeeps(links, g.lru, h);
      AppendElsewhere(links, g.lru, h, g.inUse);
    } else {
      AppendKeeps(links, g.inUse, h);
      AppendElsewhere(links, g.inUse, h, g.lru);
    }
  }

  /** LRU_Remove followed by LRU_Append. */
  function Moved(links: seq<Link>, head: nat, h: nat): seq<Link>
    requires h < |links| && links[h].next < |links| && links[h].prev < |links| && head < |links|
    requires Unlink(links, h)[head].prev < |links|
  {
    Append(Unlink(links, h), head, h)
  }

  ghost function MovedBooks(g: Books, h: nat, toLru: bool): Books {
    var to := g.(lru := Gone(g.lru, h), inUse := Gone(g.inUse, h));
    if toLru then to.(lru := to.lru + [h]) else to.(inUse := to.inUse + [h])
  }

  lemma {:induction false} MoveOver(links: seq<Link>, g: Books, h: nat, toLru: bool)
    requires ListsOk(links, g) && (h in g.lru || h in g.inUse) && h > IN_USE
    ensures var head := if toLru then LRU else IN_USE;
      && h < |links| && links[h].next < |links| && links[h].prev < |links| && head < |links|
      && Unlink(links, h)[head].prev < |links|
      && ListsOk(Moved(links, head, h), MovedBooks(g, h, toLru))
  {
    TakeOff(links, g, h);
    PutOn(Unlink(links, h), g.(lru := Gone(g.lru, h), inUse := Gone(g.inUse, h)), h, toLru);
  }

  lemma {:induction false} GoneSum(info: seq<Info>, g: Books, h: nat)
    requires (h in g.lru) != (h in g.inUse) && h < |info|
    ensures Sum(info, g.lru) + Sum(info, g.inUse) == Sum(info, Gone(g.lru, h)) + Sum(info, Gone(g.inUse, h)) + info[h].charge
  {
    if h in g.lru {
      SumWithout(info, g.lru, PositionOf(g.lru, h));
    } else {
      SumWithout(info, g.inUse, PositionOf(g.inUse, h));
    }
  }

  lemma {:induction false} MovedSum(info: seq<Info>, g: Books, h: nat, toLru: bool)
    requires (h in g.lru) != (h in g.inUse) && h < |info|
    ensures var to := MovedBooks(g, h, toLru); Sum(info, to.lru) + Sum(info, to.inUse) == Sum(info, g.lru) + Sum(info, g.inUse)
  {
    GoneSum(info, g, h);
    SumAppend(info, if toLru then Gone(g.lru, h) else Gone(g.inUse, h), h);
  }

  lemma {:induction false} MovedMembers(g: Books, h: nat, toLru: bool, x: nat)
    requires NoRepeats(g.lru) && NoRepeats(g.inUse)
    ensures var to := MovedBooks(g, h, toLru);
      && (x in to.lru <==> (x in g.lru && x != h) || (x == h && toLru))
      && (x in to.inUse <==> (x in g.inUse && x != h) || (x == h && !toLru))
  {
    GoneMembers(g.lru, h, x);
    GoneMembers(g.inUse, h, x);
  }

  lemma {:induction false} RingBound(links: seq<Link>, ids: seq<nat>)
    requires Ring(links, ids)
    ensures forall j :: 0 <= j < |ids| ==> ids[j] < |links|
  {
    forall j | 0 <= j < |ids| ensures ids[j] < |links| {
      assert LinkedAt(links, ids, j);
    }
  }

  lemma {:induction false} SumsFrame(a: seq<Info>, b: seq<Info>, links: seq<Link>, g: Books)
    requires ListsOk(links, g) && |a| == |links| && SamePayload(a, b)
    ensures Sum(a, g.lru) == Sum(b, g.lru) && Sum(a, g.inUse) == Sum(b, g.inUse)
  {
    RingBound(links, g.lru);
    RingBound(links, g.inUse);
    SumFrame(a, b, g.lru);
    SumFrame(a, b, g.inUse);
  }

  lemma {:induction false} HeadsOutside(links: seq<Link>, info: seq<Info>, usage: nat, deleted: seq<nat>,
      g: Books, h: nat)
    requires ShelfOk(links, info, usage, deleted, g) && IN_USE < h < |info| && info[h].inCache
    ensures (h in g.lru) != (h in g.inUse) && (h in g.lru <==> info[h].refs == 1)
  {
    assert EntryOk(info, deleted, g, h);
  }

  // ----- the four things done to an entry -----

  function WithRefs(info: seq<Info>, h: nat, refs: nat): seq<Info>
    requires h < |info|
  {
    info[h := info[h].(refs := refs)]
  }

  lemma {:induction false} RefMoves(info: seq<Info>, deleted: seq<nat>, g: Books, h: nat)
    requires NoRepeats(g.lru) && NoRepeats(g.inUse) && IN_USE < h < |info| && info[h].refs == 1 && info[h].inCache
    requires forall x: nat :: IN_USE < x < |info| ==> EntryOk(info, deleted, g, x)
    ensures var d := WithRefs(info, h, info[h].refs + 1);
            forall x: nat :: IN_USE < x < |d| ==> EntryOk(d, deleted, MovedBooks(g, h, false), x)
  {
    var d, to := WithRefs(info, h, info[h].refs + 1), MovedBooks(g, h, false);
    assert EntryOk(info, deleted, g, h);
    forall x: nat | IN_USE < x < |d| ensures EntryOk(d, deleted, to, x) {
      assert EntryOk(info, deleted, g, x);
      MovedMembers(g, h, false, x);
    }
  }

  /** Ref: one more reference, off the LRU list if it was there. */
  lemma {:induction false} RefStep(links: seq<Link>, info: seq<Info>, usage: nat, deleted: seq<nat>, g: Books, h: nat)
    requires ShelfOk(links, info, usage, deleted, g) && IN_USE < h < |info| && info[h].refs > 0
    ensures var moves := info[h].refs == 1 && info[h].inCache;
      && (moves ==> links[h].next < |links| && links[h].prev < |links| && Unlink(links, h)[IN_USE].prev < |links|)
      && ShelfOk(if moves then Moved(links, IN_USE, h) else links, WithRefs(info, h, info[h].refs + 1), usage, deleted,
           if moves then MovedBooks(g, h, false) else g)
  {
    var d := WithRefs(info, h, info[h].refs + 1);
    assert EntryOk(info, deleted, g, h);
    SumsFrame(info, d, links, g);
    if info[h].refs == 1 && info[h].inCache {
      MoveOver(links, g, h, false);
      MovedSum(d, g, h, false);
      RefMoves(info, deleted, g, h);
    } else {
      forall x: nat | IN_USE < x < |d| ensures EntryOk(d, deleted, g, x) {
        assert EntryOk(info, deleted, g, x);
      }
    }
  }

  /** Unref: one reference less; the last one runs the deleter, the last but the cache's own
      puts the entry at the new end of the LRU list. */
  lemma {:induction false} UnrefStep(links: seq<Link>, info: seq<Info>, usage: nat, deleted: seq<nat>, g: Books, h: nat)
    requires ShelfOk(links, info, usage, deleted, g) && IN_USE < h < |info| && info[h].refs > 0
    requires info[h].inCache ==> info[h].refs >= 2
    ensures var moves := info[h].refs == 2 && info[h].inCache;
      && (moves ==> links[h].next < |links| && links[h].prev < |links| && Unlink(links, h)[LRU].prev < |links|)
      && ShelfOk(if moves then Moved(links, LRU, h) else links, WithRefs(info, h, info[h].refs - 1), usage,
           if info[h].refs == 1 then deleted + [h] else deleted, if moves then MovedBooks(g, h, true) else g)
    ensures info[h].refs == 1 ==> h !in deleted
  {
    var d := WithRefs(info, h, info[h].refs - 1);
    var more := if info[h].refs == 1 then deleted + [h] else deleted;
    assert EntryOk(info, deleted, g, h);
    SumsFrame(info, d, links, g);
    if info[h].refs == 2 && info[h].inCache {
      UnrefMoves(links, info, usage, deleted, g, h);
    } else {
      forall x: nat | IN_USE < x < |d| ensures EntryOk(d, more, g, x) {
        assert EntryOk(info, deleted, g, x);
      }
    }
  }

  /** The last client has let go of a cached entry. */
  lemma {:induction false} UnrefMoves(links: seq<Link>, info: seq<Info>, usage: nat, deleted: seq<nat>, g: Books, h: nat)
    requires ShelfOk(links, info, usage, deleted, g) && IN_USE < h < |info| && info[h].refs == 2 && info[h].inCache
    ensures links[h].next < |links| && links[h].prev < |links| && Unlink(links, h)[LRU].prev < |links|
    ensures ShelfOk(Moved(links, LRU, h), WithRefs(info, h, 1), usage, deleted, MovedBooks(g, h, true))
  {
    var d, to := WithRefs(info, h, 1), MovedBooks(g, h, true);
    assert EntryOk(info, deleted, g, h);
    SumsFrame(info, d, links, g);
    MoveOver(links, g, h, true);
    MovedSum(d, g, h, true);
    forall x: nat | IN_USE < x < |d| ensures EntryOk(d, deleted, to, x) {
      assert EntryOk(info, deleted, g, x);
      MovedMembers(g, h, true, x);
    }
  }

  ghost function Dropped(g: Books, h: nat): Books {
    Books(Gone(g.lru, h), Gone(g.inUse, h), g.cached - {h})
  }

  /** The first half of FinishErase: the entry leaves the cache but keeps its references. */
  lemma {:induction false} DropStep(links: seq<Link>, info: seq<Info>, usage: nat, deleted: seq<nat>, g: Books, h: nat)
    requires ShelfOk(links, info, usage, deleted, g) && h in g.cached
    ensures IN_USE < h < |info| && info[h].inCache && info[h].refs > 0 && info[h].charge <= usage
    ensures links[h].next < |links| && links[h].prev < |links|
    ensures ShelfOk(Unlink(links, h), info[h := info[h].(inCache := false)], usage - info[h].charge, deleted, Dropped(g, h))
  {
    var d, to := info[h := info[h].(inCache := false)], Dropped(g, h);
    assert EntryOk(info, deleted, g, h);
    SumsFrame(info, d, links, g);
    TakeOff(links, g, h);
    GoneSum(d, g, h);
    forall x: nat | IN_USE < x < |d| ensures EntryOk(d, deleted, to, x) {
      assert EntryOk(info, deleted, g, x);
      GoneMembers(g.lru, h, x);
      GoneMembers(g.inUse, h, x);
    }
  }

  /** A new entry, held by the client only. */
  lemma {:induction false} AddStep(links: seq<Link>, info: seq<Info>, usage: nat, deleted: seq<nat>, g: Books, i: Info)
    requires ShelfOk(links, info, usage, deleted, g) && i.refs == 1 && !i.inCache
    ensures ShelfOk(links + [Link(0, 0)], info + [i], usage, deleted, g)
  {
    var h, d := |info|, info + [i];
    RingBound(links, g.lru);
    RingBound(links, g.inUse);
    SumsFrame(info, d, links, g);
    RingFrame(links, [Link(0, 0)], g.lru);
    RingFrame(links, [Link(0, 0)], g.inUse);
    assert h !in g.lru && h !in g.inUse;
    forall x: nat | IN_USE < x < |d| ensures EntryOk(d, deleted, g, x) {
      if x < h {
        assert EntryOk(info, deleted, g, x);
        assert d[x] == info[x];
      }
    }
  }

  ghost function Admitted(g: Books, h: nat): Books {
    Books(g.lru, g.inUse + [h], g.cached + {h})
  }

  /** The cache takes a reference of its own: the entry goes on the in-use list. */
  lemma {:induction false} AdmitStep(links: seq<Link>, info: seq<Info>, usage: nat, deleted: seq<nat>, g: Books, h: nat)
    requires ShelfOk(links, info, usage, deleted, g) && IN_USE < h < |info| && info[h].refs > 0 && !info[h].inCache
    ensures links[IN_USE].prev < |links|
    ensures ShelfOk(Append(links, IN_USE, h), info[h := info[h].(refs := info[h].refs + 1, inCache := true)], usage + info[h].charge,
      deleted, Admitted(g, h))
  {
    var d := info[h := info[h].(refs := info[h].refs + 1, inCache := true)];
    assert EntryOk(info, deleted, g, h);
    SumsFrame(info, d, links, g);
    PutOn(links, g, h, false);
    SumAppend(d, g.inUse, h);
    forall x: nat | IN_USE < x < |d| ensures EntryOk(d, deleted, Admitted(g, h), x) {
      assert EntryOk(info, deleted, g, x);
    }
  }

  // ----- the cache -----

  /** An entry's count is the handles clients have, and one more while the cache holds it. */
  ghost predicate Counted(info: seq<Info>, clients: multiset<nat>) {
    && (forall h: nat :: IN_USE < h < |info| ==> info[h].refs == clients[h] + if info[h].inCache then 1 else 0)
    && forall h :: h in clients ==> IN_USE < h < |info|
  }

  /** `ShelfOk` and `Counted`, sealed: what the cache keeps between calls. */
  ghost predicate Kept(links: seq<Link>, info: seq<Info>, usage: nat, deleted: seq<nat>, g: Books,
      clients: multiset<nat>) {
    KeptSeal(usage + 9, links, info, usage, deleted, g, clients)
  }

  ghost predicate KeptSeal(k: nat, links: seq<Link>, info: seq<Info>, usage: nat, deleted: seq<nat>, g: Books,
      clients: multiset<nat>) {
    if k == 0 then ShelfOk(links, info, usage, deleted, g) && Counted(info, clients)
    else KeptSeal(k - 1, links, info, usage, deleted, g, clients)
  }

  lemma {:induction false} KeptSealOpens(k: nat, links: seq<Link>, info: seq<Info>, usage: nat,
      deleted: seq<nat>, g: Books, clients: multiset<nat>)
    ensures KeptSeal(k, links, info, usage, deleted, g, clients) <==> ShelfOk(links, info, usage, deleted, g) && Counted(info, clients)
  {
    if k > 0 {
      KeptSealOpens(k - 1, links, info, usage, deleted, g, clients);
    }
  }

  lemma {:induction false} OpenKept(links: seq<Link>, info: seq<Info>, usage: nat, deleted: seq<nat>, g: Books,
      clients: multiset<nat>)
    ensures Kept(links, info, usage, deleted, g, clients) <==> ShelfOk(links, info, usage, deleted, g) && Counted(info, clients)
  {
    KeptSealOpens(usage + 9, links, info, usage, deleted, g, clients);
  }

  /** What the head of the LRU list points to, and what an entry on the list is. */
  lemma {:induction false} LruFacts(links: seq<Link>, info: seq<Info>, usage: nat, deleted: seq<nat>, g: Books,
      clients: multiset<nat>)
    requires Kept(links, info, usage, deleted, g, clients)
    ensures |links| > IN_USE && |g.lru| > 0 && g.lru[0] == LRU && NoRepeats(g.lru)
    ensures links[LRU].next == if |g.lru| > 1 then g.lru[1] else LRU
    ensures |g.lru| > 1 ==> g.lru[1] != LRU
    ensures forall j :: 0 < j < |g.lru| ==> IN_USE < g.lru[j] < |info| && g.lru[j] !in clients && g.lru[j] in g.cached
  {
    OpenKept(links, info, usage, deleted, g, clients);
    Neighbours(links, g.lru, 0);
    RingBound(links, g.lru);
    assert g.inUse[0] in g.inUse;
    forall j | 0 < j < |g.lru| ensures IN_USE < g.lru[j] < |info| && g.lru[j] !in clients && g.lru[j] in g.cached {
      assert g.lru[j] in g.lru;
      assert EntryOk(info, deleted, g, g.lru[j]);
    }
  }

  /** What giving back one handle of `e` does to the counts. */
  lemma {:induction false} ReleaseStep(links: seq<Link>, info: seq<Info>, usage: nat, deleted: seq<nat>, g: Books,
      clients: multiset<nat>, e: nat)
    requires Kept(links, info, usage, deleted, g, clients) && e in clients
    ensures ShelfOk(links, info, usage, deleted, g) && IN_USE < e < |info| && info[e].refs > 0
    ensures info[e].inCache ==> info[e].refs >= 2
    ensures Counted(WithRefs(info, e, info[e].refs - 1), clients - multiset{e})
    ensures info[e].refs == 1 <==> e !in clients - multiset{e} && e !in g.cached
    ensures info[e].refs == 2 && info[e].inCache <==> e !in clients - multiset{e} && e in g.cached
    ensures var to := MovedBooks(g, e, true); to.cached == g.cached && (info[e].inCache ==> to.lru == g.lru + [e])
  {
    OpenKept(links, info, usage, deleted, g, clients);
    assert EntryOk(info, deleted, g, e);
  }

  class LRUCache {
    const capacity: nat
    const table: HandleTable
    var usage: nat
    var links: seq<Link>
    var info: seq<Info>
    /** The entries whose deleter has run, in order. */
    var deleted: seq<nat>
    ghost var g: Books
    /** The handles that clients have and have not released. */
    ghost var clients: multiset<nat>

    ghost predicate Valid()
      reads this, table
    {
      && Kept(links, info, usage, deleted, g, clients)
      && table.Valid() && |table.cells| == |info| && table.m.Values == g.cached
    }

    constructor (capacity: nat)
      ensures Valid() && fresh(table) && this.capacity == capacity
      ensures table.m == map[] && clients == multiset{} && deleted == [] && usage == 0 && g.lru == [LRU]
    {
      this.capacity := capacity;
      table := new HandleTable([Cell("", 0, None), Cell("", 0, None)]);
      usage := 0;
      links := [Link(LRU, LRU), Link(IN_USE, IN_USE)];
      info := [Info("", 0, 0, false), Info("", 0, 0, false)];
      deleted := [];
      g := Books([LRU], [IN_USE], {});
      clients := multiset{};
      new;
      assert LinkedAt(links, g.lru, 0) && LinkedAt(links, g.inUse, 0);
      assert g.lru[..0] == [] && g.inUse[..0] == [];
      assert ShelfOk(links, info, usage, deleted, g);
      OpenKept(links, info, usage, deleted, g, clients);
    }

    method Ref(e: nat)
      requires ShelfOk(links, info, usage, deleted, g) && IN_USE < e < |info| && info[e].refs > 0
      modifies this`links, this`info, this`g
      ensures ShelfOk(links, info, usage, deleted, g)
      ensures info == WithRefs(old(info), e, old(info[e].refs) + 1)
      ensures g == if old(info[e]).refs == 1 && old(info[e]).inCache then MovedBooks(old(g), e, false) else old(g)
    {
      RefStep(links, info, usage, deleted, g, e);
      if info[e].refs == 1 && info[e].inCache {
        links := Moved(links, IN_USE, e);
        g := MovedBooks(g, e, false);
      }
      info := WithRefs(info, e, info[e].refs + 1);
    }

    method Unref(e: nat)
      requires ShelfOk(links, info, usage, deleted, g) && IN_USE < e < |info| && info[e].refs > 0
      requires info[e].inCache ==> info[e].refs >= 2
      modifies this`links, this`info, this`g, this`deleted
      ensures ShelfOk(links, info, usage, deleted, g)
      ensures info == WithRefs(old(info), e, old(info[e].refs) - 1)
      ensures deleted == if old(info[e]).refs == 1 then old(deleted) + [e] else old(deleted)
      ensures g == if old(info[e]).refs == 2 && old(info[e]).inCache then MovedBooks(old(g), e, true) else old(g)
    {
      UnrefStep(links, info, usage, deleted, g, e);
      info := WithRefs(info, e, info[e].refs - 1);
      if info[e].refs == 0 {
        deleted := deleted + [e];
      } else if info[e].inCache && info[e].refs == 1 {
        links := Moved(links, LRU, e);
        g := MovedBooks(g, e, true);
      }
    }

    /** An entry that has left the table leaves its list and the books, and the cache lets go of it. */
    method FinishErase(e: nat)
      requires ShelfOk(links, info, usage, deleted, g) && e in g.cached
      modifies this`links, this`info, this`g, this`deleted, this`usage
      ensures ShelfOk(links, info, usage, deleted, g)
      ensures IN_USE < e < |old(info)| && old(info[e].refs) > 0 && old(info[e].charge) <= old(usage)
      ensures info == old(info)[e := old(info[e]).(inCache := false, refs := old(info[e]).refs - 1)]
      ensures usage == old(usage) - old(info[e]).charge
      ensures deleted == if old(info[e]).refs == 1 then old(deleted) + [e] else old(deleted)
      ensures g == Dropped(old(g), e)
    {
      DropStep(links, info, usage, deleted, g, e);
      links := Unlink(links, e);
      info := info[e := info[e].(inCache := false)];
      usage := usage - info[e].charge;
      g := Dropped(g, e);
      Unref(e);
    }

    /** FinishErase of an entry that has just left the table. */
    method Forget(e: nat)
      requires ShelfOk(links, info, usage, deleted, g) && Counted(info, clients) && e in g.cached
      requires table.Valid() && |table.cells| == |info| && table.m.Values == g.cached - {e}
      modifies this`links, this`info, this`g, this`deleted, this`usage
      ensures Valid() && g == Dropped(old(g), e)
      ensures deleted == if e in clients then old(deleted) else old(deleted) + [e]
      ensures e < |old(info)| == |info| && usage == old(usage) - old(info)[e].charge
      ensures info == old(info)[e := old(info[e]).(inCache := false, refs := info[e].refs)]
      ensures SamePayload(old(info), info)
    {
      assert EntryOk(info, deleted, g, e);
      FinishErase(e);
      OpenKept(links, info, usage, deleted, g, clients);
    }

    method Lookup(key: string, hash: nat) returns (r: Option<nat>)
      requires Valid()
      modifies this`links, this`info, this`g, this`clients
      ensures Valid() && r == (if (key, hash) in table.m then Some(table.m[(key, hash)]) else None) && SamePayload(old(info), info)
      ensures clients == if r.Some? then old(clients) + multiset{r.value} else old(clients)
      ensures g.lru == if r.Some? then Gone(old(g).lru, r.value) else old(g).lru
    {
      r := table.Lookup(key, hash);
      if r.Some? {
        var e := r.value;
        OpenKept(links, info, usage, deleted, g, clients);
        assert e in table.m.Values;
        assert EntryOk(info, deleted, g, e);
        HeadsOutside(links, info, usage, deleted, g, e);
        Ref(e);
        clients := clients + multiset{e};
        OpenKept(links, info, usage, deleted, g, clients);
      }
    }

    /** The client gives back a handle it has; an entry nobody has any more is deleted, and one
        that only the cache has becomes the newest of the LRU list. */
    method Release(e: nat)
      requires Valid() && e in clients
      modifies this`links, this`info, this`g, this`deleted, this`clients
      ensures Valid() && clients == old(clients) - multiset{e} && SamePayload(old(info), info)
      ensures deleted == if e !in clients && e !in g.cached then old(deleted) + [e] else old(deleted)
      ensures g.lru == if e !in clients && e in g.cached then old(g).lru + [e] else old(g).lru
      ensures g.cached == old(g).cached
    {
      ReleaseStep(links, info, usage, deleted, g, clients, e);
      Unref(e);
      clients := clients - multiset{e};
      OpenKept(links, info, usage, deleted, g, clients);
    }

    method Erase(key: string, hash: nat)
      requires Valid()
      modifies this`links, this`info, this`g, this`deleted, this`usage, table
      ensures Valid() && clients == old(clients) && table.m == old(table.m) - {(key, hash)} && SamePayload(old(info), info)
      ensures (key, hash) !in old(table.m) ==> unchanged(this)
      ensures (key, hash) in old(table.m) ==>
        var e := old(table.m)[(key, hash)];
        && g == Dropped(old(g), e)
        && deleted == if e in clients then old(deleted) else old(deleted) + [e]
    {
      var e := table.Remove(key, hash);
      OpenKept(links, info, usage, deleted, g, clients);
      if e.Some? {
        Forget(e.value);
      }
    }

    /** What every eviction does: the oldest entry that no client has goes. */
    method EvictOldest()
      requires Valid() && |g.lru| > 1
      modifies this`links, this`info, this`g, this`deleted, this`usage, table
      ensures Valid() && clients == old(clients)
      ensures var e := old(g).lru[1];
        && g == Dropped(old(g), e) && g.lru == [LRU] + old(g).lru[2..]
        && deleted == old(deleted) + [e] && e !in clients
        && e < |old(info)| == |info| && usage == old(usage) - old(info)[e].charge && SamePayload(old(info), info)
        && Lost(old(table.m), table.m, [e])
    {
      ghost var e, was := g.lru[1], g.lru;
      LruFacts(links, info, usage, deleted, g, clients);
      var oldest := links[LRU].next;
      OpenKept(links, info, usage, deleted, g, clients);
      NamedInTable(table, oldest);
      ghost var m := table.m;
      TableNames(table.cells, table.list, table.chains, m);
      var r := table.Remove(table.cells[oldest].key, table.cells[oldest].hash);
      Forget(oldest);
      GoneFirst(was);
    }

    /** A new entry that only the client holds. */
    method MakeEntry(key: string, hash: nat, value: string, charge: nat) returns (e: nat)
      requires Valid()
      modifies this`links, this`info, this`clients, table`cells
      ensures Valid() && IN_USE < e == |old(info)| && clients == old(clients) + multiset{e} && e !in old(clients) && e !in g.cached
      ensures info == old(info) + [Info(value, charge, 1, false)]
      ensures table.m == old(table.m) && |table.cells| == e + 1 && NameOf(table.cells[e]) == (key, hash)
    {
      e := table.Allocate(key, hash);
      OpenKept(links, info, usage, deleted, g, clients);
      AddStep(links, info, usage, deleted, g, Info(value, charge, 1, false));
      links := links + [Link(0, 0)];
      info := info + [Info(value, charge, 1, false)];
      clients := clients + multiset{e};
      OpenKept(links, info, usage, deleted, g, clients);
    }

    /** The cache's own reference, and the place on the in-use list that goes with it. */
    method TakeIn(e: nat)
      requires ShelfOk(links, info, usage, deleted, g) && Counted(info, clients)
      requires IN_USE < e < |info| && e in clients && e !in g.cached
      modifies this`links, this`info, this`g, this`usage
      ensures ShelfOk(links, info, usage, deleted, g) && Counted(info, clients)
      ensures g == Admitted(old(g), e) && |info| == |old(info)| && SamePayload(old(info), info)
      ensures usage == old(usage) + old(info)[e].charge && deleted == old(deleted)
    {
      assert EntryOk(info, deleted, g, e);
      AdmitStep(links, info, usage, deleted, g, e);
      links := Append(links, IN_USE, e);
      usage := usage + info[e].charge;
      info := info[e := info[e].(refs := info[e].refs + 1, inCache := true)];
      g := Admitted(g, e);
    }

    /** The cache takes the entry in under its name; what was there under that name goes. */
    method Admit(e: nat) returns (previous: Option<nat>)
      requires Valid() && IN_USE < e < |info| && e in clients && e !in g.cached
      modifies this`links, this`info, this`g, this`deleted, this`usage, table
      ensures Valid() && clients == old(clients) && |info| == |old(info)|
      ensures var n := NameOf(old(table.cells[e]));
        table.m == old(table.m)[n := e] && previous == if n in old(table.m) then Some(old(table.m)[n]) else None
      ensures previous == None ==> g == Admitted(old(g), e) && deleted == old(deleted)
      ensures previous.Some? ==> g == Dropped(Admitted(old(g), e), previous.value)
      ensures previous.Some? ==> deleted == if previous.value in clients then old(deleted) else old(deleted) + [previous.value]
      ensures SamePayload(old(info), info)
      ensures previous == None ==> usage == old(usage) + old(info)[e].charge
      ensures previous.Some? ==> usage == old(usage) + old(info)[e].charge - Charge(old(info), previous)
    {
      OpenKept(links, info, usage, deleted, g, clients);
      TakeIn(e);
      previous := table.Insert(e);
      OpenKept(links, info, usage, deleted, g, clients);
      if previous.Some? {
        Forget(previous.value);
      }
    }

    /** What was cached and unused, oldest first, while there is too much: `evicted` is the shortest
        stretch of the LRU list whose going is enough, or all of it. */
    method EvictToFit() returns (ghost evicted: seq<nat>)
      requires Valid()
      modifies this`links, this`info, this`g, this`deleted, this`usage, table
      ensures Valid() && clients == old(clients) && |info| == |old(info)| && SamePayload(old(info), info)
      ensures usage <= capacity || g.lru == [LRU]
      ensures Evicted(old(g).lru, old(deleted), old(table.m), g.lru, deleted, table.m, evicted)
      ensures Shortest(old(info), old(usage), usage, capacity, evicted)
    {
      evicted := [];
      LruFacts(links, info, usage, deleted, g, clients);
      while usage > capacity && links[LRU].next != LRU
        invariant Valid() && clients == old(clients) && SamePayload(old(info), info) && |info| == |old(info)|
        invariant |links| > IN_USE && |g.lru| > 0 && links[LRU].next == if |g.lru| > 1 then g.lru[1] else LRU
        invariant Evicted(old(g).lru, old(deleted), old(table.m), g.lru, deleted, table.m, evicted)
        invariant Shortest(old(info), old(usage), usage, capacity, evicted)
        decreases |g.lru|
      {
        ghost var e, m, lru, del, used := g.lru[1], table.m, g.lru, deleted, usage;
        EvictOldest();
        EvictedOn(old(g).lru, old(deleted), old(table.m), lru, del, m, evicted, g.lru, deleted, table.m, e);
        ShortestOn(old(info), old(usage), used, capacity, evicted, e);
        evicted := evicted + [e];
        LruFacts(links, info, usage, deleted, g, clients);
      }
      LruFacts(links, info, usage, deleted, g, clients);
    }

    /** Insert: the new entry, then as much eviction as it takes: of the entries that no client
        has, oldest first, the shortest stretch whose going makes room, or all of them. If the
        usage with the new entry fits, nothing else leaves. */
    method Insert(key: string, hash: nat, value: string, charge: nat) returns (e: nat, ghost evicted: seq<nat>)
      requires Valid()
      modifies this, table
      ensures Valid() && e == |old(info)| && clients == old(clients) + multiset{e}
      ensures usage <= capacity || g.lru == [LRU]
      ensures var m := if capacity > 0 then old(table.m)[(key, hash) := e] else old(table.m); Lost(m, table.m, evicted)
      ensures capacity > 0 ==> (key, hash) in table.m && table.m[(key, hash)] == e
      ensures forall h :: h in evicted ==> h in old(g).lru && h !in clients && h in deleted
      ensures |info| == e + 1 && SamePayload(old(info) + [Info(value, charge, 1, false)], info)
      ensures var replaced := if capacity > 0 && (key, hash) in old(table.m) then Some(old(table.m)[(key, hash)]) else None;
              var full := old(usage) + (if capacity > 0 then charge else 0) - Charge(info, replaced);
              && |g.lru| > 0 && Unused(old(g).lru, replaced) == [LRU] + evicted + g.lru[1..]
              && usage == full - Sum(info, evicted)
              && (|evicted| > 0 ==> full - Sum(info, evicted[..|evicted| - 1]) > capacity)
      ensures old(usage) + charge <= capacity ==> evicted == []
    {
      e := AddEntry(key, hash, value, charge);
      LruFacts(links, info, usage, deleted, g, clients);
      ghost var lru, del, m, was := g.lru, deleted, table.m, info;
      evicted := EvictToFit();
      EvictedFrom(lru, del, m, g.lru, deleted, table.m, evicted, clients);
      StillThere(m, table.m, evicted, (key, hash), e, clients);
      SumsAlike(was, info, evicted);
    }

    /** Insert up to where eviction begins. */
    method AddEntry(key: string, hash: nat, value: string, charge: nat) returns (e: nat)
      requires Valid()
      modifies this, table
      ensures Valid() && e == |old(info)| && clients == old(clients) + multiset{e}
      ensures table.m == if capacity > 0 then old(table.m)[(key, hash) := e] else old(table.m)
      ensures forall h :: h in g.lru ==> h in old(g).lru
      ensures |info| == e + 1 && SamePayload(old(info) + [Info(value, charge, 1, false)], info)
      ensures var replaced := if capacity > 0 && (key, hash) in old(table.m) then Some(old(table.m)[(key, hash)]) else None;
              && g.lru == Unused(old(g).lru, replaced)
              && usage == old(usage) + (if capacity > 0 then charge else 0) - Charge(info, replaced)
    {
      e := MakeEntry(key, hash, value, charge);
      if capacity > 0 {
        LruFacts(links, info, usage, deleted, g, clients);
        ghost var before := g;
        var previous := Admit(e);
        AdmitOnlyRemoves(before, e, previous, g);
      }
    }

    /** Every entry that no client has goes. */
    method Prune() returns (ghost evicted: seq<nat>)
      requires Valid()
      modifies this`links, this`info, this`g, this`deleted, this`usage, table
      ensures Valid() && clients == old(clients) && g.lru == [LRU] && SamePayload(old(info), info)
      ensures Evicted(old(g).lru, old(deleted), old(table.m), g.lru, deleted, table.m, evicted)
    {
      evicted := [];
      LruFacts(links, info, usage, deleted, g, clients);
      while links[LRU].next != LRU
        invariant Valid() && clients == old(clients) && SamePayload(old(info), info)
        invariant |links| > IN_USE && |g.lru| > 0 && links[LRU].next == if |g.lru| > 1 then g.lru[1] else LRU
        invariant Evicted(old(g).lru, old(deleted), old(table.m), g.lru, deleted, table.m, evicted)
        decreases |g.lru|
      {
        ghost var e, m, lru, del := g.lru[1], table.m, g.lru, deleted;
        EvictOldest();
        EvictedOn(old(g).lru, old(deleted), old(table.m), lru, del, m, evicted, g.lru, deleted, table.m, e);
        evicted := evicted + [e];
        LruFacts(links, info, usage, deleted, g, clients);
      }
      LruFacts(links, info, usage, deleted, g, clients);
    }

    /** The destructor, when every handle has been given back: of every entry there ever was the
        deleter has run, and run once. */
    method Destroy()
      requires Valid() && clients == multiset{}
      modifies this`info, this`deleted
      ensures NoRepeats(deleted) && |info| == |old(info)|
      ensures forall h: nat :: h in deleted <==> IN_USE < h < |info|
    {
      DestroyStarts(links, info, usage, deleted, g);
      Neighbours(links, g.lru, 0);
      var e := links[LRU].next;
      ghost var k := 1;
      while e != LRU
        invariant 1 <= k <= |g.lru| && |info| == |old(info)| && e == if k < |g.lru| then g.lru[k] else LRU
        invariant Destroying(g.lru, |info|, deleted, k)
        decreases |g.lru| - k
      {
        Neighbours(links, g.lru, k);
        DestroyOn(g.lru, |info|, deleted, k);
        var next := links[e].next;
        info := info[e := info[e].(inCache := false, refs := 0)];
        deleted := deleted + [e];
        e := next;
        k := k + 1;
      }
    }
  }

  /** The destructor's walk has deleted the LRU list up to position `k`. */
  ghost predicate Destroying(lru: seq<nat>, n: nat, deleted: seq<nat>, k: nat) {
    && NoRepeats(lru) && |lru| > 0 && lru[0] == LRU && Members(deleted, n)
    && (forall j :: 0 < j < |lru| ==> IN_USE < lru[j] < n && (lru[j] in deleted <==> j < k))
    && forall h: nat :: IN_USE < h < n && h !in lru ==> h in deleted
  }

  lemma {:induction false} DestroyStarts(links: seq<Link>, info: seq<Info>, usage: nat, deleted: seq<nat>, g: Books)
    requires Kept(links, info, usage, deleted, g, multiset{})
    ensures Ring(links, g.lru) && g.lru[0] == LRU && |info| == |links|
    ensures Destroying(g.lru, |info|, deleted, 1)
  {
    LruFacts(links, info, usage, deleted, g, multiset{});
    OpenKept(links, info, usage, deleted, g, multiset{});
    forall j | 0 < j < |g.lru| ensures g.lru[j] !in deleted {
      assert g.lru[j] in g.lru;
      assert EntryOk(info, deleted, g, g.lru[j]);
    }
    forall h: nat | IN_USE < h < |info| && h !in g.lru ensures h in deleted {
      assert EntryOk(info, deleted, g, h);
    }
  }

  lemma {:induction false} DestroyOn(lru: seq<nat>, n: nat, deleted: seq<nat>, k: nat)
    requires Destroying(lru, n, deleted, k) && 0 < k < |lru|
    ensures Destroying(lru, n, deleted + [lru[k]], k + 1)
  {
    forall j | 0 < j < |lru| ensures lru[j] in deleted + [lru[k]] <==> j < k + 1 {
      assert lru[j] == lru[k] <==> j == k;
    }
  }

  /** `evicted` left the old end of the LRU list and the table, and was deleted in that order. */
  ghost predicate Evicted(lru0: seq<nat>, deleted0: seq<nat>, m0: map<(string, nat), nat>, lru: seq<nat>,
      deleted: seq<nat>, m: map<(string, nat), nat>, evicted: seq<nat>)
  {
    |lru| > 0 && lru0 == [LRU] + evicted + lru[1..] && deleted == deleted0 + evicted && Lost(m0, m, evicted)
  }

  lemma {:induction false} EvictedFrom(lru0: seq<nat>, deleted0: seq<nat>, m0: map<(string, nat), nat>,
      lru: seq<nat>, deleted: seq<nat>, m: map<(string, nat), nat>, evicted: seq<nat>, clients: multiset<nat>)
    requires Evicted(lru0, deleted0, m0, lru, deleted, m, evicted)
    requires forall j :: 0 < j < |lru0| ==> lru0[j] !in clients
    ensures forall h :: h in evicted ==> h in lru0 && h !in clients && h in deleted
  {
    forall h | h in evicted ensures h in lru0 && h !in clients && h in deleted {
      var i :| 0 <= i < |evicted| && evicted[i] == h;
      assert lru0[i + 1] == h;
    }
  }

  lemma {:induction false} StillThere(m0: map<(string, nat), nat>, m: map<(string, nat), nat>,
      evicted: seq<nat>, n: (string, nat), e: nat, clients: multiset<nat>)
    requires Lost(m0, m, evicted) && e in clients && forall h :: h in evicted ==> h !in clients
    ensures n in m0 && m0[n] == e ==> n in m && m[n] == e
  {
  }

  lemma {:induction false} EvictedOn(lru0: seq<nat>, deleted0: seq<nat>, m0: map<(string, nat), nat>,
      lru: seq<nat>, deleted: seq<nat>, m: map<(string, nat), nat>, evicted: seq<nat>, lru': seq<nat>,
      deleted': seq<nat>, m': map<(string, nat), nat>, e: nat)
    requires Evicted(lru0, deleted0, m0, lru, deleted, m, evicted)
    requires |lru| > 1 && lru[1] == e && lru' == [LRU] + lru[2..] && deleted' == deleted + [e] && Lost(m, m', [e])
    ensures Evicted(lru0, deleted0, m0, lru', deleted', m', evicted + [e])
  {
    assert lru[1..] == [e] + lru'[1..];
    LostOn(m0, m, m', evicted, e);
  }

  /** `evicted` accounts for the drop in usage, and without its last entry there would be too much. */
  ghost predicate Shortest(info: seq<Info>, from: nat, usage: nat, capacity: nat, evicted: seq<nat>) {
    && from == usage + Sum(info, evicted)
    && (|evicted| > 0 ==> from - Sum(info, evicted[..|evicted| - 1]) > capacity)
  }

  lemma {:induction false} ShortestOn(info: seq<Info>, from: nat, usage: nat, capacity: nat, evicted: seq<nat>, e: nat)
    requires Shortest(info, from, usage, capacity, evicted) && usage > capacity && e < |info| && info[e].charge <= usage
    ensures Shortest(info, from, usage - info[e].charge, capacity, evicted + [e])
  {
    SumAppend(info, evicted, e);
    assert (evicted + [e])[..|evicted|] == evicted;
  }

  lemma {:induction false} LostOn(a: map<(string, nat), nat>, b: map<(string, nat), nat>,
      c: map<(string, nat), nat>, gone: seq<nat>, e: nat)
    requires Lost(a, b, gone) && Lost(b, c, [e])
    ensures Lost(a, c, gone + [e])
  {
  }

  /** The LRU list without the entry that was replaced. */
  ghost function Unused(lru: seq<nat>, replaced: Option<nat>): seq<nat> {
    if replaced.Some? then Gone(lru, replaced.value) else lru
  }

  lemma {:induction false} SumsAlike(a: seq<Info>, b: seq<Info>, ids: seq<nat>)
    requires |a| == |b| && SamePayload(a, b)
    ensures Sum(a, ids) == Sum(b, ids)
    ensures forall n :: 0 <= n <= |ids| ==> Sum(a, ids[..n]) == Sum(b, ids[..n])
  {
    if |ids| > 0 {
      SumsAlike(a, b, ids[..|ids| - 1]);
      forall n | 0 <= n <= |ids| ensures Sum(a, ids[..n]) == Sum(b, ids[..n]) {
        if n < |ids| {
          assert ids[..|ids| - 1][..n] == ids[..n];
        } else {
          assert ids[..n] == ids;
        }
      }
    }
  }

  lemma {:induction false} AdmitOnlyRemoves(g: Books, e: nat, previous: Option<nat>, to: Books)
    requires NoRepeats(g.lru) && to == if previous.Some? then Dropped(Admitted(g, e), previous.value) else Admitted(g, e)
    ensures forall h :: h in to.lru ==> h in g.lru
  {
    forall h: nat | h in to.lru ensures h in g.lru {
      if previous.Some? {
        GoneMembers(g.lru, previous.value, h);
      }
    }
  }

  /** `to` is `from` without the names of the entries in `gone`. */
  ghost predicate Lost(from: map<(string, nat), nat>, to: map<(string, nat), nat>, gone: seq<nat>) {
    && (forall n :: n in to <==> n in from && from[n] !in gone)
    && forall n :: n in to ==> to[n] == from[n]
  }

  lemma {:induction false} NamedInTable(t: HandleTable, h: nat)
    requires t.Valid() && h in t.m.Values
    ensures h < |t.cells| && NameOf(t.cells[h]) in t.m && t.m[NameOf(t.cells[h])] == h
  {
    OpenTable(t.cells, t.list, t.chains, t.m);
    var n :| n in t.m && t.m[n] == h;
  }
}
