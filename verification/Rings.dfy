// The circular doubly linked list with a dummy head that the snapshot list
// (db/snapshot.h) and both lists of the cache (util/cache.cc) are made of.
module Rings {

  datatype Link = Link(next: nat, prev: nat)

  ghost function Succ(ids: seq<nat>, j: nat): nat
    requires j < |ids|
  {
    if j + 1 < |ids| then ids[j + 1] else ids[0]
  }

  ghost function Pred(ids: seq<nat>, j: nat): nat
    requires j < |ids|
  {
    if j > 0 then ids[j - 1] else ids[|ids| - 1]
  }

  ghost predicate NoRepeats(ids: seq<nat>) {
    forall i, j :: 0 <= i < j < |ids| ==> ids[i] != ids[j]
  }

  ghost predicate LinkedAt(links: seq<Link>, ids: seq<nat>, j: nat)
    requires j < |ids|
  {
    ids[j] < |links| && links[ids[j]] == Link(Succ(ids, j), Pred(ids, j))
  }

  /** Going round from the head `ids[0]`, either way, visits exactly `ids`. */
  ghost predicate Ring(links: seq<Link>, ids: seq<nat>) {
    && |ids| > 0 && NoRepeats(ids)
    && forall j :: 0 <= j < |ids| ==> LinkedAt(links, ids, j)
  }

  /** e->next->prev = e->prev; e->prev->next = e->next. */
  function Unlink(links: seq<Link>, e: nat): (r: seq<Link>)
    requires e < |links| && links[e].next < |links| && links[e].prev < |links|
  {
    var n, p := links[e].next, links[e].prev;
    var a := links[n := links[n].(prev := p)];
    a[p := a[p].(next := n)]
  }

  /** `e` goes just before the head, that is, at the end. */
  function Append(links: seq<Link>, head: nat, e: nat): (r: seq<Link>)
    requires e < |links| && head < |links| && links[head].prev < |links|
  {
    var last := links[head].prev;
    var a := links[e := Link(head, last)];
    var b := a[last := a[last].(next := e)];
    b[head := b[head].(prev := e)]
  }

  ghost function Without(ids: seq<nat>, j: nat): seq<nat>
    requires j < |ids|
  {
    ids[..j] + ids[j + 1..]
  }

  lemma {:induction false} WithoutAt(ids: seq<nat>, j: nat, k: nat)
    requires j < |ids| && k + 1 < |ids|
    ensures |Without(ids, j)| == |ids| - 1 && Without(ids, j)[k] == if k < j then ids[k] else ids[k + 1]
  {
  }

  lemma {:induction false} WithoutMembers(ids: seq<nat>, j: nat, n: nat)
    requires j < |ids| && NoRepeats(ids)
    ensures n in Without(ids, j) <==> n in ids && n != ids[j]
  {
    assert ids == ids[..j] + [ids[j]] + ids[j + 1..];
  }

  lemma {:induction false} WithoutNoRepeats(ids: seq<nat>, j: nat)
    requires j < |ids| && NoRepeats(ids)
    ensures NoRepeats(Without(ids, j))
  {
  }

  /** A node of a ring and its two neighbours. */
  lemma {:induction false} Neighbours(links: seq<Link>, ids: seq<nat>, j: nat)
    requires Ring(links, ids) && j < |ids|
    ensures ids[j] < |links| && links[ids[j]] == Link(Succ(ids, j), Pred(ids, j))
    ensures Succ(ids, j) in ids && Succ(ids, j) < |links| && Pred(ids, j) in ids && Pred(ids, j) < |links|
  {
    assert LinkedAt(links, ids, j);
    assert j + 1 < |ids| ==> LinkedAt(links, ids, j + 1);
    assert LinkedAt(links, ids, 0) && LinkedAt(links, ids, |ids| - 1);
    assert j > 0 ==> LinkedAt(links, ids, j - 1);
  }

  lemma {:induction false} UnlinkKeeps(links: seq<Link>, ids: seq<nat>, j: nat)
    requires Ring(links, ids) && 0 < j < |ids|
    ensures ids[j] < |links| && links[ids[j]].next < |links| && links[ids[j]].prev < |links|
    ensures Ring(Unlink(links, ids[j]), Without(ids, j))
  {
    var to := Without(ids, j);
    Neighbours(links, ids, j);
    var b := Unlink(links, ids[j]);
    WithoutNoRepeats(ids, j);
    forall k: nat | 0 <= k < |to| ensures LinkedAt(b, to, k) {
      UnlinkedAt(links, ids, j, if k < j then k else k + 1);
      WithoutAt(ids, j, k);
      WithoutAt(ids, j, 0);
      WithoutAt(ids, j, |to| - 1);
      if k + 1 < |to| {
        WithoutAt(ids, j, k + 1);
      }
      if k > 0 {
        WithoutAt(ids, j, k - 1);
      }
    }
  }

  /** What the links of a remaining node say once `ids[j]` is unlinked. */
  lemma {:induction false} UnlinkedAt(links: seq<Link>, ids: seq<nat>, j: nat, m: nat)
    requires Ring(links, ids) && 0 < j < |ids| && m < |ids| && m != j
    requires ids[j] < |links| && links[ids[j]].next < |links| && links[ids[j]].prev < |links|
    ensures ids[m] < |links|
    ensures var l := Unlink(links, ids[j])[ids[m]];
      && l.next == (if m + 1 == j then Succ(ids, j) else Succ(ids, m))
      && l.prev == (if m == (if j + 1 < |ids| then j + 1 else 0) then Pred(ids, j) else Pred(ids, m))
  {
    Neighbours(links, ids, j);
    Neighbours(links, ids, m);
    var after := if j + 1 < |ids| then j + 1 else 0;
    assert ids[m] == ids[after] <==> m == after;
    assert ids[m] == ids[j - 1] <==> m == j - 1;
  }

  lemma {:induction false} AppendKeeps(links: seq<Link>, ids: seq<nat>, e: nat)
    requires Ring(links, ids) && e < |links| && e !in ids
    ensures ids[0] < |links| && links[ids[0]].prev < |links|
    ensures Ring(Append(links, ids[0], e), ids + [e])
  {
    Neighbours(links, ids, 0);
    var to, n := ids + [e], |ids|;
    var b := Append(links, ids[0], e);
    assert NoRepeats(to);
    forall k: nat | 0 <= k < |to| ensures LinkedAt(b, to, k) {
      if k < n {
        Neighbours(links, ids, k);
        assert ids[k] == ids[0] <==> k == 0;
        assert ids[k] == ids[n - 1] <==> k == n - 1;
      }
    }
  }

  /** A ring that shares no node with another is not touched by work on the other. */
  lemma {:induction false} UnlinkElsewhere(links: seq<Link>, ids: seq<nat>, j: nat, other: seq<nat>)
    requires Ring(links, ids) && j < |ids| && Ring(links, other)
    requires forall n :: n in other ==> n !in ids
    ensures ids[j] < |links| && links[ids[j]].next < |links| && links[ids[j]].prev < |links|
    ensures Ring(Unlink(links, ids[j]), other)
  {
    Neighbours(links, ids, j);
    var b := Unlink(links, ids[j]);
    forall k: nat | 0 <= k < |other| ensures LinkedAt(b, other, k) {
      assert LinkedAt(links, other, k) && other[k] in other;
    }
  }

  lemma {:induction false} AppendElsewhere(links: seq<Link>, ids: seq<nat>, e: nat, other: seq<nat>)
    requires Ring(links, ids) && e < |links| && Ring(links, other) && e !in other
    requires forall n :: n in other ==> n !in ids
    ensures ids[0] < |links| && links[ids[0]].prev < |links|
    ensures Ring(Append(links, ids[0], e), other)
  {
    Neighbours(links, ids, 0);
    var b := Append(links, ids[0], e);
    assert ids[0] in ids;
    forall k: nat | 0 <= k < |other| ensures LinkedAt(b, other, k) {
      assert LinkedAt(links, other, k) && other[k] in other;
    }
  }

  /** New nodes outside the ring. */
  lemma {:induction false} RingFrame(links: seq<Link>, more: seq<Link>, ids: seq<nat>)
    requires Ring(links, ids)
    ensures Ring(links + more, ids)
  {
    forall k: nat | 0 <= k < |ids| ensures LinkedAt(links + more, ids, k) {
      assert LinkedAt(links, ids, k);
    }
  }
}
