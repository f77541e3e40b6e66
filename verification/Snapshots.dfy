// The list of live snapshots (db/snapshot.h): oldest first, each a sequence number.
module Snapshots {
  import opened Rings

  const HEAD: nat := 0

  ghost function NumbersOf(numbers: seq<nat>, ids: seq<nat>): (s: seq<nat>)
    requires |ids| > 0 && forall j :: 0 <= j < |ids| ==> ids[j] < |numbers|
    ensures |s| == |ids| - 1 && forall j :: 0 <= j < |s| ==> s[j] == numbers[ids[j + 1]]
  {
    seq(|ids| - 1, j requires 0 <= j < |ids| - 1 => numbers[ids[j + 1]])
  }

  class SnapshotList {
    var links: seq<Link>
    /** The sequence number of each snapshot ever made; the head's is not used. */
    var numbers: seq<nat>
    ghost var ids: seq<nat>

    ghost predicate Valid()
      reads this
    {
      && Ring(links, ids) && ids[0] == HEAD && |numbers| == |links|
      && (forall j :: 0 <= j < |ids| ==> ids[j] < |numbers|)
      && forall i, j :: 0 < i < j < |ids| ==> numbers[ids[i]] <= numbers[ids[j]]
    }

    /** The sequence numbers of the live snapshots, oldest first. */
    ghost function Live(): (s: seq<nat>)
      requires Valid()
      reads this
      ensures |s| == |ids| - 1 && forall j :: 0 <= j < |s| ==> s[j] == numbers[ids[j + 1]]
      ensures forall i, j :: 0 <= i < j < |s| ==> s[i] <= s[j]
    {
      NumbersOf(numbers, ids)
    }

    constructor ()
      ensures Valid() && Live() == []
    {
      links := [Link(HEAD, HEAD)];
      numbers := [0];
      ids := [HEAD];
      new;
      assert LinkedAt(links, ids, 0);
    }

    method Empty() returns (r: bool)
      requires Valid()
      ensures r <==> Live() == []
    {
      Neighbours(links, ids, 0);
      r := links[HEAD].next == HEAD;
    }

    /** The number no compaction may drop entries above: the least of the live ones. */
    method Oldest() returns (x: nat)
      requires Valid() && Live() != []
      ensures x < |numbers| && x in ids && numbers[x] == Live()[0]
      ensures forall n :: n in Live() ==> numbers[x] <= n
    {
      Neighbours(links, ids, 0);
      x := links[HEAD].next;
    }

    method Newest() returns (x: nat)
      requires Valid() && Live() != []
      ensures x < |numbers| && x in ids && numbers[x] == Live()[|Live()| - 1]
      ensures forall n :: n in Live() ==> n <= numbers[x]
    {
      Neighbours(links, ids, 0);
      x := links[HEAD].prev;
    }

    method New(number: nat) returns (x: nat)
      requires Valid() && forall n :: n in Live() ==> n <= number
      modifies this
      ensures Valid() && Live() == old(Live()) + [number]
      ensures x == |old(numbers)| && ids == old(ids) + [x] && numbers == old(numbers) + [number]
    {
      x := |links|;
      forall j | 0 < j < |ids| ensures numbers[ids[j]] <= number {
        assert Live()[j - 1] in Live();
      }
      assert x !in ids;
      RingFrame(links, [Link(HEAD, HEAD)], ids);
      links := links + [Link(HEAD, HEAD)];
      numbers := numbers + [number];
      AppendKeeps(links, ids, x);
      links := Append(links, HEAD, x);
      ids := ids + [x];
    }

    /** `x` is the `j`th live snapshot. */
    method Delete(x: nat, ghost j: nat)
      requires Valid() && 0 < j < |ids| && ids[j] == x
      modifies this`links, this`ids
      ensures Valid() && Live() == old(Live()[..j - 1] + Live()[j..])
      ensures ids == Without(old(ids), j)
    {
      UnlinkKeeps(links, ids, j);
      ghost var was := ids;
      links := Unlink(links, x);
      ids := Without(ids, j);
      forall k: nat | 0 <= k < |ids| ensures ids[k] == was[if k < j then k else k + 1] {
        WithoutAt(was, j, k);
      }
    }
  }
}
