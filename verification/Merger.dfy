// The merging iterator (table/merger.cc): a cursor over the sorted merge of its
// children, in both directions.
module Merger {
  import opened Keys
  import opened Merge
  import opened Iterators

  // ----- where a position of the merge cuts each child -----

  /** How many entries of `es` come before position `p` of the sorted sequence `m`. */
  function Below(es: seq<Entry>, m: seq<Entry>, p: nat): nat
    requires p <= |m|
  {
    if p < |m| then LowerBound(es, m[p].key) else |es|
  }

  lemma {:induction false} MemberOfMerge(lists: seq<seq<Entry>>, m: seq<Entry>, j: nat, i: nat) returns (p: nat)
    requires Elements(m) == AllElements(lists) && j < |lists| && i < |lists[j]|
    ensures p < |m| && m[p] == lists[j][i]
  {
    assert lists[j][i] in lists[j];
    assert lists[j][i] in AllElements(lists);
    assert lists[j][i] in m;
    p :| p < |m| && m[p] == lists[j][i];
  }

  lemma {:induction false} OriginOf(lists: seq<seq<Entry>>, m: seq<Entry>, p: nat) returns (j: nat, i: nat)
    requires Elements(m) == AllElements(lists) && p < |m|
    ensures j < |lists| && i < |lists[j]| && lists[j][i] == m[p]
  {
    assert m[p] in Elements(m);
    j :| j < |lists| && m[p] in lists[j];
    i :| i < |lists[j]| && lists[j][i] == m[p];
  }

  /** The merge is sorted and holds exactly the children's entries. */
  ghost predicate IsMerge(lists: seq<seq<Entry>>, m: seq<Entry>) {
    Mergeable(lists) && Sorted(m) && Elements(m) == AllElements(lists)
  }

  /** `IsMerge`, sealed: the iterator carries it as one fact, `OpenMerge` opens it. */
  ghost predicate MergeOf(lists: seq<seq<Entry>>, m: seq<Entry>) {
    MergeSeal(|m| + 9, lists, m)
  }

  ghost predicate MergeSeal(n: nat, lists: seq<seq<Entry>>, m: seq<Entry>) {
    if n == 0 then IsMerge(lists, m) else MergeSeal(n - 1, lists, m)
  }

  lemma {:induction false} MergeSealOpens(n: nat, lists: seq<seq<Entry>>, m: seq<Entry>)
    ensures MergeSeal(n, lists, m) <==> IsMerge(lists, m)
  {
    if n > 0 {
      MergeSealOpens(n - 1, lists, m);
    }
  }

  lemma {:induction false} OpenMerge(lists: seq<seq<Entry>>, m: seq<Entry>)
    ensures MergeOf(lists, m) <==> IsMerge(lists, m)
  {
    MergeSealOpens(|m| + 9, lists, m);
  }

  /** The merge of mergeable sequences is one. */
  lemma {:induction false} MergeAllIsMerge(lists: seq<seq<Entry>>)
    requires Mergeable(lists)
    ensures MergeOf(lists, MergeAll(lists))
  {
    MergeAllSorted(lists);
    MergeAllElements(lists);
    OpenMerge(lists, MergeAll(lists));
  }

  lemma {:induction false} InOrder(m: seq<Entry>, a: nat, b: nat)
    requires Sorted(m) && a < |m| && b < |m|
    ensures a < b ==> Less(m[a].key, m[b].key)
  {
  }

  /** An entry of a child is before position `p` of the merge exactly when the cut says so. */
  lemma {:induction false} BelowCounts(lists: seq<seq<Entry>>, m: seq<Entry>, p: nat, j: nat, i: nat, q: nat)
    requires MergeOf(lists, m) && p <= |m| && j < |lists| && i < |lists[j]| && q < |m| && m[q] == lists[j][i]
    ensures q < p <==> i < Below(lists[j], m, p)
  {
    OpenMerge(lists, m);
    if p < |m| {
      LowerBoundSplits(lists[j], m[p].key, i);
      assert q < p ==> Less(m[q].key, m[p].key);
      assert p < q ==> Less(m[p].key, m[q].key);
    }
  }

  /** Forward: the least of the children's next entries is the next of the merge. */
  lemma {:induction false} SmallestIsNext(lists: seq<seq<Entry>>, m: seq<Entry>, p: nat, c: nat)
    requires MergeOf(lists, m) && p <= |m| && c < |lists| && Below(lists[c], m, p) < |lists[c]|
    requires forall j :: 0 <= j < |lists| && Below(lists[j], m, p) < |lists[j]| ==>
               LessEq(lists[c][Below(lists[c], m, p)].key, lists[j][Below(lists[j], m, p)].key)
    ensures p < |m| && m[p] == lists[c][Below(lists[c], m, p)]
  {
    OpenMerge(lists, m);
    var i := Below(lists[c], m, p);
    var q := MemberOfMerge(lists, m, c, i);
    BelowCounts(lists, m, p, c, i, q);
    var j, k := OriginOf(lists, m, p);
    BelowCounts(lists, m, p, j, k, p);
    assert !Less(lists[j][Below(lists[j], m, p)].key, lists[c][i].key);
    assert Below(lists[j], m, p) == k by {
      LowerBoundOfMember(lists[j], k);
    }
    InOrder(m, p, q);
  }

  lemma {:induction false} SomeIsNext(lists: seq<seq<Entry>>, m: seq<Entry>, p: nat)
    requires MergeOf(lists, m) && p <= |m|
    ensures p < |m| ==> exists j :: 0 <= j < |lists| && Below(lists[j], m, p) < |lists[j]|
  {
    OpenMerge(lists, m);
    if p < |m| {
      var j, k := OriginOf(lists, m, p);
      BelowCounts(lists, m, p, j, k, p);
    }
  }

  /** Backward: the greatest of the children's last entries is the last of the merge. */
  lemma {:induction false} LargestIsPrevious(lists: seq<seq<Entry>>, m: seq<Entry>, p: nat, c: nat)
    requires MergeOf(lists, m) && p <= |m| && c < |lists| && Below(lists[c], m, p) > 0
    requires forall j :: 0 <= j < |lists| && Below(lists[j], m, p) > 0 ==>
               LessEq(lists[j][Below(lists[j], m, p) - 1].key, lists[c][Below(lists[c], m, p) - 1].key)
    ensures p > 0 && m[p - 1] == lists[c][Below(lists[c], m, p) - 1]
  {
    OpenMerge(lists, m);
    var i := Below(lists[c], m, p) - 1;
    var q := MemberOfMerge(lists, m, c, i);
    BelowCounts(lists, m, p, c, i, q);
    var j, k := OriginOf(lists, m, p - 1);
    BelowCounts(lists, m, p, j, k, p - 1);
    var last := Below(lists[j], m, p) - 1;
    InOrder(lists[j], k, last);
    InOrder(m, q, p - 1);
  }

  lemma {:induction false} SomeIsPrevious(lists: seq<seq<Entry>>, m: seq<Entry>, p: nat)
    requires MergeOf(lists, m) && p <= |m|
    ensures p > 0 ==> exists j :: 0 <= j < |lists| && Below(lists[j], m, p) > 0
  {
    OpenMerge(lists, m);
    if p > 0 {
      var j, k := OriginOf(lists, m, p - 1);
      BelowCounts(lists, m, p, j, k, p - 1);
    }
  }

  /** One step along the merge moves one child by one entry. */
  lemma {:induction false} StepMovesOne(lists: seq<seq<Entry>>, m: seq<Entry>, p: nat, c: nat, i: nat, j: nat)
    requires MergeOf(lists, m) && p < |m| && c < |lists| && j < |lists| && i < |lists[c]| && lists[c][i] == m[p]
    ensures Below(lists[c], m, p) == i && Below(lists[c], m, p + 1) == i + 1
    ensures j != c ==> Below(lists[j], m, p + 1) == Below(lists[j], m, p)
  {
    OpenMerge(lists, m);
    LowerBoundOfMember(lists[c], i);
    if p + 1 < |m| {
      assert Less(m[p].key, m[p + 1].key);
      LowerBoundSplits(lists[c], m[p + 1].key, i);
    }
    if i + 1 < |lists[c]| {
      var q := MemberOfMerge(lists, m, c, i + 1);
      assert Less(m[p].key, m[q].key);
      BelowCounts(lists, m, p + 1, c, i + 1, q);
    }
    if j != c {
      OthersStay(lists, m, p, c, j);
    }
  }

  lemma {:induction false} OthersStay(lists: seq<seq<Entry>>, m: seq<Entry>, p: nat, c: nat, j: nat)
    requires MergeOf(lists, m) && p < |m| && c < |lists| && j < |lists| && j != c && m[p] in lists[c]
    ensures Below(lists[j], m, p + 1) == Below(lists[j], m, p)
  {
    OpenMerge(lists, m);
    var a, b := Below(lists[j], m, p), Below(lists[j], m, p + 1);
    assert NoCommonKey(Elements(lists[if c < j then c else j]), Elements(lists[if c < j then j else c]));
    assert m[p] in Elements(lists[c]);
    if b < |lists[j]| {
      var q := MemberOfMerge(lists, m, j, b);
      BelowCounts(lists, m, p, j, b, q);
      BelowCounts(lists, m, p + 1, j, b, q);
    }
    if a < |lists[j]| {
      var q := MemberOfMerge(lists, m, j, a);
      assert lists[j][a] in Elements(lists[j]) && m[q].key != m[p].key;
      BelowCounts(lists, m, p, j, a, q);
      BelowCounts(lists, m, p + 1, j, a, q);
    }
  }

  /** Seeking every child is seeking the merge. */
  lemma {:induction false} SeekCutsAll(lists: seq<seq<Entry>>, m: seq<Entry>, target: InternalKey, j: nat)
    requires MergeOf(lists, m) && j < |lists|
    ensures Below(lists[j], m, LowerBound(m, target)) == LowerBound(lists[j], target)
  {
    OpenMerge(lists, m);
    var p := LowerBound(m, target);
    var a, b := Below(lists[j], m, p), LowerBound(lists[j], target);
    if a < |lists[j]| {
      var q := MemberOfMerge(lists, m, j, a);
      BelowCounts(lists, m, p, j, a, q);
      LowerBoundSplits(m, target, q);
      LowerBoundSplits(lists[j], target, a);
    }
    if b < |lists[j]| {
      var q := MemberOfMerge(lists, m, j, b);
      BelowCounts(lists, m, p, j, b, q);
      LowerBoundSplits(m, target, q);
    }
  }

  lemma {:induction false} StartCutsNothing(lists: seq<seq<Entry>>, m: seq<Entry>, j: nat)
    requires MergeOf(lists, m) && j < |lists|
    ensures Below(lists[j], m, 0) == 0
  {
    OpenMerge(lists, m);
    if |lists[j]| > 0 {
      var q := MemberOfMerge(lists, m, j, 0);
      BelowCounts(lists, m, 0, j, 0, q);
    }
  }

  /** Moves a child past an entry with exactly this key. */
  method SkipEqual(child: EntryIter, key: InternalKey)
    modifies child
    ensures child.pos == if old(child.Valid() && child.Current().key == key) then old(child.pos) + 1 else old(child.pos)
  {
    if child.Valid() && child.Current().key == key {
      child.Next();
    }
  }

  datatype Direction = Forward | Reverse

  class MergingIterator {
    const children: seq<EntryIter>
    var current: Option<nat>
    var direction: Direction
    ghost const merged: seq<Entry>
    /** The position in the merge; `|merged|` when not valid. */
    ghost var pos: nat

    ghost function Lists(): (r: seq<seq<Entry>>)
      ensures |r| == |children| && forall i :: 0 <= i < |r| ==> r[i] == children[i].entries
    {
      seq(|children|, i requires 0 <= i < |children| => children[i].entries)
    }

    /** What never changes. */
    ghost predicate Set() {
      && MergeOf(Lists(), merged)
      && forall i, j :: 0 <= i < j < |children| ==> children[i] != children[j]
    }

    /** Every child is at its first entry from position `p` on. */
    ghost predicate ForwardFrom(p: nat)
      requires p <= |merged|
      reads children
    {
      forall j :: 0 <= j < |children| ==> children[j].pos == Below(children[j].entries, merged, p)
    }

    /** Every child is at its last entry before position `p`, or not valid. */
    ghost predicate BackwardFrom(p: nat)
      requires p <= |merged|
      reads children
    {
      forall j :: 0 <= j < |children| ==> children[j].pos == LastBelow(children[j].entries, merged, p)
    }

    ghost predicate Ok()
      reads this, children
    {
      && Set() && pos <= |merged|
      && (current.Some? <==> pos < |merged|)
      && (current.Some? ==> current.value < |children| && children[current.value].Valid()
                            && children[current.value].Current() == merged[pos])
      && (direction.Forward? ==> ForwardFrom(pos))
      && (direction.Reverse? && pos < |merged| ==> BackwardFrom(pos + 1))
    }

    constructor (children: seq<EntryIter>, ghost merged: seq<Entry>)
      requires forall i, j :: 0 <= i < j < |children| ==> children[i] != children[j]
      requires MergeOf(seq(|children|, i requires 0 <= i < |children| => children[i].entries), merged)
      requires forall i :: 0 <= i < |children| ==> children[i].pos == |children[i].entries|
      ensures Ok() && pos == |merged| && this.children == children && this.merged == merged
    {
      this.children, this.merged := children, merged;
      current, direction, pos := None, Forward, |merged|;
      new;
      assert Lists() == seq(|children|, i requires 0 <= i < |children| => children[i].entries);
    }

    predicate Valid()
      reads this
    {
      current.Some?
    }

    function Current(): (e: Entry)
      requires Ok() && Valid()
      reads this, children
      ensures e == merged[pos]
    {
      children[current.value].Current()
    }

    method SeekToFirst()
      requires Ok()
      modifies this, children
      ensures Ok() && pos == 0
    {
      for i := 0 to |children|
        invariant forall j :: 0 <= j < i ==> children[j].pos == 0
      {
        children[i].SeekToFirst();
      }
      forall j | 0 <= j < |children| ensures Below(children[j].entries, merged, 0) == 0 {
        StartCutsNothing(Lists(), merged, j);
      }
      direction := Forward;
      FindSmallest(0);
    }

    method SeekToLast()
      requires Ok()
      modifies this, children
      ensures Ok() && pos == if |merged| == 0 then 0 else |merged| - 1
    {
      for i := 0 to |children|
        invariant forall j :: 0 <= j < i ==> children[j].pos == if |children[j].entries| == 0 then 0 else |children[j].entries| - 1
      {
        children[i].SeekToLast();
      }
      direction := Reverse;
      FindLargest(|merged|);
    }

    method Seek(target: InternalKey)
      requires Ok()
      modifies this, children
      ensures Ok() && pos == LowerBound(merged, target)
    {
      for i := 0 to |children|
        invariant forall j :: 0 <= j < i ==> children[j].pos == LowerBound(children[j].entries, target)
      {
        children[i].Seek(target);
      }
      forall j | 0 <= j < |children|
        ensures Below(children[j].entries, merged, LowerBound(merged, target)) == LowerBound(children[j].entries, target) {
        SeekCutsAll(Lists(), merged, target, j);
      }
      direction := Forward;
      FindSmallest(LowerBound(merged, target));
    }

    method Next()
      requires Ok() && Valid()
      modifies this, children
      ensures Ok() && pos == old(pos) + 1
    {
      if direction.Reverse? {
        TurnForward();
      }
      assert AtCurrent();
      StepOn();
      FindSmallest(pos + 1);
    }

    method Prev()
      requires Ok() && Valid()
      modifies this, children
      ensures Ok() && pos == if old(pos) == 0 then |merged| else old(pos) - 1
    {
      if direction.Forward? {
        TurnBackward();
      } else {
        OthersAreBehind();
      }
      StepBack();
      FindLargest(pos);
    }

    /** The current child is at the current entry of the merge. */
    ghost predicate AtCurrent()
      reads this, children
    {
      && Set() && current.Some? && pos < |merged| && current.value < |children| && children[current.value].Valid()
      && children[current.value].Current() == merged[pos]
    }

    ghost predicate OthersBehind()
      requires pos < |merged| && current.Some?
      reads this, children
    {
      forall j :: 0 <= j < |children| && j != current.value ==> children[j].pos == LastBelow(children[j].entries, merged, pos)
    }

    lemma {:induction false} OthersAreBehind()
      requires AtCurrent() && BackwardFrom(pos + 1)
      ensures OthersBehind()
    {
      forall j | 0 <= j < |children| && j != current.value ensures children[j].pos == LastBelow(children[j].entries, merged, pos) {
        StepMovesOne(Lists(), merged, pos, current.value, children[current.value].pos, j);
      }
    }

    method StepOn()
      requires AtCurrent() && ForwardFrom(pos)
      modifies children
      ensures ForwardFrom(pos + 1)
    {
      forall j | 0 <= j < |children|
        ensures Below(children[j].entries, merged, pos + 1) == if j == current.value then children[j].pos + 1 else children[j].pos {
        StepMovesOne(Lists(), merged, pos, current.value, children[current.value].pos, j);
      }
      children[current.value].Next();
    }

    method StepBack()
      requires AtCurrent() && OthersBehind()
      modifies children
      ensures BackwardFrom(pos)
    {
      StepMovesOne(Lists(), merged, pos, current.value, children[current.value].pos, current.value);
      children[current.value].Prev();
    }

    /** Repositions the other children after the current key. */
    method TurnForward()
      requires Ok() && Valid() && direction.Reverse?
      modifies this`direction, children
      ensures direction.Forward? && AtCurrent() && ForwardFrom(pos)
    {
      var key := Current().key;
      ghost var c, at := current.value, children[current.value].pos;
      for i := 0 to |children|
        invariant children[c].pos == at
        invariant forall j :: 0 <= j < i && j != c ==> children[j].pos == Below(children[j].entries, merged, pos)
      {
        if i != current.value {
          children[i].Seek(key);
          NotShared(i);
          SkipEqual(children[i], key);
        }
      }
      direction := Forward;
      OpenMerge(Lists(), merged);
      assert Sorted(Lists()[c]);
      LowerBoundOfMember(children[c].entries, at);
    }

    /** No other child holds the current key. */
    lemma {:induction false} NotShared(i: nat)
      requires Set() && pos < |merged| && i < |children|
      requires exists j :: 0 <= j < |children| && j != i && merged[pos] in children[j].entries
      ensures forall e :: e in children[i].entries ==> e.key != merged[pos].key
    {
      OpenMerge(Lists(), merged);
      var j :| 0 <= j < |children| && j != i && merged[pos] in children[j].entries;
      assert NoCommonKey(Elements(Lists()[if i < j then i else j]), Elements(Lists()[if i < j then j else i]));
      assert merged[pos] in Elements(Lists()[j]);
      forall e | e in children[i].entries ensures e.key != merged[pos].key {
        assert e in Elements(Lists()[i]);
      }
    }

    /** Repositions the other children before the current key. */
    method TurnBackward()
      requires Ok() && Valid() && direction.Forward?
      modifies this`direction, children
      ensures direction.Reverse? && AtCurrent() && OthersBehind()
    {
      var key := Current().key;
      ghost var c, at := current.value, children[current.value].pos;
      for i := 0 to |children|
        invariant children[c].pos == at
        invariant forall j :: 0 <= j < i && j != c ==> children[j].pos == LastBelow(children[j].entries, merged, pos)
      {
        if i != current.value {
          children[i].Seek(key);
          if children[i].Valid() {
            children[i].Prev();
          } else {
            children[i].SeekToLast();
          }
        }
      }
      direction := Reverse;
    }

    method FindSmallest(ghost p: nat)
      requires Set() && p <= |merged| && direction.Forward? && ForwardFrom(p)
      modifies this`current, this`pos
      ensures Ok() && pos == p
    {
      var smallest: Option<nat> := None;
      for i := 0 to |children|
        invariant smallest.None? ==> forall j :: 0 <= j < i ==> !children[j].Valid()
        invariant smallest.Some? ==> smallest.value < i && children[smallest.value].Valid()
        invariant smallest.Some? ==> forall j :: 0 <= j < i && children[j].Valid() ==>
                    LessEq(children[smallest.value].Current().key, children[j].Current().key)
      {
        if children[i].Valid() && (smallest.None? || Less(children[i].Current().key, children[smallest.value].Current().key)) {
          smallest := Some(i);
        }
      }
      SmallestFound(p, smallest);
      current, pos := smallest, p;
    }

    lemma {:induction false} SmallestFound(p: nat, smallest: Option<nat>)
      requires Set() && p <= |merged| && ForwardFrom(p)
      requires smallest.None? ==> forall j :: 0 <= j < |children| ==> !children[j].Valid()
      requires smallest.Some? ==> smallest.value < |children| && children[smallest.value].Valid()
      requires smallest.Some? ==> forall j :: 0 <= j < |children| && children[j].Valid() ==>
                 LessEq(children[smallest.value].Current().key, children[j].Current().key)
      ensures smallest.Some? <==> p < |merged|
      ensures smallest.Some? ==> children[smallest.value].Current() == merged[p]
    {
      if smallest.Some? {
        SmallestIsNext(Lists(), merged, p, smallest.value);
      } else {
        SomeIsNext(Lists(), merged, p);
      }
    }

    method FindLargest(ghost p: nat)
      requires Set() && p <= |merged| && direction.Reverse? && BackwardFrom(p)
      modifies this`current, this`pos
      ensures Ok() && pos == if p == 0 then |merged| else p - 1
    {
      var largest: Option<nat> := None;
      for i := |children| downto 0
        invariant largest.None? ==> forall j :: i <= j < |children| ==> !children[j].Valid()
        invariant largest.Some? ==> i <= largest.value < |children| && children[largest.value].Valid()
        invariant largest.Some? ==> forall j :: i <= j < |children| && children[j].Valid() ==>
                    LessEq(children[j].Current().key, children[largest.value].Current().key)
      {
        if children[i].Valid() && (largest.None? || Less(children[largest.value].Current().key, children[i].Current().key)) {
          largest := Some(i);
        }
      }
      LargestFound(p, largest);
      current, pos := largest, if p == 0 then |merged| else p - 1;
    }

    lemma {:induction false} LargestFound(p: nat, largest: Option<nat>)
      requires Set() && p <= |merged| && BackwardFrom(p)
      requires largest.None? ==> forall j :: 0 <= j < |children| ==> !children[j].Valid()
      requires largest.Some? ==> largest.value < |children| && children[largest.value].Valid()
      requires largest.Some? ==> forall j :: 0 <= j < |children| && children[j].Valid() ==>
                 LessEq(children[j].Current().key, children[largest.value].Current().key)
      ensures largest.Some? <==> p > 0
      ensures largest.Some? ==> children[largest.value].Current() == merged[p - 1]
    {
      if largest.Some? {
        LargestIsPrevious(Lists(), merged, p, largest.value);
      } else {
        SomeIsPrevious(Lists(), merged, p);
      }
    }
  }

  /** The index of the last entry of `es` before position `p` of `m`; `|es|` if there is none. */
  ghost function LastBelow(es: seq<Entry>, m: seq<Entry>, p: nat): nat
    requires p <= |m|
  {
    if Below(es, m, p) == 0 then |es| else Below(es, m, p) - 1
  }
}
