// The two-level iterator (table/two_level_iterator.cc): a cursor over the blocks of a
// table, or the tables of a level, that an index finds.
module TwoLevel {
  import opened Keys
  import opened Seqs
  import opened Iterators

  /** Where block `i` begins in the whole sequence. */
  function Start(blocks: seq<seq<Entry>>, i: nat): nat
    requires i <= |blocks|
  {
    |Concat(blocks[..i])|
  }

  /** Every index key is at or after all keys of its block and before all keys of
      every later block. */
  ghost predicate IndexOk(keys: seq<InternalKey>, blocks: seq<seq<Entry>>) {
    && |keys| == |blocks|
    && (forall i, e :: 0 <= i < |blocks| && e in blocks[i] ==> LessEq(e.key, keys[i]))
    && (forall i, j, e :: 0 <= i < j < |blocks| && e in blocks[j] ==> Less(keys[i], e.key))
    && forall i, j :: 0 <= i < j < |keys| ==> Less(keys[i], keys[j])
  }

  /** The entry of block `b` at `k` is at `Start(b) + k` of the whole. */
  lemma {:induction false} EntryAt(blocks: seq<seq<Entry>>, b: nat, k: nat)
    requires b < |blocks| && k < |blocks[b]|
    ensures Start(blocks, b) + k < |Concat(blocks)| && Concat(blocks)[Start(blocks, b) + k] == blocks[b][k]
  {
    ConcatUpTo(blocks, b);
    ConcatUpTo(blocks, b + 1);
  }

  lemma {:induction false} StartSteps(blocks: seq<seq<Entry>>, b: nat)
    requires b < |blocks|
    ensures Start(blocks, b + 1) == Start(blocks, b) + |blocks[b]| <= |Concat(blocks)|
    ensures Start(blocks, 0) == 0 && Start(blocks, |blocks|) == |Concat(blocks)|
  {
    ConcatUpTo(blocks, b);
    ConcatUpTo(blocks, b + 1);
    assert blocks[..|blocks|] == blocks;
  }

  /** Which block an entry of the whole sequence is in. */
  lemma {:induction false} BlockOf(blocks: seq<seq<Entry>>, p: nat) returns (b: nat, k: nat)
    requires p < |Concat(blocks)|
    ensures b < |blocks| && k < |blocks[b]| && Start(blocks, b) + k == p && blocks[b][k] == Concat(blocks)[p]
  {
    var n := |blocks| - 1;
    assert blocks[..n + 1] == blocks;
    if p < |Concat(blocks[..n])| {
      b, k := BlockOf(blocks[..n], p);
      assert blocks[..n][..b] == blocks[..b];
    } else {
      b, k := n, p - |Concat(blocks[..n])|;
    }
  }

  /** With sorted blocks the index makes the whole sequence sorted. */
  lemma {:induction false} ConcatSorted(keys: seq<InternalKey>, blocks: seq<seq<Entry>>)
    requires IndexOk(keys, blocks) && forall i :: 0 <= i < |blocks| ==> Sorted(blocks[i])
    ensures Sorted(Concat(blocks))
  {
    var all := Concat(blocks);
    forall p, q | 0 <= p < q < |all| ensures Less(all[p].key, all[q].key) {
      var b, k := BlockOf(blocks, p);
      var c, l := BlockOf(blocks, q);
      if b < c {
        assert blocks[b][k] in blocks[b] && blocks[c][l] in blocks[c];
      } else if c < b {
        StartOrder(blocks, c, b);
        StartSteps(blocks, c);
      }
    }
  }

  lemma {:induction false} StartOrder(blocks: seq<seq<Entry>>, a: nat, b: nat)
    requires a < b <= |blocks|
    ensures Start(blocks, a + 1) <= Start(blocks, b)
    decreases b - a
  {
    if a + 1 < b {
      StartSteps(blocks, a + 1);
      StartOrder(blocks, a + 1, b);
    }
  }

  /** The first index key at or after the target leads to the block of the lower bound. */
  lemma {:induction false} SeekThroughIndex(keys: seq<InternalKey>, blocks: seq<seq<Entry>>,
      target: InternalKey, b: nat)
    requires IndexOk(keys, blocks) && (forall i :: 0 <= i < |blocks| ==> Sorted(blocks[i])) && b <= |keys|
    requires forall i :: 0 <= i < b ==> Less(keys[i], target)
    requires b < |keys| ==> !Less(keys[b], target)
    ensures LowerBound(Concat(blocks), target) ==
            if b == |keys| then |Concat(blocks)| else Start(blocks, b) + LowerBound(blocks[b], target)
  {
    ConcatSorted(keys, blocks);
    var all := Concat(blocks);
    var r := LowerBound(all, target);
    var want := if b == |keys| then |all| else Start(blocks, b) + LowerBound(blocks[b], target);
    if b < |keys| {
      StartSteps(blocks, b);
    }
    forall p | 0 <= p < |all| ensures Less(all[p].key, target) <==> p < want {
      var c, k := BlockOf(blocks, p);
      assert blocks[c][k] in blocks[c];
      if c < b {
        StartOrder(blocks, c, b);
        StartSteps(blocks, c);
      } else if c == b {
        LowerBoundSplits(blocks[b], target, k);
      } else {
        StartOrder(blocks, b, c);
        assert LessEq(target, keys[b]) && Less(keys[b], all[p].key);
      }
    }
    if r < |all| {
      LowerBoundSplits(all, target, r);
    }
    if want < |all| {
      LowerBoundSplits(all, target, want);
    }
  }

  /** A cursor over the index (LevelFileNumIterator, or a table's index block). */
  class IndexIter {
    const keys: seq<InternalKey>
    var pos: nat

    constructor (keys: seq<InternalKey>)
      ensures this.keys == keys && pos == |keys|
    {
      this.keys, pos := keys, |keys|;
    }

    predicate Valid()
      reads this
    {
      pos < |keys|
    }

    method SeekToFirst()
      modifies this
      ensures pos == 0
    {
      pos := 0;
    }

    method SeekToLast()
      modifies this
      ensures pos == if |keys| == 0 then 0 else |keys| - 1
    {
      pos := if |keys| == 0 then 0 else |keys| - 1;
    }

    method Seek(target: InternalKey)
      modifies this
      ensures pos <= |keys| && (forall i :: 0 <= i < pos ==> Less(keys[i], target))
      ensures pos < |keys| ==> !Less(keys[pos], target)
    {
      pos := 0;
      while pos < |keys| && Less(keys[pos], target)
        invariant pos <= |keys| && forall i :: 0 <= i < pos ==> Less(keys[i], target)
      {
        pos := pos + 1;
      }
    }

    method Next()
      requires Valid()
      modifies this
      ensures pos == old(pos) + 1
    {
      pos := pos + 1;
    }

    method Prev()
      requires Valid()
      modifies this
      ensures pos == if old(pos) == 0 then |keys| else old(pos) - 1
    {
      pos := if pos == 0 then |keys| else pos - 1;
    }
  }

  class TwoLevelIterator {
    const index: IndexIter
    const blocks: seq<seq<Entry>>
    /** The open block and its handle. */
    var data: EntryIter?
    var handle: nat

    ghost predicate Set() {
      && IndexOk(index.keys, blocks) && (forall i :: 0 <= i < |blocks| ==> Sorted(blocks[i]))
    }

    /** The open block is the one its handle names. */
    ghost predicate Open()
      reads this
    {
      Set() && (data != null ==> handle < |blocks| && data.entries == blocks[handle])
    }

    /** The open block is the one the index is at. */
    ghost predicate Aligned()
      reads this, index
    {
      Open() && (data != null <==> index.Valid()) && (data != null ==> index.pos == handle)
    }

    ghost predicate Ok()
      reads this, index, data
    {
      Open() && (Valid() ==> Aligned())
    }

    predicate Valid()
      reads this, data
    {
      data != null && data.Valid()
    }

    /** The position in the whole sequence; its length when not valid. */
    ghost function Pos(): nat
      requires Ok()
      reads this, index, data
    {
      if Valid() then Start(blocks, handle) + data.pos else |Concat(blocks)|
    }

    constructor (index: IndexIter, blocks: seq<seq<Entry>>)
      requires IndexOk(index.keys, blocks) && forall i :: 0 <= i < |blocks| ==> Sorted(blocks[i])
      ensures Ok() && this.index == index && this.blocks == blocks && data == null
    {
      this.index, this.blocks, data, handle := index, blocks, null, 0;
    }

    function Current(): (e: Entry)
      requires Ok() && Valid()
      reads this, index, data
      ensures Pos() < |Concat(blocks)| && e == Concat(blocks)[Pos()]
    {
      EntryAt(blocks, handle, data.pos);
      data.Current()
    }

    method SeekToFirst()
      requires Ok()
      modifies this, index, data
      ensures Ok() && Pos() == 0 && fresh({data} - {old(data)} - {null})
    {
      index.SeekToFirst();
      InitDataBlock();
      if data != null {
        data.SeekToFirst();
        StartSteps(blocks, handle);
      }
      SkipEmptyDataBlocksForward(0);
    }

    method SeekToLast()
      requires Ok()
      modifies this, index, data
      ensures Ok() && Pos() == (if |Concat(blocks)| == 0 then 0 else |Concat(blocks)| - 1) && fresh({data} - {old(data)} - {null})
    {
      index.SeekToLast();
      InitDataBlock();
      if data != null {
        data.SeekToLast();
        StartSteps(blocks, handle);
        assert handle + 1 == |blocks|;
      }
      SkipEmptyDataBlocksBackward(|Concat(blocks)|);
    }

    method Seek(target: InternalKey)
      requires Ok()
      modifies this, index, data
      ensures Ok() && Pos() == LowerBound(Concat(blocks), target) && fresh({data} - {old(data)} - {null})
    {
      index.Seek(target);
      SeekThroughIndex(index.keys, blocks, target, index.pos);
      InitDataBlock();
      if data != null {
        data.Seek(target);
      }
      SkipEmptyDataBlocksForward(LowerBound(Concat(blocks), target));
    }

    method Next()
      requires Ok() && Valid()
      modifies this, index, data
      ensures Ok() && Pos() == old(Pos()) + 1 && fresh({data} - {old(data)} - {null})
    {
      EntryAt(blocks, handle, data.pos);
      ghost var p := Pos();
      data.Next();
      SkipEmptyDataBlocksForward(p + 1);
    }

    method Prev()
      requires Ok() && Valid()
      modifies this, index, data
      ensures Ok() && Pos() == (if old(Pos()) == 0 then |Concat(blocks)| else old(Pos()) - 1) && fresh({data} - {old(data)} - {null})
    {
      EntryAt(blocks, handle, data.pos);
      ghost var p := Pos();
      data.Prev();
      SkipEmptyDataBlocksBackward(p);
    }

    /** Opens the block the index is at, unless it is open already. */
    method InitDataBlock()
      requires Open()
      modifies this
      ensures Aligned()
      ensures data == null || data == old(data) || fresh(data)
    {
      if !index.Valid() {
        data := null;
      } else if data != null && handle == index.pos {
      } else {
        data := new EntryIter(blocks[index.pos]);
        handle := index.pos;
      }
    }

    /** Moving forward, the entries before `p` have been passed. */
    ghost predicate ForwardAt(p: nat)
      reads this, index, data
    {
      && Aligned()
      && if data == null then p == |Concat(blocks)| else data.pos <= |blocks[handle]| && p == Start(blocks, handle) + data.pos
    }

    /** Moving backward, the entries from `p` on have been passed. */
    ghost predicate BackwardAt(p: nat)
      reads this, index, data
    {
      && Aligned()
      && if data == null then p == 0 else p == Start(blocks, handle) + (if data.Valid() then data.pos + 1 else 0)
    }

    method SkipEmptyDataBlocksForward(ghost p: nat)
      requires ForwardAt(p)
      modifies this, index, data
      ensures Ok() && p <= |Concat(blocks)| && Pos() == p && fresh({data} - {old(data)} - {null})
    {
      while data == null || !data.Valid()
        invariant ForwardAt(p) && fresh({data} - {old(data)} - {null})
        decreases |index.keys| - index.pos
      {
        if !index.Valid() {
          data := null;
          return;
        }
        StartSteps(blocks, handle);
        index.Next();
        InitDataBlock();
        if data != null {
          data.SeekToFirst();
        }
      }
      EntryAt(blocks, handle, data.pos);
    }

    method SkipEmptyDataBlocksBackward(ghost p: nat)
      requires BackwardAt(p)
      modifies this, index, data
      ensures Ok() && p <= |Concat(blocks)| && Pos() == (if p == 0 then |Concat(blocks)| else p - 1) && fresh({data} - {old(data)} - {null})
    {
      while data == null || !data.Valid()
        invariant BackwardAt(p) && fresh({data} - {old(data)} - {null})
        decreases if index.Valid() then index.pos + 1 else 0
      {
        if !index.Valid() {
          data := null;
          return;
        }
        ghost var b := handle;
        index.Prev();
        InitDataBlock();
        if data != null {
          data.SeekToLast();
          StartSteps(blocks, handle);
        } else {
          StartSteps(blocks, b);
        }
      }
      EntryAt(blocks, handle, data.pos);
    }
  }
}
