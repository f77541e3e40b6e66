// Writing a table (table/table_builder.cc, db/builder.cc): data blocks, the index that
// lags one key behind them, and the filter block that is told where each block begins.
module TableBuilders {
  import opened Keys
  import opened Seqs
  import opened Coding
  import opened KeyOrder
  import opened Blocks
  import opened FilterBlocks
  import opened FilterPolicies
  import opened TableFormats
  import opened Tables

  /** A finished table: its blocks, where in the file each begins, the index and the
      filter block, if there is a policy. */
  datatype Table = Table(blocks: seq<seq<TableEntry>>, offsets: seq<nat>, index: seq<IndexEntry>, filter: Option<Bytes>)

  ghost predicate TableOk(t: Table) {
    BlocksOk(t.blocks) && IndexAgrees(t.blocks, t.index) && |t.index| == |t.blocks| == |t.offsets|
  }

  /** Filter offsets are 32-bit numbers. */
  ghost predicate FilterFits(t: Table) {
    t.filter.Some? ==> |t.filter.value| < TWO_32
  }

  /** The filter rules out no user key of a block at the block's offset, under any
      sequence number and type. */
  ghost predicate FilterSound(t: Table, policy: Option<Policy>) {
    t.filter.Some? ==>
      && policy.Some? && |t.offsets| == |t.blocks|
      && forall b, i, k: IKey {:trigger Asks(t.blocks, b, i, k)} ::
           Asks(t.blocks, b, i, k) ==> Answers(t.filter.value, t.offsets[b], Stored(k), PolicyMatch(policy.value))
  }

  /** `k` asks about the user key of entry `i` of block `b`. */
  ghost predicate Asks(blocks: seq<seq<TableEntry>>, b: int, i: int, k: IKey) {
    0 <= b < |blocks| && 0 <= i < |blocks[b]| && blocks[b][i].key.user == k.user
  }

  /** Every key was added to the filter block at the offset of its block. */
  ghost predicate Registered(blocks: seq<seq<TableEntry>>, offsets: seq<nat>, dataBlock: seq<TableEntry>, offset: nat,
      added: seq<(nat, Bytes)>) {
    && |offsets| == |blocks|
    && (forall b, i :: 0 <= b < |blocks| && 0 <= i < |blocks[b]| ==> (offsets[b], Stored(blocks[b][i].key)) in added)
    && forall i :: 0 <= i < |dataBlock| ==> (offset, Stored(dataBlock[i].key)) in added
  }

  /** The index gains an entry for the last of `n` blocks just if one was pending. */
  ghost predicate IndexGrows(before: seq<IndexEntry>, after: seq<IndexEntry>, pending: bool, last: Option<IKey>, n: nat) {
    if !pending then after == before
    else
      && last.Some? && n > 0 && |after| == |before| + 1 && after[..|before|] == before
      && after[|before|].block == n - 1 && Shortened(last.value, after[|before|].key)
  }

  lemma {:induction false} OneRegistered(blocks: seq<seq<TableEntry>>, offsets: seq<nat>, dataBlock: seq<TableEntry>,
      offset: nat, added: seq<(nat, Bytes)>, e: TableEntry)
    requires Registered(blocks, offsets, dataBlock, offset, added)
    ensures Registered(blocks, offsets, dataBlock + [e], offset, added + [(offset, Stored(e.key))])
  {
    var more := added + [(offset, Stored(e.key))];
    assert more[|added|] == (offset, Stored(e.key));
  }

  lemma {:induction false} BlockRegistered(blocks: seq<seq<TableEntry>>, offsets: seq<nat>, dataBlock: seq<TableEntry>,
      offset: nat, added: seq<(nat, Bytes)>, next: nat)
    requires Registered(blocks, offsets, dataBlock, offset, added)
    ensures Registered(blocks + [dataBlock], offsets + [offset], [], next, added)
  {
  }

  class TableBuilder {
    const policy: Option<Policy>
    const filterBlock: FilterBlockBuilder?
    var lastKey: Option<IKey>
    var dataBlock: seq<TableEntry>
    var pendingIndexEntry: bool
    var index: seq<IndexEntry>
    var blocks: seq<seq<TableEntry>>
    /** How much of the file is written, and where each block begins. */
    var offset: nat
    var offsets: seq<nat>
    ghost var entries: seq<TableEntry>

    /** Sealed; `OpenValid` opens it. */
    ghost predicate Valid()
      reads this, filterBlock
    {
      ValidSeal(offset + 9)
    }

    ghost predicate ValidSeal(n: nat)
      reads this, filterBlock
      decreases n
    {
      if n == 0 then Sound() else ValidSeal(n - 1)
    }

    lemma {:induction false} ValidSealOpens(n: nat)
      ensures ValidSeal(n) <==> Sound()
    {
      if n > 0 {
        ValidSealOpens(n - 1);
        assert ValidSeal(n) == ValidSeal(n - 1);
      }
    }

    lemma {:induction false} OpenValid()
      ensures Valid() <==> Sound()
    {
      ValidSealOpens(offset + 9);
    }

    ghost predicate Sound()
      reads this, filterBlock
    {
      && entries == Concat(blocks) + dataBlock && (pendingIndexEntry ==> lastKey.Some? && |blocks| > 0 && |dataBlock| == 0)
      && Building(blocks, dataBlock, index, pendingIndexEntry, lastKey)
      && |offsets| == |blocks| && (policy.Some? <==> filterBlock != null)
      && (filterBlock != null ==> FilterOk(filterBlock))
    }

    ghost predicate FilterOk(f: FilterBlockBuilder)
      reads this, f
    {
      && f.Valid() && f.blockOffset == offset && policy.Some? && f.create == PolicyCreate(policy.value)
      && Registered(blocks, offsets, dataBlock, offset, f.added)
    }

    constructor (policy: Option<Policy>)
      ensures Valid() && entries == [] && lastKey == None && this.policy == policy && (filterBlock != null ==> fresh(filterBlock))
      ensures dataBlock == [] && !pendingIndexEntry && index == [] && blocks == [] && offset == 0 && offsets == []
    {
      OpenBuilder([], [], [], false, None);
      this.policy := policy;
      var f: FilterBlockBuilder? := null;
      if policy.Some? {
        f := new FilterBlockBuilder(PolicyCreate(policy.value));
        f.StartBlock(0);
      }
      filterBlock := f;
      lastKey, dataBlock, pendingIndexEntry, index, blocks, entries := None, [], false, [], [], [];
      offset, offsets := 0, [];
      new;
      OpenValid();
    }

    /** Keys come in ascending order. A block that is full now is written out; `size` is
        what it takes in the file, compressed or not. */
    method Add(key: IKey, value: Bytes, full: bool, size: nat)
      requires Valid() && (lastKey.Some? ==> IKeyLess(lastKey.value, key))
      modifies this, filterBlock
      ensures Valid() && entries == old(entries) + [TableEntry(key, value)] && lastKey == Some(key)
      ensures var block := old(dataBlock) + [TableEntry(key, value)];
              && blocks == (if full then old(blocks) + [block] else old(blocks))
              && offsets == (if full then old(offsets) + [old(offset)] else old(offsets))
              && dataBlock == (if full then [] else block)
              && offset == old(offset) + (if full then size + 5 else 0)
    {
      AddEntry(key, value);
      if full {
        Flush(size);
      }
    }

    method AddEntry(key: IKey, value: Bytes)
      requires Valid() && (lastKey.Some? ==> IKeyLess(lastKey.value, key))
      modifies this, filterBlock
      ensures Valid() && entries == old(entries) + [TableEntry(key, value)] && lastKey == Some(key)
      ensures blocks == old(blocks) && offsets == old(offsets) && offset == old(offset) && !pendingIndexEntry
      ensures dataBlock == old(dataBlock) + [TableEntry(key, value)]
      ensures IndexGrows(old(index), index, old(pendingIndexEntry), old(lastKey), |blocks|)
    {
      OpenValid();
      ghost var e := TableEntry(key, value);
      AddIndexEntry(key, e);
      if filterBlock != null {
        OneRegistered(blocks, offsets, dataBlock, offset, filterBlock.added, e);
        filterBlock.AddKey(Stored(key));
      }
      assert Concat(blocks) + (dataBlock + [e]) == entries + [e];
      lastKey := Some(key);
      dataBlock := dataBlock + [TableEntry(key, value)];
      entries := entries + [e];
      OpenValid();
    }

    /** The index entry of a finished block waits for the first key of the next, so that
        its key can be short. */
    method AddIndexEntry(key: IKey, ghost e: TableEntry)
      requires Building(blocks, dataBlock, index, pendingIndexEntry, lastKey) && e.key == key
      requires lastKey.Some? ==> IKeyLess(lastKey.value, key)
      requires pendingIndexEntry ==> lastKey.Some? && |blocks| > 0
      modifies this`index, this`pendingIndexEntry
      ensures Building(blocks, dataBlock + [e], index, pendingIndexEntry, Some(key)) && !pendingIndexEntry
      ensures IndexGrows(old(index), index, old(pendingIndexEntry), lastKey, |blocks|)
    {
      if pendingIndexEntry {
        var separator := InternalSeparator(lastKey.value, key);
        FirstOfBlock(blocks, dataBlock, index, lastKey, IndexEntry(separator, |blocks| - 1), e);
        index := index + [IndexEntry(separator, |blocks| - 1)];
        pendingIndexEntry := false;
      } else {
        NextOfBlock(blocks, dataBlock, index, lastKey, e);
      }
    }

    method Flush(size: nat)
      requires Valid()
      modifies this, filterBlock
      ensures Valid() && entries == old(entries) && lastKey == old(lastKey) && |dataBlock| == 0 && index == old(index)
      ensures if old(dataBlock) == [] then
                blocks == old(blocks) && offsets == old(offsets) && offset == old(offset) && pendingIndexEntry == old(pendingIndexEntry)
              else
                && blocks == old(blocks) + [old(dataBlock)] && offsets == old(offsets) + [old(offset)]
                && offset == old(offset) + size + BLOCK_TRAILER_SIZE && pendingIndexEntry
    {
      if |dataBlock| == 0 {
        return;
      }
      OpenValid();
      BlockFlushed(blocks, dataBlock, index, pendingIndexEntry, lastKey);
      ghost var next := offset + size + BLOCK_TRAILER_SIZE;
      if filterBlock != null {
        BlockRegistered(blocks, offsets, dataBlock, offset, filterBlock.added, next);
      }
      WriteBlock(size);
      pendingIndexEntry := true;
      assert Concat(blocks) + [] == Concat(blocks);
      if filterBlock != null {
        filterBlock.StartBlock(offset);
      }
      OpenValid();
    }

    /** The block goes to the file, and the builder starts an empty one. */
    method WriteBlock(size: nat)
      modifies this`blocks, this`offsets, this`offset, this`dataBlock
      ensures blocks == old(blocks) + [old(dataBlock)] && offsets == old(offsets) + [old(offset)]
      ensures offset == old(offset) + size + BLOCK_TRAILER_SIZE && dataBlock == []
    {
      blocks, offsets := blocks + [dataBlock], offsets + [offset];
      offset, dataBlock := offset + size + BLOCK_TRAILER_SIZE, [];
    }

    /** Every entry is in a block, every block in the index, every key in the filter. */
    method Finish(size: nat) returns (table: Table)
      requires Valid()
      modifies this, filterBlock
      ensures TableOk(table) && Concat(table.blocks) == old(entries) && (table.filter.Some? <==> policy.Some?)
      ensures FilterFits(table) ==> FilterSound(table, policy)
      ensures old(dataBlock) == [] ==>
                && table.blocks == old(blocks) && table.offsets == old(offsets)
                && IndexGrows(old(index), table.index, old(pendingIndexEntry), old(lastKey), |old(blocks)|)
    {
      Flush(size);
      OpenValid();
      assert Concat(blocks) + [] == Concat(blocks);
      var filter := None;
      if filterBlock != null {
        ghost var added := filterBlock.added;
        var contents := filterBlock.Finish();
        FinishedFilter(policy.value, blocks, offsets, added, filterBlock.filters, filterBlock.filterOffsets, contents);
        filter := Some(contents);
      }
      AddLastIndexEntry();
      table := Table(blocks, offsets, index, filter);
    }

    method AddLastIndexEntry()
      requires Building(blocks, dataBlock, index, pendingIndexEntry, lastKey) && |dataBlock| == 0
      requires pendingIndexEntry ==> lastKey.Some? && |blocks| > 0
      modifies this`index, this`pendingIndexEntry
      ensures BlocksOk(blocks) && IndexAgrees(blocks, index) && |index| == |blocks|
      ensures IndexGrows(old(index), index, old(pendingIndexEntry), lastKey, |blocks|)
    {
      if pendingIndexEntry {
        var successor := InternalSuccessor(lastKey.value);
        LastIndexed(blocks, dataBlock, index, lastKey, IndexEntry(successor, |blocks| - 1));
        index := index + [IndexEntry(successor, |blocks| - 1)];
        pendingIndexEntry := false;
      } else {
        OpenBuilder(blocks, dataBlock, index, false, lastKey);
      }
    }
  }

  /** A finished filter block answers for every key of every block. */
  lemma {:induction false} FinishedFilter(p: Policy, blocks: seq<seq<TableEntry>>, offsets: seq<nat>,
      added: seq<(nat, Bytes)>, filters: seq<seq<Bytes>>, starts: seq<nat>, contents: Bytes)
    requires Registered(blocks, offsets, [], 0, added) && OffsetsAre(PolicyCreate(p), filters, starts)
    requires var result := Results(PolicyCreate(p), filters);
             contents == result + FixedAll(starts) + Fixed(4, |result|) + [BASE_LG]
    requires forall a :: 0 <= a < |added| ==> added[a].0 / BASE < |filters| && added[a].1 in filters[added[a].0 / BASE]
    ensures |contents| < TWO_32 ==> forall b, i, k: IKey {:trigger Asks(blocks, b, i, k)} ::
              Asks(blocks, b, i, k) ==> Answers(contents, offsets[b], Stored(k), PolicyMatch(p))
  {
    if |contents| < TWO_32 {
      forall b, i, k: IKey {:trigger Asks(blocks, b, i, k)} | Asks(blocks, b, i, k)
        ensures Answers(contents, offsets[b], Stored(k), PolicyMatch(p))
      {
        var key := blocks[b][i].key;
        assert (offsets[b], Stored(key)) in added;
        var a :| 0 <= a < |added| && added[a] == (offsets[b], Stored(key));
        BloomNeverHides(p, filters, starts, offsets[b], key, k);
      }
    }
  }

  /** The loop of BuildTable: every entry of an iterator goes into one table. Where blocks
      end, and what they take in the file, is arbitrary. */
  method BuildTable(es: seq<TableEntry>, policy: Option<Policy>, full: nat -> bool, size: nat -> nat) returns (table: Table)
    requires Ascending(es)
    ensures TableOk(table) && Concat(table.blocks) == es && (table.filter.Some? <==> policy.Some?)
    ensures FilterFits(table) ==> FilterSound(table, policy)
  {
    var builder := new TableBuilder(policy);
    for i := 0 to |es|
      invariant builder.Valid() && builder.policy == policy && fresh(builder) && (builder.filterBlock != null ==> fresh(builder.filterBlock))
      invariant builder.entries == es[..i] && (if i == 0 then builder.lastKey == None else builder.lastKey == Some(es[i - 1].key))
    {
      builder.Add(es[i].key, es[i].value, full(i), size(i));
      assert es[..i + 1] == es[..i] + [es[i]];
    }
    assert es[..|es|] == es;
    table := builder.Finish(size(|es|));
  }
}
