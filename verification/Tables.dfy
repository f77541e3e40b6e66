// The blocks of a table and their index (table/table_builder.cc, table/table.cc): index
// keys are shortened and delayed, and still lead every search to the right block.
module Tables {
  import opened Keys
  import opened Seqs
  import opened Coding
  import opened KeyOrder
  import TwoLevel

  datatype TableEntry = TableEntry(key: IKey, value: Bytes)

  /** The index entry of a block; the block's number stands for its handle. */
  datatype IndexEntry = IndexEntry(key: IKey, block: nat)

  ghost predicate Ascending(es: seq<TableEntry>) {
    forall i, j :: 0 <= i < j < |es| ==> IKeyLess(es[i].key, es[j].key)
  }

  function First(block: seq<TableEntry>): IKey
    requires |block| > 0
  {
    block[0].key
  }

  function Last(block: seq<TableEntry>): IKey
    requires |block| > 0
  {
    block[|block| - 1].key
  }

  ghost predicate IKeyLeq(a: IKey, b: IKey) {
    a == b || IKeyLess(a, b)
  }

  /** `k` may stand between a block that ends at `start` and one that begins at `limit`. */
  ghost predicate Separates(start: IKey, k: IKey, limit: IKey) {
    IKeyLess(k, limit) && (k == start || BytesLess(k.user, limit.user))
  }

  /** Blocks are not empty, and come one after the other. */
  ghost predicate BlocksOk(blocks: seq<seq<TableEntry>>) {
    && (forall i :: 0 <= i < |blocks| ==> |blocks[i]| > 0 && Ascending(blocks[i]))
    && forall i :: 0 <= i < |blocks| - 1 ==> IKeyLess(Last(blocks[i]), First(blocks[i + 1]))
  }

  /** Each index key is at or after its block and before the next. */
  ghost predicate IndexAgrees(blocks: seq<seq<TableEntry>>, index: seq<IndexEntry>) {
    && |index| <= |blocks|
    && forall i :: 0 <= i < |index| ==>
         && |blocks[i]| > 0 && index[i].block == i && IKeyLeq(Last(blocks[i]), index[i].key)
         && (i + 1 < |blocks| ==> |blocks[i + 1]| > 0 && Separates(Last(blocks[i]), index[i].key, First(blocks[i + 1])))
  }

  /** The written blocks and the one being filled. */
  function AllBlocks(blocks: seq<seq<TableEntry>>, dataBlock: seq<TableEntry>): seq<seq<TableEntry>> {
    if |dataBlock| == 0 then blocks else blocks + [dataBlock]
  }

  ghost predicate BuilderOk(blocks: seq<seq<TableEntry>>, dataBlock: seq<TableEntry>, index: seq<IndexEntry>,
      pending: bool, last: Option<IKey>) {
    var all := AllBlocks(blocks, dataBlock);
    && BlocksOk(all) && IndexAgrees(all, index)
    && (pending ==> |dataBlock| == 0 && |blocks| > 0 && |index| == |blocks| - 1)
    && (!pending ==> |index| == |blocks| && (|dataBlock| == 0 ==> |blocks| == 0))
    && (last.Some? <==> |all| > 0)
    && (last.Some? ==> last.value == Last(all[|all| - 1]))
  }

  /** `BuilderOk`, sealed; `OpenBuilder` opens it. */
  ghost predicate Building(blocks: seq<seq<TableEntry>>, dataBlock: seq<TableEntry>, index: seq<IndexEntry>,
      pending: bool, last: Option<IKey>) {
    BuildingSeal(|blocks| + 9, blocks, dataBlock, index, pending, last)
  }

  ghost predicate BuildingSeal(k: nat, blocks: seq<seq<TableEntry>>, dataBlock: seq<TableEntry>,
      index: seq<IndexEntry>, pending: bool, last: Option<IKey>) {
    if k == 0 then BuilderOk(blocks, dataBlock, index, pending, last) else BuildingSeal(k - 1, blocks, dataBlock, index, pending, last)
  }

  lemma {:induction false} BuildingSealOpens(k: nat, blocks: seq<seq<TableEntry>>, dataBlock: seq<TableEntry>,
      index: seq<IndexEntry>, pending: bool, last: Option<IKey>)
    ensures BuildingSeal(k, blocks, dataBlock, index, pending, last) <==> BuilderOk(blocks, dataBlock, index, pending, last)
  {
    if k > 0 {
      BuildingSealOpens(k - 1, blocks, dataBlock, index, pending, last);
    }
  }

  lemma {:induction false} OpenBuilder(blocks: seq<seq<TableEntry>>, dataBlock: seq<TableEntry>,
      index: seq<IndexEntry>, pending: bool, last: Option<IKey>)
    ensures Building(blocks, dataBlock, index, pending, last) <==> BuilderOk(blocks, dataBlock, index, pending, last)
  {
    BuildingSealOpens(|blocks| + 9, blocks, dataBlock, index, pending, last);
  }

  lemma {:induction false} BlockFlushed(blocks: seq<seq<TableEntry>>, dataBlock: seq<TableEntry>,
      index: seq<IndexEntry>, pending: bool, last: Option<IKey>)
    requires Building(blocks, dataBlock, index, pending, last) && |dataBlock| > 0
    ensures Building(blocks + [dataBlock], [], index, true, last) && last.Some?
    ensures Concat(blocks + [dataBlock]) == Concat(blocks) + dataBlock
  {
    OpenBuilder(blocks, dataBlock, index, pending, last);
    OpenBuilder(blocks + [dataBlock], [], index, true, last);
    assert (blocks + [dataBlock])[..|blocks|] == blocks;
  }

  lemma {:induction false} LastIndexed(blocks: seq<seq<TableEntry>>, dataBlock: seq<TableEntry>,
      index: seq<IndexEntry>, last: Option<IKey>, entry: IndexEntry)
    requires Building(blocks, dataBlock, index, true, last) && last.Some? && entry.block == |blocks| - 1 && IKeyLeq(last.value, entry.key)
    ensures BlocksOk(blocks) && IndexAgrees(blocks, index + [entry]) && |index| + 1 == |blocks|
  {
    OpenBuilder(blocks, dataBlock, index, true, last);
  }

  lemma {:induction false} NewBlockAgrees(blocks: seq<seq<TableEntry>>, index: seq<IndexEntry>,
      entry: IndexEntry, e: TableEntry)
    requires BlocksOk(blocks) && IndexAgrees(blocks, index) && |blocks| > 0 && |index| == |blocks| - 1
    requires entry.block == |blocks| - 1 && IKeyLess(Last(blocks[|blocks| - 1]), e.key)
    requires IKeyLeq(Last(blocks[|blocks| - 1]), entry.key) && Separates(Last(blocks[|blocks| - 1]), entry.key, e.key)
    ensures BlocksOk(blocks + [[e]]) && IndexAgrees(blocks + [[e]], index + [entry])
  {
  }

  lemma {:induction false} FirstOfBlock(blocks: seq<seq<TableEntry>>, dataBlock: seq<TableEntry>,
      index: seq<IndexEntry>, last: Option<IKey>, entry: IndexEntry, e: TableEntry)
    requires Building(blocks, dataBlock, index, true, last) && last.Some? && IKeyLess(last.value, e.key)
    requires entry.block == |blocks| - 1 && IKeyLeq(last.value, entry.key) && Separates(last.value, entry.key, e.key)
    ensures Building(blocks, dataBlock + [e], index + [entry], false, Some(e.key))
  {
    OpenBuilder(blocks, dataBlock, index, true, last);
    OpenBuilder(blocks, dataBlock + [e], index + [entry], false, Some(e.key));
    assert dataBlock + [e] == [e];
    NewBlockAgrees(blocks, index, entry, e);
  }

  lemma {:induction false} NextOfBlock(blocks: seq<seq<TableEntry>>, dataBlock: seq<TableEntry>,
      index: seq<IndexEntry>, last: Option<IKey>, e: TableEntry)
    requires Building(blocks, dataBlock, index, false, last) && (last.Some? ==> IKeyLess(last.value, e.key))
    ensures Building(blocks, dataBlock + [e], index, false, Some(e.key))
  {
    OpenBuilder(blocks, dataBlock, index, false, last);
    OpenBuilder(blocks, dataBlock + [e], index, false, Some(e.key));
    GrownBlockAgrees(blocks, dataBlock, index, e);
  }

  lemma {:induction false} GrownBlockAgrees(blocks: seq<seq<TableEntry>>, block: seq<TableEntry>,
      index: seq<IndexEntry>, e: TableEntry)
    requires |index| == |blocks| && (|block| == 0 ==> |blocks| == 0)
    requires |block| > 0 ==> BlocksOk(blocks + [block]) && IndexAgrees(blocks + [block], index) && IKeyLess(Last(block), e.key)
    ensures BlocksOk(blocks + [block + [e]]) && IndexAgrees(blocks + [block + [e]], index)
  {
    if |block| > 0 {
      var all, all' := blocks + [block], blocks + [block + [e]];
      assert forall i :: 0 <= i < |blocks| ==> all[i] == all'[i];
      assert all[|blocks|] == block && First(block + [e]) == First(block);
      forall i, j | 0 <= i < j < |block + [e]| ensures IKeyLess((block + [e])[i].key, (block + [e])[j].key) {
        if j == |block| && i < |block| - 1 {
          IKeyTransitive(block[i].key, Last(block), e.key);
        }
      }
    }
  }

  // ----- what the index tells -----

  lemma {:induction false} BlockBounds(block: seq<TableEntry>, k: nat)
    requires |block| > 0 && Ascending(block) && k < |block|
    ensures IKeyLeq(First(block), block[k].key) && IKeyLeq(block[k].key, Last(block))
  {
  }

  lemma {:induction false} LeqLess(a: IKey, b: IKey, c: IKey)
    requires (IKeyLeq(a, b) && IKeyLess(b, c)) || (IKeyLess(a, b) && IKeyLeq(b, c))
    ensures IKeyLess(a, c)
  {
    if IKeyLess(a, b) && IKeyLess(b, c) {
      IKeyTransitive(a, b, c);
    }
  }

  lemma {:induction false} LastBeforeFirst(blocks: seq<seq<TableEntry>>, i: nat, j: nat)
    requires BlocksOk(blocks) && i < j < |blocks|
    ensures IKeyLess(Last(blocks[i]), First(blocks[j]))
    decreases j - i
  {
    if i + 1 < j {
      LastBeforeFirst(blocks, i, j - 1);
      BlockBounds(blocks[j - 1], 0);
      LeqLess(Last(blocks[i]), First(blocks[j - 1]), Last(blocks[j - 1]));
      LeqLess(Last(blocks[i]), Last(blocks[j - 1]), First(blocks[j]));
    }
  }

  /** An index key is at or after everything up to its block and before everything
      beyond, and a shortened one has a user key that nothing beyond has or precedes. */
  lemma {:induction false} IndexDivides(blocks: seq<seq<TableEntry>>, index: seq<IndexEntry>, i: nat, j: nat, k: nat)
    requires BlocksOk(blocks) && IndexAgrees(blocks, index) && i < |index| && j < |blocks| && k < |blocks[j]|
    ensures if j <= i then IKeyLeq(blocks[j][k].key, index[i].key) else IKeyLess(index[i].key, blocks[j][k].key)
    ensures i < j && index[i].key != Last(blocks[i]) ==> BytesLess(index[i].key.user, blocks[j][k].key.user)
  {
    BlockBounds(blocks[j], k);
    if j < i {
      LastBeforeFirst(blocks, j, i);
      BlockBounds(blocks[i], 0);
      LeqLess(blocks[j][k].key, Last(blocks[j]), First(blocks[i]));
      LeqLess(blocks[j][k].key, First(blocks[i]), Last(blocks[i]));
      LeqLess(blocks[j][k].key, Last(blocks[i]), index[i].key);
    } else if j == i {
      if IKeyLess(blocks[j][k].key, Last(blocks[i])) {
        LeqLess(blocks[j][k].key, Last(blocks[i]), index[i].key);
      }
    } else {
      var next := First(blocks[i + 1]);
      if j > i + 1 {
        LastBeforeFirst(blocks, i + 1, j);
        BlockBounds(blocks[i + 1], 0);
        LeqLess(next, Last(blocks[i + 1]), First(blocks[j]));
      }
      LeqUser(next, First(blocks[j]), blocks[j][k].key);
      LeqLess(index[i].key, next, blocks[j][k].key);
      if BytesLess(index[i].key.user, next.user) && next.user != blocks[j][k].key.user {
        LessIsTransitive(index[i].key.user, next.user, blocks[j][k].key.user);
      }
    }
  }

  lemma {:induction false} LeqUser(a: IKey, b: IKey, c: IKey)
    requires IKeyLeq(a, b) && IKeyLeq(b, c)
    ensures IKeyLeq(a, c) && (a.user == c.user || BytesLess(a.user, c.user))
  {
    if IKeyLess(a, b) && IKeyLess(b, c) {
      IKeyTransitive(a, b, c);
    }
  }

  // ----- looking up -----

  /** A search position: everything before is less than `k`, nothing from there on. */
  ghost predicate IsLowerBound(es: seq<TableEntry>, k: IKey, r: nat) {
    && r <= |es| && (forall i :: 0 <= i < r ==> IKeyLess(es[i].key, k))
    && forall i :: r <= i < |es| ==> !IKeyLess(es[i].key, k)
  }

  method SeekBlock(block: seq<TableEntry>, k: IKey) returns (r: nat)
    requires Ascending(block)
    ensures IsLowerBound(block, k, r)
  {
    r := 0;
    while r < |block| && IKeyLess(block[r].key, k)
      invariant r <= |block| && forall i :: 0 <= i < r ==> IKeyLess(block[i].key, k)
    {
      r := r + 1;
    }
    forall i | r <= i < |block| ensures !IKeyLess(block[i].key, k) {
      if r < i && IKeyLess(block[i].key, k) {
        IKeyTransitive(block[r].key, block[i].key, k);
      }
    }
  }

  method SeekIndex(index: seq<IndexEntry>, k: IKey) returns (r: nat)
    ensures r <= |index| && (forall i :: 0 <= i < r ==> IKeyLess(index[i].key, k))
    ensures r < |index| ==> !IKeyLess(index[r].key, k)
  {
    r := 0;
    while r < |index| && IKeyLess(index[r].key, k)
      invariant r <= |index| && forall i :: 0 <= i < r ==> IKeyLess(index[i].key, k)
    {
      r := r + 1;
    }
  }

  /** The newest entry of the user key of `k` at or after `k`, anywhere in the table. */
  ghost predicate Found(blocks: seq<seq<TableEntry>>, k: IKey, e: TableEntry) {
    && (exists b, i :: 0 <= b < |blocks| && 0 <= i < |blocks[b]| && blocks[b][i] == e)
    && e.key.user == k.user && !IKeyLess(e.key, k)
    && forall b, i :: 0 <= b < |blocks| && 0 <= i < |blocks[b]| && !IKeyLess(blocks[b][i].key, k) ==> IKeyLeq(e.key, blocks[b][i].key)
  }

  /** The block the index leads to is the one that holds the entry. */
  lemma {:induction false} FoundInBlock(blocks: seq<seq<TableEntry>>, index: seq<IndexEntry>, k: IKey, at: nat,
      b: nat, i: nat)
    requires BlocksOk(blocks) && IndexAgrees(blocks, index) && |index| == |blocks| && at <= |index|
    requires (forall j :: 0 <= j < at ==> IKeyLess(index[j].key, k)) && (at < |index| ==> !IKeyLess(index[at].key, k))
    requires b < |blocks| && i < |blocks[b]| && Found(blocks, k, blocks[b][i])
    ensures b == at
  {
    var e := blocks[b][i];
    if b < at {
      IndexDivides(blocks, index, b, b, i);
      LeqLess(e.key, index[b].key, k);
    } else if at < b {
      IndexDivides(blocks, index, at, b, i);
      IKeyTotal(index[at].key, k);
      LastIsEarlier(blocks, index, k, at, b, i);
    }
  }

  lemma {:induction false} Asymmetric(a: Bytes, b: Bytes)
    ensures !(BytesLess(a, b) && BytesLess(b, a))
  {
    LessIsIrreflexive(a);
    if BytesLess(a, b) && BytesLess(b, a) {
      LessIsTransitive(a, b, a);
    }
  }

  lemma {:induction false} InBlock(block: seq<TableEntry>, i: nat, j: nat)
    requires Ascending(block) && i < |block| && j < |block|
    ensures i < j ==> IKeyLess(block[i].key, block[j].key)
  {
  }

  /** An entry beyond the block with the sought user key means that the block itself
      has one at or after the sought key. */
  lemma {:induction false} LastIsEarlier(blocks: seq<seq<TableEntry>>, index: seq<IndexEntry>, k: IKey, at: nat,
      b: nat, i: nat)
    requires BlocksOk(blocks) && IndexAgrees(blocks, index) && |index| == |blocks| && at < b < |blocks| && i < |blocks[b]|
    requires !IKeyLess(index[at].key, k) && blocks[b][i].key.user == k.user
    ensures !Found(blocks, k, blocks[b][i])
  {
    IndexDivides(blocks, index, at, b, i);
    IKeyTotal(index[at].key, k);
    Asymmetric(k.user, index[at].key.user);
    LessIsIrreflexive(k.user);
    if index[at].key == Last(blocks[at]) {
      var last := |blocks[at]| - 1;
      assert !IKeyLess(blocks[at][last].key, k);
      IKeyTotal(blocks[b][i].key, blocks[at][last].key);
    }
  }

  lemma {:induction false} BlockAgrees(blocks: seq<seq<TableEntry>>, k: IKey, b: nat, e: TableEntry, i: nat)
    requires BlocksOk(blocks) && b < |blocks| && e in blocks[b] && Found(blocks, k, e)
    requires IsLowerBound(blocks[b], k, i)
    ensures i < |blocks[b]| && blocks[b][i] == e
  {
    var j :| 0 <= j < |blocks[b]| && blocks[b][j] == e;
    assert i <= j;
    IKeyTotal(e.key, blocks[b][i].key);
    InBlock(blocks[b], i, j);
  }

  /** What the block reports is the first in the whole table. */
  lemma {:induction false} ReportedIsFound(blocks: seq<seq<TableEntry>>, index: seq<IndexEntry>, k: IKey,
      at: nat, e: TableEntry, i: nat)
    requires BlocksOk(blocks) && IndexAgrees(blocks, index) && |index| == |blocks| && at < |index| && e.key.user == k.user
    requires forall j :: 0 <= j < at ==> IKeyLess(index[j].key, k)
    requires IsLowerBound(blocks[at], k, i) && i < |blocks[at]| && blocks[at][i] == e
    ensures Found(blocks, k, e)
  {
    forall b, j | 0 <= b < |blocks| && 0 <= j < |blocks[b]| && !IKeyLess(blocks[b][j].key, k) ensures IKeyLeq(e.key, blocks[b][j].key) {
      if b < at {
        IndexDivides(blocks, index, b, b, j);
        LeqLess(blocks[b][j].key, index[b].key, k);
      } else if b == at {
        assert i <= j;
      } else {
        LastBeforeFirst(blocks, at, b);
        BlockBounds(blocks[at], i);
        BlockBounds(blocks[b], j);
        LeqLess(e.key, Last(blocks[at]), First(blocks[b]));
        LeqLess(e.key, First(blocks[b]), blocks[b][j].key);
      }
    }
  }

  // ----- the same table as the store sees it -----

  predicate KnownType(k: IKey) {
    k.tag % 256 <= 1
  }

  function InStore(k: IKey): InternalKey
    requires KnownType(k)
  {
    InternalKey(Rank(k.user), k.tag / 256, if k.tag % 256 == 1 then ValueType.Value else Deletion)
  }

  function EntriesInStore(block: seq<TableEntry>, value: Bytes -> string): (r: seq<Entry>)
    requires forall i :: 0 <= i < |block| ==> KnownType(block[i].key)
    ensures |r| == |block| && forall i :: 0 <= i < |r| ==> r[i] == Entry(InStore(block[i].key), value(block[i].value))
  {
    seq(|block|, i requires 0 <= i < |block| => Entry(InStore(block[i].key), value(block[i].value)))
  }

  lemma {:induction false} OrderInStore(a: IKey, b: IKey)
    requires KnownType(a) && KnownType(b)
    ensures Less(InStore(a), InStore(b)) <==> IKeyLess(a, b)
  {
    RankOrders(a.user, b.user);
  }

  /** A finished table is a sound two-level structure, so the two-level iterator over it
      walks exactly its entries. */
  lemma {:induction false} TableIsTwoLevel(blocks: seq<seq<TableEntry>>, index: seq<IndexEntry>,
      value: Bytes -> string, keys: seq<InternalKey>, stored: seq<seq<Entry>>)
    requires BlocksOk(blocks) && IndexAgrees(blocks, index) && |index| == |blocks| == |keys| == |stored|
    requires forall b, i :: 0 <= b < |blocks| && 0 <= i < |blocks[b]| ==> KnownType(blocks[b][i].key)
    requires forall b :: 0 <= b < |index| ==> KnownType(index[b].key) && keys[b] == InStore(index[b].key)
    requires forall b :: 0 <= b < |blocks| ==> stored[b] == EntriesInStore(blocks[b], value)
    ensures TwoLevel.IndexOk(keys, stored) && forall b :: 0 <= b < |stored| ==> Sorted(stored[b])
  {
    forall i, j, e: Entry | 0 <= i < j < |stored| && e in stored[j] ensures Less(keys[i], e.key) {
      var k :| 0 <= k < |stored[j]| && stored[j][k] == e;
      IndexDivides(blocks, index, i, j, k);
      OrderInStore(index[i].key, blocks[j][k].key);
    }
    forall i, e: Entry | 0 <= i < |stored| && e in stored[i] ensures LessEq(e.key, keys[i]) {
      var k :| 0 <= k < |stored[i]| && stored[i][k] == e;
      IndexDivides(blocks, index, i, i, k);
      IKeyTotal(blocks[i][k].key, index[i].key);
      OrderInStore(index[i].key, blocks[i][k].key);
    }
    forall i, j | 0 <= i < j < |keys| ensures Less(keys[i], keys[j]) {
      IndexDivides(blocks, index, i, j, 0);
      IndexDivides(blocks, index, j, j, 0);
      LeqLess(index[i].key, blocks[j][0].key, index[j].key);
      OrderInStore(index[i].key, index[j].key);
    }
    forall b | 0 <= b < |stored| ensures Sorted(stored[b]) {
      forall i, j | 0 <= i < j < |stored[b]| ensures Less(stored[b][i].key, stored[b][j].key) {
        OrderInStore(blocks[b][i].key, blocks[b][j].key);
      }
    }
  }
}
