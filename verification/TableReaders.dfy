// Looking a key up in a finished table (table/table.cc).
module TableReaders {
  import opened Keys
  import opened Seqs
  import opened Coding
  import opened KeyOrder
  import opened FilterPolicies
  import opened Tables
  import opened TableBuilders
  import FilterBlocks

  /** Table::InternalGet: at most one block is searched, and what it reports under the
      sought user key is exactly what a search of the whole table would find. */
  method InternalGet(t: Table, k: IKey, policy: Option<Policy>) returns (r: Option<TableEntry>)
    requires TableOk(t) && FilterSound(t, policy)
    ensures forall e :: (r == Some(e) && e.key.user == k.user) <==> Found(t.blocks, k, e)
  {
    var at := SeekIndex(t.index, k);
    r := None;
    ghost var searched, pos := false, 0;
    if at < |t.index| {
      var b := t.index[at].block;
      var mayMatch := true;
      if t.filter.Some? {
        mayMatch := FilterBlocks.KeyMayMatch(t.filter.value, t.offsets[b], Stored(k), PolicyMatch(policy.value));
      }
      if mayMatch {
        var i := SeekBlock(t.blocks[b], k);
        searched, pos := true, i;
        if i < |t.blocks[b]| {
          r := Some(t.blocks[b][i]);
        }
      }
    }
    ReportIsFound(t, k, policy, at, searched, pos, r);
  }

  /** The index leads to `at`. */
  ghost predicate LeadsTo(index: seq<IndexEntry>, k: IKey, at: nat) {
    && at <= |index| && (forall j :: 0 <= j < at ==> IKeyLess(index[j].key, k))
    && (at < |index| ==> !IKeyLess(index[at].key, k))
  }

  /** What is reported: the entry at the lower bound in the block that the index leads to,
      unless the filter rules the key out there. */
  lemma {:induction false} ReportIsFound(t: Table, k: IKey, policy: Option<Policy>, at: nat, searched: bool, pos: nat, r: Option<TableEntry>)
    requires TableOk(t) && LeadsTo(t.index, k, at) && (t.filter.Some? ==> policy.Some? && FilterSound(t, policy))
    requires if searched then
               && at < |t.index| && IsLowerBound(t.blocks[at], k, pos)
               && r == if pos < |t.blocks[at]| then Some(t.blocks[at][pos]) else None
             else
               && r == None
               && (at < |t.index| ==>
                     t.filter.Some? && !FilterBlocks.Answers(t.filter.value, t.offsets[at], Stored(k), PolicyMatch(policy.value)))
    ensures forall e :: (r == Some(e) && e.key.user == k.user) <==> Found(t.blocks, k, e)
  {
    forall e ensures (r == Some(e) && e.key.user == k.user) <==> Found(t.blocks, k, e) {
      if Found(t.blocks, k, e) {
        var b, i :| 0 <= b < |t.blocks| && 0 <= i < |t.blocks[b]| && t.blocks[b][i] == e;
        FoundInBlock(t.blocks, t.index, k, at, b, i);
        assert Asks(t.blocks, b, i, k);
        if searched {
          BlockAgrees(t.blocks, k, b, e, pos);
        }
      }
      if r == Some(e) && e.key.user == k.user {
        ReportedIsFound(t.blocks, t.index, k, at, e, pos);
      }
    }
  }

  /** `e` is the first entry at or after `k`, and has its user key. */
  ghost predicate FirstFrom(es: seq<TableEntry>, k: IKey, e: TableEntry) {
    && e in es && e.key.user == k.user && !IKeyLess(e.key, k)
    && forall i :: 0 <= i < |es| && !IKeyLess(es[i].key, k) ==> IKeyLeq(e.key, es[i].key)
  }

  lemma {:induction false} InBlocks<T>(blocks: seq<seq<T>>, e: T)
    ensures e in Concat(blocks) <==> exists b, i :: 0 <= b < |blocks| && 0 <= i < |blocks[b]| && blocks[b][i] == e
  {
    if |blocks| > 0 {
      var n := |blocks| - 1;
      InBlocks(blocks[..n], e);
      if e in Concat(blocks[..n]) {
        var b, i :| 0 <= b < n && 0 <= i < |blocks[..n][b]| && blocks[..n][b][i] == e;
        assert blocks[b][i] == e;
      }
      if e in blocks[n] {
        var i :| 0 <= i < |blocks[n]| && blocks[n][i] == e;
      }
      if b, i :| 0 <= b < |blocks| && 0 <= i < |blocks[b]| && blocks[b][i] == e {
        assert b < n ==> blocks[..n][b][i] == e;
      }
    }
  }

  /** Searching the blocks is searching their entries in one go. */
  lemma {:induction false} FoundIsFirst(blocks: seq<seq<TableEntry>>, k: IKey, e: TableEntry)
    ensures Found(blocks, k, e) <==> FirstFrom(Concat(blocks), k, e)
  {
    var es := Concat(blocks);
    InBlocks(blocks, e);
    if Found(blocks, k, e) {
      forall i | 0 <= i < |es| && !IKeyLess(es[i].key, k) ensures IKeyLeq(e.key, es[i].key) {
        InBlocks(blocks, es[i]);
        var b, j :| 0 <= b < |blocks| && 0 <= j < |blocks[b]| && blocks[b][j] == es[i];
      }
    }
    if FirstFrom(es, k, e) {
      forall b, j | 0 <= b < |blocks| && 0 <= j < |blocks[b]| && !IKeyLess(blocks[b][j].key, k) ensures IKeyLeq(e.key, blocks[b][j].key) {
        InBlocks(blocks, blocks[b][j]);
        var i :| 0 <= i < |es| && es[i] == blocks[b][j];
      }
    }
  }

  /** A table written by BuildTable and read by InternalGet, with any filter policy or
      none: the look-up gives exactly what a search of the entries would give. */
  method BuildThenGet(es: seq<TableEntry>, policy: Option<Policy>, full: nat -> bool, size: nat -> nat, k: IKey)
    returns (table: Table, r: Option<TableEntry>)
    requires Ascending(es)
    ensures FilterFits(table) ==> forall e :: (r == Some(e) && e.key.user == k.user) <==> FirstFrom(es, k, e)
  {
    table := BuildTable(es, policy, full, size);
    r := None;
    if table.filter.None? || |table.filter.value| < TWO_32 {
      r := InternalGet(table, k, policy);
      forall e ensures Found(table.blocks, k, e) <==> FirstFrom(es, k, e) {
        FoundIsFirst(table.blocks, k, e);
      }
    }
  }
}
