// Table files as bytes (table/table_builder.cc, table/table.cc): what a builder writes can be
// opened, and a look-up in the bytes gives what a search of the entries would give.
module TableFiles {
  import opened Keys
  import opened Seqs
  import opened Coding
  import opened KeyOrder
  import opened Blocks
  import BlockReader
  import FilterBlocks
  import opened FilterPolicies
  import opened Tables
  import opened TableFormats
  import opened TableBuilders
  import opened TableReaders

  // ----- entries as a block stores them -----

  /** The internal key in a stored key, which has at least the eight bytes of the tag. */
  function IKeyOf(bs: Bytes): IKey {
    if |bs| < 8 then IKey([], 0) else IKey(bs[..|bs| - 8], DecodeFixed(bs[|bs| - 8..]))
  }

  /** InternalKeyComparator on stored keys. */
  predicate StoredLess(a: Bytes, b: Bytes) {
    |a| >= 8 && |b| >= 8 && IKeyLess(IKeyOf(a), IKeyOf(b))
  }

  predicate KeyFits(k: IKey) {
    |k.user| + 8 < TWO_32 && k.tag < TWO_64
  }

  predicate EntryFits(e: TableEntry) {
    KeyFits(e.key) && |e.value| < TWO_32
  }

  lemma {:induction false} KeyReadsBack(k: IKey)
    requires k.tag < TWO_64
    ensures |Stored(k)| == |k.user| + 8 && IKeyOf(Stored(k)) == k
  {
    Fixed64RoundTrip(k.tag);
    assert Stored(k)[..|k.user|] == k.user && Stored(k)[|k.user|..] == Fixed(8, k.tag);
  }

  function PairOf(e: TableEntry): Pair {
    Pair(Stored(e.key), e.value)
  }

  function PairsOf(es: seq<TableEntry>): (r: seq<Pair>)
    ensures |r| == |es| && forall i :: 0 <= i < |es| ==> r[i] == PairOf(es[i])
  {
    seq(|es|, i requires 0 <= i < |es| => PairOf(es[i]))
  }

  ghost predicate AllFit(es: seq<TableEntry>) {
    forall i :: 0 <= i < |es| ==> EntryFits(es[i])
  }

  lemma {:induction false} PairsFit(es: seq<TableEntry>)
    requires AllFit(es)
    ensures forall i :: 0 <= i < |es| ==> BlockReader.PairFits(PairsOf(es)[i])
  {
    forall i | 0 <= i < |es| ensures BlockReader.PairFits(PairsOf(es)[i]) {
      KeyReadsBack(es[i].key);
    }
  }

  lemma {:induction false} StoredLessIs(a: IKey, b: IKey)
    requires a.tag < TWO_64 && b.tag < TWO_64
    ensures StoredLess(Stored(a), Stored(b)) <==> IKeyLess(a, b)
  {
    KeyReadsBack(a);
    KeyReadsBack(b);
  }

  /** Stored keys in the order of their internal keys. */
  ghost predicate InOrder(keys: seq<IKey>, pairs: seq<Pair>) {
    && |keys| == |pairs| && (forall i :: 0 <= i < |keys| ==> keys[i].tag < TWO_64 && pairs[i].key == Stored(keys[i]))
    && forall i, j :: 0 <= i < j < |keys| ==> IKeyLess(keys[i], keys[j])
  }

  lemma {:induction false} InOrderAscends(keys: seq<IKey>, pairs: seq<Pair>)
    requires InOrder(keys, pairs)
    ensures BlockReader.Ascending(StoredLess, pairs)
  {
    forall i, j | 0 <= i < j < |pairs| ensures StoredLess(pairs[i].key, pairs[j].key) {
      StoredLessIs(keys[i], keys[j]);
    }
    forall a, b, c | StoredLess(a, b) && StoredLess(b, c) ensures StoredLess(a, c) {
      IKeyTransitive(IKeyOf(a), IKeyOf(b), IKeyOf(c));
    }
  }

  /** The lower bound among the stored keys is the one among the internal keys. */
  lemma {:induction false} StoredBound(keys: seq<IKey>, pairs: seq<Pair>, k: IKey, at: nat)
    requires InOrder(keys, pairs) && k.tag < TWO_64 && BlockReader.IsLowerBound(StoredLess, pairs, Stored(k), at)
    ensures at <= |keys| && (forall i :: 0 <= i < at ==> IKeyLess(keys[i], k))
    ensures forall i :: at <= i < |keys| ==> !IKeyLess(keys[i], k)
  {
    forall i | 0 <= i < |keys| ensures IKeyLess(keys[i], k) <==> StoredLess(pairs[i].key, Stored(k)) {
      StoredLessIs(keys[i], k);
    }
  }

  function KeysOf(es: seq<TableEntry>): (r: seq<IKey>)
    ensures |r| == |es| && forall i :: 0 <= i < |es| ==> r[i] == es[i].key
  {
    seq(|es|, i requires 0 <= i < |es| => es[i].key)
  }

  // ----- the index as a block stores it -----

  function IndexKeys(index: seq<IndexEntry>): (r: seq<IKey>)
    ensures |r| == |index| && forall i :: 0 <= i < |index| ==> r[i] == index[i].key
  {
    seq(|index|, i requires 0 <= i < |index| => index[i].key)
  }

  function IndexPair(e: IndexEntry, h: Handle): Pair {
    Pair(Stored(e.key), HandleBytes(h))
  }

  function IndexPairs(index: seq<IndexEntry>, handles: seq<Handle>): (r: seq<Pair>)
    requires |index| <= |handles|
    ensures |r| == |index| && forall i :: 0 <= i < |index| ==> r[i] == IndexPair(index[i], handles[i])
  {
    seq(|index|, i requires 0 <= i < |index| => IndexPair(index[i], handles[i]))
  }

  ghost predicate IndexFits(index: seq<IndexEntry>) {
    forall i :: 0 <= i < |index| ==> KeyFits(index[i].key)
  }

  ghost predicate HandlesFit(handles: seq<Handle>) {
    forall i :: 0 <= i < |handles| ==> HandleFits(handles[i])
  }

  lemma {:induction false} IndexPairsFit(index: seq<IndexEntry>, handles: seq<Handle>)
    requires |index| <= |handles| && IndexFits(index) && HandlesFit(handles)
    ensures forall i :: 0 <= i < |index| ==> BlockReader.PairFits(IndexPairs(index, handles)[i])
  {
    forall i | 0 <= i < |index| ensures BlockReader.PairFits(IndexPairs(index, handles)[i]) {
      KeyReadsBack(index[i].key);
      HandleRoundTrip(handles[i], []);
    }
  }

  lemma {:induction false} IndexInOrder(blocks: seq<seq<TableEntry>>, index: seq<IndexEntry>, handles: seq<Handle>)
    requires BlocksOk(blocks) && IndexAgrees(blocks, index) && |index| == |blocks| == |handles| && IndexFits(index)
    ensures InOrder(IndexKeys(index), IndexPairs(index, handles))
  {
    forall i, j | 0 <= i < j < |index| ensures IKeyLess(index[i].key, index[j].key) {
      IndexDivides(blocks, index, i, j, 0);
      IndexDivides(blocks, index, j, j, 0);
      LeqLess(index[i].key, blocks[j][0].key, index[j].key);
    }
  }

  // ----- blocks in the file -----

  datatype Options = Options(crc: Crc, codec: Codec, blockSize: nat, interval: nat)

  ghost predicate ReadsTo(o: Options, file: Bytes, h: Handle, contents: Bytes) {
    forall verify :: ReadBlock(o.crc, o.codec, verify, file, h) == Some(contents)
  }

  /** With or without verified checksums, the block reads as one of these pairs. */
  ghost predicate BlockAt(o: Options, file: Bytes, h: Handle, es: seq<Pair>) {
    exists contents :: ReadsTo(o, file, h, contents) && BlockReader.Holds(contents, es)
  }

  ghost predicate BlockOfSize(o: Options, file: Bytes, h: Handle, size: nat) {
    exists contents :: ReadsTo(o, file, h, contents) && |contents| == size
  }

  lemma {:induction false} ReadsOn(o: Options, file: Bytes, more: Bytes, h: Handle, contents: Bytes)
    requires ReadsTo(o, file, h, contents)
    ensures ReadsTo(o, file + more, h, contents)
  {
    forall verify ensures ReadBlock(o.crc, o.codec, verify, file + more, h) == Some(contents) {
      BlockStays(o.crc, o.codec, verify, file, more, h);
    }
  }

  lemma {:induction false} SizeStays(o: Options, file: Bytes, more: Bytes, h: Handle, size: nat)
    requires BlockOfSize(o, file, h, size)
    ensures BlockOfSize(o, file + more, h, size)
  {
    var contents :| ReadsTo(o, file, h, contents) && |contents| == size;
    ReadsOn(o, file, more, h, contents);
  }

  lemma {:induction false} BlockStaysAt(o: Options, file: Bytes, more: Bytes, h: Handle, es: seq<Pair>)
    requires BlockAt(o, file, h, es)
    ensures BlockAt(o, file + more, h, es)
  {
    var contents :| ReadsTo(o, file, h, contents) && BlockReader.Holds(contents, es);
    ReadsOn(o, file, more, h, contents);
  }

  /** The blocks are in the file where the handles say. */
  ghost predicate Laid(o: Options, file: Bytes, blocks: seq<seq<TableEntry>>, offsets: seq<nat>, handles: seq<Handle>) {
    && |handles| == |blocks| == |offsets|
    && forall b :: 0 <= b < |handles| ==> handles[b].offset == offsets[b] && BlockAt(o, file, handles[b], PairsOf(blocks[b]))
  }

  lemma {:induction false} LaidStays(o: Options, file: Bytes, more: Bytes, blocks: seq<seq<TableEntry>>, offsets: seq<nat>, handles: seq<Handle>)
    requires Laid(o, file, blocks, offsets, handles)
    ensures Laid(o, file + more, blocks, offsets, handles)
  {
    forall b | 0 <= b < |handles| ensures BlockAt(o, file + more, handles[b], PairsOf(blocks[b])) {
      BlockStaysAt(o, file, more, handles[b], PairsOf(blocks[b]));
    }
  }

  lemma {:induction false} OneMoreLaid(o: Options, file: Bytes, more: Bytes, blocks: seq<seq<TableEntry>>, offsets: seq<nat>,
      handles: seq<Handle>, block: seq<TableEntry>, h: Handle)
    requires Laid(o, file, blocks, offsets, handles) && BlockAt(o, file + more, h, PairsOf(block))
    ensures Laid(o, file + more, blocks + [block], offsets + [h.offset], handles + [h])
  {
    LaidStays(o, file, more, blocks, offsets, handles);
  }

  lemma {:induction false} WrittenReads(o: Options, file: Bytes, raw: Bytes)
    requires CodecOk(o.codec)
    ensures var (kind, contents) := Choose(o.codec, raw);
            ReadsTo(o, file + RawBlock(o.crc, kind, contents), Handle(|file|, |contents|), raw)
  {
    var (kind, contents) := Choose(o.codec, raw);
    forall verify
      ensures ReadBlock(o.crc, o.codec, verify, file + RawBlock(o.crc, kind, contents), Handle(|file|, |contents|)) == Some(raw)
    {
      BlockReadsBack(o.crc, o.codec, verify, file, raw, []);
      assert file + RawBlock(o.crc, kind, contents) + [] == file + RawBlock(o.crc, kind, contents);
    }
  }

  lemma {:induction false} FilterReads(o: Options, file: Bytes, filter: Bytes)
    ensures ReadsTo(o, file + RawBlock(o.crc, NO_COMPRESSION, filter), Handle(|file|, |filter|), filter)
  {
    forall verify
      ensures ReadBlock(o.crc, o.codec, verify, file + RawBlock(o.crc, NO_COMPRESSION, filter), Handle(|file|, |filter|)) == Some(filter)
    {
      PlainBlockReadsBack(o.crc, o.codec, verify, file, filter, []);
      assert file + RawBlock(o.crc, NO_COMPRESSION, filter) + [] == file + RawBlock(o.crc, NO_COMPRESSION, filter);
    }
  }

  /** A handle whose block is in the file has numbers below the file's size. */
  lemma {:induction false} HandleInFile(o: Options, file: Bytes, h: Handle, contents: Bytes)
    requires ReadsTo(o, file, h, contents) && |file| < TWO_64
    ensures HandleFits(h)
  {
    assert ReadBlock(o.crc, o.codec, false, file, h) == Some(contents);
  }

  lemma {:induction false} LaidHandlesFit(o: Options, file: Bytes, blocks: seq<seq<TableEntry>>, offsets: seq<nat>, handles: seq<Handle>)
    requires Laid(o, file, blocks, offsets, handles) && |file| < TWO_64
    ensures HandlesFit(handles)
  {
    forall b | 0 <= b < |handles| ensures HandleFits(handles[b]) {
      var contents :| ReadsTo(o, file, handles[b], contents) && BlockReader.Holds(contents, PairsOf(blocks[b]));
      HandleInFile(o, file, handles[b], contents);
    }
  }

  // ----- a finished file -----

  /** Where things are in a file. */
  datatype Layout = Layout(handles: seq<Handle>, meta: Handle, index: Handle, filter: Handle)

  function FilterKey(name: Bytes): Bytes {
    FILTER_PREFIX + name
  }

  /** "filter." */
  const FILTER_PREFIX: Bytes := [102, 105, 108, 116, 101, 114, 46]

  /** The metaindex: where the filter is, if there is one. */
  function MetaPairs(t: Table, name: Bytes, filter: Handle): seq<Pair> {
    if t.filter.Some? then [Pair(FilterKey(name), HandleBytes(filter))] else []
  }

  ghost predicate FileHolds(o: Options, name: Bytes, file: Bytes, t: Table, l: Layout) {
    && |file| >= FOOTER_SIZE && DecodeFooter(file[|file| - FOOTER_SIZE..]) == Some((l.meta, l.index))
    && Laid(o, file, t.blocks, t.offsets, l.handles) && HandlesFit(l.handles) && |t.index| == |l.handles|
    && BlockAt(o, file, l.index, IndexPairs(t.index, l.handles))
    && BlockAt(o, file, l.meta, MetaPairs(t, name, l.filter))
    && (t.filter.Some? ==> HandleFits(l.filter) && ReadsTo(o, file, l.filter, t.filter.value) && |t.filter.value| <= |file|)
  }

  // ----- reading -----

  /** Table::Open: the footer, the index block, and the filter if the file has one of that
      name. An opened table keeps the last two. */
  method OpenTable(o: Options, verify: bool, file: Bytes, reader: Option<Bytes>, ghost name: Bytes, ghost t: Table, ghost l: Layout)
    returns (index: Bytes, filter: Option<Bytes>)
    requires FileHolds(o, name, file, t, l)
    ensures BlockReader.Holds(index, IndexPairs(t.index, l.handles))
    ensures filter == if reader == Some(name) then t.filter else None
  {
    var footer := DecodeFooter(file[|file| - FOOTER_SIZE..]);
    var (meta, indexHandle) := footer.value;
    index := Contents(o, verify, file, indexHandle, IndexPairs(t.index, l.handles));
    filter := None;
    if reader.Some? {
      filter := ReadMeta(o, verify, file, meta, reader.value, name, t, l);
    }
  }

  /** ReadBlock of a block that is there. */
  method Contents(o: Options, verify: bool, file: Bytes, h: Handle, ghost es: seq<Pair>) returns (contents: Bytes)
    requires BlockAt(o, file, h, es)
    ensures BlockReader.Holds(contents, es)
  {
    ghost var raw :| ReadsTo(o, file, h, raw) && BlockReader.Holds(raw, es);
    assert ReadBlock(o.crc, o.codec, verify, file, h) == Some(raw);
    contents := ReadBlock(o.crc, o.codec, verify, file, h).value;
  }

  /** ReadMeta and ReadFilter. */
  method ReadMeta(o: Options, verify: bool, file: Bytes, meta: Handle, reader: Bytes, ghost name: Bytes, ghost t: Table, ghost l: Layout)
    returns (filter: Option<Bytes>)
    requires FileHolds(o, name, file, t, l) && meta == l.meta
    ensures filter == if reader == name then t.filter else None
  {
    ghost var es := MetaPairs(t, name, l.filter);
    var contents := Contents(o, verify, file, meta, es);
    OneAscends(es);
    var found := BlockReader.SeekIn(BytesLess, contents, FilterKey(reader), es);
    OneFound(es, FilterKey(reader), found);
    filter := None;
    if found.Some? && found.value.key == FilterKey(reader) {
      SameName(reader, name);
      HandleRoundTrip(l.filter, []);
      assert HandleBytes(l.filter) + [] == HandleBytes(l.filter);
      var h := DecodeHandle(found.value.value).value.0;
      assert ReadBlock(o.crc, o.codec, verify, file, h) == Some(t.filter.value);
      filter := ReadBlock(o.crc, o.codec, verify, file, h);
    }
  }

  lemma {:induction false} SameName(a: Bytes, b: Bytes)
    ensures FilterKey(a) == FilterKey(b) <==> a == b
  {
    assert FilterKey(a)[|FILTER_PREFIX|..] == a && FilterKey(b)[|FILTER_PREFIX|..] == b;
  }

  lemma {:induction false} OneAscends(es: seq<Pair>)
    requires |es| <= 1
    ensures BlockReader.Ascending(BytesLess, es)
  {
    forall a, b, c | BytesLess(a, b) && BytesLess(b, c) ensures BytesLess(a, c) {
      LessIsTransitive(a, b, c);
    }
  }

  /** In a block of one pair, a key is found just if it is that pair's. */
  lemma {:induction false} OneFound(es: seq<Pair>, key: Bytes, found: Option<Pair>)
    requires |es| <= 1
    requires exists at: nat :: BlockReader.IsLowerBound(BytesLess, es, key, at) && found == if at < |es| then Some(es[at]) else None
    ensures found.Some? && found.value.key == key ==> |es| == 1 && found.value == es[0]
    ensures |es| == 1 && es[0].key == key ==> found == Some(es[0])
  {
    LessIsIrreflexive(key);
  }

  /** Table::InternalGet on the bytes: what is reported under the sought user key is exactly
      what a search of the whole table would find. */
  method GetInFile(o: Options, verify: bool, file: Bytes, index: Bytes, filter: Option<Bytes>, policy: Option<Policy>, k: IKey,
      ghost name: Bytes, ghost t: Table, ghost l: Layout) returns (r: Option<TableEntry>)
    requires FileHolds(o, name, file, t, l) && TableOk(t) && TableFits(t) && k.tag < TWO_64
    requires BlockReader.Holds(index, IndexPairs(t.index, l.handles))
    requires filter.Some? ==> filter == t.filter && policy.Some? && FilterSound(t, policy)
    ensures forall e :: (r == Some(e) && e.key.user == k.user) <==> Found(t.blocks, k, e)
  {
    IndexInOrder(t.blocks, t.index, l.handles);
    ghost var at;
    var handle;
    handle, at := SeekHandle(index, k, t.index, l.handles);
    r := None;
    ghost var searched, pos := false, 0;
    if handle.Some? {
      var mayMatch := true;
      if filter.Some? {
        mayMatch := FilterBlocks.KeyMayMatch(filter.value, handle.value.offset, Stored(k), PolicyMatch(policy.value));
      }
      if mayMatch {
        searched := true;
        r, pos := SeekInBlock(o, verify, file, handle.value, k, t.blocks[at]);
      }
    }
    ReportIsFound(if filter.Some? then t else t.(filter := None), k, policy, at, searched, pos, r);
  }

  ghost predicate TableFits(t: Table) {
    IndexFits(t.index) && forall b :: 0 <= b < |t.blocks| ==> AllFit(t.blocks[b])
  }

  /** The first of the stored keys at or after `k`. */
  method SeekStored(contents: Bytes, k: IKey, ghost keys: seq<IKey>, ghost pairs: seq<Pair>)
    returns (found: Option<Pair>, ghost at: nat)
    requires BlockReader.Holds(contents, pairs) && InOrder(keys, pairs) && k.tag < TWO_64
    ensures at <= |keys| && found == if at < |keys| then Some(pairs[at]) else None
    ensures (forall i :: 0 <= i < at ==> IKeyLess(keys[i], k)) && forall i :: at <= i < |keys| ==> !IKeyLess(keys[i], k)
  {
    InOrderAscends(keys, pairs);
    found := BlockReader.SeekIn(StoredLess, contents, Stored(k), pairs);
    at :| BlockReader.IsLowerBound(StoredLess, pairs, Stored(k), at) && found == if at < |pairs| then Some(pairs[at]) else None;
    StoredBound(keys, pairs, k, at);
  }

  /** The handle of the block that the index leads to. */
  method SeekHandle(contents: Bytes, k: IKey, ghost index: seq<IndexEntry>, ghost handles: seq<Handle>)
    returns (h: Option<Handle>, ghost at: nat)
    requires |index| == |handles| && HandlesFit(handles) && InOrder(IndexKeys(index), IndexPairs(index, handles)) && k.tag < TWO_64
    requires BlockReader.Holds(contents, IndexPairs(index, handles))
    ensures LeadsTo(index, k, at) && h == if at < |index| then Some(handles[at]) else None
  {
    var found;
    found, at := SeekStored(contents, k, IndexKeys(index), IndexPairs(index, handles));
    h := None;
    if found.Some? {
      HandleRoundTrip(handles[at], []);
      assert HandleBytes(handles[at]) + [] == HandleBytes(handles[at]);
      h := Some(DecodeHandle(found.value.value).value.0);
    }
  }

  /** The first entry of the block at or after the key. */
  method SeekInBlock(o: Options, verify: bool, file: Bytes, h: Handle, k: IKey, ghost block: seq<TableEntry>)
    returns (r: Option<TableEntry>, ghost pos: nat)
    requires BlockAt(o, file, h, PairsOf(block)) && Tables.Ascending(block) && AllFit(block) && k.tag < TWO_64
    ensures IsLowerBound(block, k, pos) && r == if pos < |block| then Some(block[pos]) else None
  {
    var contents := Contents(o, verify, file, h, PairsOf(block));
    var found;
    found, pos := SeekStored(contents, k, KeysOf(block), PairsOf(block));
    r := None;
    if found.Some? {
      KeyReadsBack(block[pos].key);
      r := Some(TableEntry(IKeyOf(found.value.key), found.value.value));
    }
  }

  // ----- writing -----

  /** The sizes of an entry and of a full block stay below 32 bits. */
  predicate Small(o: Options, e: TableEntry) {
    o.blockSize + |e.key.user| + |e.value| + 35 < TWO_32 && e.key.tag < TWO_64
  }

  lemma {:induction false} OneMorePair(o: Options, es: seq<TableEntry>, e: TableEntry)
    requires AllFit(es) && Small(o, e)
    ensures AllFit(es + [e]) && PairsOf(es + [e]) == PairsOf(es) + [Pair(Stored(e.key), e.value)]
    ensures KeyFits(e.key) && |Stored(e.key)| + |e.value| + 19 + o.blockSize + 8 < TWO_32
  {
    KeyReadsBack(e.key);
  }

  /** What the file and the index block hold so far. Sealed; `OpenFiled` opens it. */
  ghost predicate Filed(o: Options, file: Bytes, handles: seq<Handle>, pending: bool, pendingHandle: Handle, pairs: seq<Pair>,
      blocks: seq<seq<TableEntry>>, offsets: seq<nat>, index: seq<IndexEntry>) {
    FiledSeal(|file| + 9, o, file, handles, pending, pendingHandle, pairs, blocks, offsets, index)
  }

  ghost predicate FiledSeal(n: nat, o: Options, file: Bytes, handles: seq<Handle>, pending: bool, pendingHandle: Handle, pairs: seq<Pair>,
      blocks: seq<seq<TableEntry>>, offsets: seq<nat>, index: seq<IndexEntry>) {
    if n == 0 then FiledBody(o, file, handles, pending, pendingHandle, pairs, blocks, offsets, index)
    else FiledSeal(n - 1, o, file, handles, pending, pendingHandle, pairs, blocks, offsets, index)
  }

  ghost predicate FiledBody(o: Options, file: Bytes, handles: seq<Handle>, pending: bool, pendingHandle: Handle, pairs: seq<Pair>,
      blocks: seq<seq<TableEntry>>, offsets: seq<nat>, index: seq<IndexEntry>) {
    && Laid(o, file, blocks, offsets, handles) && |index| <= |handles| && pairs == IndexPairs(index, handles)
    && (if pending then |handles| > 0 && pendingHandle == handles[|handles| - 1] && |index| + 1 == |handles| else |index| == |handles|)
    && IndexFits(index) && forall b :: 0 <= b < |blocks| ==> AllFit(blocks[b])
  }

  lemma {:induction false} FiledSealOpens(n: nat, o: Options, file: Bytes, handles: seq<Handle>, pending: bool, pendingHandle: Handle,
      pairs: seq<Pair>, blocks: seq<seq<TableEntry>>, offsets: seq<nat>, index: seq<IndexEntry>)
    ensures FiledSeal(n, o, file, handles, pending, pendingHandle, pairs, blocks, offsets, index) ==
            FiledBody(o, file, handles, pending, pendingHandle, pairs, blocks, offsets, index)
  {
    if n > 0 {
      FiledSealOpens(n - 1, o, file, handles, pending, pendingHandle, pairs, blocks, offsets, index);
      assert FiledSeal(n, o, file, handles, pending, pendingHandle, pairs, blocks, offsets, index)
          == FiledSeal(n - 1, o, file, handles, pending, pendingHandle, pairs, blocks, offsets, index);
    }
  }

  lemma {:induction false} OpenFiled(o: Options, file: Bytes, handles: seq<Handle>, pending: bool, pendingHandle: Handle,
      pairs: seq<Pair>, blocks: seq<seq<TableEntry>>, offsets: seq<nat>, index: seq<IndexEntry>)
    ensures Filed(o, file, handles, pending, pendingHandle, pairs, blocks, offsets, index) <==>
            FiledBody(o, file, handles, pending, pendingHandle, pairs, blocks, offsets, index)
  {
    FiledSealOpens(|file| + 9, o, file, handles, pending, pendingHandle, pairs, blocks, offsets, index);
  }

  lemma {:induction false} EmptyFiled(o: Options)
    ensures Filed(o, [], [], false, Handle(0, 0), [], [], [], [])
  {
    OpenFiled(o, [], [], false, Handle(0, 0), [], [], [], []);
    assert IndexPairs([], []) == [];
  }

  lemma {:induction false} BlockFiled(o: Options, file: Bytes, more: Bytes, handles: seq<Handle>, pending: Handle, h: Handle, pairs: seq<Pair>,
      blocks: seq<seq<TableEntry>>, offsets: seq<nat>, index: seq<IndexEntry>, block: seq<TableEntry>)
    requires Filed(o, file, handles, false, pending, pairs, blocks, offsets, index)
    requires AllFit(block) && BlockAt(o, file + more, h, PairsOf(block))
    ensures Filed(o, file + more, handles + [h], true, h, pairs, blocks + [block], offsets + [h.offset], index)
  {
    OpenFiled(o, file, handles, false, pending, pairs, blocks, offsets, index);
    OneMoreLaid(o, file, more, blocks, offsets, handles, block, h);
    assert IndexPairs(index, handles + [h]) == IndexPairs(index, handles);
    OpenFiled(o, file + more, handles + [h], true, h, pairs, blocks + [block], offsets + [h.offset], index);
  }

  lemma {:induction false} IndexFiled(o: Options, file: Bytes, handles: seq<Handle>, h: Handle, pairs: seq<Pair>,
      blocks: seq<seq<TableEntry>>, offsets: seq<nat>, index: seq<IndexEntry>, index': seq<IndexEntry>, last: Option<IKey>)
    requires Filed(o, file, handles, true, h, pairs, blocks, offsets, index)
    requires IndexGrows(index, index', true, last, |blocks|) && KeyFits(last.value)
    ensures Filed(o, file, handles, false, h, pairs + [Pair(Stored(index'[|index|].key), HandleBytes(h))], blocks, offsets, index')
  {
    OpenFiled(o, file, handles, true, h, pairs, blocks, offsets, index);
    assert index' == index + [index'[|index|]];
    assert IndexPairs(index', handles) == pairs + [IndexPair(index'[|index|], h)];
    OpenFiled(o, file, handles, false, h, pairs + [IndexPair(index'[|index|], h)], blocks, offsets, index');
  }

  class FileTableBuilder {
    const o: Options
    const table: TableBuilder
    const dataBlock: BlockBuilder
    const indexBlock: BlockBuilder
    var file: Bytes
    var pendingHandle: Handle
    ghost var handles: seq<Handle>

    /** Sealed; `OpenValid` opens it. */
    ghost predicate Valid()
      reads this`file, this`pendingHandle, this`handles, table, table.filterBlock, dataBlock, indexBlock
    {
      ValidSeal(|file| + 9)
    }

    ghost predicate ValidSeal(n: nat)
      reads this`file, this`pendingHandle, this`handles, table, table.filterBlock, dataBlock, indexBlock
      decreases n
    {
      if n == 0 then Sound() else ValidSeal(n - 1)
    }

    lemma {:induction false} ValidSealOpens(n: nat)
      ensures ValidSeal(n) <==> Sound()
    {
      if n > 0 {
        ValidSealOpens(n - 1);
        assert ValidSeal(n) == ValidSeal(n - 1);
      }
    }

    lemma {:induction false} OpenValid()
      ensures Valid() <==> Sound()
    {
      ValidSealOpens(|file| + 9);
    }

    ghost predicate Sound()
      reads this`file, this`pendingHandle, this`handles, table, table.filterBlock, dataBlock, indexBlock
    {
      && table.Valid() && Filing() && DataOk(table.dataBlock) && dataBlock.CurrentSizeEstimate() < o.blockSize + 9
      && (table.lastKey.Some? ==> KeyFits(table.lastKey.value))
    }

    /** The file, and the index block. */
    ghost predicate Filing()
      reads this`file, this`pendingHandle, this`handles, table, indexBlock
    {
      && CodecOk(o.codec) && o.interval >= 1 && dataBlock != indexBlock && indexBlock.Valid() && |file| == table.offset
      && Filed(o, file, handles, table.pendingIndexEntry, pendingHandle, indexBlock.entries, table.blocks, table.offsets, table.index)
    }

    /** The block being filled. */
    ghost predicate DataOk(es: seq<TableEntry>)
      reads dataBlock
    {
      dataBlock.Valid() && dataBlock.entries == PairsOf(es) && AllFit(es)
    }

    constructor (o: Options, policy: Option<Policy>)
      requires CodecOk(o.codec) && o.interval >= 1
      ensures Valid() && this.o == o && table.policy == policy && table.entries == [] && table.lastKey == None
      ensures dataBlock.interval == o.interval && indexBlock.interval == 1
      ensures fresh(table) && fresh(dataBlock) && fresh(indexBlock) && (table.filterBlock != null ==> fresh(table.filterBlock))
    {
      this.o := o;
      table := new TableBuilder(policy);
      dataBlock := new BlockBuilder(o.interval);
      indexBlock := new BlockBuilder(1);
      file, pendingHandle, handles := [], Handle(0, 0), [];
      EmptyFiled(o);
      new;
      OpenValid();
    }

    /** Keys come in ascending order; a block that has reached its size, and no other, is written out. */
    method Add(key: IKey, value: Bytes)
      requires Valid() && (table.lastKey.Some? ==> IKeyLess(table.lastKey.value, key)) && Small(o, TableEntry(key, value))
      modifies this, table, table.filterBlock, dataBlock, indexBlock
      ensures Valid() && table.entries == old(table.entries) + [TableEntry(key, value)] && table.lastKey == Some(key)
      ensures if table.dataBlock == [] then
                && table.blocks == old(table.blocks) + [old(table.dataBlock) + [TableEntry(key, value)]]
                && exists n :: n >= o.blockSize && BlockOfSize(o, file, pendingHandle, n)
              else table.blocks == old(table.blocks) && dataBlock.CurrentSizeEstimate() < o.blockSize
    {
      AddToBlock(key, value);
      if dataBlock.CurrentSizeEstimate() >= o.blockSize {
        Flush();
      }
      OpenValid();
    }

    method AddToBlock(key: IKey, value: Bytes)
      requires Valid() && (table.lastKey.Some? ==> IKeyLess(table.lastKey.value, key)) && Small(o, TableEntry(key, value))
      modifies table, table.filterBlock, dataBlock, indexBlock
      ensures table.Valid() && Filing() && DataOk(table.dataBlock) && dataBlock.CurrentSizeEstimate() < TWO_32
      ensures !table.pendingIndexEntry && KeyFits(key)
      ensures table.blocks == old(table.blocks) && table.dataBlock == old(table.dataBlock) + [TableEntry(key, value)]
      ensures table.entries == old(table.entries) + [TableEntry(key, value)] && table.lastKey == Some(key)
    {
      OpenValid();
      OneMorePair(o, table.dataBlock, TableEntry(key, value));
      AddIndexed(key, value);
      dataBlock.Add(Stored(key), value);
    }

    /** The entry, and the index entry that was waiting for its key. */
    method AddIndexed(key: IKey, value: Bytes)
      requires table.Valid() && Filing() && (table.lastKey.Some? ==> KeyFits(table.lastKey.value) && IKeyLess(table.lastKey.value, key))
      modifies table, table.filterBlock, indexBlock
      ensures table.Valid() && Filing() && !table.pendingIndexEntry
      ensures table.blocks == old(table.blocks) && table.dataBlock == old(table.dataBlock) + [TableEntry(key, value)]
      ensures table.entries == old(table.entries) + [TableEntry(key, value)] && table.lastKey == Some(key)
    {
      var pending := table.pendingIndexEntry;
      ghost var index, last := table.index, table.lastKey;
      table.AddEntry(key, value);
      if pending {
        AddIndexEntry(table.index, index, last, table.blocks, table.offsets);
      }
    }

    /** The last block's key and handle go to the index block. */
    method AddIndexEntry(index: seq<IndexEntry>, ghost before: seq<IndexEntry>, ghost last: Option<IKey>,
        ghost blocks: seq<seq<TableEntry>>, ghost offsets: seq<nat>)
      requires indexBlock.Valid() && IndexGrows(before, index, true, last, |blocks|) && KeyFits(last.value)
      requires Filed(o, file, handles, true, pendingHandle, indexBlock.entries, blocks, offsets, before)
      modifies indexBlock
      ensures indexBlock.Valid() && Filed(o, file, handles, false, pendingHandle, indexBlock.entries, blocks, offsets, index)
    {
      IndexFiled(o, file, handles, pendingHandle, indexBlock.entries, blocks, offsets, before, index, last);
      indexBlock.Add(Stored(index[|index| - 1].key), HandleBytes(pendingHandle));
    }

    /** WriteBlock: the block, with its type and checksum, at the end of the file. */
    method WriteBlock(raw: Bytes) returns (h: Handle, ghost more: Bytes)
      requires CodecOk(o.codec)
      modifies this`file
      ensures file == old(file) + more && h.offset == |old(file)| && |file| == h.offset + h.size + BLOCK_TRAILER_SIZE
      ensures ReadsTo(o, file, h, raw)
    {
      var (kind, contents) := Choose(o.codec, raw);
      WrittenReads(o, file, raw);
      h, more := Handle(|file|, |contents|), RawBlock(o.crc, kind, contents);
      file := file + RawBlock(o.crc, kind, contents);
    }

    /** A data block goes to the file. */
    method WriteDataBlock(ghost block: seq<TableEntry>) returns (h: Handle, ghost more: Bytes)
      requires CodecOk(o.codec) && DataOk(block) && dataBlock.CurrentSizeEstimate() < TWO_32
      modifies this`file, dataBlock
      ensures file == old(file) + more && h.offset == |old(file)| && |file| == h.offset + h.size + BLOCK_TRAILER_SIZE
      ensures BlockAt(o, file, h, PairsOf(block)) && AllFit(block) && DataOk([]) && dataBlock.CurrentSizeEstimate() == 8
      ensures BlockOfSize(o, file, h, old(dataBlock.CurrentSizeEstimate()))
    {
      var raw := dataBlock.Finish();
      PairsFit(block);
      BlockReader.FinishedHolds(dataBlock, raw);
      h, more := WriteBlock(raw);
      dataBlock.Reset();
    }

    /** The filter is not compressed. */
    method WriteFilter(filter: Option<Bytes>) returns (h: Handle, ghost more: Bytes)
      modifies this`file
      ensures file == old(file) + more
      ensures h.offset + h.size <= |file| && (filter.Some? ==> ReadsTo(o, file, h, filter.value) && |filter.value| <= |file|)
    {
      h, more := Handle(|file|, 0), [];
      if filter.Some? {
        FilterReads(o, file, filter.value);
        h, more := Handle(|file|, |filter.value|), RawBlock(o.crc, NO_COMPRESSION, filter.value);
        file := file + RawBlock(o.crc, NO_COMPRESSION, filter.value);
      } else {
        assert file + more == file;
      }
    }

    /** The metaindex says where the filter of that name is. */
    method WriteMeta(t: Table, name: Bytes, filter: Handle) returns (h: Handle, ghost more: Bytes)
      requires CodecOk(o.codec) && o.interval >= 1 && |name| + 100 < TWO_32
      modifies this`file
      ensures file == old(file) + more && h.offset + h.size <= |file|
      ensures HandleFits(filter) ==> BlockAt(o, file, h, MetaPairs(t, name, filter))
    {
      var meta := new BlockBuilder(o.interval);
      if t.filter.Some? {
        meta.Add(FilterKey(name), HandleBytes(filter));
      }
      assert meta.entries == MetaPairs(t, name, filter);
      var raw := meta.Finish();
      if HandleFits(filter) {
        HandleRoundTrip(filter, []);
        BlockReader.FinishedHolds(meta, raw);
      }
      h, more := WriteBlock(raw);
    }

    /** The index block comes last. */
    method WriteIndex(t: Table, ghost start: Bytes) returns (h: Handle, ghost more: Bytes)
      requires CodecOk(o.codec) && indexBlock.Valid()
      requires Filed(o, start, handles, false, pendingHandle, indexBlock.entries, t.blocks, t.offsets, t.index)
      modifies this`file
      ensures file == old(file) + more && h.offset + h.size <= |file|
      ensures indexBlock.CurrentSizeEstimate() < TWO_32 && HandlesFit(handles) ==> BlockAt(o, file, h, indexBlock.entries)
      ensures BlockOfSize(o, file, h, indexBlock.CurrentSizeEstimate())
    {
      var raw := indexBlock.Finish();
      if HandlesFit(handles) && indexBlock.CurrentSizeEstimate() < TWO_32 {
        OpenFiled(o, start, handles, false, pendingHandle, indexBlock.entries, t.blocks, t.offsets, t.index);
        IndexPairsFit(t.index, handles);
        BlockReader.FinishedHolds(indexBlock, raw);
      }
      h, more := WriteBlock(raw);
    }

    method Flush()
      requires table.Valid() && Filing() && DataOk(table.dataBlock) && dataBlock.CurrentSizeEstimate() < TWO_32
      requires |table.dataBlock| > 0 && !table.pendingIndexEntry
      modifies this`file, this`pendingHandle, this`handles, table, table.filterBlock, dataBlock
      ensures table.Valid() && Filing() && DataOk(table.dataBlock) && dataBlock.CurrentSizeEstimate() == 8
      ensures table.entries == old(table.entries) && table.lastKey == old(table.lastKey) && table.dataBlock == []
      ensures table.blocks == old(table.blocks) + [old(table.dataBlock)]
      ensures BlockOfSize(o, file, pendingHandle, old(dataBlock.CurrentSizeEstimate()))
    {
      ghost var before := file;
      ghost var more;
      var h;
      h, more := WriteDataBlock(table.dataBlock);
      BlockFiled(o, before, more, handles, pendingHandle, h, indexBlock.entries, table.blocks, table.offsets, table.index, table.dataBlock);
      table.Flush(h.size);
      pendingHandle, handles := h, handles + [h];
    }

    /** The rest of the data, the filter, the metaindex, the index and the footer. What is in
        the file is the table, as long as its size and that of its index block can be written. */
    method Finish(name: Bytes) returns (t: Table, ghost l: Layout)
      requires Valid() && o.blockSize + 9 <= TWO_32 && |name| + 100 < TWO_32
      modifies this, table, table.filterBlock, dataBlock, indexBlock
      ensures TableOk(t) && Concat(t.blocks) == old(table.entries) && (t.filter.Some? <==> table.policy.Some?)
      ensures FilterFits(t) ==> FilterSound(t, table.policy)
      ensures |file| < TWO_64 && indexBlock.CurrentSizeEstimate() < TWO_32 ==> FileHolds(o, name, file, t, l) && TableFits(t)
      ensures BlockOfSize(o, file, l.index, indexBlock.CurrentSizeEstimate())
    {
      OpenValid();
      table.OpenValid();
      if |table.dataBlock| > 0 {
        Flush();
      }
      OpenValid();
      t := FinishTable();
      l := FinishFile(name, t);
    }

    method FinishTable() returns (t: Table)
      requires Valid() && table.dataBlock == []
      modifies table, table.filterBlock, indexBlock
      ensures TableOk(t) && Concat(t.blocks) == old(table.entries) && (t.filter.Some? <==> table.policy.Some?)
      ensures FilterFits(t) ==> FilterSound(t, table.policy)
      ensures CodecOk(o.codec) && o.interval >= 1 && indexBlock.Valid()
      ensures Filed(o, file, handles, false, pendingHandle, indexBlock.entries, t.blocks, t.offsets, t.index)
    {
      OpenValid();
      var pending := table.pendingIndexEntry;
      ghost var index, last := table.index, table.lastKey;
      t := table.Finish(0);
      if pending {
        AddIndexEntry(t.index, index, last, t.blocks, t.offsets);
      }
    }

    method FinishFile(name: Bytes, t: Table) returns (ghost l: Layout)
      requires CodecOk(o.codec) && o.interval >= 1 && indexBlock.Valid() && |name| + 100 < TWO_32
      requires Filed(o, file, handles, false, pendingHandle, indexBlock.entries, t.blocks, t.offsets, t.index)
      modifies this`file
      ensures |file| < TWO_64 && indexBlock.CurrentSizeEstimate() < TWO_32 ==> FileHolds(o, name, file, t, l) && TableFits(t)
      ensures BlockOfSize(o, file, l.index, indexBlock.CurrentSizeEstimate())
    {
      ghost var start := file;
      ghost var m1, m2, m3;
      var filter, meta, index;
      filter, m1 := WriteFilter(t.filter);
      meta, m2 := WriteMeta(t, name, filter);
      index, m3 := WriteIndex(t, start);
      l := Layout(handles, meta, index, filter);
      SizeStays(o, file, FooterBytes(meta, index), index, indexBlock.CurrentSizeEstimate());
      file := file + FooterBytes(meta, index);
      if |file| < TWO_64 && indexBlock.CurrentSizeEstimate() < TWO_32 {
        FileComplete(o, name, start, m1, m2, m3, t, l, pendingHandle, indexBlock.entries);
      }
    }
  }

  lemma {:induction false} FileComplete(o: Options, name: Bytes, start: Bytes, m1: Bytes, m2: Bytes, m3: Bytes, t: Table, l: Layout,
      pending: Handle, pairs: seq<Pair>)
    requires Filed(o, start, l.handles, false, pending, pairs, t.blocks, t.offsets, t.index)
    requires |start + m1 + m2 + m3| + FOOTER_SIZE < TWO_64
    requires t.filter.Some? ==> ReadsTo(o, start + m1, l.filter, t.filter.value) && |t.filter.value| <= |start + m1|
    requires HandleFits(l.filter) && HandleFits(l.meta) && HandleFits(l.index)
    requires BlockAt(o, start + m1 + m2, l.meta, MetaPairs(t, name, l.filter))
    requires HandlesFit(l.handles) ==> BlockAt(o, start + m1 + m2 + m3, l.index, pairs)
    ensures FileHolds(o, name, start + m1 + m2 + m3 + FooterBytes(l.meta, l.index), t, l) && TableFits(t)
  {
    OpenFiled(o, start, l.handles, false, pending, pairs, t.blocks, t.offsets, t.index);
    LaidHandlesFit(o, start, t.blocks, t.offsets, l.handles);
    var footer := FooterBytes(l.meta, l.index);
    var file := start + m1 + m2 + m3 + footer;
    assert DecodeFooter(file[|file| - FOOTER_SIZE..]) == Some((l.meta, l.index)) by {
      FooterRoundTrip(l.meta, l.index);
      assert file[|file| - FOOTER_SIZE..] == footer;
    }
    PartsStay(o, start, m1, m2, m3, footer, t, name, l);
    BlockStaysAt(o, start + m1 + m2 + m3, footer, l.index, pairs);
  }

  lemma {:induction false} PartsStay(o: Options, start: Bytes, m1: Bytes, m2: Bytes, m3: Bytes, footer: Bytes, t: Table, name: Bytes, l: Layout)
    requires Laid(o, start, t.blocks, t.offsets, l.handles)
    requires t.filter.Some? ==> ReadsTo(o, start + m1, l.filter, t.filter.value)
    requires BlockAt(o, start + m1 + m2, l.meta, MetaPairs(t, name, l.filter))
    ensures var file := start + m1 + m2 + m3 + footer;
            && Laid(o, file, t.blocks, t.offsets, l.handles)
            && (t.filter.Some? ==> ReadsTo(o, file, l.filter, t.filter.value))
            && BlockAt(o, file, l.meta, MetaPairs(t, name, l.filter))
  {
    var file := start + m1 + m2 + m3 + footer;
    assert file == start + (m1 + m2 + m3 + footer) && file == (start + m1) + (m2 + m3 + footer);
    LaidStays(o, start, m1 + m2 + m3 + footer, t.blocks, t.offsets, l.handles);
    if t.filter.Some? {
      ReadsOn(o, start + m1, m2 + m3 + footer, l.filter, t.filter.value);
    }
    assert file == (start + m1 + m2) + (m3 + footer);
    BlockStaysAt(o, start + m1 + m2, m3 + footer, l.meta, MetaPairs(t, name, l.filter));
  }

  // ----- from entries to bytes and back -----

  /** BuildTable: every entry of an iterator goes into one table file. */
  method BuildFile(es: seq<TableEntry>, o: Options, policy: Option<Policy>, name: Bytes)
    returns (file: Bytes, indexSize: nat, ghost t: Table, ghost l: Layout)
    requires CodecOk(o.codec) && o.interval >= 1 && o.blockSize + 9 <= TWO_32 && |name| + 100 < TWO_32
    requires Tables.Ascending(es) && forall i :: 0 <= i < |es| ==> Small(o, es[i])
    ensures TableOk(t) && Concat(t.blocks) == es && (t.filter.Some? <==> policy.Some?) && (FilterFits(t) ==> FilterSound(t, policy))
    ensures BlockOfSize(o, file, l.index, indexSize)
    ensures |file| < TWO_64 && indexSize < TWO_32 ==> FileHolds(o, name, file, t, l) && TableFits(t)
  {
    var b := new FileTableBuilder(o, policy);
    AddAll(b, es);
    t, l := b.Finish(name);
    file, indexSize := b.file, b.indexBlock.CurrentSizeEstimate();
  }

  method AddAll(b: FileTableBuilder, es: seq<TableEntry>)
    requires b.Valid() && b.table.entries == [] && b.table.lastKey == None
    requires Tables.Ascending(es) && forall i :: 0 <= i < |es| ==> Small(b.o, es[i])
    modifies b, b.table, b.table.filterBlock, b.dataBlock, b.indexBlock
    ensures b.Valid() && b.table.entries == es
  {
    for i := 0 to |es|
      invariant b.Valid()
      invariant b.table.entries == es[..i] && b.table.lastKey == if i == 0 then None else Some(es[i - 1].key)
    {
      b.Add(es[i].key, es[i].value);
      assert es[..i + 1] == es[..i] + [es[i]];
    }
    assert es[..|es|] == es;
  }

  /** A table written by BuildTable, opened from its bytes and asked for a key, with any
      compression, any filter policy or none, and checksums verified or not: the answer is
      what a search of the entries would give. */
  method BuildOpenGet(es: seq<TableEntry>, o: Options, policy: Option<Policy>, name: Bytes, reader: Option<Bytes>, verify: bool, k: IKey)
    returns (file: Bytes, indexSize: nat, ghost index: Handle, r: Option<TableEntry>)
    requires CodecOk(o.codec) && o.interval >= 1 && o.blockSize + 9 <= TWO_32 && |name| + 100 < TWO_32
    requires Tables.Ascending(es) && (forall i :: 0 <= i < |es| ==> Small(o, es[i])) && k.tag < TWO_64
    ensures BlockOfSize(o, file, index, indexSize)
    ensures |file| < TWO_32 && indexSize < TWO_32 ==>
              forall e :: (r == Some(e) && e.key.user == k.user) <==> FirstFrom(es, k, e)
  {
    ghost var t, l;
    file, indexSize, t, l := BuildFile(es, o, policy, name);
    index, r := l.index, None;
    if |file| < TWO_32 && indexSize < TWO_32 {
      var contents, filter := OpenTable(o, verify, file, reader, name, t, l);
      r := GetInFile(o, verify, file, contents, filter, policy, k, name, t, l);
      forall e ensures Found(t.blocks, k, e) <==> FirstFrom(es, k, e) {
        FoundIsFirst(t.blocks, k, e);
      }
    }
  }
}
