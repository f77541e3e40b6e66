// The filter block of a table (table/filter_block.cc): one filter for the keys of all
// blocks that start within the same 2 KB of the file.
module FilterBlocks {
  import opened Seqs
  import opened Coding
  import opened Blocks
  import opened BlockReader

  const BASE_LG: Byte := 11
  const BASE: nat := 2048

  type Create = seq<Bytes> -> Bytes
  type Match = (Bytes, Bytes) -> bool

  /** The policy rules out no query that counts as `same` as a key that was added. */
  ghost predicate Sound(create: Create, matches: Match, same: (Bytes, Bytes) -> bool) {
    forall keys, i, q {:trigger same(keys[i], q), create(keys)} ::
      0 <= i < |keys| && same(keys[i], q) ==> matches(q, create(keys))
  }

  /** One filter; no keys, no bytes. */
  function Piece(create: Create, keys: seq<Bytes>): Bytes {
    if |keys| == 0 then [] else create(keys)
  }

  function Results(create: Create, filters: seq<seq<Bytes>>): Bytes {
    if |filters| == 0 then [] else Results(create, filters[..|filters| - 1]) + Piece(create, filters[|filters| - 1])
  }

  lemma {:induction false} ResultsUpTo(create: Create, filters: seq<seq<Bytes>>, i: nat)
    requires i <= |filters|
    ensures Results(create, filters[..i]) <= Results(create, filters)
    ensures i < |filters| ==> Results(create, filters[..i + 1]) == Results(create, filters[..i]) + Piece(create, filters[i])
    decreases |filters| - i
  {
    if i < |filters| {
      assert filters[..i + 1][..i] == filters[..i];
      ResultsUpTo(create, filters, i + 1);
    } else {
      assert filters[..i] == filters;
    }
  }

  /** Where each filter begins. */
  ghost predicate OffsetsAre(create: Create, filters: seq<seq<Bytes>>, offsets: seq<nat>) {
    |offsets| == |filters| && forall i :: 0 <= i < |filters| ==> offsets[i] == |Results(create, filters[..i])|
  }

  /** The keys run together, and where each begins. */
  ghost predicate Flattened(keys: Bytes, start: seq<nat>, pending: seq<Bytes>) {
    && keys == Concat(pending) && |start| == |pending|
    && forall i :: 0 <= i < |pending| ==> start[i] == |Concat(pending[..i])|
  }

  /** The key is in the filter for its block, or waits to be. */
  ghost predicate Placed(filters: seq<seq<Bytes>>, pending: seq<Bytes>, offset: nat, key: Bytes) {
    if offset / BASE < |filters| then key in filters[offset / BASE] else offset / BASE == |filters| && key in pending
  }

  ghost predicate AllPlaced(filters: seq<seq<Bytes>>, pending: seq<Bytes>, added: seq<(nat, Bytes)>) {
    forall a :: 0 <= a < |added| ==> Placed(filters, pending, added[a].0, added[a].1)
  }

  /** What a builder keeps of the keys it was given, sealed: a table builder carries it as
      one fact. `OpenKept` opens it. */
  ghost predicate Kept(create: Create, keys: Bytes, start: seq<nat>, result: Bytes, offsets: seq<nat>,
      pending: seq<Bytes>, filters: seq<seq<Bytes>>, added: seq<(nat, Bytes)>) {
    KeptSeal(|filters| + 9, create, keys, start, result, offsets, pending, filters, added)
  }

  ghost predicate KeptSeal(k: nat, create: Create, keys: Bytes, start: seq<nat>, result: Bytes, offsets: seq<nat>,
      pending: seq<Bytes>, filters: seq<seq<Bytes>>, added: seq<(nat, Bytes)>) {
    if k == 0 then
      && Flattened(keys, start, pending) && result == Results(create, filters) && OffsetsAre(create, filters, offsets)
      && AllPlaced(filters, pending, added)
    else KeptSeal(k - 1, create, keys, start, result, offsets, pending, filters, added)
  }

  lemma {:induction false} KeptSealOpens(k: nat, create: Create, keys: Bytes, start: seq<nat>, result: Bytes,
      offsets: seq<nat>, pending: seq<Bytes>, filters: seq<seq<Bytes>>, added: seq<(nat, Bytes)>)
    ensures KeptSeal(k, create, keys, start, result, offsets, pending, filters, added) <==>
            && Flattened(keys, start, pending) && result == Results(create, filters) && OffsetsAre(create, filters, offsets)
            && AllPlaced(filters, pending, added)
  {
    if k > 0 {
      KeptSealOpens(k - 1, create, keys, start, result, offsets, pending, filters, added);
    }
  }

  lemma {:induction false} OpenKept(create: Create, keys: Bytes, start: seq<nat>, result: Bytes,
      offsets: seq<nat>, pending: seq<Bytes>, filters: seq<seq<Bytes>>, added: seq<(nat, Bytes)>)
    ensures Kept(create, keys, start, result, offsets, pending, filters, added) <==>
            && Flattened(keys, start, pending) && result == Results(create, filters) && OffsetsAre(create, filters, offsets)
            && AllPlaced(filters, pending, added)
  {
    KeptSealOpens(|filters| + 9, create, keys, start, result, offsets, pending, filters, added);
  }

  lemma {:induction false} OneFilterMore(create: Create, filters: seq<seq<Bytes>>, pending: seq<Bytes>, offsets: seq<nat>)
    requires OffsetsAre(create, filters, offsets)
    ensures Results(create, filters + [pending]) == Results(create, filters) + Piece(create, pending)
    ensures OffsetsAre(create, filters + [pending], offsets + [|Results(create, filters)|])
  {
    var more := filters + [pending];
    assert more[..|filters|] == filters;
    forall i | 0 <= i < |filters| ensures more[..i] == filters[..i] {
    }
  }

  lemma {:induction false} PlacedInFilter(filters: seq<seq<Bytes>>, pending: seq<Bytes>, added: seq<(nat, Bytes)>)
    requires AllPlaced(filters, pending, added)
    ensures AllPlaced(filters + [pending], [], added)
  {
    forall a | 0 <= a < |added| ensures Placed(filters + [pending], [], added[a].0, added[a].1) {
      assert Placed(filters, pending, added[a].0, added[a].1);
    }
  }

  class FilterBlockBuilder {
    const create: Create
    /** The keys since the last filter, run together, and where each begins. */
    var keys: Bytes
    var start: seq<nat>
    var result: Bytes
    var filterOffsets: seq<nat>
    ghost var pending: seq<Bytes>
    ghost var filters: seq<seq<Bytes>>
    /** The offset of the block being filled, and every key with its block's offset. */
    ghost var blockOffset: nat
    ghost var added: seq<(nat, Bytes)>

    ghost predicate Valid()
      reads this
    {
      blockOffset / BASE == |filters| && Kept(create, keys, start, result, filterOffsets, pending, filters, added)
    }

    constructor (create: Create)
      ensures Valid() && added == [] && blockOffset == 0 && this.create == create
    {
      this.create := create;
      OpenKept(create, [], [], [], [], [], [], []);
      keys, start, result, filterOffsets, pending, filters, blockOffset, added := [], [], [], [], [], [], 0, [];
    }

    /** A new data block begins at this file offset. */
    method StartBlock(offset: nat)
      requires Valid() && blockOffset <= offset
      modifies this
      ensures Valid() && added == old(added) && blockOffset == offset
    {
      OpenKept(create, keys, start, result, filterOffsets, pending, filters, added);
      var filterIndex := offset / BASE;
      while filterIndex > |filterOffsets|
        invariant Valid0() && added == old(added) && |filters| <= filterIndex
        decreases filterIndex - |filterOffsets|
      {
        GenerateFilter();
      }
      blockOffset := offset;
      OpenKept(create, keys, start, result, filterOffsets, pending, filters, added);
    }

    /** `Valid` but for the offset of the current block. */
    ghost predicate Valid0()
      reads this
    {
      && Flattened(keys, start, pending) && result == Results(create, filters) && OffsetsAre(create, filters, filterOffsets)
      && AllPlaced(filters, pending, added)
    }

    method AddKey(key: Bytes)
      requires Valid()
      modifies this
      ensures Valid() && added == old(added) + [(blockOffset, key)] && blockOffset == old(blockOffset)
    {
      OpenKept(create, keys, start, result, filterOffsets, pending, filters, added);
      FlattenOne(keys, start, pending, key);
      start := start + [|keys|];
      keys := keys + key;
      pending := pending + [key];
      assert pending[|pending| - 1] == key;
      assert forall k :: k in old(pending) ==> k in pending;
      added := added + [(blockOffset, key)];
      OpenKept(create, keys, start, result, filterOffsets, pending, filters, added);
    }

    /** Turns the pending keys into a filter. */
    method GenerateFilter()
      requires Valid0()
      modifies this
      ensures Valid0() && added == old(added) && filters == old(filters) + [old(pending)] && pending == []
    {
      OneFilterMore(create, filters, pending, filterOffsets);
      PlacedInFilter(filters, pending, added);
      filterOffsets := filterOffsets + [|result|];
      if |start| > 0 {
        var tmpKeys := SplitKeys(keys, start, pending);
        result := result + create(tmpKeys);
      }
      filters := filters + [pending];
      keys, start, pending := [], [], [];
    }

    /** Filters, their offsets, the length of the filters, the base of the offsets. */
    method Finish() returns (contents: Bytes)
      requires Valid()
      modifies this
      ensures added == old(added)
      ensures contents == Results(create, filters) + FixedAll(filterOffsets) + Fixed(4, |Results(create, filters)|) + [11]
      ensures OffsetsAre(create, filters, filterOffsets)
      ensures filters == if |old(pending)| > 0 then old(filters) + [old(pending)] else old(filters)
      ensures forall a :: 0 <= a < |added| ==> added[a].0 / 2048 < |filters| && added[a].1 in filters[added[a].0 / 2048]
    {
      OpenKept(create, keys, start, result, filterOffsets, pending, filters, added);
      if |start| > 0 {
        GenerateFilter();
      }
      var arrayOffset := |result|;
      contents := AppendAll(result, filterOffsets);
      contents := contents + Fixed(4, arrayOffset);
      contents := contents + [BASE_LG];
    }
  }

  lemma {:induction false} FlattenOne(keys: Bytes, start: seq<nat>, pending: seq<Bytes>, key: Bytes)
    requires Flattened(keys, start, pending)
    ensures Flattened(keys + key, start + [|keys|], pending + [key])
  {
    var all := pending + [key];
    assert all[..|pending|] == pending;
    forall i | 0 <= i < |all| ensures (start + [|keys|])[i] == |Concat(all[..i])| {
      assert i <= |pending| && all[..i] == pending[..i];
      if i == |pending| {
        assert pending[..i] == pending;
      }
    }
  }

  /** Cuts the flattened keys apart again. */
  method SplitKeys(keys: Bytes, start: seq<nat>, ghost pending: seq<Bytes>) returns (r: seq<Bytes>)
    requires Flattened(keys, start, pending)
    ensures r == pending
  {
    var ends := start + [|keys|];
    r := [];
    assert pending[..|pending|] == pending;
    for i := 0 to |start|
      invariant r == pending[..i]
    {
      ConcatUpTo(pending, i);
      ConcatUpTo(pending, i + 1);
      assert ends[i + 1] == |Concat(pending[..i + 1])| by {
        if i + 1 == |start| {
          assert pending[..i + 1] == pending;
        }
      }
      CutOne(keys, Concat(pending[..i]), pending[i]);
      r := r + [keys[ends[i]..ends[i + 1]]];
    }
  }

  lemma {:induction false} CutOne(all: Bytes, before: Bytes, key: Bytes)
    requires before + key <= all
    ensures all[|before|..|before| + |key|] == key
  {
    assert all[..|before| + |key|] == before + key;
  }

  // ----- reading -----

  /** `x >> n` */
  function ShiftRight(x: nat, n: nat): nat {
    if n == 0 then x else ShiftRight(x / 2, n - 1)
  }

  /** What there is to ask for a block offset: a filter, an empty one that lies beyond the
      filters, or nothing. */
  datatype Asked = UseFilter(bytes: Bytes) | EmptyFilter | NoFilter

  function FindFilter(contents: Bytes, blockOffset: nat): Asked {
    var n := |contents|;
    if n < 5 then NoFilter
    else
      var lastWord := DecodeFixed(contents[n - 5..n - 1]);
      if lastWord > n - 5 then NoFilter
      else
        var num := (n - 5 - lastWord) / 4;
        var index := ShiftRight(blockOffset, contents[n - 1]);
        if index >= num then NoFilter
        else
          var at := lastWord + 4 * index;
          var first, limit := DecodeFixed(contents[at..at + 4]), DecodeFixed(contents[at + 4..at + 8]);
          if first <= limit <= lastWord then UseFilter(contents[first..limit])
          else if first == limit then EmptyFilter
          else NoFilter
  }

  /** `FindFilter`, sealed; `FilterForIs` opens it for a finished filter block. */
  function FilterFor(contents: Bytes, blockOffset: nat): Asked {
    FilterSeal(|contents| + 9, contents, blockOffset)
  }

  function FilterSeal(k: nat, contents: Bytes, blockOffset: nat): Asked {
    if k == 0 then FindFilter(contents, blockOffset) else FilterSeal(k - 1, contents, blockOffset)
  }

  lemma {:induction false} FilterSealOpens(k: nat, contents: Bytes, blockOffset: nat)
    ensures FilterSeal(k, contents, blockOffset) == FindFilter(contents, blockOffset)
  {
    if k > 0 {
      FilterSealOpens(k - 1, contents, blockOffset);
    }
  }

  /** The block's answer for a key: what the filter says, no for an empty filter, and yes if
      there is none to ask. */
  predicate Answers(contents: Bytes, blockOffset: nat, key: Bytes, matches: Match) {
    match FilterFor(contents, blockOffset)
    case UseFilter(bytes) => matches(key, bytes)
    case EmptyFilter => false
    case NoFilter => true
  }

  method KeyMayMatch(contents: Bytes, blockOffset: nat, key: Bytes, matches: Match) returns (r: bool)
    ensures r <==> Answers(contents, blockOffset, key, matches)
  {
    FilterSealOpens(|contents| + 9, contents, blockOffset);
    r := true;
    var n := |contents|;
    if n < 5 {
      return;
    }
    var lastWord := DecodeFixed(contents[n - 5..n - 1]);
    if lastWord > n - 5 {
      return;
    }
    var num := (n - 5 - lastWord) / 4;
    var index := ShiftRight(blockOffset, contents[n - 1]);
    if index < num {
      var at := lastWord + 4 * index;
      var first, limit := DecodeFixed(contents[at..at + 4]), DecodeFixed(contents[at + 4..at + 8]);
      if first <= limit && limit <= lastWord {
        r := matches(key, contents[first..limit]);
      } else if first == limit {
        r := false;
      }
    }
  }

  /** The words after the filters: every offset, then where the offsets begin. */
  lemma {:induction false} WordsOf(result: Bytes, offsets: seq<nat>)
    ensures result + FixedAll(offsets) + Fixed(4, |result|) + [BASE_LG] == result + FixedAll(offsets + [|result|]) + [BASE_LG]
  {
    assert (offsets + [|result|])[..|offsets|] == offsets;
    assert result + FixedAll(offsets) + Fixed(4, |result|) == result + (FixedAll(offsets) + Fixed(4, |result|));
  }

  lemma {:induction false} PrefixSlice(result: Bytes, w: Bytes, end: Bytes, a: nat, b: nat)
    requires a <= b <= |result|
    ensures (result + w + end)[a..b] == result[a..b]
  {
  }

  /** A finished filter block answers for offset `o` with the filter of its 2 KB. */
  lemma {:induction false} FilterReadsBack(create: Create, filters: seq<seq<Bytes>>, offsets: seq<nat>, o: nat)
    requires OffsetsAre(create, filters, offsets) && o / BASE < |filters| && |Results(create, filters)| < TWO_32
    ensures var result := Results(create, filters);
            FilterFor(result + FixedAll(offsets) + Fixed(4, |result|) + [BASE_LG], o) == UseFilter(Piece(create, filters[o / BASE]))
  {
    var result := Results(create, filters);
    var i := o / BASE;
    WordsOf(result, offsets);
    ShiftByBase(o);
    PieceBounds(create, filters, offsets, i);
    FilterInPlace(result, offsets, o, i);
  }

  /** The word at `at` is `v`; sealed, `OpenWord` opens it. */
  ghost predicate WordIs(c: Bytes, at: nat, v: nat) {
    WordSeal(at + 9, c, at, v)
  }

  ghost predicate WordSeal(k: nat, c: Bytes, at: nat, v: nat) {
    if k == 0 then at + 4 <= |c| && DecodeFixed(c[at..at + 4]) == v else WordSeal(k - 1, c, at, v)
  }

  lemma {:induction false} WordSealOpens(k: nat, c: Bytes, at: nat, v: nat)
    ensures WordSeal(k, c, at, v) <==> at + 4 <= |c| && DecodeFixed(c[at..at + 4]) == v
  {
    if k > 0 {
      WordSealOpens(k - 1, c, at, v);
    }
  }

  lemma {:induction false} OpenWord(c: Bytes, at: nat, v: nat)
    ensures WordIs(c, at, v) <==> at + 4 <= |c| && DecodeFixed(c[at..at + 4]) == v
  {
    WordSealOpens(at + 9, c, at, v);
  }

  lemma {:induction false} OneWord(result: Bytes, words: seq<nat>, end: Bytes, i: nat)
    requires i < |words| && words[i] < TWO_32
    ensures WordIs(result + FixedAll(words) + end, |result| + 4 * i, words[i])
  {
    FixedAllAt(words, i);
    WordInPlace(result, FixedAll(words), end, 4 * i, words[i]);
  }

  lemma {:induction false} WordInPlace(result: Bytes, all: Bytes, end: Bytes, at: nat, v: nat)
    requires at + 4 <= |all| && all[at..at + 4] == Fixed(4, v) && v < TWO_32
    ensures WordIs(result + all + end, |result| + at, v)
  {
    RestartField(result, all, end, at);
    Fixed32RoundTrip(v);
    OpenWord(result + all + end, |result| + at, v);
  }

  lemma {:induction false} LastOfWords(result: Bytes, words: seq<nat>, num: nat)
    requires |result| < TWO_32 && |words| == num + 1 && words[num] == |result|
    ensures |FixedAll(words)| == 4 * num + 4
    ensures WordIs(result + FixedAll(words) + [BASE_LG], |result| + 4 * num, |result|)
  {
    FixedAllLength(words);
    OneWord(result, words, [BASE_LG], num);
  }

  lemma {:induction false} FilterInPlace(result: Bytes, offsets: seq<nat>, o: nat, i: nat)
    requires |result| < TWO_32 && ShiftRight(o, BASE_LG) == i < |offsets|
    requires offsets[i] <= (offsets + [|result|])[i + 1] <= |result|
    ensures FilterFor(result + FixedAll(offsets + [|result|]) + [BASE_LG], o) == UseFilter(result[offsets[i]..(offsets + [|result|])[i + 1]])
  {
    var words := offsets + [|result|];
    OneWord(result, words, [BASE_LG], i);
    OneWord(result, words, [BASE_LG], i + 1);
    LastOfWords(result, words, |offsets|);
    FilterForIs(result, FixedAll(words), o, i, |offsets|, words[i], words[i + 1]);
  }

  lemma {:induction false} FilterForIs(result: Bytes, w: Bytes, o: nat, i: nat, num: nat, first: nat, limit: nat)
    requires ShiftRight(o, BASE_LG) == i < num && |w| == 4 * num + 4 && first <= limit <= |result|
    requires WordIs(result + w + [BASE_LG], |result| + 4 * num, |result|)
    requires WordIs(result + w + [BASE_LG], |result| + 4 * i, first) && WordIs(result + w + [BASE_LG], |result| + 4 * (i + 1), limit)
    ensures FilterFor(result + w + [BASE_LG], o) == UseFilter(result[first..limit])
  {
    var c := result + w + [BASE_LG];
    OpenWord(c, |result| + 4 * num, |result|);
    OpenWord(c, |result| + 4 * i, first);
    OpenWord(c, |result| + 4 * (i + 1), limit);
    FilterSealOpens(|c| + 9, c, o);
    PrefixSlice(result, w, [BASE_LG], first, limit);
  }

  lemma {:induction false} ShiftStep(x: nat, n: nat)
    ensures ShiftRight(x, n + 1) == ShiftRight(x / 2, n)
  {
  }

  lemma {:induction false} ShiftThree(x: nat, n: nat)
    ensures ShiftRight(x, n + 3) == ShiftRight(x / 8, n)
  {
    ShiftStep(x, n + 2);
    ShiftStep(x / 2, n + 1);
    ShiftStep(x / 2 / 2, n);
  }

  lemma {:induction false} ShiftByBase(x: nat)
    ensures ShiftRight(x, BASE_LG) == x / BASE
  {
    ShiftThree(x, 8);
    ShiftThree(x / 8, 5);
    ShiftThree(x / 64, 2);
    ShiftStep(x / 512, 1);
    ShiftStep(x / 1024, 0);
  }

  lemma {:induction false} PieceBounds(create: Create, filters: seq<seq<Bytes>>, offsets: seq<nat>, i: nat)
    requires OffsetsAre(create, filters, offsets) && i < |filters|
    ensures var result := Results(create, filters);
            var limit := (offsets + [|result|])[i + 1];
            offsets[i] <= limit <= |result| && result[offsets[i]..limit] == Piece(create, filters[i])
  {
    var result := Results(create, filters);
    ResultsUpTo(create, filters, i);
    ResultsUpTo(create, filters, i + 1);
    assert filters[..|filters|] == filters;
    assert (offsets + [|result|])[i + 1] == |Results(create, filters[..i + 1])|;
    CutOne(result, Results(create, filters[..i]), Piece(create, filters[i]));
  }

  /** For a block at offset `o`, what is asked is the filter of the keys of its 2 KB. */
  lemma {:induction false} FilterIsAsked(create: Create, matches: Match, filters: seq<seq<Bytes>>, offsets: seq<nat>, o: nat,
      query: Bytes)
    requires OffsetsAre(create, filters, offsets) && |Results(create, filters)| < TWO_32 && o / 2048 < |filters|
    ensures var result, keys := Results(create, filters), filters[o / 2048];
            Answers(result + FixedAll(offsets) + Fixed(4, |result|) + [11], o, query, matches) <==>
              matches(query, if keys == [] then [] else create(keys))
  {
    FilterReadsBack(create, filters, offsets, o);
  }

  /** A table's filter never hides a key if its policy does not: asked about any key that
      was added, at the offset of the block that it went into, it answers that it may match. */
  lemma {:induction false} FilterNeverHides(create: Create, matches: Match, same: (Bytes, Bytes) -> bool,
      filters: seq<seq<Bytes>>, offsets: seq<nat>, o: nat, key: Bytes, query: Bytes)
    requires Sound(create, matches, same) && same(key, query)
    requires OffsetsAre(create, filters, offsets) && |Results(create, filters)| < TWO_32
    requires o / BASE < |filters| && key in filters[o / BASE]
    ensures var result := Results(create, filters);
            Answers(result + FixedAll(offsets) + Fixed(4, |result|) + [BASE_LG], o, query, matches)
  {
    FilterReadsBack(create, filters, offsets, o);
    var keys := filters[o / BASE];
    var i :| 0 <= i < |keys| && keys[i] == key;
    assert same(keys[i], query);
    assert matches(query, create(keys));
  }
}
