// Sequences of sequences, end to end: the blocks of a table, the records of a log, the
// keys of a filter.
module Seqs {

  function Concat<T>(parts: seq<seq<T>>): seq<T> {
    if |parts| == 0 then [] else Concat(parts[..|parts| - 1]) + parts[|parts| - 1]
  }

  /** What the first `i` parts give, and what one more adds. */
  lemma {:induction false} ConcatUpTo<T>(parts: seq<seq<T>>, i: nat)
    requires i <= |parts|
    ensures Concat(parts[..i]) <= Concat(parts)
    ensures i < |parts| ==> Concat(parts[..i + 1]) == Concat(parts[..i]) + parts[i]
    decreases |parts| - i
  {
    if i < |parts| {
      assert parts[..i + 1][..i] == parts[..i];
      ConcatUpTo(parts, i + 1);
    } else {
      assert parts[..i] == parts;
    }
  }

  lemma {:induction false} ConcatAppend<T>(parts: seq<seq<T>>, part: seq<T>)
    ensures Concat(parts + [part]) == Concat(parts) + part
  {
    assert (parts + [part])[..|parts|] == parts;
  }
}
