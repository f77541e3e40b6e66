// A cursor over a sorted sequence of entries: what every iterator of the engine
// (memtable, block, table, level) offers to the ones stacked on it.
module Iterators {
  import opened Keys

  class EntryIter {
    const entries: seq<Entry>
    /** `|entries|` when the iterator is not valid, at either end. */
    var pos: nat

    constructor (entries: seq<Entry>)
      ensures this.entries == entries && pos == |entries|
    {
      this.entries, pos := entries, |entries|;
    }

    predicate Valid()
      reads this
    {
      pos < |entries|
    }

    function Current(): Entry
      requires Valid()
      reads this
    {
      entries[pos]
    }

    method SeekToFirst()
      modifies this
      ensures pos == 0
    {
      pos := 0;
    }

    method SeekToLast()
      modifies this
      ensures pos == if |entries| == 0 then 0 else |entries| - 1
    {
      pos := if |entries| == 0 then 0 else |entries| - 1;
    }

    method Seek(target: InternalKey)
      modifies this
      ensures pos == LowerBound(entries, target)
    {
      pos := LowerBound(entries, target);
    }

    method Next()
      requires Valid()
      modifies this
      ensures pos == old(pos) + 1
    {
      pos := pos + 1;
    }

    method Prev()
      requires Valid()
      modifies this
      ensures pos == if old(pos) == 0 then |entries| else old(pos) - 1
    {
      pos := if pos == 0 then |entries| else pos - 1;
    }
  }
}
