// Sorted merging of entry sequences: the mathematical sequence a merging
// iterator walks (table/merger.cc).
module Merge {
  import opened Keys

  /** No key occurs in both. */
  ghost predicate NoCommonKey(a: set<Entry>, b: set<Entry>) {
    forall e, f :: e in a && f in b ==> e.key != f.key
  }

  /** Entries of two sorted sequences in one sorted sequence. */
  function MergeTwo(a: seq<Entry>, b: seq<Entry>): seq<Entry>
    decreases |a| + |b|
  {
    if |a| == 0 then b
    else if |b| == 0 then a
    else if Less(b[0].key, a[0].key) then [b[0]] + MergeTwo(a, b[1..])
    else [a[0]] + MergeTwo(a[1..], b)
  }

  lemma {:induction false} MergeTwoElements(a: seq<Entry>, b: seq<Entry>)
    ensures Elements(MergeTwo(a, b)) == Elements(a) + Elements(b)
    decreases |a| + |b|
  {
    if |a| == 0 || |b| == 0 {
    } else if Less(b[0].key, a[0].key) {
      MergeTwoElements(a, b[1..]);
      assert b == [b[0]] + b[1..];
      assert Elements(b) == {b[0]} + Elements(b[1..]);
      assert Elements(MergeTwo(a, b)) == {b[0]} + Elements(MergeTwo(a, b[1..]));
    } else {
      MergeTwoElements(a[1..], b);
      assert a == [a[0]] + a[1..];
      assert Elements(a) == {a[0]} + Elements(a[1..]);
      assert Elements(MergeTwo(a, b)) == {a[0]} + Elements(MergeTwo(a[1..], b));
    }
  }

  lemma {:induction false} SortedCons(e: Entry, es: seq<Entry>)
    requires Sorted(es) && forall f :: f in Elements(es) ==> Less(e.key, f.key)
    ensures Sorted([e] + es)
  {
    forall i | 0 <= i < |es| ensures Less(e.key, es[i].key) {
      assert es[i] in Elements(es);
    }
  }

  lemma {:induction false} HeadIsLeast(es: seq<Entry>, f: Entry)
    requires Sorted(es) && |es| > 0 && f in es
    ensures f == es[0] || Less(es[0].key, f.key)
  {
  }

  lemma {:induction false} MergeTwoSorted(a: seq<Entry>, b: seq<Entry>)
    requires Sorted(a) && Sorted(b) && NoCommonKey(Elements(a), Elements(b))
    ensures Sorted(MergeTwo(a, b))
    decreases |a| + |b|
  {
    if |a| > 0 && |b| > 0 {
      assert a[0] in Elements(a) && b[0] in Elements(b);
      var e, rest := b[0], MergeTwo(a, b[1..]);
      if Less(b[0].key, a[0].key) {
        MergeTwoSorted(a, b[1..]);
        MergeTwoElements(a, b[1..]);
      } else {
        e, rest := a[0], MergeTwo(a[1..], b);
        MergeTwoSorted(a[1..], b);
        MergeTwoElements(a[1..], b);
      }
      forall f | f in Elements(rest) ensures Less(e.key, f.key) {
        if f in a {
          HeadIsLeast(a, f);
        } else {
          HeadIsLeast(b, f);
        }
        assert a[0].key != b[0].key;
      }
      SortedCons(e, rest);
    }
  }

  /** The sorted merge of any number of sequences. */
  function MergeAll(lists: seq<seq<Entry>>): seq<Entry> {
    if |lists| == 0 then [] else MergeTwo(MergeAll(lists[..|lists| - 1]), lists[|lists| - 1])
  }

  ghost function AllElements(lists: seq<seq<Entry>>): set<Entry> {
    set i, e | 0 <= i < |lists| && e in lists[i] :: e
  }

  /** Each list is sorted, and no key occurs in two of them. */
  ghost predicate Mergeable(lists: seq<seq<Entry>>) {
    && (forall i :: 0 <= i < |lists| ==> Sorted(lists[i]))
    && forall i, j :: 0 <= i < j < |lists| ==> NoCommonKey(Elements(lists[i]), Elements(lists[j]))
  }

  lemma {:induction false} MergeAllElements(lists: seq<seq<Entry>>)
    ensures Elements(MergeAll(lists)) == AllElements(lists)
  {
    if |lists| > 0 {
      var n := |lists| - 1;
      var before := lists[..n];
      MergeAllElements(before);
      MergeTwoElements(MergeAll(before), lists[n]);
      assert AllElements(lists) == AllElements(before) + Elements(lists[n]) by {
        forall e ensures e in AllElements(lists) <==> e in AllElements(before) + Elements(lists[n]) {
          if e in AllElements(lists) {
            var i :| 0 <= i < |lists| && e in lists[i];
            assert i < n ==> before[i] == lists[i];
          }
          if e in AllElements(before) {
            var i :| 0 <= i < n && e in before[i];
            assert e in lists[i];
          }
        }
      }
    }
  }

  lemma {:induction false} MergeAllSorted(lists: seq<seq<Entry>>)
    requires Mergeable(lists)
    ensures Sorted(MergeAll(lists))
  {
    if |lists| > 0 {
      var n := |lists| - 1;
      var before := lists[..n];
      assert forall i :: 0 <= i < n ==> before[i] == lists[i];
      MergeAllSorted(before);
      MergeAllElements(before);
      forall e, f | e in AllElements(before) && f in Elements(lists[n]) ensures e.key != f.key {
        var i :| 0 <= i < n && e in before[i];
        assert NoCommonKey(Elements(lists[i]), Elements(lists[n]));
        assert e in Elements(lists[i]);
      }
      MergeTwoSorted(MergeAll(before), lists[n]);
    }
  }
}
