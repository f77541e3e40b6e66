// What dropping entries does to readers: the exact condition under which a
// compaction keeps every read at or after its smallest snapshot.
module CompactionReads {
  import opened Keys
  import opened Compaction

  /** Every read from `smallest` on has the same answers in both. */
  ghost predicate SameReads(a: set<Entry>, b: set<Entry>, smallest: nat) {
    forall u, s, r :: smallest <= s ==> (Reads(a, u, s, r) <==> Reads(b, u, s, r))
  }

  /** Everything a reader can find before and after merging `es`. */
  ghost function BeforeMerge(es: seq<Entry>, rest: set<Entry>): set<Entry> {
    Elements(es) + rest
  }

  ghost function AfterMerge(es: seq<Entry>, rest: set<Entry>, smallest: nat, levels: Levels, level: nat): set<Entry>
    requires LevelsOk(levels)
  {
    Elements(Kept(es, |es|, smallest, levels, level)) + rest
  }

  /** Rule (B) drops `es[i]`, the newest visible entry of its key, and what is
      left to see of that key outside the inputs is a value. */
  ghost predicate Resurfaces(es: seq<Entry>, rest: set<Entry>, smallest: nat, levels: Levels, level: nat, i: nat)
    requires LevelsOk(levels)
  {
    && i < |es| && Obsolete(es[i], smallest, levels, level)
    && IsNewest(BeforeMerge(es, rest), es[i].key.user, smallest, es[i])
    && exists g :: IsNewest(rest, es[i].key.user, smallest, g) && g.key.kind.Value?
  }

  /** The newest visible entry of a key is never hidden by rule (A). */
  lemma {:induction false} NewestIsNotHidden(es: seq<Entry>, rest: set<Entry>, smallest: nat, s: nat, i: nat)
    requires Sorted(es) && i < |es| && smallest <= s && DistinctSequences(BeforeMerge(es, rest))
    requires IsNewest(BeforeMerge(es, rest), es[i].key.user, s, es[i])
    ensures !Hidden(es, i, smallest)
  {
    if i > 0 {
      assert Less(es[i - 1].key, es[i].key);
      assert es[i - 1] in BeforeMerge(es, rest) && es[i] in BeforeMerge(es, rest);
    }
  }

  /** Once a dropped tombstone was the newest, nothing of its key is left in the inputs. */
  lemma {:induction false} OlderAreHidden(es: seq<Entry>, rest: set<Entry>, smallest: nat, levels: Levels,
      level: nat, i: nat, s: nat, f: Entry)
    requires Sorted(es) && LevelsOk(levels) && i < |es| && DistinctSequences(BeforeMerge(es, rest))
    requires Obsolete(es[i], smallest, levels, level) && IsNewest(BeforeMerge(es, rest), es[i].key.user, s, es[i])
    requires f in Kept(es, |es|, smallest, levels, level)
    ensures !Candidate(f, es[i].key.user, s)
  {
    KeptMembers(es, |es|, smallest, levels, level, f);
    var j :| 0 <= j < |es| && es[j] == f && !Dropped(es, j, smallest, levels, level);
    HiddenMeansCovered(es, j, smallest);
    assert f in BeforeMerge(es, rest) && es[i] in BeforeMerge(es, rest);
    assert j < i ==> Less(es[j].key, es[i].key);
  }

  lemma {:induction false} KeptIsInput(es: seq<Entry>, smallest: nat, levels: Levels, level: nat)
    requires LevelsOk(levels)
    ensures Elements(Kept(es, |es|, smallest, levels, level)) <= Elements(es)
  {
    forall e | e in Kept(es, |es|, smallest, levels, level) ensures e in es {
      KeptMembers(es, |es|, smallest, levels, level, e);
    }
  }

  /** One read across the merge, unless a deleted value resurfaces. */
  lemma {:induction false} OneReadKept(es: seq<Entry>, rest: set<Entry>, smallest: nat, levels: Levels,
      level: nat, u: UserKey, s: nat) returns (r: Option<string>)
    requires Sorted(es) && LevelsOk(levels) && smallest <= s && DistinctSequences(BeforeMerge(es, rest))
    requires forall i: nat :: !Resurfaces(es, rest, smallest, levels, level, i)
    ensures Reads(BeforeMerge(es, rest), u, s, r) && Reads(AfterMerge(es, rest, smallest, levels, level), u, s, r)
  {
    var before, after := BeforeMerge(es, rest), AfterMerge(es, rest, smallest, levels, level);
    KeptIsInput(es, smallest, levels, level);
    assert after <= before;
    if c :| c in before && Candidate(c, u, s) {
      var e := NewestExists(before, u, s, c);
      r := Shown(e);
      if e in after {
        assert IsNewest(after, u, s, e);
      } else {
        var i :| 0 <= i < |es| && es[i] == e;
        NewestIsNotHidden(es, rest, smallest, s, i);
        KeptMembers(es, |es|, smallest, levels, level, e);
        assert Obsolete(es[i], smallest, levels, level);
        forall f | f in Kept(es, |es|, smallest, levels, level) ensures !Candidate(f, u, s) {
          OlderAreHidden(es, rest, smallest, levels, level, i, s, f);
        }
        if d :| d in rest && Candidate(d, u, s) {
          var g := NewestExists(rest, u, s, d);
          assert IsNewest(before, u, smallest, e);
          assert IsNewest(rest, u, smallest, g);
          assert !Resurfaces(es, rest, smallest, levels, level, i);
          assert IsNewest(after, u, s, g);
        }
      }
    } else {
      r := None;
    }
  }

  lemma {:induction false} AnswersAgree(a: set<Entry>, b: set<Entry>, u: UserKey, s: nat, r: Option<string>)
    requires DistinctSequences(a) && DistinctSequences(b) && Reads(a, u, s, r) && Reads(b, u, s, r)
    ensures forall q :: Reads(a, u, s, q) <==> Reads(b, u, s, q)
  {
    var ra := ReadIsDefined(a, u, s);
    var rb := ReadIsDefined(b, u, s);
  }

  /** A compaction keeps every read at its smallest snapshot and after it exactly
      when no deleted value resurfaces from outside its inputs. */
  lemma {:induction false} CompactionKeepsReadsExactly(es: seq<Entry>, rest: set<Entry>, smallest: nat,
      levels: Levels, level: nat)
    requires Sorted(es) && LevelsOk(levels) && DistinctSequences(BeforeMerge(es, rest))
    ensures SameReads(BeforeMerge(es, rest), AfterMerge(es, rest, smallest, levels, level), smallest)
            <==> forall i: nat :: !Resurfaces(es, rest, smallest, levels, level, i)
  {
    var before, after := BeforeMerge(es, rest), AfterMerge(es, rest, smallest, levels, level);
    KeptIsInput(es, smallest, levels, level);
    if i: nat :| Resurfaces(es, rest, smallest, levels, level, i) {
      var u := es[i].key.user;
      var g :| IsNewest(rest, u, smallest, g) && g.key.kind.Value?;
      forall f | f in Kept(es, |es|, smallest, levels, level) ensures !Candidate(f, u, smallest) {
        OlderAreHidden(es, rest, smallest, levels, level, i, smallest, f);
      }
      assert IsNewest(after, u, smallest, g);
      assert Reads(after, u, smallest, Some(g.value));
      assert Reads(before, u, smallest, Shown(es[i]));
      var r := ReadIsDefined(before, u, smallest);
      assert !SameReads(before, after, smallest);
    } else {
      forall u, s, q | smallest <= s ensures Reads(before, u, s, q) <==> Reads(after, u, s, q) {
        var r := OneReadKept(es, rest, smallest, levels, level, u, s);
        AnswersAgree(before, after, u, s, r);
      }
    }
  }
}
