// User keys, internal keys and entries (db/dbformat.h, db/dbformat.cc), and the
// plain versioned map that the whole engine must behave like.
//
// A user key is a real number: the engine only ever compares user keys, and
// `KeyOrder.Rank` embeds byte strings under the bytewise order into the reals.
module Keys {

  datatype Option<+T> = None | Some(value: T)

  type UserKey = real

  datatype ValueType = Deletion | Value

  datatype InternalKey = InternalKey(user: UserKey, sn: nat, kind: ValueType)

  datatype Entry = Entry(key: InternalKey, value: string)

  /** The largest sequence number that fits beside the type byte. */
  const MAX_SEQUENCE: nat := 0x100_0000_0000_0000 - 1

  /** Sequence number and type packed into one number, the type in the low byte. */
  function Tag(k: InternalKey): nat {
    k.sn * 256 + (if k.kind.Value? then 1 else 0)
  }

  /** Increasing user key, then decreasing tag. */
  predicate Less(a: InternalKey, b: InternalKey) {
    a.user < b.user || (a.user == b.user && Tag(a) > Tag(b))
  }

  predicate LessEq(a: InternalKey, b: InternalKey) {
    !Less(b, a)
  }

  /** The position from which the newest entry of `u` at snapshot `s` is sought. */
  function SeekKey(u: UserKey, s: nat): InternalKey {
    InternalKey(u, s, Value)
  }

  ghost predicate Sorted(es: seq<Entry>) {
    forall i, j :: 0 <= i < j < |es| ==> Less(es[i].key, es[j].key)
  }

  /** Index of the first entry at or after `k`; `|es|` when there is none. */
  function LowerBound(es: seq<Entry>, k: InternalKey): (r: nat)
    ensures r <= |es|
    ensures forall i :: 0 <= i < r ==> Less(es[i].key, k)
    ensures r < |es| ==> !Less(es[r].key, k)
  {
    if |es| == 0 || !Less(es[0].key, k) then 0 else 1 + LowerBound(es[1..], k)
  }

  /** On a sorted sequence the lower bound separates the whole sequence. */
  lemma {:induction false} LowerBoundSplits(es: seq<Entry>, k: InternalKey, i: nat)
    requires Sorted(es) && i < |es|
    ensures Less(es[i].key, k) <==> i < LowerBound(es, k)
  {
  }

  /** Where the lower bound of an element's own key lies. */
  lemma {:induction false} LowerBoundOfMember(es: seq<Entry>, i: nat)
    requires Sorted(es) && i < |es|
    ensures LowerBound(es, es[i].key) == i
  {
  }

  // ----- reading at a snapshot -----

  ghost predicate Candidate(e: Entry, u: UserKey, s: nat) {
    e.key.user == u && e.key.sn <= s
  }

  /** `e` is the newest entry of `u` that snapshot `s` may see in `S`. */
  ghost predicate IsNewest(S: set<Entry>, u: UserKey, s: nat, e: Entry) {
    e in S && Candidate(e, u, s) && forall f :: f in S && Candidate(f, u, s) ==> f.key.sn <= e.key.sn
  }

  function Shown(e: Entry): Option<string> {
    if e.key.kind.Value? then Some(e.value) else None
  }

  /** No two entries carry the same sequence number. */
  ghost predicate DistinctSequences(S: set<Entry>) {
    forall e, f :: e in S && f in S && e.key.sn == f.key.sn ==> e == f
  }

  /** What a read of `u` at snapshot `s` returns from the entries `S`. */
  ghost predicate Reads(S: set<Entry>, u: UserKey, s: nat, r: Option<string>) {
    || (exists e :: IsNewest(S, u, s, e) && r == Shown(e))
    || (r == None && forall e :: e in S ==> !Candidate(e, u, s))
  }

  lemma {:induction false} NewestExists(S: set<Entry>, u: UserKey, s: nat, c: Entry) returns (e: Entry)
    requires c in S && Candidate(c, u, s)
    ensures IsNewest(S, u, s, e)
  {
    if forall f :: f in S && Candidate(f, u, s) ==> f.key.sn <= c.key.sn {
      e := c;
    } else {
      var f :| f in S && Candidate(f, u, s) && f.key.sn > c.key.sn;
      var rest := S - {c};
      e := NewestExists(rest, u, s, f);
    }
  }

  /** A read has exactly one answer. */
  lemma {:induction false} ReadIsDefined(S: set<Entry>, u: UserKey, s: nat) returns (r: Option<string>)
    requires DistinctSequences(S)
    ensures Reads(S, u, s, r)
    ensures forall q :: Reads(S, u, s, q) ==> q == r
  {
    if c :| c in S && Candidate(c, u, s) {
      var e := NewestExists(S, u, s, c);
      r := Shown(e);
    } else {
      r := None;
    }
  }

  // ----- the abstract store -----

  /** The write history: sequence numbers grow, without gaps as long as no crash takes the
      tail of a log. */
  ghost predicate IsHistory(h: seq<Entry>) {
    && (forall i :: 0 <= i < |h| ==> 0 < h[i].key.sn)
    && forall i, j :: 0 <= i < j < |h| ==> h[i].key.sn < h[j].key.sn
  }

  /** The number of the last operation. */
  function LastOf(h: seq<Entry>): nat {
    if |h| == 0 then 0 else h[|h| - 1].key.sn
  }

  /** The plain versioned map: the effect on `u` of the operations numbered up to `s`. */
  ghost function HistoryRead(h: seq<Entry>, u: UserKey, s: nat): Option<string> {
    if |h| == 0 then None
    else
      var last := h[|h| - 1];
      if Candidate(last, u, s) then Shown(last) else HistoryRead(h[..|h| - 1], u, s)
  }

  /** A history goes on with operations that are numbered upwards from beyond its last. */
  lemma {:induction false} HistoryGrows(h: seq<Entry>, more: seq<Entry>)
    requires IsHistory(h) && IsHistory(more) && (|more| > 0 ==> LastOf(h) < more[0].key.sn)
    ensures IsHistory(h + more) && LastOf(h + more) == if |more| > 0 then LastOf(more) else LastOf(h)
  {
    forall i, j | 0 <= i < j < |h + more| ensures (h + more)[i].key.sn < (h + more)[j].key.sn {
      if i < |h| <= j {
        assert h[i].key.sn <= LastOf(h) < more[0].key.sn <= more[j - |h|].key.sn;
      }
    }
  }

  lemma {:induction false} HistoryPrefix(h: seq<Entry>, n: nat)
    requires IsHistory(h) && n <= |h|
    ensures IsHistory(h[..n]) && LastOf(h[..n]) <= LastOf(h)
  {
  }

  ghost function Elements(h: seq<Entry>): set<Entry> {
    set e | e in h
  }

  /** The versioned map is what reading the set of all operations gives. */
  lemma {:induction false} HistoryReads(h: seq<Entry>, u: UserKey, s: nat)
    requires IsHistory(h)
    ensures Reads(Elements(h), u, s, HistoryRead(h, u, s))
  {
    if |h| > 0 {
      var n := |h| - 1;
      var before, last := h[..n], h[n];
      assert h == before + [last];
      HistoryReads(before, u, s);
      assert Elements(h) == Elements(before) + {last};
      if Candidate(last, u, s) {
        assert IsNewest(Elements(h), u, s, last);
      } else {
        var r := HistoryRead(before, u, s);
        if e :| IsNewest(Elements(before), u, s, e) && r == Shown(e) {
          assert IsNewest(Elements(h), u, s, e);
        }
      }
    }
  }
}
