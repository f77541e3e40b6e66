// Group commit (DBImpl::Write and BuildBatchGroup in db/db_impl.cc): writers queue up,
// the one at the front commits a batch for itself and some of those behind it. Every
// method here is one atomic step, taken with the mutex held or by the sole leader, so
// an interleaving of writers is any sequence of these steps.
module WriteQueue {
  import opened Keys
  import opened WriteBatches

  /** One call of Write; a compaction request has no batch. */
  datatype Request = Request(batch: Option<seq<BatchOp>>, sync: bool)

  /** A log record: the sequence number it starts with, its operations, whether the
      file was synced after it. */
  datatype LogRecord = LogRecord(first: nat, ops: seq<BatchOp>, synced: bool)

  function OpsIn(r: Request): seq<BatchOp> {
    if r.batch.Some? then r.batch.value else []
  }

  /** All operations of these requests, in queue order. */
  function OpsOf(requests: seq<Request>): seq<BatchOp> {
    if |requests| == 0 then [] else OpsOf(requests[..|requests| - 1]) + OpsIn(requests[|requests| - 1])
  }

  /** One request is its batch; a compaction request is nothing. */
  lemma {:induction false} OpsOfOne(r: Request)
    ensures OpsOf([r]) == match r.batch case Some(ops) => ops case None => []
  {
    assert [r][..0] == [];
  }

  lemma {:induction false} OpsAppend(a: seq<Request>, b: seq<Request>)
    ensures OpsOf(a + b) == OpsOf(a) + OpsOf(b)
  {
    if |b| == 0 {
      assert a + b == a;
    } else {
      assert (a + b)[..|a + b| - 1] == a + b[..|b| - 1];
      OpsAppend(a, b[..|b| - 1]);
    }
  }

  /** All operations in the log, in order. */
  function Logged(log: seq<LogRecord>): seq<BatchOp> {
    if |log| == 0 then [] else Logged(log[..|log| - 1]) + log[|log| - 1].ops
  }

  lemma {:induction false} LoggedAppend(log: seq<LogRecord>, r: LogRecord)
    ensures Logged(log + [r]) == Logged(log) + r.ops
  {
    assert (log + [r])[..|log|] == log;
  }

  function ByteSize(ops: seq<BatchOp>): nat {
    BATCH_HEADER + |EncodeOps(ops)|
  }

  function MaxSize(first: Request): nat
    requires first.batch.Some?
  {
    var size := ByteSize(first.batch.value);
    if size <= 0x2_0000 then size + 0x2_0000 else 0x10_0000
  }

  /** The bytes of the batches of the first `n` requests. */
  function SizeUpTo(queue: seq<Request>, n: nat): nat
    requires n <= |queue|
  {
    if n == 0 then 0
    else SizeUpTo(queue, n - 1) + (if queue[n - 1].batch.Some? then ByteSize(queue[n - 1].batch.value) else 0)
  }

  /** Request `i` may be committed together with all those before it: no sync write joins
      a non-sync one, and the whole stays within the limit. */
  ghost predicate MayJoin(queue: seq<Request>, i: nat)
    requires i < |queue| && queue[0].batch.Some?
  {
    && (queue[i].sync ==> queue[0].sync)
    && (queue[i].batch.Some? ==> SizeUpTo(queue, i + 1) <= MaxSize(queue[0]))
  }

  /** A group that the request at its front may commit. */
  ghost predicate IsGroup(group: seq<Request>) {
    |group| > 0 && group[0].batch.Some? && forall i :: 0 < i < |group| ==> MayJoin(group, i)
  }

  /** Nobody else of `queue` could have joined. */
  ghost predicate IsMaximal(queue: seq<Request>, n: nat)
    requires 0 < n <= |queue| && queue[0].batch.Some?
  {
    n < |queue| ==> !MayJoin(queue, n)
  }

  lemma {:induction false} GroupGrows(queue: seq<Request>, n: nat)
    requires n < |queue|
    ensures OpsOf(queue[..n + 1]) == OpsOf(queue[..n]) + OpsIn(queue[n])
  {
    assert queue[..n + 1][..n] == queue[..n];
  }

  /** The first `n` of `queue` can go together. */
  ghost predicate GroupUpTo(queue: seq<Request>, n: nat) {
    0 < n <= |queue| && queue[0].batch.Some? && (n == 1 || (GroupUpTo(queue, n - 1) && MayJoin(queue, n - 1)))
  }

  /** The operations of the first `n` requests. */
  function OpsUpTo(queue: seq<Request>, n: nat): seq<BatchOp>
    requires n <= |queue|
  {
    if n == 0 then [] else OpsUpTo(queue, n - 1) + OpsIn(queue[n - 1])
  }

  lemma {:induction false} OpsUpToIs(queue: seq<Request>, n: nat)
    requires n <= |queue|
    ensures OpsUpTo(queue, n) == OpsOf(queue[..n])
  {
    if n > 0 {
      OpsUpToIs(queue, n - 1);
      GroupGrows(queue, n - 1);
    }
  }

  lemma {:induction false} GroupStarts(queue: seq<Request>)
    requires |queue| > 0 && queue[0].batch.Some?
    ensures OpsUpTo(queue, 1) == queue[0].batch.value && SizeUpTo(queue, 1) == ByteSize(queue[0].batch.value)
    ensures GroupUpTo(queue, 1)
  {
    assert OpsUpTo(queue, 0) == [] && [] + queue[0].batch.value == queue[0].batch.value;
    assert SizeUpTo(queue, 0) == 0;
  }

  /** What one more request adds. */
  lemma {:induction false} OneMoreJoins(queue: seq<Request>, n: nat)
    requires GroupUpTo(queue, n) && n < |queue|
    ensures queue[n].batch.Some? ==>
              && OpsUpTo(queue, n + 1) == OpsUpTo(queue, n) + queue[n].batch.value
              && SizeUpTo(queue, n + 1) == SizeUpTo(queue, n) + ByteSize(queue[n].batch.value)
    ensures queue[n].batch.None? ==> OpsUpTo(queue, n + 1) == OpsUpTo(queue, n) && SizeUpTo(queue, n + 1) == SizeUpTo(queue, n)
    ensures MayJoin(queue, n) ==> GroupUpTo(queue, n + 1)
  {
    assert OpsUpTo(queue, n) + [] == OpsUpTo(queue, n);
  }

  lemma {:induction false} PrefixSize(queue: seq<Request>, n: nat, m: nat)
    requires m <= n <= |queue|
    ensures SizeUpTo(queue[..n], m) == SizeUpTo(queue, m)
  {
    if m > 0 {
      PrefixSize(queue, n, m - 1);
    }
  }

  lemma {:induction false} GroupMember(queue: seq<Request>, n: nat, i: nat)
    requires GroupUpTo(queue, n) && 0 < i < n
    ensures MayJoin(queue, i)
  {
    if i < n - 1 {
      GroupMember(queue, n - 1, i);
    }
  }

  lemma {:induction false} GroupIsGroup(queue: seq<Request>, n: nat)
    requires GroupUpTo(queue, n)
    ensures IsGroup(queue[..n])
  {
    forall i | 0 < i < n ensures MayJoin(queue[..n], i) {
      GroupMember(queue, n, i);
      PrefixSize(queue, n, i + 1);
    }
  }

  /** The size of some requests is that of their operations, and 12 bytes for each batch. */
  lemma {:induction false} SizeUpToIs(queue: seq<Request>, n: nat)
    requires n <= |queue|
    ensures SizeUpTo(queue, n) == |EncodeOps(OpsOf(queue[..n]))| + 12 * |set i | 0 <= i < n && queue[i].batch.Some?|
  {
    if n > 0 {
      SizeUpToIs(queue, n - 1);
      OneMoreSize(queue, n - 1);
      OneMoreBatch(queue, n - 1);
    }
  }

  lemma {:induction false} OneMoreSize(queue: seq<Request>, n: nat)
    requires n < |queue|
    ensures |EncodeOps(OpsOf(queue[..n + 1]))| == |EncodeOps(OpsOf(queue[..n]))| + |EncodeOps(OpsIn(queue[n]))|
    ensures SizeUpTo(queue, n + 1) == SizeUpTo(queue, n) + |EncodeOps(OpsIn(queue[n]))| + if queue[n].batch.Some? then 12 else 0
  {
    GroupGrows(queue, n);
    EncodeAppend(OpsOf(queue[..n]), OpsIn(queue[n]));
    assert EncodeOps([]) == [];
  }

  lemma {:induction false} OneMoreBatch(queue: seq<Request>, n: nat)
    requires n < |queue|
    ensures |set i | 0 <= i < n + 1 && queue[i].batch.Some?| ==
      |set i | 0 <= i < n && queue[i].batch.Some?| + if queue[n].batch.Some? then 1 else 0
  {
    var before, now := set i | 0 <= i < n && queue[i].batch.Some?, set i | 0 <= i < n + 1 && queue[i].batch.Some?;
    assert now == if queue[n].batch.Some? then before + {n} else before;
  }

  /** How many bytes a group may have that `size` bytes begin: 128 KB more, or 1 MB if these are many. */
  function Limit(size: nat): nat {
    if size <= 131072 then size + 131072 else 1048576
  }

  /** No sync request is with a front that is not, no batch goes over the limit, and the next request
      would break one of these rules. */
  ghost predicate EndsRightly(queue: seq<Request>, n: nat) {
    && 0 < n <= |queue|
    && (forall i :: 0 < i < n ==>
      && (queue[i].sync ==> queue[0].sync)
      && (queue[i].batch.Some? ==> SizeUpTo(queue, i + 1) <= Limit(SizeUpTo(queue, 1))))
    && (n < |queue| ==>
      || (queue[n].sync && !queue[0].sync)
      || (queue[n].batch.Some? && SizeUpTo(queue, n + 1) > Limit(SizeUpTo(queue, 1))))
  }

  /** Why a group ends where it ends. */
  lemma {:induction false} GroupEnds(queue: seq<Request>, n: nat)
    requires 0 < n <= |queue| && IsGroup(queue[..n]) && IsMaximal(queue, n)
    ensures EndsRightly(queue, n)
  {
    assert queue[..n][0] == queue[0];
    GroupStarts(queue);
    forall i | 0 < i < n
      ensures queue[i].sync ==> queue[0].sync
      ensures queue[i].batch.Some? ==> SizeUpTo(queue, i + 1) <= Limit(SizeUpTo(queue, 1))
    {
      assert MayJoin(queue[..n], i) && queue[..n][i] == queue[i];
      PrefixSize(queue, n, i + 1);
    }
  }

  /** Who is committed together with the front of the queue, and what. */
  method BuildBatchGroup(queue: seq<Request>) returns (n: nat, result: seq<BatchOp>)
    requires |queue| > 0 && queue[0].batch.Some?
    ensures 0 < n <= |queue| && result == OpsOf(queue[..n]) && IsGroup(queue[..n]) && IsMaximal(queue, n)
    ensures EndsRightly(queue, n)
  {
    var first := queue[0];
    var size := ByteSize(first.batch.value);
    var maxSize := if size <= 0x2_0000 then size + 0x2_0000 else 0x10_0000;
    result := first.batch.value;
    n := 1;
    GroupStarts(queue);
    while n < |queue|
      invariant GroupUpTo(queue, n) && result == OpsUpTo(queue, n) && size == SizeUpTo(queue, n)
    {
      var w := queue[n];
      OneMoreJoins(queue, n);
      if w.sync && !first.sync {
        break;
      }
      if w.batch.Some? {
        size := size + ByteSize(w.batch.value);
        if size > maxSize {
          break;
        }
        result := result + w.batch.value;
      }
      n := n + 1;
    }
    OpsUpToIs(queue, n);
    GroupIsGroup(queue, n);
    GroupEnds(queue, n);
  }

  // ----- what log and memtable hold -----

  /** The memtable holds exactly these operations, numbered from 1 on. */
  ghost predicate MemHolds(mem: seq<(nat, BatchOp)>, ops: seq<BatchOp>) {
    |mem| == |ops| && forall i :: 0 <= i < |mem| ==> mem[i] == (i + 1, ops[i])
  }

  /** Every record starts with the number after all operations before it. */
  ghost predicate RecordsNumbered(log: seq<LogRecord>) {
    forall r :: 0 <= r < |log| ==> log[r].first == |Logged(log[..r])| + 1
  }

  /** With the first `c` requests completed, the first `l` logged and the first `m` in
      the memtable. */
  ghost predicate Numbered(requests: seq<Request>, c: nat, l: nat, m: nat, log: seq<LogRecord>,
      mem: seq<(nat, BatchOp)>, last: nat) {
    && c <= |requests| && l <= |requests| && m <= |requests|
    && Logged(log) == OpsOf(requests[..l]) && RecordsNumbered(log)
    && MemHolds(mem, OpsOf(requests[..m])) && last == |OpsOf(requests[..c])|
  }

  /** Request `i` is among those whose operations record `r` carries. */
  ghost predicate InRecord(requests: seq<Request>, log: seq<LogRecord>, i: int, r: int) {
    && 0 <= i < |requests| && 0 <= r < |log|
    && |Logged(log[..r])| <= |OpsOf(requests[..i])|
    && |OpsOf(requests[..i])| + |OpsIn(requests[i])| <= |Logged(log[..r])| + |log[r].ops|
  }

  ghost predicate IsSynced(requests: seq<Request>, log: seq<LogRecord>, i: int) {
    exists r :: InRecord(requests, log, i, r) && log[r].synced
  }

  /** Every completed sync request with a batch is in a record that was synced. */
  ghost predicate SyncsKept(requests: seq<Request>, c: nat, log: seq<LogRecord>)
    requires c <= |requests|
  {
    forall i :: 0 <= i < c && requests[i].sync && requests[i].batch.Some? ==> IsSynced(requests, log, i)
  }

  lemma {:induction false} GroupFollows(requests: seq<Request>, c: nat, n: nat)
    requires c + n <= |requests|
    ensures OpsOf(requests[..c + n]) == OpsOf(requests[..c]) + OpsOf(requests[c..][..n])
  {
    assert requests[..c + n] == requests[..c] + requests[c..][..n];
    OpsAppend(requests[..c], requests[c..][..n]);
  }

  lemma {:induction false} JoinKeeps(requests: seq<Request>, r: Request, c: nat, l: nat, m: nat,
      log: seq<LogRecord>, mem: seq<(nat, BatchOp)>, last: nat)
    requires Numbered(requests, c, l, m, log, mem, last) && SyncsKept(requests, c, log)
    ensures Numbered(requests + [r], c, l, m, log, mem, last) && SyncsKept(requests + [r], c, log)
  {
    var more := requests + [r];
    assert more[..c] == requests[..c] && more[..l] == requests[..l] && more[..m] == requests[..m];
    forall i | 0 <= i < c && more[i].sync && more[i].batch.Some? ensures IsSynced(more, log, i) {
      assert IsSynced(requests, log, i);
      var k :| InRecord(requests, log, i, k) && log[k].synced;
      assert more[..i] == requests[..i];
      assert InRecord(more, log, i, k);
    }
  }

  lemma {:induction false} AppendKeeps(requests: seq<Request>, c: nat, n: nat, log: seq<LogRecord>,
      mem: seq<(nat, BatchOp)>, last: nat, record: LogRecord)
    requires Numbered(requests, c, c, c, log, mem, last) && SyncsKept(requests, c, log) && c + n <= |requests|
    requires record.first == last + 1 && record.ops == OpsOf(requests[c..][..n])
    ensures Numbered(requests, c, c + n, c, log + [record], mem, last) && SyncsKept(requests, c, log + [record])
  {
    var log' := log + [record];
    GroupFollows(requests, c, n);
    LoggedAppend(log, record);
    forall r | 0 <= r < |log'| ensures log'[r].first == |Logged(log'[..r])| + 1 {
      assert log'[..r] == log[..r];
      if r == |log| {
        assert log[..r] == log;
      }
    }
    forall i | 0 <= i < c && requests[i].sync && requests[i].batch.Some? ensures IsSynced(requests, log', i) {
      assert IsSynced(requests, log, i);
      var k :| InRecord(requests, log, i, k) && log[k].synced;
      assert log'[..k] == log[..k];
      assert InRecord(requests, log', i, k);
    }
  }

  lemma {:induction false} LastRecordFirst(requests: seq<Request>, c: nat, n: nat, log: seq<LogRecord>,
      mem: seq<(nat, BatchOp)>, last: nat)
    requires Numbered(requests, c, c + n, c, log, mem, last) && |log| > 0 && log[|log| - 1].ops == OpsOf(requests[c..][..n])
    ensures log[|log| - 1].first == last + 1 == |mem| + 1
  {
    GroupFollows(requests, c, n);
    assert Logged(log) == Logged(log[..|log| - 1]) + log[|log| - 1].ops;
  }

  /** The requests of a group share the last record. */
  lemma {:induction false} GroupIsInLastRecord(requests: seq<Request>, log: seq<LogRecord>, c: nat, n: nat, i: nat)
    requires c <= i < c + n <= |requests| && |log| > 0
    requires Logged(log) == OpsOf(requests[..c + n]) && log[|log| - 1].ops == OpsOf(requests[c..][..n])
    ensures InRecord(requests, log, i, |log| - 1)
  {
    LastRecordSize(requests, log, c, n);
    GroupBounds(requests, c, n, i);
  }

  /** The operations of a request lie between those before its group and those up to the group's end. */
  lemma {:induction false} GroupBounds(requests: seq<Request>, c: nat, n: nat, i: nat)
    requires c <= i < c + n <= |requests|
    ensures |OpsOf(requests[..c])| <= |OpsOf(requests[..i])|
    ensures |OpsOf(requests[..i])| + |OpsIn(requests[i])| <= |OpsOf(requests[..c + n])|
  {
    OpsCountGrows(requests, c, i);
    OneMoreRequest(requests, i);
    OpsCountGrows(requests, i + 1, c + n);
  }

  lemma {:induction false} OneMoreRequest(requests: seq<Request>, i: nat)
    requires i < |requests|
    ensures |OpsOf(requests[..i + 1])| == |OpsOf(requests[..i])| + |OpsIn(requests[i])|
  {
    GroupGrows(requests, i);
  }

  lemma {:induction false} LastRecordSize(requests: seq<Request>, log: seq<LogRecord>, c: nat, n: nat)
    requires c + n <= |requests| && |log| > 0
    requires Logged(log) == OpsOf(requests[..c + n]) && log[|log| - 1].ops == OpsOf(requests[c..][..n])
    ensures |Logged(log[..|log| - 1])| == |OpsOf(requests[..c])|
    ensures |OpsOf(requests[..c + n])| == |OpsOf(requests[..c])| + |log[|log| - 1].ops|
  {
    GroupFollows(requests, c, n);
    assert Logged(log) == Logged(log[..|log| - 1]) + log[|log| - 1].ops;
  }

  lemma {:induction false} OpsCountGrows(requests: seq<Request>, a: nat, b: nat)
    requires a <= b <= |requests|
    ensures |OpsOf(requests[..a])| <= |OpsOf(requests[..b])|
  {
    assert requests[..b] == requests[..a] + requests[a..b];
    OpsAppend(requests[..a], requests[a..b]);
  }

  // ----- the same, sealed for the queue -----

  /** `Numbered` and `SyncsKept`, sealed; `OpenBooks` opens them. */
  ghost predicate Books(requests: seq<Request>, c: nat, l: nat, m: nat, log: seq<LogRecord>,
      mem: seq<(nat, BatchOp)>, last: nat) {
    c <= |requests| && l <= |requests| && m <= |requests| && BooksSeal(c + 9, requests, c, l, m, log, mem, last)
  }

  ghost predicate BooksSeal(k: nat, requests: seq<Request>, c: nat, l: nat, m: nat, log: seq<LogRecord>,
      mem: seq<(nat, BatchOp)>, last: nat) {
    if k == 0 then c <= |requests| && Numbered(requests, c, l, m, log, mem, last) && SyncsKept(requests, c, log)
    else BooksSeal(k - 1, requests, c, l, m, log, mem, last)
  }

  lemma {:induction false} BooksSealOpens(k: nat, requests: seq<Request>, c: nat, l: nat, m: nat,
      log: seq<LogRecord>, mem: seq<(nat, BatchOp)>, last: nat)
    ensures BooksSeal(k, requests, c, l, m, log, mem, last) <==>
            c <= |requests| && Numbered(requests, c, l, m, log, mem, last) && SyncsKept(requests, c, log)
  {
    if k > 0 {
      BooksSealOpens(k - 1, requests, c, l, m, log, mem, last);
    }
  }

  lemma {:induction false} OpenBooks(requests: seq<Request>, c: nat, l: nat, m: nat, log: seq<LogRecord>,
      mem: seq<(nat, BatchOp)>, last: nat)
    ensures Books(requests, c, l, m, log, mem, last) <==>
            c <= |requests| && Numbered(requests, c, l, m, log, mem, last) && SyncsKept(requests, c, log)
  {
    BooksSealOpens(c + 9, requests, c, l, m, log, mem, last);
  }

  /** A group and what it commits, sealed; `OpenGroup` opens it. */
  ghost predicate Commits(group: seq<Request>, ops: seq<BatchOp>) {
    CommitsSeal(|group| + 9, group, ops)
  }

  ghost predicate CommitsSeal(k: nat, group: seq<Request>, ops: seq<BatchOp>) {
    if k == 0 then IsGroup(group) && ops == OpsOf(group) else CommitsSeal(k - 1, group, ops)
  }

  lemma {:induction false} CommitsSealOpens(k: nat, group: seq<Request>, ops: seq<BatchOp>)
    ensures CommitsSeal(k, group, ops) <==> IsGroup(group) && ops == OpsOf(group)
  {
    if k > 0 {
      CommitsSealOpens(k - 1, group, ops);
    }
  }

  lemma {:induction false} OpenGroup(group: seq<Request>, ops: seq<BatchOp>)
    ensures Commits(group, ops) <==> IsGroup(group) && ops == OpsOf(group)
  {
    CommitsSealOpens(|group| + 9, group, ops);
  }

  /** No sync write is led by a non-sync writer, so the record was synced for it. */
  lemma {:induction false} FinishKeeps(requests: seq<Request>, c: nat, n: nat, log: seq<LogRecord>,
      mem: seq<(nat, BatchOp)>, last: nat)
    requires Numbered(requests, c, c + n, c + n, log, mem, last) && SyncsKept(requests, c, log)
    requires 0 < n && c + n <= |requests| && IsGroup(requests[c..][..n]) && |log| > 0 && log[|log| - 1].ops == OpsOf(requests[c..][..n])
    requires requests[c].sync ==> log[|log| - 1].synced
    ensures Numbered(requests, c + n, c + n, c + n, log, mem, last + |OpsOf(requests[c..][..n])|) && SyncsKept(requests, c + n, log)
    ensures last + |OpsOf(requests[c..][..n])| == |mem|
  {
    GroupFollows(requests, c, n);
    FinishSyncs(requests, c, n, log);
  }

  lemma {:induction false} FinishSyncs(requests: seq<Request>, c: nat, n: nat, log: seq<LogRecord>)
    requires c + n <= |requests| && SyncsKept(requests, c, log) && IsGroup(requests[c..][..n])
    requires Logged(log) == OpsOf(requests[..c + n]) && |log| > 0 && log[|log| - 1].ops == OpsOf(requests[c..][..n])
    requires n > 0 && (requests[c].sync ==> log[|log| - 1].synced)
    ensures SyncsKept(requests, c + n, log)
  {
    var group := requests[c..][..n];
    forall i | 0 <= i < c + n && requests[i].sync && requests[i].batch.Some? ensures IsSynced(requests, log, i) {
      if c <= i {
        assert group[0] == requests[c] && group[i - c] == requests[i];
        assert i > c ==> MayJoin(group, i - c);
        GroupIsInLastRecord(requests, log, c, n, i);
      }
    }
  }

  lemma {:induction false} SkipKeeps(requests: seq<Request>, c: nat, log: seq<LogRecord>,
      mem: seq<(nat, BatchOp)>, last: nat)
    requires c < |requests| && Numbered(requests, c, c, c, log, mem, last) && SyncsKept(requests, c, log) && requests[c].batch.None?
    ensures Numbered(requests, c + 1, c + 1, c + 1, log, mem, last) && SyncsKept(requests, c + 1, log)
  {
    GroupGrows(requests, c);
    assert OpsOf(requests[..c]) + [] == OpsOf(requests[..c]);
  }

  method InsertAll(mem: seq<(nat, BatchOp)>, first: nat, ops: seq<BatchOp>, ghost before: seq<BatchOp>)
    returns (r: seq<(nat, BatchOp)>)
    requires MemHolds(mem, before) && first == |mem| + 1
    ensures MemHolds(r, before + ops) && |r| == |mem| + |ops|
    ensures forall i :: 0 <= i < |ops| ==> r[|mem| + i] == (first + i, ops[i])
  {
    r := mem;
    for i := 0 to |ops|
      invariant MemHolds(r, before + ops[..i])
    {
      assert before + ops[..i + 1] == (before + ops[..i]) + [ops[i]];
      r := r + [(first + i, ops[i])];
    }
    assert ops[..|ops|] == ops;
  }

  lemma {:induction false} GroupOps(group: seq<Request>, ops: seq<BatchOp>)
    requires Commits(group, ops)
    ensures ops == OpsOf(group)
  {
    OpenGroup(group, ops);
  }

  lemma {:induction false} JoinBooks(requests: seq<Request>, r: Request, c: nat, l: nat, m: nat,
      log: seq<LogRecord>, mem: seq<(nat, BatchOp)>, last: nat)
    requires Books(requests, c, l, m, log, mem, last)
    ensures Books(requests + [r], c, l, m, log, mem, last)
  {
    OpenBooks(requests, c, l, m, log, mem, last);
    OpenBooks(requests + [r], c, l, m, log, mem, last);
    JoinKeeps(requests, r, c, l, m, log, mem, last);
  }

  lemma {:induction false} AppendBooks(requests: seq<Request>, c: nat, n: nat, log: seq<LogRecord>,
      mem: seq<(nat, BatchOp)>, last: nat, record: LogRecord)
    requires Books(requests, c, c, c, log, mem, last) && c + n <= |requests|
    requires record.first == last + 1 && Commits(requests[c..][..n], record.ops)
    ensures Books(requests, c, c + n, c, log + [record], mem, last)
  {
    OpenBooks(requests, c, c, c, log, mem, last);
    OpenBooks(requests, c, c + n, c, log + [record], mem, last);
    GroupOps(requests[c..][..n], record.ops);
    AppendKeeps(requests, c, n, log, mem, last, record);
  }

  method InsertGroup(ghost requests: seq<Request>, ghost c: nat, ghost n: nat, ghost log: seq<LogRecord>,
      mem: seq<(nat, BatchOp)>, last: nat, ops: seq<BatchOp>) returns (r: seq<(nat, BatchOp)>)
    requires c + n <= |requests| && Books(requests, c, c + n, c, log, mem, last) && Commits(requests[c..][..n], ops)
    requires |log| > 0 && log[|log| - 1].ops == ops
    ensures Books(requests, c, c + n, c + n, log, r, last) && |r| == |mem| + |ops|
    ensures forall i :: 0 <= i < |ops| ==> r[|mem| + i] == (log[|log| - 1].first + i, ops[i])
  {
    InsertStarts(requests, c, n, log, mem, last, ops);
    r := InsertAll(mem, last + 1, ops, OpsOf(requests[..c]));
    InsertEnds(requests, c, n, log, mem, r, last, ops);
  }

  lemma {:induction false} InsertStarts(requests: seq<Request>, c: nat, n: nat, log: seq<LogRecord>,
      mem: seq<(nat, BatchOp)>, last: nat, ops: seq<BatchOp>)
    requires c + n <= |requests| && Books(requests, c, c + n, c, log, mem, last) && Commits(requests[c..][..n], ops)
    requires |log| > 0 && log[|log| - 1].ops == ops
    ensures MemHolds(mem, OpsOf(requests[..c])) && log[|log| - 1].first == last + 1 == |mem| + 1
  {
    OpenBooks(requests, c, c + n, c, log, mem, last);
    GroupOps(requests[c..][..n], ops);
    LastRecordFirst(requests, c, n, log, mem, last);
  }

  lemma {:induction false} InsertedNumbered(requests: seq<Request>, c: nat, n: nat, log: seq<LogRecord>,
      mem: seq<(nat, BatchOp)>, r: seq<(nat, BatchOp)>, last: nat)
    requires c + n <= |requests| && Numbered(requests, c, c + n, c, log, mem, last)
    requires MemHolds(r, OpsOf(requests[..c]) + OpsOf(requests[c..][..n]))
    ensures Numbered(requests, c, c + n, c + n, log, r, last)
  {
    GroupFollows(requests, c, n);
  }

  lemma {:induction false} InsertEnds(requests: seq<Request>, c: nat, n: nat, log: seq<LogRecord>,
      mem: seq<(nat, BatchOp)>, r: seq<(nat, BatchOp)>, last: nat, ops: seq<BatchOp>)
    requires c + n <= |requests| && Books(requests, c, c + n, c, log, mem, last) && Commits(requests[c..][..n], ops)
    requires MemHolds(r, OpsOf(requests[..c]) + ops)
    ensures Books(requests, c, c + n, c + n, log, r, last)
  {
    OpenBooks(requests, c, c + n, c, log, mem, last);
    GroupOps(requests[c..][..n], ops);
    InsertedNumbered(requests, c, n, log, mem, r, last);
    OpenBooks(requests, c, c + n, c + n, log, r, last);
  }

  lemma {:induction false} FinishBooks(requests: seq<Request>, c: nat, n: nat, log: seq<LogRecord>,
      mem: seq<(nat, BatchOp)>, last: nat, ops: seq<BatchOp>)
    requires 0 < n && c + n <= |requests| && Books(requests, c, c + n, c + n, log, mem, last) && Commits(requests[c..][..n], ops)
    requires |log| > 0 && log[|log| - 1].ops == ops && (requests[c].sync ==> log[|log| - 1].synced)
    ensures Books(requests, c + n, c + n, c + n, log, mem, last + |ops|) && last + |ops| == |mem|
  {
    OpenBooks(requests, c, c + n, c + n, log, mem, last);
    OpenGroup(requests[c..][..n], ops);
    FinishKeeps(requests, c, n, log, mem, last);
    OpenBooks(requests, c + n, c + n, c + n, log, mem, last + |ops|);
  }

  lemma {:induction false} SkipBooks(requests: seq<Request>, c: nat, log: seq<LogRecord>,
      mem: seq<(nat, BatchOp)>, last: nat)
    requires c < |requests| && Books(requests, c, c, c, log, mem, last) && requests[c].batch.None?
    ensures Books(requests, c + 1, c + 1, c + 1, log, mem, last)
  {
    OpenBooks(requests, c, c, c, log, mem, last);
    SkipKeeps(requests, c, log, mem, last);
    OpenBooks(requests, c + 1, c + 1, c + 1, log, mem, last);
  }
}
