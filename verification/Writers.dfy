// DBImpl::Write (db/db_impl.cc) as the steps of its threads. Any number of writers may
// be under way; a step of one may come between any two steps of another.
module Writers {
  import opened WriteBatches
  import opened WriteQueue

  /** Where a writer is: in the wait loop, asleep or about to test its condition; past the
      loop, with the group it leads up to writer `last` built, logged, inserted; or gone. */
  datatype Stage =
    | Waiting(asleep: bool)
    | Leading
    | Grouped(last: nat, ops: seq<BatchOp>)
    | Appended(last: nat, ops: seq<BatchOp>)
    | Inserted(last: nat, ops: seq<BatchOp>)
    | Returned
  {
    /** Past the wait loop. */
    predicate Active() {
      !Waiting? && !Returned?
    }
  }

  /** The deque holds the last writers to come, in order. */
  ghost predicate LinedUp(count: nat, queue: seq<nat>) {
    |queue| <= count && forall i :: 0 <= i < |queue| ==> queue[i] == count - |queue| + i
  }

  /** Writer `w`, when the first `c` have left the deque. Nobody sleeps who could go on. */
  ghost predicate WriterOk(c: nat, w: nat, done: bool, stage: Stage, led: bool) {
    && (w < c ==> stage.Returned? || (done && stage == Waiting(false)))
    && (w >= c ==> !done && !stage.Returned?)
    && (stage.Active() ==> w == c)
    && (stage == Waiting(true) ==> w > c)
    && (if done then !led && !stage.Active() else led == (stage.Active() || stage.Returned?))
  }

  ghost predicate AllOk(c: nat, done: seq<bool>, stages: seq<Stage>, led: set<nat>) {
    && |done| == |stages|
    && (forall w :: 0 <= w < |stages| ==> WriterOk(c, w, done[w], stages[w], w in led))
    && forall w :: w in led ==> w < |stages|
  }

  /** Who has returned is listed once, who has not is not listed. */
  ghost predicate ReturnedOnce(stages: seq<Stage>, returned: seq<nat>) {
    forall w: nat :: multiset(returned)[w] == if w < |stages| && stages[w].Returned? then 1 else 0
  }

  lemma {:induction false} OneReturns(stages: seq<Stage>, returned: seq<nat>, w: nat)
    requires ReturnedOnce(stages, returned) && w < |stages| && !stages[w].Returned?
    ensures ReturnedOnce(stages[w := Returned], returned + [w])
  {
    assert multiset(returned + [w]) == multiset(returned) + multiset{w};
  }

  lemma {:induction false} OneWakes(c: nat, done: seq<bool>, stages: seq<Stage>, led: set<nat>, w: nat)
    requires AllOk(c, done, stages, led) && w < |stages| && stages[w].Waiting?
    ensures done[w] ==> AllOk(c, done, stages[w := Returned], led)
    ensures !done[w] && w == c ==> AllOk(c, done, stages[w := Leading], led + {w})
    ensures !done[w] && w != c ==> AllOk(c, done, stages[w := Waiting(true)], led)
  {
    assert WriterOk(c, w, done[w], stages[w], w in led);
  }

  /** The condition variable of `w`: whoever sleeps on it wakes up. */
  function Signal(stages: seq<Stage>, w: nat): (r: seq<Stage>)
    requires w < |stages|
    ensures |r| == |stages|
  {
    if stages[w].Waiting? then stages[w := Waiting(false)] else stages
  }

  lemma {:induction false} SignalKeepsReturned(stages: seq<Stage>, w: nat, returned: seq<nat>)
    requires w < |stages| && ReturnedOnce(stages, returned)
    ensures ReturnedOnce(Signal(stages, w), returned)
  {
  }

  /** The group that its leader `w` has built. */
  ghost predicate GroupOf(requests: seq<Request>, w: nat, last: nat, ops: seq<BatchOp>) {
    w <= last < |requests| && Commits(requests[w..][..last + 1 - w], ops)
  }

  ghost predicate InHand(requests: seq<Request>, w: nat, stage: Stage, log: seq<LogRecord>)
    requires w < |requests|
  {
    && (stage.Grouped? || stage.Appended? || stage.Inserted? ==> GroupOf(requests, w, stage.last, stage.ops))
    && (stage.Appended? || stage.Inserted? ==>
          |log| > 0 && log[|log| - 1].ops == stage.ops && (requests[w].sync ==> log[|log| - 1].synced))
  }

  lemma {:induction false} GroupStaysGroup(requests: seq<Request>, r: Request, w: nat, last: nat, ops: seq<BatchOp>)
    requires GroupOf(requests, w, last, ops)
    ensures GroupOf(requests + [r], w, last, ops)
  {
    assert (requests + [r])[w..][..last + 1 - w] == requests[w..][..last + 1 - w];
  }

  /** What the writers of the deque ask for. */
  function Asked(requests: seq<Request>, queue: seq<nat>): (r: seq<Request>)
    requires forall i :: 0 <= i < |queue| ==> queue[i] < |requests|
    ensures |r| == |queue| && forall i :: 0 <= i < |queue| ==> r[i] == requests[queue[i]]
  {
    seq(|queue|, i requires 0 <= i < |queue| => requests[queue[i]])
  }

  /** The group that the front writer `w` may commit, and its last member. */
  method GroupFor(requests: seq<Request>, queue: seq<nat>, w: nat) returns (last: nat, ops: seq<BatchOp>)
    requires LinedUp(|requests|, queue) && queue != [] && w == |requests| - |queue| && requests[w].batch.Some?
    ensures GroupOf(requests, w, last, ops) && IsMaximal(requests[w..], last + 1 - w) && EndsRightly(requests[w..], last + 1 - w)
  {
    var waiting := Asked(requests, queue);
    assert waiting == requests[w..];
    var n;
    n, ops := BuildBatchGroup(waiting);
    OpenGroup(waiting[..n], ops);
    last := queue[n - 1];
  }

  lemma {:induction false} OneJoins(done: seq<bool>, stages: seq<Stage>, queue: seq<nat>, led: set<nat>, returned: seq<nat>)
    requires LinedUp(|stages|, queue) && AllOk(|stages| - |queue|, done, stages, led) && ReturnedOnce(stages, returned)
    ensures LinedUp(|stages| + 1, queue + [|stages|])
    ensures AllOk(|stages| - |queue|, done + [false], stages + [Waiting(false)], led)
    ensures ReturnedOnce(stages + [Waiting(false)], returned)
  {
    assert |stages| !in led;
    forall v | 0 <= v <= |stages|
      ensures WriterOk(|stages| - |queue|, v, (done + [false])[v], (stages + [Waiting(false)])[v], v in led) {
      if v < |stages| {
        assert WriterOk(|stages| - |queue|, v, done[v], stages[v], v in led);
      }
    }
  }

  lemma {:induction false} InHandStays(requests: seq<Request>, r: Request, w: nat, stage: Stage, log: seq<LogRecord>)
    requires w < |requests| && InHand(requests, w, stage, log)
    ensures InHand(requests + [r], w, stage, log)
  {
    if stage.Grouped? || stage.Appended? || stage.Inserted? {
      GroupStaysGroup(requests, r, w, stage.last, stage.ops);
    }
  }

  /** Once `w` has popped `k` writers off the deque: all but itself are done, and awake. */
  ghost predicate Popped(w: nat, k: nat, done0: seq<bool>, stages0: seq<Stage>, done: seq<bool>, stages: seq<Stage>) {
    && |done| == |done0| == |stages| == |stages0|
    && (forall v :: 0 <= v < |done| ==> done[v] == (done0[v] || w < v < w + k))
    && forall v :: 0 <= v < |stages| ==>
         stages[v] == if w < v < w + k && stages0[v].Waiting? then Waiting(false) else stages0[v]
  }

  /** `w` has returned; every other member of its group is done and awake, and so is
      whoever is first in the deque now. */
  ghost predicate Freed(w: nat, last: nat, before: seq<Stage>, after: seq<Stage>, done: seq<bool>) {
    && |before| == |after| == |done| && w <= last < |after| && after[w].Returned?
    && (forall v :: w < v <= last ==> done[v] && after[v] == Waiting(false))
    && (last + 1 < |after| ==> after[last + 1] == Waiting(false))
    && forall v :: 0 <= v < |after| && (v < w || v > last + 1) ==> after[v] == before[v]
  }

  /** The writers after a group of `n` has left. */
  function AfterGroup(stages: seq<Stage>, w: nat, n: nat): (r: seq<Stage>)
    requires w < |stages|
    ensures |r| == |stages|
  {
    (if w + n < |stages| then Signal(stages, w + n) else stages)[w := Returned]
  }

  lemma {:induction false} GroupLeaves(w: nat, n: nat, done0: seq<bool>, stages0: seq<Stage>, done: seq<bool>,
      stages: seq<Stage>, led: set<nat>, returned: seq<nat>)
    requires 0 < n && w + n <= |stages0| && AllOk(w, done0, stages0, led) && stages0[w].Active()
    requires Popped(w, n, done0, stages0, done, stages) && ReturnedOnce(stages0, returned)
    ensures AllOk(w + n, done, AfterGroup(stages, w, n), led)
    ensures ReturnedOnce(AfterGroup(stages, w, n), returned + [w])
    ensures Freed(w, w + n - 1, stages0, AfterGroup(stages, w, n), done)
  {
    var after := AfterGroup(stages, w, n);
    forall v | 0 <= v < |stages| ensures WriterOk(w + n, v, done[v], after[v], v in led) {
      assert WriterOk(w, v, done0[v], stages0[v], v in led);
    }
    forall v | w < v < |stages| ensures stages0[v].Waiting? {
      assert WriterOk(w, v, done0[v], stages0[v], v in led);
    }
    PoppedReturned(w, n, done0, stages0, done, stages, returned);
    if w + n < |stages| {
      SignalKeepsReturned(stages, w + n, returned);
      OneReturns(Signal(stages, w + n), returned, w);
    } else {
      OneReturns(stages, returned, w);
    }
  }

  lemma {:induction false} PoppedReturned(w: nat, k: nat, done0: seq<bool>, stages0: seq<Stage>, done: seq<bool>,
      stages: seq<Stage>, returned: seq<nat>)
    requires Popped(w, k, done0, stages0, done, stages) && ReturnedOnce(stages0, returned)
    ensures ReturnedOnce(stages, returned)
  {
    forall v: nat ensures multiset(returned)[v] == if v < |stages| && stages[v].Returned? then 1 else 0 {
      assert v < |stages| ==> stages[v].Returned? == stages0[v].Returned?;
    }
  }

  class WriterQueue {
    /** Every writer that ever came: what it asks for, whether its work is done, where it is. */
    var requests: seq<Request>
    var done: seq<bool>
    var stages: seq<Stage>
    /** The deque of writers, by number. */
    var queue: seq<nat>
    var log: seq<LogRecord>
    var mem: seq<(nat, BatchOp)>
    var lastSequence: nat
    /** Who got past the wait loop, and who has returned, in order. */
    ghost var led: set<nat>
    ghost var returned: seq<nat>

    ghost predicate Valid()
      reads this
    {
      && |stages| == |requests| && LinedUp(|requests|, queue)
      && AllOk(Left(), done, stages, led) && ReturnedOnce(stages, returned)
      && (queue != [] ==> InHand(requests, Left(), stages[Left()], log))
      && Books(requests, Left(), InLog(), InMem(), log, mem, lastSequence)
    }

    /** How many have left the deque. */
    ghost function Left(): nat
      requires |queue| <= |requests|
      reads this
    {
      |requests| - |queue|
    }

    /** How many requests the log holds, and how many the memtable. */
    ghost function InLog(): nat
      requires |queue| <= |requests| == |stages|
      reads this
    {
      if queue != [] && (stages[Left()].Appended? || stages[Left()].Inserted?) then stages[Left()].last + 1 else Left()
    }

    ghost function InMem(): nat
      requires |queue| <= |requests| == |stages|
      reads this
    {
      if queue != [] && stages[Left()].Inserted? then stages[Left()].last + 1 else Left()
    }

    constructor ()
      ensures Valid() && requests == [] && log == [] && mem == []
    {
      OpenBooks([], 0, 0, 0, [], [], 0);
      requests, done, stages, queue, log, mem, lastSequence := [], [], [], [], [], [], 0;
      led, returned := {}, [];
    }

    /** A writer joins, at any time; its condition is still to be tested. */
    method Join(r: Request) returns (w: nat)
      requires Valid()
      modifies this
      ensures Valid() && w == |old(requests)| && requests == old(requests) + [r] && queue == old(queue) + [w]
      ensures stages == old(stages) + [Waiting(false)] && done == old(done) + [false]
      ensures log == old(log) && mem == old(mem) && led == old(led) && returned == old(returned)
    {
      w := |requests|;
      JoinBooks(requests, r, Left(), InLog(), InMem(), log, mem, lastSequence);
      OneJoins(done, stages, queue, led, returned);
      if queue != [] {
        InHandStays(requests, r, Left(), stages[Left()], log);
      }
      requests, done, stages, queue := requests + [r], done + [false], stages + [Waiting(false)], queue + [w];
    }

    /** One turn of the wait loop, after a signal, at the start or for no reason: a writer
        whose work is done returns, the front one goes on, any other sleeps. */
    method Wake(w: nat)
      requires Valid() && w < |requests| && stages[w].Waiting?
      modifies this`stages, this`led, this`returned
      ensures Valid()
      ensures stages == old(stages)[w := if done[w] then Returned
                                         else if queue[0] == w then Leading else Waiting(true)]
      ensures done[w] <==> w < Left()
      ensures led == if stages[w].Leading? then old(led) + {w} else old(led)
      ensures returned == if done[w] then old(returned) + [w] else old(returned)
    {
      assert WriterOk(Left(), w, done[w], stages[w], w in led);
      OneWakes(Left(), done, stages, led, w);
      if done[w] {
        OneReturns(stages, returned, w);
        stages, returned := stages[w := Returned], returned + [w];
      } else if queue[0] == w {
        stages, led := stages[w := Leading], led + {w};
      } else {
        stages := stages[w := Waiting(true)];
      }
    }

    /** The leader builds its group. */
    method Group(w: nat)
      requires Valid() && w < |requests| && stages[w].Leading? && requests[w].batch.Some?
      modifies this`stages
      ensures Valid() && stages[w].Grouped? && stages == old(stages)[w := stages[w]]
      ensures IsMaximal(requests[w..], stages[w].last + 1 - w) && EndsRightly(requests[w..], stages[w].last + 1 - w)
    {
      assert WriterOk(Left(), w, done[w], stages[w], w in led);
      var last, ops := GroupFor(requests, queue, w);
      stages := stages[w := Grouped(last, ops)];
    }

    /** One record for the whole group, numbered after everything before it. */
    method AppendToLog(w: nat)
      requires Valid() && w < |requests| && stages[w].Grouped?
      modifies this`stages, this`log
      ensures Valid() && stages == old(stages)[w := Appended(old(stages[w]).last, old(stages[w]).ops)]
      ensures log == old(log) + [LogRecord(lastSequence + 1, stages[w].ops, requests[w].sync)]
    {
      assert WriterOk(Left(), w, done[w], stages[w], w in led);
      var stage := stages[w];
      var record := LogRecord(lastSequence + 1, stage.ops, requests[w].sync);
      AppendBooks(requests, w, stage.last + 1 - w, log, mem, lastSequence, record);
      log, stages := log + [record], stages[w := Appended(stage.last, stage.ops)];
    }

    /** The same batch, with the same numbers, goes to the memtable. */
    method InsertIntoMem(w: nat)
      requires Valid() && w < |requests| && stages[w].Appended?
      modifies this`stages, this`mem
      ensures Valid() && stages == old(stages)[w := Inserted(old(stages[w]).last, old(stages[w]).ops)]
      ensures |mem| == old(|mem|) + |stages[w].ops|
      ensures forall i :: 0 <= i < |stages[w].ops| ==> mem[old(|mem|) + i] == (log[|log| - 1].first + i, stages[w].ops[i])
    {
      assert WriterOk(Left(), w, done[w], stages[w], w in led);
      var stage := stages[w];
      mem := InsertGroup(requests, w, stage.last + 1 - w, log, mem, lastSequence, stage.ops);
      stages := stages[w := Inserted(stage.last, stage.ops)];
    }

    /** The last sequence moves on, the group leaves the deque, the new front is told. */
    method Finish(w: nat)
      requires Valid() && w < |requests| && stages[w].Inserted?
      modifies this
      ensures Valid() && requests == old(requests) && log == old(log) && mem == old(mem) && led == old(led)
      ensures var last := old(stages[w]).last; queue == old(queue)[last + 1 - w..] && Freed(w, last, old(stages), stages, done)
      ensures lastSequence == old(lastSequence) + |old(stages[w]).ops| == |mem| && returned == old(returned) + [w]
    {
      assert WriterOk(Left(), w, done[w], stages[w], w in led);
      var last, ops := stages[w].last, stages[w].ops;
      FinishBooks(requests, w, last + 1 - w, log, mem, lastSequence, ops);
      lastSequence := lastSequence + |ops|;
      Leave(w, last);
    }

    /** A compaction request commits nothing and leaves alone. */
    method FinishCompaction(w: nat)
      requires Valid() && w < |requests| && stages[w].Leading? && requests[w].batch.None?
      modifies this
      ensures Valid() && requests == old(requests) && log == old(log) && mem == old(mem) && led == old(led)
      ensures queue == old(queue)[1..] && Freed(w, w, old(stages), stages, done)
      ensures lastSequence == old(lastSequence) && returned == old(returned) + [w]
    {
      assert WriterOk(Left(), w, done[w], stages[w], w in led);
      SkipBooks(requests, w, log, mem, lastSequence);
      Leave(w, w);
    }

    /** The end of Write: the loop over the group, then the signal to the new front. */
    method Leave(w: nat, last: nat)
      requires |stages| == |requests| && LinedUp(|requests|, queue) && queue != [] && w == Left() <= last < |requests|
      requires AllOk(w, done, stages, led) && ReturnedOnce(stages, returned) && stages[w].Active()
      requires Books(requests, last + 1, last + 1, last + 1, log, mem, lastSequence)
      modifies this`queue, this`done, this`stages, this`returned
      ensures Valid() && queue == old(queue)[last + 1 - w..] && returned == old(returned) + [w]
      ensures Freed(w, last, old(stages), stages, done)
    {
      PopGroup(w, last);
      GroupLeaves(w, last + 1 - w, old(done), old(stages), done, stages, led, returned);
      ghost var freed := AfterGroup(stages, w, last + 1 - w);
      assert Left() == last + 1 && (|queue| > 0 ==> queue[0] == last + 1);
      if |queue| > 0 {
        stages := Signal(stages, queue[0]);
      }
      stages, returned := stages[w := Returned], returned + [w];
      assert stages == freed;
      assert queue != [] ==> stages[Left()] == Waiting(false);
    }

    method PopGroup(w: nat, last: nat)
      requires |stages| == |done| == |requests| && LinedUp(|requests|, queue) && queue != [] && w == Left() <= last < |requests|
      modifies this`queue, this`done, this`stages
      ensures queue == old(queue)[last + 1 - w..] && LinedUp(|requests|, queue)
      ensures Popped(w, last + 1 - w, old(done), old(stages), done, stages)
    {
      ghost var k: nat := 0;
      var more := true;
      while more
        invariant 0 <= k <= last + 1 - w && (more <==> k < last + 1 - w)
        invariant queue == old(queue)[k..] && Popped(w, k, old(done), old(stages), done, stages)
        decreases |queue|
      {
        var ready := queue[0];
        queue := queue[1..];
        if ready != w {
          done := done[ready := true];
          stages := Signal(stages, ready);
        }
        more := ready != last;
        k := k + 1;
      }
    }

    /** Whoever is past the wait loop is at the front of the deque, so there is one at
        most; it never was, and never will be, a member of somebody else's group. */
    lemma {:induction false} OneLeader(w: nat, v: nat)
      requires Valid() && w < |requests| && v < |requests| && stages[w].Active()
      ensures queue != [] && w == queue[0] && w in led && !done[w]
      ensures stages[v].Active() ==> v == w
    {
      assert WriterOk(Left(), w, done[w], stages[w], w in led);
      assert WriterOk(Left(), v, done[v], stages[v], v in led);
    }

    /** Every writer that has left the deque either led or was a member of a group, and
        never both; a member can only return. */
    lemma {:induction false} LeadersAndMembers(w: nat)
      requires Valid() && w < |requests|
      ensures w < Left() <==> done[w] || stages[w].Returned?
      ensures w < Left() ==> (w in led <==> !done[w])
      ensures done[w] ==> stages[w] == Waiting(false) || stages[w].Returned?
    {
      assert WriterOk(Left(), w, done[w], stages[w], w in led);
    }

    /** No writer returns twice, and none before its request has left the deque. */
    lemma {:induction false} ReturnsOnce(i: nat, j: nat)
      requires Valid() && i < |returned| && j < |returned|
      ensures returned[i] < Left() && (returned[i] == returned[j] ==> i == j)
    {
      var w := returned[i];
      assert multiset(returned)[w] == 1;
      assert WriterOk(Left(), w, done[w], stages[w], w in led);
      if i != j && returned[j] == w {
        TwicePresent(returned, i, j);
        assert false;
      }
    }

    /** Nobody is forgotten: while a writer has not returned, some writer is awake. */
    lemma {:induction false} SomeoneIsAwake(w: nat) returns (v: nat)
      requires Valid() && w < |requests| && !stages[w].Returned?
      ensures v < |requests| && !stages[v].Returned? && stages[v] != Waiting(true)
      ensures done[v] || v == queue[0]
    {
      assert WriterOk(Left(), w, done[w], stages[w], w in led);
      v := if w < Left() then w else Left();
      assert WriterOk(Left(), v, done[v], stages[v], v in led);
    }

    /** While nobody holds a group, log and memtable hold the same operations under the
        same numbers: all those of the requests that have left, in the order they came. */
    lemma {:induction false} Committed()
      requires Valid() && (queue != [] ==> stages[Left()].Waiting? || stages[Left()].Leading?)
      ensures Logged(log) == OpsOf(requests[..Left()]) && lastSequence == |mem| == |Logged(log)|
      ensures forall i :: 0 <= i < |mem| ==> mem[i] == (i + 1, Logged(log)[i])
      ensures forall i :: 0 <= i < Left() && requests[i].sync && requests[i].batch.Some? ==> IsSynced(requests, log, i)
    {
      OpenBooks(requests, Left(), Left(), Left(), log, mem, lastSequence);
    }
  }

  lemma {:induction false} TwicePresent(s: seq<nat>, i: nat, j: nat)
    requires i < |s| && j < |s| && i != j && s[i] == s[j]
    ensures multiset(s)[s[i]] >= 2
  {
    var a, b := if i < j then i else j, if i < j then j else i;
    assert s == s[..a] + [s[a]] + s[a + 1..b] + [s[b]] + s[b + 1..];
  }
}
