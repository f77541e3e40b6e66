// Write batches (db/write_batch.cc): the byte form of a group of operations, which is
// also the payload of a log record.
module WriteBatches {
  import opened Keys
  import opened Coding
  import opened Seqs

  const BATCH_HEADER: nat := 12
  const TYPE_DELETION: Byte := 0
  const TYPE_VALUE: Byte := 1

  datatype BatchOp = Put(key: Bytes, value: Bytes) | Delete(key: Bytes)

  datatype Status = Ok | TooSmall | BadPut | BadDelete | UnknownTag | WrongCount

  predicate OpFits(op: BatchOp) {
    |op.key| < TWO_32 && (op.Put? ==> |op.value| < TWO_32)
  }

  ghost predicate Fit(ops: seq<BatchOp>) {
    |ops| < 0x8000_0000 && forall i :: 0 <= i < |ops| ==> OpFits(ops[i])
  }

  function EncodeOp(op: BatchOp): (r: Bytes)
    ensures |r| > 0
  {
    match op
    case Put(k, v) => [TYPE_VALUE] + LengthPrefixed(k) + LengthPrefixed(v)
    case Delete(k) => [TYPE_DELETION] + LengthPrefixed(k)
  }

  function EncodeOps(ops: seq<BatchOp>): Bytes {
    if |ops| == 0 then [] else EncodeOp(ops[0]) + EncodeOps(ops[1..])
  }

  lemma {:induction false} EncodeAppend(a: seq<BatchOp>, b: seq<BatchOp>)
    ensures EncodeOps(a + b) == EncodeOps(a) + EncodeOps(b)
  {
    if |a| == 0 {
      assert a + b == b;
    } else {
      assert (a + b)[1..] == a[1..] + b;
      EncodeAppend(a[1..], b);
    }
  }

  /** The operation at the head of `bs`, or what is wrong with it. */
  function ParseOp(bs: Bytes): (r: (Status, BatchOp, Bytes))
    requires |bs| > 0
    ensures r.0.Ok? ==> |r.2| < |bs|
  {
    var nothing := (Delete([]), bs);
    if bs[0] == TYPE_VALUE then
      match GetLengthPrefixed(bs[1..])
      case None => (BadPut, nothing.0, nothing.1)
      case Some((k, rest)) =>
        match GetLengthPrefixed(rest)
        case None => (BadPut, nothing.0, nothing.1)
        case Some((v, rest')) => (Ok, Put(k, v), rest')
    else if bs[0] == TYPE_DELETION then
      match GetLengthPrefixed(bs[1..])
      case None => (BadDelete, nothing.0, nothing.1)
      case Some((k, rest)) => (Ok, Delete(k), rest)
    else (UnknownTag, nothing.0, nothing.1)
  }

  /** The operations handed to the handler, in order, and how it ends. */
  function ParseOps(bs: Bytes): (seq<BatchOp>, Status)
    decreases |bs|
  {
    if |bs| == 0 then ([], Ok)
    else
      var (status, op, rest) := ParseOp(bs);
      if !status.Ok? then ([], status)
      else
        var (ops, end) := ParseOps(rest);
        ([op] + ops, end)
  }

  lemma {:induction false} ParsePut(bs: Bytes, k: Bytes, v: Bytes, more: Bytes, rest: Bytes)
    requires |bs| > 0 && bs[0] == TYPE_VALUE
    requires GetLengthPrefixed(bs[1..]) == Some((k, more)) && GetLengthPrefixed(more) == Some((v, rest))
    ensures ParseOp(bs) == (Ok, Put(k, v), rest)
  {
  }

  lemma {:induction false} ParseDelete(bs: Bytes, k: Bytes, rest: Bytes)
    requires |bs| > 0 && bs[0] == TYPE_DELETION && GetLengthPrefixed(bs[1..]) == Some((k, rest))
    ensures ParseOp(bs) == (Ok, Delete(k), rest)
  {
  }

  lemma {:induction false} TailOf(x: Byte, a: Bytes, b: Bytes, c: Bytes)
    ensures ([x] + a + b + c)[0] == x && ([x] + a + b + c)[1..] == a + (b + c)
    ensures ([x] + a + b)[0] == x && ([x] + a + b)[1..] == a + b
  {
    assert [x] + a + b + c == [x] + (a + (b + c));
    assert [x] + a + b == [x] + (a + b);
  }

  lemma {:induction false} ParseOpRoundTrip(op: BatchOp, rest: Bytes)
    requires OpFits(op)
    ensures ParseOp(EncodeOp(op) + rest) == (Ok, op, rest)
  {
    var all := EncodeOp(op) + rest;
    if op.Put? {
      LengthPrefixedRoundTrip(op.key, LengthPrefixed(op.value) + rest);
      LengthPrefixedRoundTrip(op.value, rest);
      TailOf(TYPE_VALUE, LengthPrefixed(op.key), LengthPrefixed(op.value), rest);
      ParsePut(all, op.key, op.value, LengthPrefixed(op.value) + rest, rest);
    } else {
      LengthPrefixedRoundTrip(op.key, rest);
      TailOf(TYPE_DELETION, LengthPrefixed(op.key), rest, []);
      ParseDelete(all, op.key, rest);
    }
  }

  /** Iterating over an encoded batch gives its operations back. */
  lemma {:induction false} ParseOpsRoundTrip(ops: seq<BatchOp>)
    requires forall i :: 0 <= i < |ops| ==> OpFits(ops[i])
    ensures ParseOps(EncodeOps(ops)) == (ops, Ok)
  {
    if |ops| > 0 {
      ParseOpRoundTrip(ops[0], EncodeOps(ops[1..]));
      ParseOpsRoundTrip(ops[1..]);
      assert [ops[0]] + ops[1..] == ops;
    }
  }

  /** The bytes of a batch: sequence number, count, operations. Sealed; `RepIs` opens it. */
  function Rep(sn: nat, ops: seq<BatchOp>): Bytes {
    RepSeal(|ops| + 9, sn, ops)
  }

  function RepSeal(n: nat, sn: nat, ops: seq<BatchOp>): Bytes {
    if n == 0 then Fixed(8, sn) + Fixed(4, |ops|) + EncodeOps(ops) else RepSeal(n - 1, sn, ops)
  }

  lemma {:induction false} RepSealOpens(n: nat, sn: nat, ops: seq<BatchOp>)
    ensures RepSeal(n, sn, ops) == Fixed(8, sn) + Fixed(4, |ops|) + EncodeOps(ops)
  {
    if n > 0 {
      RepSealOpens(n - 1, sn, ops);
    }
  }

  lemma {:induction false} ThreeParts(a: Bytes, b: Bytes, c: Bytes)
    ensures (a + b + c)[..|a|] == a && (a + b + c)[|a|..|a| + |b|] == b && (a + b + c)[|a| + |b|..] == c
    ensures (a + b + c)[|a|..] == b + c && a + (b + c) == a + b + c
  {
  }

  lemma {:induction false} RepIs(sn: nat, ops: seq<BatchOp>)
    ensures Rep(sn, ops) == Fixed(8, sn) + Fixed(4, |ops|) + EncodeOps(ops)
    ensures |Rep(sn, ops)| >= BATCH_HEADER
    ensures Rep(sn, ops)[..8] == Fixed(8, sn) && Rep(sn, ops)[8..12] == Fixed(4, |ops|) && Rep(sn, ops)[12..] == EncodeOps(ops)
  {
    RepSealOpens(|ops| + 9, sn, ops);
    ThreeParts(Fixed(8, sn), Fixed(4, |ops|), EncodeOps(ops));
  }

  /** In numbers: eight bytes of sequence number and four of count, the least significant first. */
  lemma {:induction false} RepLayout(sn: nat, ops: seq<BatchOp>, i: nat, j: nat)
    requires i < 8 && j < 8
    ensures |Rep(sn, ops)| == 12 + |EncodeOps(ops)| && Rep(sn, ops)[12..] == EncodeOps(ops)
    ensures HasBit(Rep(sn, ops)[i], j) <==> HasBit(sn, 8 * i + j)
    ensures i < 4 ==> (HasBit(Rep(sn, ops)[8 + i], j) <==> HasBit(|ops|, 8 * i + j))
  {
    RepBytes(sn, ops, i);
    FixedByte(8, sn, i, j);
    if i < 4 {
      FixedByte(4, |ops|, i, j);
    }
  }

  lemma {:induction false} RepBytes(sn: nat, ops: seq<BatchOp>, i: nat)
    requires i < 8
    ensures |Rep(sn, ops)| == 12 + |EncodeOps(ops)| && Rep(sn, ops)[12..] == EncodeOps(ops)
    ensures Rep(sn, ops)[i] == Fixed(8, sn)[i] && (i < 4 ==> Rep(sn, ops)[8 + i] == Fixed(4, |ops|)[i])
  {
    RepIs(sn, ops);
    assert Rep(sn, ops)[i] == Rep(sn, ops)[..8][i];
    assert i < 4 ==> Rep(sn, ops)[8 + i] == Rep(sn, ops)[8..12][i];
  }

  /** An operation is 1, key and value, or 0 and a key, each of these after its length. */
  lemma {:induction false} OpLayout(op: BatchOp)
    ensures match op
      case Put(k, v) => EncodeOp(op) == [1] + (Varint(|k|) + k) + (Varint(|v|) + v)
      case Delete(k) => EncodeOp(op) == [0] + (Varint(|k|) + k)
  {
  }

  /** Operations follow each other in order. */
  lemma {:induction false} OpsLayout(ops: seq<BatchOp>)
    ensures EncodeOps(ops) == Concat(seq(|ops|, i requires 0 <= i < |ops| => EncodeOp(ops[i])))
  {
    var parts := seq(|ops|, i requires 0 <= i < |ops| => EncodeOp(ops[i]));
    if |ops| > 0 {
      var n := |ops| - 1;
      OpsLayout(ops[..n]);
      assert parts[..n] == seq(n, i requires 0 <= i < n => EncodeOp(ops[..n][i]));
      LastOp(ops);
    }
  }

  lemma {:induction false} LastOp(ops: seq<BatchOp>)
    requires |ops| > 0
    ensures EncodeOps(ops) == EncodeOps(ops[..|ops| - 1]) + EncodeOp(ops[|ops| - 1])
  {
    var front, last := ops[..|ops| - 1], ops[|ops| - 1];
    assert ops == front + [last];
    EncodeAppend(front, [last]);
    OneOp(last);
  }

  lemma {:induction false} RepHeader(sn: nat, ops: seq<BatchOp>)
    requires sn < TWO_64 && Fit(ops)
    ensures |Rep(sn, ops)| >= BATCH_HEADER
    ensures DecodeFixed(Rep(sn, ops)[..8]) == sn && DecodeFixed(Rep(sn, ops)[8..12]) == |ops|
    ensures ParseOps(Rep(sn, ops)[12..]) == (ops, Ok)
  {
    RepIs(sn, ops);
    Fixed64RoundTrip(sn);
    Fixed32RoundTrip(|ops|);
    ParseOpsRoundTrip(ops);
  }

  lemma {:induction false} RepRenumbered(sn: nat, ops: seq<BatchOp>, sn': nat)
    ensures |Rep(sn, ops)| >= 8 && Fixed(8, sn') + Rep(sn, ops)[8..] == Rep(sn', ops)
  {
    RepIs(sn, ops);
    RepIs(sn', ops);
    ThreeParts(Fixed(8, sn), Fixed(4, |ops|), EncodeOps(ops));
    ThreeParts(Fixed(8, sn'), Fixed(4, |ops|), EncodeOps(ops));
  }

  /** What more operations add to the encoding. */
  lemma {:induction false} RepExtended(sn: nat, ops: seq<BatchOp>, more: seq<BatchOp>)
    ensures |Rep(sn, ops)| >= BATCH_HEADER
    ensures Rep(sn, ops)[..8] + Fixed(4, |ops| + |more|) + Rep(sn, ops)[12..] + EncodeOps(more) == Rep(sn, ops + more)
  {
    RepIs(sn, ops);
    RepIs(sn, ops + more);
    EncodeAppend(ops, more);
    FourJoin(Fixed(8, sn), Fixed(4, |ops| + |more|), EncodeOps(ops), EncodeOps(more));
  }

  /** The same with the operations taken from another batch. */
  lemma {:induction false} RepJoined(sn: nat, ops: seq<BatchOp>, sn': nat, more: seq<BatchOp>)
    ensures |Rep(sn, ops)| >= BATCH_HEADER && |Rep(sn', more)| >= BATCH_HEADER
    ensures Rep(sn, ops)[..8] + Fixed(4, |ops| + |more|) + Rep(sn, ops)[12..] + Rep(sn', more)[BATCH_HEADER..] == Rep(sn, ops + more)
  {
    RepExtended(sn, ops, more);
    RepIs(sn', more);
    assert Rep(sn', more)[BATCH_HEADER..] == EncodeOps(more);
  }

  lemma {:induction false} FourJoin(a: Bytes, b: Bytes, c: Bytes, d: Bytes)
    ensures a + b + c + d == a + b + (c + d)
  {
  }

  lemma {:induction false} OneOp(op: BatchOp)
    ensures EncodeOps([op]) == EncodeOp(op)
  {
    assert [op][1..] == [];
    assert EncodeOps([op][1..]) == [];
  }

  lemma {:induction false} EmptyRep()
    ensures Rep(0, []) == Fixed(8, 0) + Fixed(4, 0)
  {
    RepIs(0, []);
  }

  /** What a walk over the bytes of a batch hands to its handler, and how it ends. */
  function Handled(rep: Bytes): (seq<BatchOp>, Status) {
    if |rep| < BATCH_HEADER then ([], TooSmall)
    else
      var (all, end) := ParseOps(rep[BATCH_HEADER..]);
      (all, if !end.Ok? then end else if |all| != DecodeFixed(rep[8..12]) then WrongCount else Ok)
  }

  function After(seen: seq<BatchOp>, r: (seq<BatchOp>, Status)): (seq<BatchOp>, Status) {
    (seen + r.0, r.1)
  }

  lemma {:induction false} ParseOpsStep(input: Bytes)
    requires |input| > 0
    ensures var (status, op, rest) := ParseOp(input);
            ParseOps(input) == if status.Ok? then ([op] + ParseOps(rest).0, ParseOps(rest).1) else ([], status)
  {
  }

  lemma {:induction false} AfterOne(seen: seq<BatchOp>, op: BatchOp, tail: (seq<BatchOp>, Status))
    ensures After(seen, ([op] + tail.0, tail.1)) == After(seen + [op], tail)
    ensures After(seen, ([], tail.1)) == (seen, tail.1)
  {
    assert seen + ([op] + tail.0) == (seen + [op]) + tail.0;
    assert seen + [] == seen;
  }

  lemma {:induction false} WalkOn(seen: seq<BatchOp>, input: Bytes)
    requires |input| > 0
    ensures var (status, op, rest) := ParseOp(input);
            After(seen, ParseOps(input)) == if status.Ok? then After(seen + [op], ParseOps(rest)) else (seen, status)
  {
    var (status, op, rest) := ParseOp(input);
    ParseOpsStep(input);
    AfterOne(seen, op, if status.Ok? then ParseOps(rest) else ([], status));
  }

  lemma {:induction false} WalkEnds(seen: seq<BatchOp>, r: (seq<BatchOp>, Status))
    ensures After(seen, ParseOps([])) == (seen, Ok) && After([], r) == r
  {
    assert seen + [] == seen && [] + r.0 == r.0;
  }

  /** Every batch hands out exactly its operations. */
  lemma {:induction false} HandledRep(sn: nat, ops: seq<BatchOp>)
    requires sn < TWO_64 && Fit(ops)
    ensures Handled(Rep(sn, ops)) == (ops, Ok)
  {
    RepHeader(sn, ops);
  }

  class WriteBatch {
    var rep: Bytes
    /** The operations and the sequence number that `rep` encodes. */
    ghost var ops: seq<BatchOp>
    ghost var sequence: nat

    ghost predicate Valid()
      reads this
    {
      sequence < TWO_64 && Fit(ops) && rep == Rep(sequence, ops)
    }

    constructor ()
      ensures Valid() && ops == []
    {
      EmptyRep();
      rep, ops, sequence := Fixed(8, 0) + Fixed(4, 0), [], 0;
    }

    method Clear()
      modifies this
      ensures Valid() && ops == [] && |rep| == BATCH_HEADER
    {
      EmptyRep();
      rep, ops, sequence := Fixed(8, 0) + Fixed(4, 0), [], 0;
    }

    method Count() returns (n: nat)
      requires Valid()
      ensures n == |ops|
    {
      RepHeader(sequence, ops);
      n := DecodeFixed(rep[8..12]);
    }

    method Sequence() returns (n: nat)
      requires Valid()
      ensures n == sequence
    {
      RepHeader(sequence, ops);
      n := DecodeFixed(rep[..8]);
    }

    method SetCount(n: nat)
      requires |rep| >= BATCH_HEADER
      modifies this`rep
      ensures rep == old(rep)[..8] + Fixed(4, n) + old(rep)[12..]
    {
      rep := rep[..8] + Fixed(4, n) + rep[12..];
    }

    method SetSequence(sn: nat)
      requires Valid() && sn < TWO_64
      modifies this
      ensures Valid() && ops == old(ops) && sequence == sn
    {
      RepRenumbered(sequence, ops, sn);
      rep := Fixed(8, sn) + rep[8..];
      sequence := sn;
    }

    method Put(key: Bytes, value: Bytes)
      requires Valid() && Fit(ops + [BatchOp.Put(key, value)])
      modifies this
      ensures Valid() && ops == old(ops) + [BatchOp.Put(key, value)] && sequence == old(sequence)
    {
      ghost var op := BatchOp.Put(key, value);
      RepExtended(sequence, ops, [op]);
      OneOp(op);
      var n := Count();
      SetCount(n + 1);
      ghost var head := rep;
      rep := rep + [TYPE_VALUE];
      rep := rep + LengthPrefixed(key);
      rep := rep + LengthPrefixed(value);
      assert rep == head + EncodeOp(op);
      ops := ops + [op];
    }

    method Delete(key: Bytes)
      requires Valid() && Fit(ops + [BatchOp.Delete(key)])
      modifies this
      ensures Valid() && ops == old(ops) + [BatchOp.Delete(key)] && sequence == old(sequence)
    {
      ghost var op := BatchOp.Delete(key);
      RepExtended(sequence, ops, [op]);
      OneOp(op);
      var n := Count();
      SetCount(n + 1);
      ghost var head := rep;
      rep := rep + [TYPE_DELETION];
      rep := rep + LengthPrefixed(key);
      assert rep == head + EncodeOp(op);
      ops := ops + [op];
    }

    /** The operations of `src` go to the end; its own header does not matter. */
    method Append(src: WriteBatch)
      requires Valid() && src.Valid() && src != this && Fit(ops + src.ops)
      modifies this
      ensures Valid() && ops == old(ops) + src.ops && sequence == old(sequence)
    {
      ghost var before, more := rep, src.ops;
      RepJoined(sequence, ops, src.sequence, more);
      var n := Count();
      var m := src.Count();
      SetCount(n + m);
      rep := rep + src.rep[BATCH_HEADER..];
      assert rep == before[..8] + Fixed(4, n + m) + before[12..] + src.rep[BATCH_HEADER..];
      ops := ops + more;
    }

    /** Walks the batch and hands each operation to the handler, whose calls are `seen`. */
    method Iterate() returns (seen: seq<BatchOp>, status: Status)
      ensures (seen, status) == Handled(rep)
    {
      if |rep| < BATCH_HEADER {
        return [], TooSmall;
      }
      var input := rep[BATCH_HEADER..];
      seen := [];
      WalkEnds(seen, ParseOps(input));
      while |input| > 0
        invariant After(seen, ParseOps(input)) == ParseOps(rep[BATCH_HEADER..])
        decreases |input|
      {
        WalkOn(seen, input);
        var (bad, op, rest) := ParseOp(input);
        if !bad.Ok? {
          return seen, bad;
        }
        seen := seen + [op];
        input := rest;
      }
      WalkEnds(seen, ParseOps(input));
      assert input == [];
      status := if |seen| != DecodeFixed(rep[8..12]) then WrongCount else Ok;
    }

    /** The memtable inserter numbers the operations consecutively. */
    method InsertInto() returns (added: seq<(nat, BatchOp)>)
      requires Valid()
      ensures |added| == |ops| && forall i :: 0 <= i < |ops| ==> added[i] == (sequence + i, ops[i])
    {
      HandledRep(sequence, ops);
      var seen, status := Iterate();
      var sn := Sequence();
      added := [];
      for i := 0 to |seen|
        invariant |added| == i && forall k :: 0 <= k < i ==> added[k] == (sequence + k, seen[k])
      {
        added := added + [(sn + i, seen[i])];
      }
    }
  }
}
