// The log format in numbers (db/log_format.h), apart from the code that writes and reads
// it: blocks of 32768 bytes, headers of seven bytes, and the types 1 to 4 of fragments.
module LogFormat {
  import opened Coding
  import opened Seqs

  /** One fragment: checksum of type and payload, two bytes of length, type, payload. */
  ghost function Frame(crc: Crc, t: Byte, data: Bytes): (r: Bytes)
    requires |data| < 65536
    ensures |r| == 7 + |data|
  {
    var sum := Mask(crc([t] + data));
    [sum % 256, sum / 256 % 256, sum / 65536 % 256, sum / 16777216, |data| % 256, |data| / 256, t] + data
  }

  /** The type of fragment `k` of `n`: 1 for a whole record, else 2 for the first, 4 for the last
      and 3 for those between them. */
  ghost function TypeOf(k: nat, n: nat): Byte {
    if n == 1 then 1 else if k == 0 then 2 else if k + 1 == n then 4 else 3
  }

  /** A record in pieces: first what there is room for, then what fits in whole blocks. */
  ghost function Cut(room: nat, data: Bytes): (parts: seq<Bytes>)
    requires room <= 32761
    ensures |parts| > 0 && forall k :: 0 <= k < |parts| ==> |parts[k]| <= 32761
    decreases |data|, 32761 - room
  {
    if |data| <= room then [data] else [data[..room]] + Cut(32761, data[room..])
  }

  /** Every piece but the last fills its block, and together they are the record. */
  lemma {:induction false} CutIs(room: nat, data: Bytes)
    requires room <= 32761
    ensures var parts := Cut(room, data);
      && Concat(parts) == data
      && (|parts| == 1 <==> |data| <= room)
      && (|parts| > 1 ==> |parts[0]| == room)
      && forall k :: 0 < k < |parts| - 1 ==> |parts[k]| == 32761
    decreases |data|, 32761 - room
  {
    if |data| <= room {
      assert [data][..0] == [];
    } else {
      var rest := Cut(32761, data[room..]);
      CutIs(32761, data[room..]);
      ConcatHead(data[..room], rest);
      assert data[..room] + data[room..] == data;
    }
  }

  lemma {:induction false} ConcatHead(head: Bytes, parts: seq<Bytes>)
    ensures Concat([head] + parts) == head + Concat(parts)
  {
    if |parts| == 0 {
      assert ([head] + parts)[..0] == [];
    } else {
      var front := parts[..|parts| - 1];
      assert ([head] + parts)[..|parts|] == [head] + front;
      ConcatHead(head, front);
    }
  }

  /** The fragments from number `k` on. */
  ghost function Frames(crc: Crc, parts: seq<Bytes>, k: nat): Bytes
    requires k <= |parts| && forall i :: 0 <= i < |parts| ==> |parts[i]| <= 32761
    decreases |parts| - k
  {
    if k == |parts| then [] else Frame(crc, TypeOf(k, |parts|), parts[k]) + Frames(crc, parts, k + 1)
  }

  /** The bytes of a record that begins at offset `off` of a block. Where no header fits, zeros
      fill up the block first. */
  ghost function Laid(crc: Crc, off: nat, data: Bytes): Bytes
    requires off < 32768
  {
    if off <= 32761 then Frames(crc, Cut(32761 - off, data), 0)
    else seq(32768 - off, _ => 0) + Frames(crc, Cut(32761, data), 0)
  }

  /** A record that fits in the rest of its block is one fragment. */
  lemma {:induction false} LaidWhole(crc: Crc, off: nat, data: Bytes)
    requires off + 7 + |data| <= 32768
    ensures Laid(crc, off, data) == Frame(crc, 1, data)
  {
    assert Cut(32761 - off, data) == [data];
    assert Frames(crc, [data], 1) == [];
  }

  /** Where the next header can be after `pos` bytes. */
  ghost function NextHeader(pos: nat): nat {
    if pos % 32768 <= 32761 then pos else pos - pos % 32768 + 32768
  }

  /** A file has this fragment at `pos`, within one block, and its checksum is right. */
  ghost predicate FrameAt(crc: Crc, file: Bytes, pos: nat, t: Byte, data: Bytes) {
    && pos % 32768 + 7 + |data| <= 32768 && pos + 7 + |data| <= |file|
    && file[pos..pos + 7 + |data|] == Frame(crc, t, data)
  }

  /** The file has the first fragments of a record, or all of them, one right after the other. */
  ghost predicate Held(crc: Crc, file: Bytes, starts: seq<nat>, parts: seq<Bytes>, all: bool) {
    |starts| == |parts| > 0 && Framed(crc, file, starts, parts, if all then |parts| else |parts| + 1) && InARow(starts, parts)
  }

  ghost predicate Framed(crc: Crc, file: Bytes, starts: seq<nat>, parts: seq<Bytes>, n: nat)
    requires |starts| == |parts|
  {
    forall k :: 0 <= k < |parts| ==> FragmentAt(crc, file, starts, parts, n, k)
  }

  ghost predicate FragmentAt(crc: Crc, file: Bytes, starts: seq<nat>, parts: seq<Bytes>, n: nat, k: nat)
    requires k < |starts| == |parts|
  {
    FrameAt(crc, file, starts[k], TypeOf(k, n), parts[k])
  }

  ghost predicate InARow(starts: seq<nat>, parts: seq<Bytes>)
    requires |starts| == |parts|
  {
    forall k :: 0 < k < |parts| ==> GoesOn(starts, parts, k)
  }

  ghost predicate GoesOn(starts: seq<nat>, parts: seq<Bytes>, k: nat)
    requires 0 < k < |starts| == |parts|
  {
    starts[k] == NextHeader(starts[k - 1] + 7 + |parts[k - 1]|)
  }

  /** These are somewhere from `from` on, end at `to`, and have this payload. */
  ghost predicate Spans(from: nat, to: nat, data: Bytes, starts: seq<nat>, parts: seq<Bytes>) {
    && |starts| == |parts| > 0 && from <= starts[0] && starts[|starts| - 1] + 7 + |parts[|parts| - 1]| == to
    && Concat(parts) == data
  }

  /** All fragments of the record are there. */
  ghost predicate Recorded(crc: Crc, file: Bytes, from: nat, to: nat, record: Bytes) {
    exists starts: seq<nat>, parts: seq<Bytes> :: Held(crc, file, starts, parts, true) && Spans(from, to, record, starts, parts)
  }

  /** The fragments of a record up to here are there, and it goes on. */
  ghost predicate Begun(crc: Crc, file: Bytes, from: nat, to: nat, data: Bytes) {
    exists starts: seq<nat>, parts: seq<Bytes> :: Held(crc, file, starts, parts, false) && Spans(from, to, data, starts, parts)
  }

  lemma {:induction false} WholeIsRecorded(crc: Crc, file: Bytes, from: nat, pos: nat, data: Bytes)
    requires from <= pos && FrameAt(crc, file, pos, 1, data)
    ensures Recorded(crc, file, from, pos + 7 + |data|, data)
  {
    assert [data][..0] == [];
    assert Held(crc, file, [pos], [data], true) && Spans(from, pos + 7 + |data|, data, [pos], [data]);
  }

  lemma {:induction false} FirstIsBegun(crc: Crc, file: Bytes, from: nat, pos: nat, data: Bytes)
    requires from <= pos && FrameAt(crc, file, pos, 2, data)
    ensures Begun(crc, file, from, pos + 7 + |data|, data)
  {
    assert [data][..0] == [];
    assert Held(crc, file, [pos], [data], false) && Spans(from, pos + 7 + |data|, data, [pos], [data]);
  }

  lemma {:induction false} OneMoreHeld(crc: Crc, file: Bytes, starts: seq<nat>, parts: seq<Bytes>, next: nat, data: Bytes,
      all: bool)
    requires Held(crc, file, starts, parts, false) && FrameAt(crc, file, next, if all then 4 else 3, data)
    requires next == NextHeader(starts[|starts| - 1] + 7 + |parts[|parts| - 1]|)
    ensures Held(crc, file, starts + [next], parts + [data], all)
  {
    OneMoreFramed(crc, file, starts, parts, next, data, all);
    OneMoreInARow(starts, parts, next, data);
  }

  lemma {:induction false} OneMoreFramed(crc: Crc, file: Bytes, starts: seq<nat>, parts: seq<Bytes>, next: nat, data: Bytes,
      all: bool)
    requires |starts| == |parts| > 0 && Framed(crc, file, starts, parts, |parts| + 1)
    requires FrameAt(crc, file, next, if all then 4 else 3, data)
    ensures Framed(crc, file, starts + [next], parts + [data], if all then |parts| + 1 else |parts| + 2)
  {
    var s, p, n := starts + [next], parts + [data], if all then |parts| + 1 else |parts| + 2;
    forall k | 0 <= k < |p| ensures FragmentAt(crc, file, s, p, n, k) {
      if k < |parts| {
        assert FragmentAt(crc, file, starts, parts, |parts| + 1, k);
      }
    }
  }

  lemma {:induction false} OneMoreInARow(starts: seq<nat>, parts: seq<Bytes>, next: nat, data: Bytes)
    requires |starts| == |parts| > 0 && InARow(starts, parts)
    requires next == NextHeader(starts[|starts| - 1] + 7 + |parts[|parts| - 1]|)
    ensures InARow(starts + [next], parts + [data])
  {
    var s, p := starts + [next], parts + [data];
    forall k | 0 < k < |p| ensures GoesOn(s, p, k) {
      if k < |parts| {
        assert GoesOn(starts, parts, k);
      }
    }
  }

  lemma {:induction false} OneMoreSpanned(from: nat, pos: nat, scratch: Bytes, starts: seq<nat>, parts: seq<Bytes>, next: nat,
      data: Bytes)
    requires Spans(from, pos, scratch, starts, parts)
    ensures Spans(from, next + 7 + |data|, scratch + data, starts + [next], parts + [data])
  {
    ConcatAppend(parts, data);
  }

  /** The next fragment goes on where the last one ended. */
  lemma {:induction false} MoreIsBegun(crc: Crc, file: Bytes, from: nat, pos: nat, next: nat, scratch: Bytes, data: Bytes)
    requires Begun(crc, file, from, pos, scratch) && FrameAt(crc, file, next, 3, data) && next == NextHeader(pos)
    ensures Begun(crc, file, from, next + 7 + |data|, scratch + data)
  {
    var starts: seq<nat>, parts: seq<Bytes> :| Held(crc, file, starts, parts, false) && Spans(from, pos, scratch, starts, parts);
    OneMoreHeld(crc, file, starts, parts, next, data, false);
    OneMoreSpanned(from, pos, scratch, starts, parts, next, data);
  }

  lemma {:induction false} LastIsRecorded(crc: Crc, file: Bytes, from: nat, pos: nat, next: nat, scratch: Bytes, data: Bytes)
    requires Begun(crc, file, from, pos, scratch) && FrameAt(crc, file, next, 4, data) && next == NextHeader(pos)
    ensures Recorded(crc, file, from, next + 7 + |data|, scratch + data)
  {
    var starts: seq<nat>, parts: seq<Bytes> :| Held(crc, file, starts, parts, false) && Spans(from, pos, scratch, starts, parts);
    OneMoreHeld(crc, file, starts, parts, next, data, true);
    OneMoreSpanned(from, pos, scratch, starts, parts, next, data);
  }
}
