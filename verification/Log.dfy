// The write-ahead log and manifest format (db/log_writer.cc, db/log_reader.cc): records
// are cut into fragments that never cross a 32 KB block, and read back from any prefix
// of the file. The checksum is an arbitrary function of the bytes it covers.
module Log {
  import opened Keys
  import opened Coding
  import opened LogFormat

  const BLOCK_SIZE: nat := 32768
  const HEADER_SIZE: nat := 7
  const FULL: Byte := 1
  const FIRST: Byte := 2
  const MIDDLE: Byte := 3
  const LAST: Byte := 4

  function Zeros(n: nat): (r: Bytes)
    ensures |r| == n
  {
    if n == 0 then [] else Zeros(n - 1) + [0]
  }

  // ----- what the writer puts into the file -----

  /** One physical record: checksum of type and payload, length, type, payload. */
  function Physical(crc: Crc, t: Byte, data: Bytes): (r: Bytes)
    requires |data| < 65536
    ensures |r| == HEADER_SIZE + |data|
  {
    Fixed(4, Mask(crc([t] + data))) + Fixed(2, |data|) + [t] + data
  }

  function FragmentType(begin: bool, end: bool): Byte {
    if begin && end then FULL else if begin then FIRST else if end then LAST else MIDDLE
  }

  /** The trailer that is too short for a header. */
  function Padding(off: nat): nat
    requires off <= BLOCK_SIZE
  {
    if BLOCK_SIZE - off < HEADER_SIZE then BLOCK_SIZE - off else 0
  }

  /** Where in its block the next header goes, and how much payload fits after it. */
  function HeaderAt(off: nat): (r: nat)
    requires off <= BLOCK_SIZE
    ensures r + HEADER_SIZE <= BLOCK_SIZE
  {
    if BLOCK_SIZE - off < HEADER_SIZE then 0 else off
  }

  function FragmentLength(off: nat, left: nat): nat
    requires off <= BLOCK_SIZE
  {
    var avail := BLOCK_SIZE - HeaderAt(off) - HEADER_SIZE;
    if left < avail then left else avail
  }

  /** One fragment, with the trailer that it may have to fill up first. */
  function Piece(crc: Crc, off: nat, data: Bytes, begin: bool): (r: Bytes)
    requires off <= BLOCK_SIZE
    ensures |r| == Padding(off) + HEADER_SIZE + FragmentLength(off, |data|)
  {
    var n := FragmentLength(off, |data|);
    Zeros(Padding(off)) + Physical(crc, FragmentType(begin, n == |data|), data[..n])
  }

  lemma {:induction false} PieceIs(crc: Crc, before: Bytes, off: nat, data: Bytes, begin: bool, n: nat)
    requires off <= BLOCK_SIZE && n == FragmentLength(off, |data|)
    ensures before + Piece(crc, off, data, begin)
            == before + Zeros(Padding(off)) + Physical(crc, FragmentType(begin, |data| == n), data[..n])
  {
  }

  /** The bytes that a record adds at block offset `off`. */
  function Fragments(crc: Crc, off: nat, data: Bytes, begin: bool): (r: Bytes)
    requires off <= BLOCK_SIZE
    ensures |r| >= HEADER_SIZE
    decreases |data|, BLOCK_SIZE - off
  {
    var n := FragmentLength(off, |data|);
    Piece(crc, off, data, begin) + (if n == |data| then [] else Fragments(crc, HeaderAt(off) + HEADER_SIZE + n, data[n..], false))
  }

  /** The block offset after `file` bytes; a full block and an empty one are alike. */
  lemma {:induction false} FullBlockIsEmpty(crc: Crc, data: Bytes, begin: bool)
    ensures Fragments(crc, BLOCK_SIZE, data, begin) == Fragments(crc, 0, data, begin)
  {
    assert Zeros(0) == [];
  }

  /** The bytes of one record: `Fragments` from its beginning, sealed so that what is
      said about whole files does not look into it. `RecordBytesAre` opens it. */
  function RecordBytes(crc: Crc, off: nat, record: Bytes): Bytes
    requires off < BLOCK_SIZE
  {
    RecordSeal(off + 9, crc, off, record)
  }

  function RecordSeal(n: nat, crc: Crc, off: nat, record: Bytes): Bytes
    requires off < BLOCK_SIZE
  {
    if n == 0 then Fragments(crc, off, record, true) else RecordSeal(n - 1, crc, off, record)
  }

  lemma {:induction false} RecordSealOpens(n: nat, crc: Crc, off: nat, record: Bytes)
    requires off < BLOCK_SIZE
    ensures RecordSeal(n, crc, off, record) == Fragments(crc, off, record, true)
  {
    if n > 0 {
      RecordSealOpens(n - 1, crc, off, record);
    }
  }

  lemma {:induction false} RecordBytesAre(crc: Crc, off: nat, record: Bytes)
    requires off < BLOCK_SIZE
    ensures RecordBytes(crc, off, record) == Fragments(crc, off, record, true)
  {
    RecordSealOpens(off + 9, crc, off, record);
  }

  /** In numbers, a fragment is what the format says. */
  lemma {:induction false} PhysicalLayout(crc: Crc, t: Byte, data: Bytes)
    requires |data| < 65536
    ensures Physical(crc, t, data) == Frame(crc, t, data)
  {
    Fixed32Layout(Mask(crc([t] + data)));
    assert Fixed(1, |data| / 256) == [|data| / 256];
    assert Fixed(2, |data|) == [|data| % 256, |data| / 256];
  }

  lemma {:induction false} ZerosAre(n: nat)
    ensures Zeros(n) == seq(n, _ => 0)
  {
    if n > 0 {
      ZerosAre(n - 1);
    }
  }

  lemma {:induction false} PieceLayout(crc: Crc, off: nat, data: Bytes, k: nat, n: nat, last: bool)
    requires off <= BLOCK_SIZE && n == FragmentLength(off, |data|) && last == (n == |data|)
    ensures Piece(crc, off, data, k == 0) ==
      Zeros(Padding(off)) + Frame(crc, TypeOf(k, if last then k + 1 else k + 2), data[..n])
  {
    PhysicalLayout(crc, FragmentType(k == 0, last), data[..n]);
  }

  lemma {:induction false} FragmentsLayout(crc: Crc, off: nat, data: Bytes, parts: seq<Bytes>, k: nat)
    requires off <= BLOCK_SIZE && k < |parts| && forall i :: 0 <= i < |parts| ==> |parts[i]| <= 32761
    requires parts[k..] == Cut(32761 - HeaderAt(off), data)
    ensures Fragments(crc, off, data, k == 0) == Zeros(Padding(off)) + Frames(crc, parts, k)
    decreases |parts| - k, 0
  {
    var n := FragmentLength(off, |data|);
    PartAt(parts, k, 32761 - HeaderAt(off), data, n);
    if n < |data| {
      NextFragments(crc, data[n..], parts, k + 1);
    }
    OneMoreFragment(crc, off, data, parts, k, n);
  }

  lemma {:induction false} OneMoreFragment(crc: Crc, off: nat, data: Bytes, parts: seq<Bytes>, k: nat, n: nat)
    requires off <= BLOCK_SIZE && k < |parts| && (forall i :: 0 <= i < |parts| ==> |parts[i]| <= 32761)
    requires n == FragmentLength(off, |data|) && parts[k] == data[..n]
    requires if n == |data| then k + 1 == |parts|
             else k + 1 < |parts| && Fragments(crc, BLOCK_SIZE, data[n..], false) == Frames(crc, parts, k + 1)
    ensures Fragments(crc, off, data, k == 0) == Zeros(Padding(off)) + Frames(crc, parts, k)
  {
    PieceLayout(crc, off, data, k, n, n == |data|);
    var pad, frame, rest := Zeros(Padding(off)), Frame(crc, TypeOf(k, |parts|), parts[k]), Frames(crc, parts, k + 1);
    assert Piece(crc, off, data, k == 0) == pad + frame;
    assert n < |data| ==> HeaderAt(off) + HEADER_SIZE + n == BLOCK_SIZE;
    Regroup(pad, frame, rest);
  }

  lemma {:induction false} PartAt(parts: seq<Bytes>, k: nat, room: nat, data: Bytes, n: nat)
    requires room <= 32761 && k < |parts| && parts[k..] == Cut(room, data) && n == if |data| < room then |data| else room
    ensures parts[k] == data[..n]
    ensures if n == |data| then k + 1 == |parts| else k + 1 < |parts| && parts[k + 1..] == Cut(32761, data[n..])
  {
    assert parts[k] == parts[k..][0] && |parts[k..]| == |parts| - k;
    assert data[..|data|] == data;
    if n < |data| {
      assert parts[k + 1..] == parts[k..][1..];
    }
  }

  lemma {:induction false} NextFragments(crc: Crc, data: Bytes, parts: seq<Bytes>, k: nat)
    requires 0 < k < |parts|
    requires (forall i :: 0 <= i < |parts| ==> |parts[i]| <= 32761) && parts[k..] == Cut(32761, data)
    ensures Fragments(crc, BLOCK_SIZE, data, false) == Frames(crc, parts, k)
    decreases |parts| - k, 1
  {
    FragmentsLayout(crc, BLOCK_SIZE, data, parts, k);
    NoZeros(Frames(crc, parts, k));
  }

  lemma {:induction false} NoZeros(bs: Bytes)
    ensures Zeros(0) + bs == bs
  {
  }

  /** So is a record, wherever in its block it begins. */
  lemma {:induction false} RecordLayout(crc: Crc, off: nat, record: Bytes)
    requires off < BLOCK_SIZE
    ensures RecordBytes(crc, off, record) == Laid(crc, off, record)
  {
    RecordBytesAre(crc, off, record);
    var parts := Cut(32761 - HeaderAt(off), record);
    assert parts[0..] == parts;
    FragmentsLayout(crc, off, record, parts, 0);
    ZerosAre(Padding(off));
    if off <= 32761 {
      assert Zeros(0) == [];
    }
  }

  /** The bytes of these records, written from block offset `off` on. */
  function FileFrom(crc: Crc, off: nat, records: seq<Bytes>): Bytes
    requires off < BLOCK_SIZE
    decreases |records|
  {
    if |records| == 0 then []
    else
      var first := RecordBytes(crc, off, records[0]);
      first + FileFrom(crc, (off + |first|) % BLOCK_SIZE, records[1..])
  }

  function FileOf(crc: Crc, records: seq<Bytes>): Bytes {
    FileFrom(crc, 0, records)
  }

  /** The log of `records` after one more `AddRecord`. */
  lemma {:induction false} AppendedRecord(crc: Crc, off: nat, records: seq<Bytes>, record: Bytes)
    requires off < BLOCK_SIZE
    ensures var before := FileFrom(crc, off, records);
            FileFrom(crc, off, records + [record]) == before + RecordBytes(crc, (off + |before|) % BLOCK_SIZE, record)
    decreases |records|
  {
    if |records| == 0 {
      assert (records + [record])[1..] == [];
    } else {
      var first := RecordBytes(crc, off, records[0]);
      var off' := (off + |first|) % BLOCK_SIZE;
      assert (records + [record])[1..] == records[1..] + [record];
      AppendedRecord(crc, off', records[1..], record);
      var rest := FileFrom(crc, off', records[1..]);
      ModSum(off + |first|, |rest|);
      FirstThenRest(crc, off, records, first, rest);
      FirstThenRest(crc, off, records + [record], first, rest + RecordBytes(crc, (off' + |rest|) % BLOCK_SIZE, record));
      Regroup(first, rest, RecordBytes(crc, (off' + |rest|) % BLOCK_SIZE, record));
    }
  }

  lemma {:induction false} FirstThenRest(crc: Crc, off: nat, records: seq<Bytes>, first: Bytes, rest: Bytes)
    requires off < BLOCK_SIZE && |records| > 0 && first == RecordBytes(crc, off, records[0])
    requires rest == FileFrom(crc, (off + |first|) % BLOCK_SIZE, records[1..])
    ensures FileFrom(crc, off, records) == first + rest && |first + rest| == |first| + |rest|
  {
  }

  lemma {:induction false} Regroup(a: Bytes, b: Bytes, c: Bytes)
    ensures a + (b + c) == (a + b) + c
  {
  }

  lemma {:induction false} ModSum(a: nat, b: nat)
    ensures (a % BLOCK_SIZE + b) % BLOCK_SIZE == (a + b) % BLOCK_SIZE
  {
  }

  class Writer {
    const crc: Crc
    var dest: Bytes
    var blockOffset: nat
    /** Whole blocks before the one being filled. */
    ghost var blocks: nat

    ghost predicate Valid()
      reads this
    {
      blockOffset <= BLOCK_SIZE && |dest| == blocks * BLOCK_SIZE + blockOffset
    }

    constructor (crc: Crc, dest: Bytes)
      ensures Valid() && this.dest == dest && this.crc == crc
    {
      this.crc, this.dest, blockOffset, blocks := crc, dest, |dest| % BLOCK_SIZE, |dest| / BLOCK_SIZE;
    }

    method EmitPhysicalRecord(t: Byte, data: Bytes)
      requires |data| < 65536 && blockOffset + HEADER_SIZE + |data| <= BLOCK_SIZE
      modifies this`dest, this`blockOffset
      ensures dest == old(dest) + Physical(crc, t, data) && blockOffset == old(blockOffset) + HEADER_SIZE + |data|
    {
      dest := dest + (Fixed(4, Mask(crc([t] + data))) + Fixed(2, |data|) + [t]);
      dest := dest + data;
      blockOffset := blockOffset + HEADER_SIZE + |data|;
      assert dest == old(dest) + Physical(crc, t, data);
    }

    /** Fills up the block if no header fits in what is left of it. */
    method SwitchBlock()
      requires Valid()
      modifies this
      ensures Valid() && blockOffset == HeaderAt(old(blockOffset)) && dest == old(dest) + Zeros(Padding(old(blockOffset)))
    {
      var leftover := BLOCK_SIZE - blockOffset;
      if leftover < HEADER_SIZE {
        if leftover > 0 {
          dest := dest + Zeros(leftover);
        }
        blockOffset, blocks := 0, blocks + 1;
      }
    }

    /** One turn of the loop: one fragment, in a new block if need be. */
    method EmitFragment(left: Bytes, begin: bool) returns (n: nat)
      requires Valid()
      modifies this
      ensures Valid() && n == FragmentLength(old(blockOffset), |left|) && blockOffset == HeaderAt(old(blockOffset)) + HEADER_SIZE + n
      ensures dest == old(dest) + Piece(crc, old(blockOffset), left, begin)
    {
      ghost var off, before := blockOffset, dest;
      SwitchBlock();
      var avail := BLOCK_SIZE - blockOffset - HEADER_SIZE;
      n := if |left| < avail then |left| else avail;
      var end := |left| == n;
      EmitPhysicalRecord(FragmentType(begin, end), left[..n]);
      PieceIs(crc, before, off, left, begin, n);
    }

    /** Appends one record, in as many fragments as it takes; an empty record takes one. */
    method AddRecord(slice: Bytes)
      requires Valid()
      modifies this
      ensures Valid() && dest == old(dest) + RecordBytes(crc, old(|dest|) % BLOCK_SIZE, slice)
      ensures dest == old(dest) + Laid(crc, old(|dest|) % 32768, slice)
      ensures old(|dest|) % 32768 + 7 + |slice| <= 32768 ==> dest == old(dest) + Frame(crc, 1, slice)
      ensures forall records :: old(dest) == FileOf(crc, records) ==> dest == FileOf(crc, records + [slice])
    {
      RecordBytesAre(crc, |dest| % BLOCK_SIZE, slice);
      RecordLayout(crc, |dest| % BLOCK_SIZE, slice);
      if |dest| % 32768 + 7 + |slice| <= 32768 {
        LaidWhole(crc, |dest| % 32768, slice);
      }
      forall records | dest == FileOf(crc, records)
        ensures FileOf(crc, records + [slice]) == dest + RecordBytes(crc, |dest| % BLOCK_SIZE, slice) {
        AppendedRecord(crc, 0, records, slice);
      }
      FullBlockIsEmpty(crc, slice, true);
      OffsetInBlock(|dest|, blocks, blockOffset);
      AddFragments(slice);
    }

    method AddFragments(slice: Bytes)
      requires Valid()
      modifies this
      ensures Valid() && dest == old(dest) + Fragments(crc, old(blockOffset), slice, true)
    {
      var left, begin, done := slice, true, false;
      ghost var total := dest + Fragments(crc, blockOffset, slice, true);
      while !done
        invariant Valid() && dest + Remaining(crc, blockOffset, left, begin, done) == total
        decreases !done, |left|, BLOCK_SIZE - blockOffset
      {
        StepKeepsTotal(crc, dest, blockOffset, left, begin);
        var n := EmitFragment(left, begin);
        done := n == |left|;
        left, begin := left[n..], false;
      }
    }
  }

  lemma {:induction false} OffsetInBlock(size: nat, blocks: nat, off: nat)
    requires size == blocks * BLOCK_SIZE + off && off <= BLOCK_SIZE
    ensures size % BLOCK_SIZE == if off == BLOCK_SIZE then 0 else off
  {
  }

  /** What is still to be written of a record. */
  ghost function Remaining(crc: Crc, off: nat, left: Bytes, begin: bool, done: bool): Bytes
    requires off <= BLOCK_SIZE
  {
    if done then [] else Fragments(crc, off, left, begin)
  }

  lemma {:induction false} StepKeepsTotal(crc: Crc, dest: Bytes, off: nat, left: Bytes, begin: bool)
    requires off <= BLOCK_SIZE
    ensures var n := FragmentLength(off, |left|);
            (dest + Piece(crc, off, left, begin)) + Remaining(crc, HeaderAt(off) + HEADER_SIZE + n, left[n..], false, n == |left|)
            == dest + Remaining(crc, off, left, begin, false)
  {
  }

  // ----- what the reader makes of a file -----

  datatype PhysicalRecord = Eof | Bad(next: nat, reported: bool) | Rec(t: Byte, data: Bytes, next: nat)

  /** The end of the block that position `pos` is in, ignoring the end of the file. */
  function BlockEnd(pos: nat): (r: nat)
    ensures pos < r && r % BLOCK_SIZE == 0 && r <= pos + BLOCK_SIZE
  {
    (pos / BLOCK_SIZE + 1) * BLOCK_SIZE
  }

  function Min(a: nat, b: nat): nat {
    if a < b then a else b
  }

  /** The physical record that starts at or after `pos`. */
  function PhysicalAt(crc: Crc, file: Bytes, pos: nat): (r: PhysicalRecord)
    requires pos <= |file|
    ensures r.Bad? || r.Rec? ==> pos < r.next <= |file|
    decreases |file| - pos
  {
    var end := Min(BlockEnd(pos), |file|);
    var short := |file| < BlockEnd(pos);
    if end - pos < HEADER_SIZE then
      if short then Eof else PhysicalAt(crc, file, end)
    else
      ParseRecord(crc, file[pos..end], pos, short)
  }

  /** The record that starts a piece of a block; the piece is at `pos` in the file. */
  function ParseRecord(crc: Crc, piece: Bytes, pos: nat, short: bool): (r: PhysicalRecord)
    requires |piece| >= HEADER_SIZE
    ensures r.Bad? || r.Rec? ==> pos < r.next <= pos + |piece|
  {
    var length, t := DecodeFixed(piece[4..6]), piece[6];
    if HEADER_SIZE + length > |piece| then
      if short then Eof else Bad(pos + |piece|, true)
    else if t == 0 && length == 0 then
      Bad(pos + |piece|, false)
    else if crc(piece[6..HEADER_SIZE + length]) != Unmask(DecodeFixed(piece[..4]) % TWO_32) then
      Bad(pos + |piece|, true)
    else
      Rec(t, piece[HEADER_SIZE..HEADER_SIZE + length], pos + HEADER_SIZE + length)
  }

  datatype Reading = Reading(record: Option<Bytes>, next: nat, reports: nat)

  function Reported(n: nat, r: Reading): Reading {
    r.(reports := r.reports + n)
  }

  /** What one physical record does to a logical record under construction. */
  datatype Step = Done(record: Option<Bytes>, next: nat, partial: nat) | Go(next: nat, inFragment: bool, scratch: Bytes, partial: nat)

  function StepOf(r: PhysicalRecord, size: nat, inFragment: bool, scratch: Bytes): Step {
    match r
    case Eof => Done(None, size, 0)
    case Bad(next, reported) => Go(next, false, [], (if reported then 1 else 0) + (if inFragment then 1 else 0))
    case Rec(t, data, next) =>
      var partial := if inFragment && |scratch| > 0 then 1 else 0;
      if t == FULL then Done(Some(data), next, partial)
      else if t == FIRST then Go(next, true, data, partial)
      else if t == MIDDLE then
        if !inFragment then Go(next, false, scratch, 1) else Go(next, true, scratch + data, 0)
      else if t == LAST then
        if !inFragment then Go(next, false, scratch, 1) else Done(Some(scratch + data), next, 0)
      else Go(next, false, [], 1)
  }

  /** In numbers: a record of type 1 is whole, 2 begins one, 3 goes on with it and 4 ends it; what
      was begun and not ended, what was not begun, and what has another type or is damaged, counts
      as dropped. */
  lemma {:induction false} TypesAreHandled(t: Byte, data: Bytes, next: nat, reported: bool, size: nat, begun: bool, scratch: Bytes)
    requires !begun ==> scratch == []
    ensures var r, cut := Rec(t, data, next), if scratch != [] then 1 else 0;
      StepOf(r, size, begun, scratch) ==
        if t == 1 then Done(Some(data), next, cut)
        else if t == 2 then Go(next, true, data, cut)
        else if t == 3 then (if begun then Go(next, true, scratch + data, 0) else Go(next, false, [], 1))
        else if t == 4 then (if begun then Done(Some(scratch + data), next, 0) else Go(next, false, [], 1))
        else Go(next, false, [], 1)
    ensures StepOf(Eof, size, begun, scratch) == Done(None, size, 0)
    ensures StepOf(Bad(next, reported), size, begun, scratch) ==
      Go(next, false, [], (if reported then 1 else 0) + (if begun then 1 else 0))
  {
  }

  /** The next logical record from `pos` on; `scratch` holds the fragments seen so far. */
  function RecordFrom(crc: Crc, file: Bytes, pos: nat, inFragment: bool, scratch: Bytes): (r: Reading)
    requires pos <= |file|
    ensures r.next <= |file| && (r.record.Some? ==> pos < r.next)
    decreases |file| - pos
  {
    match StepOf(PhysicalAt(crc, file, pos), |file|, inFragment, scratch)
    case Done(record, next, partial) => Reading(record, next, partial)
    case Go(next, inFragment', scratch', partial) => Reported(partial, RecordFrom(crc, file, next, inFragment', scratch'))
  }

  // ----- what is yielded was written -----

  /** Only a header with the right checksum makes a physical record. */
  lemma {:induction false} ParsedIsFrame(crc: Crc, piece: Bytes, pos: nat, short: bool)
    requires HEADER_SIZE <= |piece|
    ensures var r := ParseRecord(crc, piece, pos, short);
      r.Rec? ==> |r.data| < 65536 && 7 + |r.data| <= |piece| && r.next == pos + 7 + |r.data|
                 && piece[..7 + |r.data|] == Frame(crc, r.t, r.data)
  {
    var r := ParseRecord(crc, piece, pos, short);
    if r.Rec? {
      var n := |r.data|;
      assert piece[6..HEADER_SIZE + n] == [r.t] + r.data;
      StoredChecksum(piece[..4], crc([r.t] + r.data));
      StoredLength(piece[4..6]);
      HeaderParts(crc, piece, r.t, r.data);
    }
  }

  lemma {:induction false} HeaderParts(crc: Crc, piece: Bytes, t: Byte, data: Bytes)
    requires HEADER_SIZE + |data| <= |piece| && |data| < 65536 && piece[6..HEADER_SIZE + |data|] == [t] + data
    requires piece[..4] == Fixed(4, Mask(crc([t] + data))) && piece[4..6] == Fixed(2, |data|)
    ensures piece[..7 + |data|] == Frame(crc, t, data)
  {
    PhysicalLayout(crc, t, data);
    ThreeSlices(piece[..7 + |data|], 4, 6);
    assert piece[..7 + |data|][..4] == piece[..4] && piece[..7 + |data|][4..6] == piece[4..6];
    assert piece[..7 + |data|][6..] == piece[6..7 + |data|];
    Regroup(piece[..4] + piece[4..6], [t], data);
  }

  lemma {:induction false} ThreeSlices(bs: Bytes, i: nat, j: nat)
    requires i <= j <= |bs|
    ensures bs == bs[..i] + bs[i..j] + bs[j..]
  {
  }

  lemma {:induction false} ParsedIsFramed(crc: Crc, file: Bytes, pos: nat, end: nat)
    requires pos + HEADER_SIZE <= end <= |file| && end <= BlockEnd(pos)
    ensures var r := ParseRecord(crc, file[pos..end], pos, |file| < BlockEnd(pos));
      r.Rec? ==> FrameAt(crc, file, pos, r.t, r.data) && r.next == pos + 7 + |r.data|
  {
    var r := ParseRecord(crc, file[pos..end], pos, |file| < BlockEnd(pos));
    ParsedIsFrame(crc, file[pos..end], pos, |file| < BlockEnd(pos));
    if r.Rec? {
      assert file[pos..pos + 7 + |r.data|] == file[pos..end][..7 + |r.data|];
    }
  }

  lemma {:induction false} StoredChecksum(field: Bytes, sum: Word)
    requires |field| == 4 && sum == Unmask(DecodeFixed(field) % TWO_32)
    ensures field == Fixed(4, Mask(sum))
  {
    FixedIsOnlyForm(field);
    Fixed4Fits(field);
    SameWord(DecodeFixed(field));
    UnmaskRoundTrip(DecodeFixed(field));
  }

  lemma {:induction false} SameWord(v: nat)
    requires v < TWO_32
    ensures v % TWO_32 == v
  {
  }

  lemma {:induction false} Fixed4Fits(field: Bytes)
    requires |field| == 4
    ensures DecodeFixed(field) < TWO_32
  {
    assert DecodeFixed(field[2..]) < 65536 by {
      assert DecodeFixed(field[2..][1..]) < 256;
    }
  }

  lemma {:induction false} StoredLength(field: Bytes)
    requires |field| == 2
    ensures field == Fixed(2, DecodeFixed(field)) && DecodeFixed(field) < 65536
  {
    FixedIsOnlyForm(field);
    assert DecodeFixed(field[1..]) < 256;
  }

  /** In numbers, what is made of a header and the rest of its block, up to the end of the file. */
  lemma {:induction false} HeaderIsJudged(crc: Crc, file: Bytes, pos: nat)
    requires pos % 32768 + 7 <= 32768 && pos + 7 <= |file|
    ensures var n: nat, t, blockEnd: nat := file[pos + 4] as nat + 256 * file[pos + 5] as nat, file[pos + 6], pos - pos % 32768 + 32768;
      var end := if blockEnd <= |file| then blockEnd else |file|;
      PhysicalAt(crc, file, pos) ==
        if pos + 7 + n > end then (if |file| < blockEnd then Eof else Bad(end, true))
        else if t == 0 && n == 0 then Bad(end, false)
        else if file[pos..pos + 7 + n] != Frame(crc, t, file[pos + 7..pos + 7 + n]) then Bad(end, true)
        else Rec(t, file[pos + 7..pos + 7 + n], pos + 7 + n)
  {
    var end := Min(BlockEnd(pos), |file|);
    BlockEndIs(pos);
    PieceIsJudged(crc, file[pos..end], pos, |file| < BlockEnd(pos));
    PhysicalHere(crc, file, pos, end);
    HeaderInPiece(file, pos, end);
  }

  lemma {:induction false} BlockEndIs(pos: nat)
    ensures BlockEnd(pos) == pos - pos % 32768 + 32768
  {
  }

  lemma {:induction false} PhysicalHere(crc: Crc, file: Bytes, pos: nat, end: nat)
    requires pos + 7 <= end == Min(BlockEnd(pos), |file|)
    ensures PhysicalAt(crc, file, pos) == ParseRecord(crc, file[pos..end], pos, |file| < BlockEnd(pos))
  {
  }

  lemma {:induction false} HeaderInPiece(file: Bytes, pos: nat, end: nat)
    requires pos + 7 <= end <= |file|
    ensures forall i :: 0 <= i < 7 ==> file[pos..end][i] == file[pos + i]
    ensures var n: nat := file[pos + 4] as nat + 256 * file[pos + 5] as nat;
      pos + 7 + n <= end ==> file[pos..end][0..7 + n] == file[pos..pos + 7 + n] && file[pos..end][7..7 + n] == file[pos + 7..pos + 7 + n]
  {
    var n: nat := file[pos + 4] as nat + 256 * file[pos + 5] as nat;
    if pos + 7 + n <= end {
      SubSlice(file, pos, end, 0, 7 + n);
      SubSlice(file, pos, end, 7, 7 + n);
    }
  }

  lemma {:induction false} SubSlice(file: Bytes, pos: nat, end: nat, i: nat, j: nat)
    requires pos <= end <= |file| && i <= j <= end - pos
    ensures file[pos..end][i..j] == file[pos + i..pos + j]
  {
    var a, b := file[pos..end][i..j], file[pos + i..pos + j];
    forall k | 0 <= k < |a| ensures a[k] == b[k] {
      assert file[pos..end][i + k] == file[pos + i + k];
    }
  }

  lemma {:induction false} PieceIsJudged(crc: Crc, piece: Bytes, pos: nat, short: bool)
    requires 7 <= |piece| <= 32768
    ensures var n: nat, t := piece[4] as nat + 256 * piece[5] as nat, piece[6];
      ParseRecord(crc, piece, pos, short) ==
        if 7 + n > |piece| then (if short then Eof else Bad(pos + |piece|, true))
        else if t == 0 && n == 0 then Bad(pos + |piece|, false)
        else if piece[0..7 + n] != Frame(crc, t, piece[7..7 + n]) then Bad(pos + |piece|, true)
        else Rec(t, piece[7..7 + n], pos + 7 + n)
  {
    TwoBytes(piece[4..6]);
    ParsedIsFrame(crc, piece, pos, short);
    var n: nat, t := piece[4] as nat + 256 * piece[5] as nat, piece[6];
    assert DecodeFixed(piece[4..6]) == n;
    if 7 + n <= |piece| {
      var data := piece[7..7 + n];
      assert piece[6..7 + n] == [t] + data && piece[0..7 + n] == piece[..7 + n];
      if piece[0..7 + n] == Frame(crc, t, data) {
        FrameChecksum(crc, t, data);
        assert piece[..4] == piece[0..7 + n][..4];
      }
      assert !(t == 0 && n == 0) ==>
        ParseRecord(crc, piece, pos, short) == if piece[0..7 + n] != Frame(crc, t, data) then Bad(pos + |piece|, true) else Rec(t, data, pos + 7 + n);
      assert (t == 0 && n == 0) ==> ParseRecord(crc, piece, pos, short) == Bad(pos + |piece|, false);
    }
  }

  lemma {:induction false} TwoBytes(field: Bytes)
    requires |field| == 2
    ensures DecodeFixed(field) == field[0] as nat + 256 * field[1] as nat
  {
    assert DecodeFixed(field[1..]) == field[1] as nat + 256 * DecodeFixed(field[1..][1..]);
  }

  lemma {:induction false} FrameChecksum(crc: Crc, t: Byte, data: Bytes)
    requires |data| < 65536
    ensures Unmask(DecodeFixed(Frame(crc, t, data)[..4]) % TWO_32) == crc([t] + data)
  {
    PhysicalLayout(crc, t, data);
    assert Physical(crc, t, data)[..4] == Fixed(4, Mask(crc([t] + data)));
    Fixed32RoundTrip(Mask(crc([t] + data)));
    MaskRoundTrip(crc([t] + data));
  }

  lemma {:induction false} PhysicalIsFramed(crc: Crc, file: Bytes, pos: nat)
    requires pos <= |file|
    ensures var r := PhysicalAt(crc, file, pos);
      r.Rec? ==> FrameAt(crc, file, NextHeader(pos), r.t, r.data) && r.next == NextHeader(pos) + 7 + |r.data|
    decreases |file| - pos
  {
    var end := Min(BlockEnd(pos), |file|);
    if end - pos < HEADER_SIZE {
      if |file| >= BlockEnd(pos) {
        PhysicalIsFramed(crc, file, end);
      }
    } else {
      ParsedIsFramed(crc, file, pos, end);
    }
  }

  /** Whatever the file, a record that is yielded is the payload of fragments that the file has. */
  lemma {:induction false} YieldedIsHeld(crc: Crc, file: Bytes, pos: nat, from: nat, inFragment: bool, scratch: Bytes)
    requires from <= pos <= |file| && (inFragment ==> Begun(crc, file, from, pos, scratch))
    ensures var r := RecordFrom(crc, file, pos, inFragment, scratch);
      r.record.Some? ==> Recorded(crc, file, from, r.next, r.record.value)
    decreases |file| - pos
  {
    var r := PhysicalAt(crc, file, pos);
    PhysicalIsFramed(crc, file, pos);
    match StepOf(r, |file|, inFragment, scratch)
    case Done(record, next, _) =>
      if r.Rec? {
        if r.t == FULL {
          WholeIsRecorded(crc, file, from, NextHeader(pos), r.data);
        } else {
          LastIsRecorded(crc, file, from, pos, NextHeader(pos), scratch, r.data);
        }
      }
    case Go(next, inFragment', scratch', _) =>
      if r.Rec? {
        if r.t == FIRST {
          FirstIsBegun(crc, file, from, NextHeader(pos), r.data);
        } else if r.t == MIDDLE && inFragment {
          MoreIsBegun(crc, file, from, pos, NextHeader(pos), scratch, r.data);
        }
      }
      YieldedIsHeld(crc, file, next, from, inFragment', scratch');
  }

  /** What a caller gets that reads until there are no more records. */
  function ReadAll(crc: Crc, file: Bytes, pos: nat): (seq<Bytes>, nat)
    requires pos <= |file|
    decreases |file| - pos
  {
    var r := RecordFrom(crc, file, pos, false, []);
    if r.record.None? then ([], r.reports)
    else
      var (rest, reports) := ReadAll(crc, file, r.next);
      ([r.record.value] + rest, r.reports + reports)
  }

  /** The reader over a file, with its one-block buffer. */
  class Reader {
    const crc: Crc
    const file: Bytes
    var filePos: nat
    var buffer: Bytes
    var eof: bool
    var reports: nat

    /** The position of the first byte not yet consumed. */
    ghost function Pos(): int
      reads this`filePos, this`buffer
    {
      filePos - |buffer|
    }

    ghost predicate Valid()
      reads this`filePos, this`buffer, this`eof
    {
      && |buffer| <= filePos <= |file| && buffer == file[filePos - |buffer|..filePos]
      && |buffer| <= BLOCK_SIZE
      && (eof ==> filePos == |file|)
      && (!eof ==> filePos % BLOCK_SIZE == 0)
      && (|buffer| > 0 ==> filePos == Min(BlockEnd(Pos()), |file|) && (eof <==> |file| < BlockEnd(Pos())))
    }

    constructor (crc: Crc, file: Bytes)
      ensures Valid() && Pos() == 0 && reports == 0 && this.crc == crc && this.file == file
    {
      this.crc, this.file, filePos, buffer, eof, reports := crc, file, 0, [], false, 0;
    }

    method ReadBlock()
      requires Valid() && !eof
      modifies this`buffer, this`filePos, this`eof
      ensures Valid() && Pos() == old(filePos) && filePos >= old(filePos) && (filePos > old(filePos) || eof)
    {
      var n := Min(BLOCK_SIZE, |file| - filePos);
      buffer := file[filePos..filePos + n];
      filePos := filePos + n;
      if n < BLOCK_SIZE {
        eof := true;
      }
    }

    /** Reads blocks until a header can be parsed; false at the end of the file. */
    method Refill() returns (more: bool)
      requires Valid()
      modifies this`buffer, this`filePos, this`eof
      ensures Valid() && PhysicalAt(crc, file, Pos()) == PhysicalAt(crc, file, old(Pos())) && old(Pos()) <= Pos()
      ensures more ==> |buffer| >= HEADER_SIZE
      ensures !more ==> buffer == [] && Pos() == |file| && PhysicalAt(crc, file, old(Pos())) == Eof
    {
      ghost var want := PhysicalAt(crc, file, Pos());
      while |buffer| < HEADER_SIZE
        invariant Valid() && PhysicalAt(crc, file, Pos()) == want && old(Pos()) <= Pos()
        decreases !eof, |file| - filePos
      {
        if eof {
          NothingLeft(crc, file, Pos(), filePos);
          NothingLeft(crc, file, filePos, filePos);
          buffer := [];
          return false;
        }
        SkipTrailer(crc, file, Pos(), filePos);
        ReadBlock();
      }
      more := true;
    }

    method ReadPhysicalRecord() returns (r: PhysicalRecord)
      requires Valid()
      modifies this
      ensures Valid() && r == PhysicalAt(crc, file, old(Pos()))
      ensures Pos() == if r.Eof? then |file| else r.next
      ensures reports == old(reports) + (if r.Bad? && r.reported then 1 else 0)
    {
      var more := Refill();
      if !more {
        return Eof;
      }
      assert PhysicalAt(crc, file, Pos()) == ParseRecord(crc, buffer, Pos(), eof);
      r := ParseBuffer();
    }

    /** Drops `n` bytes from the buffer; all of them when a block is given up. */
    method RemovePrefix(n: nat)
      requires Valid() && 0 < n <= |buffer|
      modifies this`buffer
      ensures Valid() && Pos() == old(Pos()) + n
    {
      DropPrefix(file, filePos - |buffer|, filePos, n);
      buffer := buffer[n..];
    }

    method ParseBuffer() returns (r: PhysicalRecord)
      requires Valid() && |buffer| >= HEADER_SIZE
      modifies this
      ensures Valid() && r == ParseRecord(crc, old(buffer), old(Pos()), eof)
      ensures eof == old(eof) && filePos == old(filePos)
      ensures Pos() == if r.Eof? then filePos else r.next
      ensures reports == old(reports) + (if r.Bad? && r.reported then 1 else 0)
    {
      var pos := filePos - |buffer|;
      var length, t := DecodeFixed(buffer[4..6]), buffer[6];
      if HEADER_SIZE + length > |buffer| {
        RemovePrefix(|buffer|);
        if !eof {
          reports := reports + 1;
          return Bad(filePos, true);
        }
        return Eof;
      }
      if t == 0 && length == 0 {
        RemovePrefix(|buffer|);
        return Bad(filePos, false);
      }
      if crc(buffer[6..HEADER_SIZE + length]) != Unmask(DecodeFixed(buffer[..4]) % TWO_32) {
        RemovePrefix(|buffer|);
        reports := reports + 1;
        return Bad(filePos, true);
      }
      r := Rec(t, buffer[HEADER_SIZE..HEADER_SIZE + length], pos + HEADER_SIZE + length);
      RemovePrefix(HEADER_SIZE + length);
    }

    /** What ReadRecord does with one physical record. */
    method Absorb(r: PhysicalRecord, inFragment0: bool, scratch0: Bytes)
      returns (done: bool, record: Option<Bytes>, inFragment: bool, scratch: Bytes)
      requires Valid() && Pos() == (if r.Eof? then |file| else r.next) && (!inFragment0 ==> scratch0 == [])
      modifies this`reports
      ensures Valid() && (!inFragment ==> scratch == [])
      ensures var reported := if r.Bad? && r.reported then 1 else 0;
              match StepOf(r, |file|, inFragment0, scratch0)
              case Done(x, next, partial) => done && record == x && Pos() == next && reports == old(reports) + partial
              case Go(next, i, s, partial) => !done && inFragment == i && scratch == s && Pos() == next
                                              && reports + reported == old(reports) + partial
    {
      done, record, inFragment, scratch := false, None, inFragment0, scratch0;
      if r.Eof? {
        done, inFragment, scratch := true, false, [];
      } else if r.Bad? {
        if inFragment {
          reports, inFragment, scratch := reports + 1, false, [];
        }
      } else if r.t == FULL {
        if inFragment && |scratch| > 0 {
          reports := reports + 1;
        }
        done, record, inFragment, scratch := true, Some(r.data), false, [];
      } else if r.t == FIRST {
        if inFragment && |scratch| > 0 {
          reports := reports + 1;
        }
        scratch, inFragment := r.data, true;
      } else if r.t == MIDDLE {
        if !inFragment {
          reports := reports + 1;
        } else {
          scratch := scratch + r.data;
        }
      } else if r.t == LAST {
        if !inFragment {
          reports := reports + 1;
        } else {
          done, record, inFragment, scratch := true, Some(scratch + r.data), false, [];
        }
      } else {
        reports, inFragment, scratch := reports + 1, false, [];
      }
    }

    method ReadRecord() returns (record: Option<Bytes>)
      requires Valid()
      modifies this
      ensures Valid()
      ensures var r := RecordFrom(crc, file, old(Pos()), false, []);
              record == r.record && Pos() == r.next && reports == old(reports) + r.reports
      ensures record.Some? ==> Recorded(crc, file, old(Pos()), Pos(), record.value)
    {
      YieldedIsHeld(crc, file, Pos(), Pos(), false, []);
      record := ReadFragments();
    }

    method ReadFragments() returns (record: Option<Bytes>)
      requires Valid()
      modifies this
      ensures Valid()
      ensures var r := RecordFrom(crc, file, old(Pos()), false, []);
              record == r.record && Pos() == r.next && reports == old(reports) + r.reports
    {
      var scratch, inFragment, done := [], false, false;
      record := None;
      ghost var want := RecordFrom(crc, file, Pos(), false, []);
      while !done
        invariant Valid() && (!inFragment ==> scratch == [])
        invariant !done ==> Reported(reports, RecordFrom(crc, file, Pos(), inFragment, scratch)) == Reported(old(reports), want)
        invariant done ==> Reading(record, Pos(), reports) == Reported(old(reports), want)
        decreases !done, |file| - Pos()
      {
        done, record, inFragment, scratch := ReadFragment(inFragment, scratch);
      }
    }

    /** One turn of ReadRecord's loop. */
    method ReadFragment(inFragment0: bool, scratch0: Bytes)
      returns (done: bool, record: Option<Bytes>, inFragment: bool, scratch: Bytes)
      requires Valid() && (!inFragment0 ==> scratch0 == [])
      modifies this
      ensures Valid() && (!inFragment ==> scratch == []) && (done || old(Pos()) < Pos())
      ensures var want := Reported(old(reports), RecordFrom(crc, file, old(Pos()), inFragment0, scratch0));
              if done then Reading(record, Pos(), reports) == want
              else Reported(reports, RecordFrom(crc, file, Pos(), inFragment, scratch)) == want
    {
      OneTurn(crc, file, Pos(), inFragment0, scratch0, reports);
      ghost var step := StepOf(PhysicalAt(crc, file, Pos()), |file|, inFragment0, scratch0);
      var r := ReadPhysicalRecord();
      done, record, inFragment, scratch := Absorb(r, inFragment0, scratch0);
      assert done == step.Done?;
    }
  }

  lemma {:induction false} GoOn(crc: Crc, file: Bytes, pos: nat, inFragment: bool, scratch: Bytes)
    requires pos <= |file|
    ensures var r := RecordFrom(crc, file, pos, inFragment, scratch);
            match StepOf(PhysicalAt(crc, file, pos), |file|, inFragment, scratch)
            case Done(record, next, partial) => r == Reading(record, next, partial)
            case Go(next, i, s, partial) => r == Reported(partial, RecordFrom(crc, file, next, i, s))
  {
  }

  lemma {:induction false} OneTurn(crc: Crc, file: Bytes, pos: nat, inFragment: bool, scratch: Bytes, reports: nat)
    requires pos <= |file|
    ensures var want := Reported(reports, RecordFrom(crc, file, pos, inFragment, scratch));
            match StepOf(PhysicalAt(crc, file, pos), |file|, inFragment, scratch)
            case Done(record, next, partial) => want == Reading(record, next, reports + partial)
            case Go(next, i, s, partial) => want == Reported(reports + partial, RecordFrom(crc, file, next, i, s))
  {
    GoOn(crc, file, pos, inFragment, scratch);
  }

  lemma {:induction false} DropPrefix(file: Bytes, pos: nat, end: nat, n: nat)
    requires pos <= end <= |file| && end <= BlockEnd(pos) && 0 < n <= end - pos
    ensures file[pos..end][n..] == file[pos + n..end]
    ensures pos + n < end ==> BlockEnd(pos + n) == BlockEnd(pos)
  {
    if pos + n < end {
      SameBlock(pos, pos + n, end);
    }
  }

  lemma {:induction false} SameBlock(pos: nat, next: nat, end: nat)
    requires pos < next < end <= BlockEnd(pos)
    ensures BlockEnd(next) == BlockEnd(pos)
  {
  }

  lemma {:induction false} NothingLeft(crc: Crc, file: Bytes, pos: nat, end: nat)
    requires pos <= end == |file| && end - pos < HEADER_SIZE
    requires pos < end ==> |file| < BlockEnd(pos)
    ensures PhysicalAt(crc, file, pos) == Eof
  {
  }

  lemma {:induction false} SkipTrailer(crc: Crc, file: Bytes, pos: nat, end: nat)
    requires pos <= end <= |file| && end - pos < HEADER_SIZE && end % BLOCK_SIZE == 0
    requires pos < end ==> end == BlockEnd(pos)
    ensures PhysicalAt(crc, file, pos) == PhysicalAt(crc, file, end)
  {
  }
}
