// Reading back any prefix of a log gives exactly the records that are whole in it, and
// reports no corruption.
module LogRoundTrip {
  import opened Keys
  import opened Coding
  import opened Log
  import opened LogFormat
  import opened Seqs

  /** From `pos` on, the file holds `bytes`, or as much of them as was written. */
  ghost predicate Holds(file: Bytes, pos: nat, bytes: Bytes) {
    pos <= |file| &&
    var m := Min(|bytes|, |file| - pos);
    file[pos..pos + m] == bytes[..m]
  }

  lemma {:induction false} HoldsAt(file: Bytes, pos: nat, bytes: Bytes, i: nat)
    requires Holds(file, pos, bytes) && i < |bytes| && pos + i < |file|
    ensures file[pos + i] == bytes[i]
  {
    var m := Min(|bytes|, |file| - pos);
    assert file[pos..pos + m][i] == file[pos + i];
  }

  lemma {:induction false} HoldsIf(file: Bytes, pos: nat, bytes: Bytes)
    requires pos <= |file| && forall i :: 0 <= i < |bytes| && pos + i < |file| ==> file[pos + i] == bytes[i]
    ensures Holds(file, pos, bytes)
  {
    var m := Min(|bytes|, |file| - pos);
    forall i | 0 <= i < m ensures file[pos..pos + m][i] == bytes[..m][i] {
      assert file[pos + i] == bytes[i];
    }
  }

  lemma {:induction false} HoldsParts(file: Bytes, pos: nat, a: Bytes, b: Bytes)
    requires Holds(file, pos, a + b)
    ensures Holds(file, pos, a)
    ensures pos + |a| <= |file| ==> Holds(file, pos + |a|, b)
  {
    forall i | 0 <= i < |a| && pos + i < |file| ensures file[pos + i] == a[i] {
      HoldsAt(file, pos, a + b, i);
    }
    HoldsIf(file, pos, a);
    if pos + |a| <= |file| {
      forall i | 0 <= i < |b| && pos + |a| + i < |file| ensures file[pos + |a| + i] == b[i] {
        HoldsAt(file, pos, a + b, |a| + i);
      }
      HoldsIf(file, pos + |a|, b);
    }
  }

  lemma {:induction false} HoldsSlice(file: Bytes, pos: nat, end: nat, bytes: Bytes, i: nat, j: nat)
    requires Holds(file, pos, bytes) && pos <= end <= |file| && i <= j <= |bytes| && j <= end - pos
    ensures file[pos..end][i..j] == bytes[i..j]
    ensures i < j ==> file[pos..end][i] == bytes[i]
  {
    var piece := file[pos..end];
    forall x | i <= x < j ensures piece[x] == bytes[x] {
      HoldsAt(file, pos, bytes, x);
    }
  }

  lemma {:induction false} LengthField(n: nat)
    requires n < 65536
    ensures DecodeFixed(Fixed(2, n)) == n
  {
    assert Power(256, 1) == 256 && Power(256, 2) == 65536;
    FixedRoundTrip(2, n);
  }

  lemma {:induction false} BlockEndFrom(pos: nat, off: nat)
    requires off < BLOCK_SIZE && pos % BLOCK_SIZE == off
    ensures BlockEnd(pos) == pos + BLOCK_SIZE - off
  {
  }

  lemma {:induction false} FourParts(a: Bytes, b: Bytes, c: Bytes, d: Bytes)
    ensures var p := a + b + c + d;
            && p[..|a|] == a && p[|a|..|a| + |b|] == b
            && p[|a| + |b|..|a| + |b| + |c| + |d|] == c + d && p[|a| + |b| + |c|..|a| + |b| + |c| + |d|] == d
  {
  }

  lemma {:induction false} PhysicalParts(crc: Crc, t: Byte, data: Bytes)
    requires |data| < 65536
    ensures var p := Physical(crc, t, data);
            p[..4] == Fixed(4, Mask(crc([t] + data))) && p[4..6] == Fixed(2, |data|) && p[6] == t
            && p[6..HEADER_SIZE + |data|] == [t] + data && p[HEADER_SIZE..HEADER_SIZE + |data|] == data
  {
    FourParts(Fixed(4, Mask(crc([t] + data))), Fixed(2, |data|), [t], data);
  }

  /** A piece of a block that begins like a physical record. */
  lemma {:induction false} ParsesBack(crc: Crc, piece: Bytes, pos: nat, short: bool, t: Byte, data: Bytes)
    requires |piece| >= HEADER_SIZE && t != 0 && DecodeFixed(piece[4..6]) == |data| && piece[6] == t
    requires HEADER_SIZE + |data| > |piece| ==> short
    requires HEADER_SIZE + |data| <= |piece| ==>
               Unmask(DecodeFixed(piece[..4]) % TWO_32) == crc([t] + data) && piece[6..HEADER_SIZE + |data|] == [t] + data
               && piece[HEADER_SIZE..HEADER_SIZE + |data|] == data
    ensures ParseRecord(crc, piece, pos, short) ==
            if HEADER_SIZE + |data| <= |piece| then Rec(t, data, pos + HEADER_SIZE + |data|) else Eof
  {
  }

  lemma {:induction false} ChecksumField(crc: Word)
    ensures Unmask(DecodeFixed(Fixed(4, Mask(crc))) % TWO_32) == crc
  {
    Fixed32RoundTrip(Mask(crc));
    MaskRoundTrip(crc);
  }

  /** A whole physical record parses; a cut one at the end of the file is the end. */
  lemma {:induction false} PhysicalReadsBack(crc: Crc, file: Bytes, pos: nat, off: nat, t: Byte, data: Bytes)
    requires off < BLOCK_SIZE && pos % BLOCK_SIZE == off && off + HEADER_SIZE + |data| <= BLOCK_SIZE && t != 0
    requires Holds(file, pos, Physical(crc, t, data))
    ensures PhysicalAt(crc, file, pos) ==
            if pos + HEADER_SIZE + |data| <= |file| then Rec(t, data, pos + HEADER_SIZE + |data|) else Eof
  {
    var p := Physical(crc, t, data);
    BlockEndFrom(pos, off);
    var end := Min(BlockEnd(pos), |file|);
    if end - pos >= HEADER_SIZE {
      PieceParses(crc, file, pos, end, |file| < BlockEnd(pos), t, data);
    }
  }

  lemma {:induction false} PieceParses(crc: Crc, file: Bytes, pos: nat, end: nat, short: bool, t: Byte, data: Bytes)
    requires pos + HEADER_SIZE <= end <= |file| && |data| < 65536 && t != 0 && Holds(file, pos, Physical(crc, t, data))
    requires short ==> end == |file|
    requires !short ==> HEADER_SIZE + |data| <= end - pos
    ensures ParseRecord(crc, file[pos..end], pos, short) ==
            if HEADER_SIZE + |data| <= end - pos then Rec(t, data, pos + HEADER_SIZE + |data|) else Eof
  {
    var p := Physical(crc, t, data);
    PhysicalParts(crc, t, data);
    HoldsSlice(file, pos, end, p, 4, 6);
    HoldsSlice(file, pos, end, p, 6, 7);
    if HEADER_SIZE + |data| <= end - pos {
      HoldsSlice(file, pos, end, p, 0, 4);
      HoldsSlice(file, pos, end, p, 6, HEADER_SIZE + |data|);
      HoldsSlice(file, pos, end, p, HEADER_SIZE, HEADER_SIZE + |data|);
    }
    LengthField(|data|);
    ChecksumField(crc([t] + data));
    ParsesBack(crc, file[pos..end], pos, short, t, data);
  }

  lemma {:induction false} PaddedReadsBack(crc: Crc, file: Bytes, pos: nat, off: nat, t: Byte, data: Bytes)
    requires off < BLOCK_SIZE && pos % BLOCK_SIZE == off && Padding(off) > 0 && HEADER_SIZE + |data| <= BLOCK_SIZE && t != 0
    requires pos <= |file|
    requires pos + Padding(off) <= |file| ==> Holds(file, pos + Padding(off), Physical(crc, t, data))
    ensures var next := pos + Padding(off) + HEADER_SIZE + |data|;
            PhysicalAt(crc, file, pos) == if next <= |file| then Rec(t, data, next) else Eof
  {
    var pad := Padding(off);
    BlockEndFrom(pos, off);
    if pos + pad <= |file| {
      SkipTrailer(crc, file, pos, pos + pad);
      PhysicalReadsBack(crc, file, pos + pad, 0, t, data);
    }
  }

  lemma {:induction false} UnpaddedReadsBack(crc: Crc, file: Bytes, pos: nat, off: nat, t: Byte, data: Bytes)
    requires off <= BLOCK_SIZE && pos % BLOCK_SIZE == off % BLOCK_SIZE && Padding(off) == 0 && t != 0
    requires HeaderAt(off) + HEADER_SIZE + |data| <= BLOCK_SIZE && Holds(file, pos, Physical(crc, t, data))
    ensures var next := pos + HEADER_SIZE + |data|;
            PhysicalAt(crc, file, pos) == if next <= |file| then Rec(t, data, next) else Eof
  {
    PhysicalReadsBack(crc, file, pos, if off == BLOCK_SIZE then 0 else off, t, data);
  }

  /** The same for a fragment with the trailer before it. */
  lemma {:induction false} PieceReadsBack(crc: Crc, file: Bytes, pos: nat, off: nat, data: Bytes, begin: bool)
    requires off <= BLOCK_SIZE && pos % BLOCK_SIZE == off % BLOCK_SIZE && Holds(file, pos, Piece(crc, off, data, begin))
    ensures var n, next := FragmentLength(off, |data|), pos + |Piece(crc, off, data, begin)|;
            PhysicalAt(crc, file, pos) ==
            if next <= |file| then Rec(FragmentType(begin, n == |data|), data[..n], next) else Eof
  {
    var n := FragmentLength(off, |data|);
    var t := FragmentType(begin, n == |data|);
    HoldsParts(file, pos, Zeros(Padding(off)), Physical(crc, t, data[..n]));
    assert |Piece(crc, off, data, begin)| == Padding(off) + HEADER_SIZE + |data[..n]|;
    if Padding(off) > 0 {
      PaddedReadsBack(crc, file, pos, off, t, data[..n]);
    } else {
      UnpaddedReadsBack(crc, file, pos, off, t, data[..n]);
    }
  }

  lemma {:induction false} OffsetAfter(pos: nat, off: nat, n: nat)
    requires off <= BLOCK_SIZE && pos % BLOCK_SIZE == off % BLOCK_SIZE && HeaderAt(off) + HEADER_SIZE + n <= BLOCK_SIZE
    ensures (pos + Padding(off) + HEADER_SIZE + n) % BLOCK_SIZE == (HeaderAt(off) + HEADER_SIZE + n) % BLOCK_SIZE
  {
  }

  // Three facts about the reader, sealed so that the induction over fragments and
  // records carries each as one fact.

  /** The physical record at `pos` is `r`. */
  ghost predicate Parses(crc: Crc, file: Bytes, pos: nat, r: PhysicalRecord) {
    ParsesSeal(pos + 9, crc, file, pos, r)
  }

  ghost predicate ParsesSeal(n: nat, crc: Crc, file: Bytes, pos: nat, r: PhysicalRecord) {
    if n == 0 then pos <= |file| && PhysicalAt(crc, file, pos) == r else ParsesSeal(n - 1, crc, file, pos, r)
  }

  lemma {:induction false} ParsesOpens(n: nat, crc: Crc, file: Bytes, pos: nat, r: PhysicalRecord)
    ensures ParsesSeal(n, crc, file, pos, r) <==> pos <= |file| && PhysicalAt(crc, file, pos) == r
  {
    if n > 0 {
      ParsesOpens(n - 1, crc, file, pos, r);
    }
  }

  /** Reading on from `pos` gives `r`. */
  ghost predicate Gives(crc: Crc, file: Bytes, pos: nat, inFragment: bool, scratch: Bytes, r: Reading) {
    GivesSeal(pos + 9, crc, file, pos, inFragment, scratch, r)
  }

  ghost predicate GivesSeal(n: nat, crc: Crc, file: Bytes, pos: nat, inFragment: bool, scratch: Bytes, r: Reading) {
    if n == 0 then pos <= |file| && RecordFrom(crc, file, pos, inFragment, scratch) == r
    else GivesSeal(n - 1, crc, file, pos, inFragment, scratch, r)
  }

  lemma {:induction false} GivesOpens(n: nat, crc: Crc, file: Bytes, pos: nat, inFragment: bool, scratch: Bytes,
      r: Reading)
    ensures GivesSeal(n, crc, file, pos, inFragment, scratch, r) <==> pos <= |file| && RecordFrom(crc, file, pos, inFragment, scratch) == r
  {
    if n > 0 {
      GivesOpens(n - 1, crc, file, pos, inFragment, scratch, r);
    }
  }

  /** Reading everything from `pos` on gives `all`, with nothing reported. */
  ghost predicate Yields(crc: Crc, file: Bytes, pos: nat, all: seq<Bytes>) {
    YieldsSeal(pos + 9, crc, file, pos, all)
  }

  ghost predicate YieldsSeal(n: nat, crc: Crc, file: Bytes, pos: nat, all: seq<Bytes>) {
    if n == 0 then pos <= |file| && ReadAll(crc, file, pos) == (all, 0) else YieldsSeal(n - 1, crc, file, pos, all)
  }

  lemma {:induction false} YieldsOpens(n: nat, crc: Crc, file: Bytes, pos: nat, all: seq<Bytes>)
    ensures YieldsSeal(n, crc, file, pos, all) <==> pos <= |file| && ReadAll(crc, file, pos) == (all, 0)
  {
    if n > 0 {
      YieldsOpens(n - 1, crc, file, pos, all);
    }
  }

  lemma {:induction false} AfterEof(crc: Crc, file: Bytes, pos: nat, inFragment: bool, scratch: Bytes)
    requires Parses(crc, file, pos, Eof)
    ensures Gives(crc, file, pos, inFragment, scratch, Reading(None, |file|, 0))
  {
    ParsesOpens(pos + 9, crc, file, pos, Eof);
    GoOn(crc, file, pos, inFragment, scratch);
    GivesOpens(pos + 9, crc, file, pos, inFragment, scratch, Reading(None, |file|, 0));
  }

  lemma {:induction false} AfterLast(crc: Crc, file: Bytes, pos: nat, begin: bool, scratch: Bytes, data: Bytes,
      next: nat)
    requires (begin ==> scratch == []) && Parses(crc, file, pos, Rec(FragmentType(begin, true), data, next))
    ensures Gives(crc, file, pos, !begin, scratch, Reading(Some(scratch + data), next, 0))
  {
    ParsesOpens(pos + 9, crc, file, pos, Rec(FragmentType(begin, true), data, next));
    GoOn(crc, file, pos, !begin, scratch);
    assert begin ==> scratch + data == data;
    GivesOpens(pos + 9, crc, file, pos, !begin, scratch, Reading(Some(scratch + data), next, 0));
  }

  lemma {:induction false} AfterMore(crc: Crc, file: Bytes, pos: nat, begin: bool, scratch: Bytes, part: Bytes,
      next: nat, r: Reading)
    requires (begin ==> scratch == []) && Parses(crc, file, pos, Rec(FragmentType(begin, false), part, next))
    requires Gives(crc, file, next, true, scratch + part, r)
    ensures Gives(crc, file, pos, !begin, scratch, r)
  {
    ParsesOpens(pos + 9, crc, file, pos, Rec(FragmentType(begin, false), part, next));
    GivesOpens(next + 9, crc, file, next, true, scratch + part, r);
    GoOn(crc, file, pos, !begin, scratch);
    assert begin ==> scratch + part == part;
    GivesOpens(pos + 9, crc, file, pos, !begin, scratch, r);
  }

  lemma {:induction false} PieceParsed(crc: Crc, file: Bytes, pos: nat, off: nat, data: Bytes, begin: bool)
    requires off <= BLOCK_SIZE && pos % BLOCK_SIZE == off % BLOCK_SIZE && Holds(file, pos, Piece(crc, off, data, begin))
    ensures var n, next := FragmentLength(off, |data|), pos + |Piece(crc, off, data, begin)|;
            Parses(crc, file, pos, if next <= |file| then Rec(FragmentType(begin, n == |data|), data[..n], next) else Eof)
  {
    PieceReadsBack(crc, file, pos, off, data, begin);
    ParsesOpens(pos + 9, crc, file, pos, PhysicalAt(crc, file, pos));
  }

  lemma {:induction false} FragmentsSplit(crc: Crc, off: nat, data: Bytes, begin: bool)
    requires off <= BLOCK_SIZE
    ensures var n := FragmentLength(off, |data|);
            Fragments(crc, off, data, begin)
            == Piece(crc, off, data, begin) + Remaining(crc, HeaderAt(off) + HEADER_SIZE + n, data[n..], false, n == |data|)
  {
  }

  /** A record that ends at `next` is read if it is whole. */
  function Outcome(size: nat, next: nat, record: Bytes): Reading {
    if next <= size then Reading(Some(record), next, 0) else Reading(None, size, 0)
  }

  lemma {:induction false} MoreReadsBack(crc: Crc, file: Bytes, pos: nat, begin: bool, scratch: Bytes,
      data: Bytes, n: nat, mid: nat, next: nat)
    requires n <= |data| && (begin ==> scratch == []) && Parses(crc, file, pos, Rec(FragmentType(begin, false), data[..n], mid))
    requires Gives(crc, file, mid, true, scratch + data[..n], Outcome(|file|, next, scratch + data[..n] + data[n..]))
    ensures Gives(crc, file, pos, !begin, scratch, Outcome(|file|, next, scratch + data))
  {
    assert scratch + data == scratch + data[..n] + data[n..];
    AfterMore(crc, file, pos, begin, scratch, data[..n], mid, Outcome(|file|, next, scratch + data));
  }

  /** What a file that holds a record says about the record's first fragment. */
  lemma {:induction false} FirstPiece(crc: Crc, file: Bytes, pos: nat, off: nat, data: Bytes, begin: bool)
    returns (n: nat, mid: nat, off': nat)
    requires off <= BLOCK_SIZE && pos % BLOCK_SIZE == off % BLOCK_SIZE && Holds(file, pos, Fragments(crc, off, data, begin))
    ensures n <= |data| && pos <= mid && off' <= BLOCK_SIZE && mid % BLOCK_SIZE == off' % BLOCK_SIZE
    ensures n == 0 && n < |data| ==> off < off'
    ensures Parses(crc, file, pos, if mid <= |file| then Rec(FragmentType(begin, n == |data|), data[..n], mid) else Eof)
    ensures pos + |Fragments(crc, off, data, begin)| == mid + |Remaining(crc, off', data[n..], false, n == |data|)|
    ensures mid <= |file| ==> Holds(file, mid, Remaining(crc, off', data[n..], false, n == |data|))
  {
    n := FragmentLength(off, |data|);
    mid := pos + |Piece(crc, off, data, begin)|;
    off' := HeaderAt(off) + HEADER_SIZE + n;
    FragmentsSplit(crc, off, data, begin);
    HoldsParts(file, pos, Piece(crc, off, data, begin), Remaining(crc, off', data[n..], false, n == |data|));
    PieceParsed(crc, file, pos, off, data, begin);
    OffsetAfter(pos, off, n);
  }

  /** A whole record is read back; a cut one at the end of the file is not reported. */
  lemma {:induction false} FragmentsReadBack(crc: Crc, file: Bytes, pos: nat, off: nat, data: Bytes,
      begin: bool, scratch: Bytes)
    requires off <= BLOCK_SIZE && pos % BLOCK_SIZE == off % BLOCK_SIZE && (begin ==> scratch == [])
    requires Holds(file, pos, Fragments(crc, off, data, begin))
    ensures var next := pos + |Fragments(crc, off, data, begin)|;
            Gives(crc, file, pos, !begin, scratch, Outcome(|file|, next, scratch + data))
    decreases |data|, BLOCK_SIZE - off
  {
    var n, mid, off' := FirstPiece(crc, file, pos, off, data, begin);
    if mid > |file| {
      AfterEof(crc, file, pos, !begin, scratch);
    } else if n == |data| {
      assert data[..n] == data;
      AfterLast(crc, file, pos, begin, scratch, data, mid);
    } else {
      FragmentsReadBack(crc, file, mid, off', data[n..], false, scratch + data[..n]);
      MoreReadsBack(crc, file, pos, begin, scratch, data, n, mid, mid + |Fragments(crc, off', data[n..], false)|);
    }
  }

  // ----- whole files -----

  /** How many of the records lie wholly within the first `k` bytes. */
  ghost function Whole(crc: Crc, off: nat, records: seq<Bytes>, k: nat): (m: nat)
    requires off < BLOCK_SIZE
    ensures m <= |records|
    decreases |records|
  {
    if |records| == 0 then 0
    else
      var first := |RecordBytes(crc, off, records[0])|;
      if first > k then 0 else 1 + Whole(crc, (off + first) % BLOCK_SIZE, records[1..], k - first)
  }

  lemma {:induction false} WholeIsExact(crc: Crc, off: nat, records: seq<Bytes>, k: nat, m: nat)
    requires off < BLOCK_SIZE && m <= |records|
    ensures m <= Whole(crc, off, records, k) <==> |FileFrom(crc, off, records[..m])| <= k
    decreases |records|
  {
    if m > 0 {
      var first := |RecordBytes(crc, off, records[0])|;
      assert records[..m][0] == records[0] && records[..m][1..] == records[1..][..m - 1];
      if first <= k {
        WholeIsExact(crc, (off + first) % BLOCK_SIZE, records[1..], k - first, m - 1);
      }
    }
  }

  lemma {:induction false} YieldsNone(crc: Crc, file: Bytes, pos: nat)
    requires Gives(crc, file, pos, false, [], Reading(None, |file|, 0))
    ensures Yields(crc, file, pos, [])
  {
    GivesOpens(pos + 9, crc, file, pos, false, [], Reading(None, |file|, 0));
    YieldsOpens(pos + 9, crc, file, pos, []);
  }

  lemma {:induction false} YieldsMore(crc: Crc, file: Bytes, pos: nat, record: Bytes, next: nat, rest: seq<Bytes>)
    requires Gives(crc, file, pos, false, [], Reading(Some(record), next, 0)) && Yields(crc, file, next, rest)
    ensures Yields(crc, file, pos, [record] + rest)
  {
    GivesOpens(pos + 9, crc, file, pos, false, [], Reading(Some(record), next, 0));
    YieldsOpens(next + 9, crc, file, next, rest);
    YieldsOpens(pos + 9, crc, file, pos, [record] + rest);
  }

  lemma {:induction false} AtTheEnd(crc: Crc, file: Bytes)
    ensures Yields(crc, file, |file|, [])
  {
    NothingLeft(crc, file, |file|, |file|);
    ParsesOpens(|file| + 9, crc, file, |file|, Eof);
    AfterEof(crc, file, |file|, false, []);
    YieldsNone(crc, file, |file|);
  }

  /** One call reads the next record if it is whole, and otherwise nothing. */
  lemma {:induction false} FirstReadsBack(crc: Crc, file: Bytes, pos: nat, off: nat, record: Bytes, rest: Bytes)
    requires off < BLOCK_SIZE && pos % BLOCK_SIZE == off && Holds(file, pos, RecordBytes(crc, off, record) + rest)
    ensures var next := pos + |RecordBytes(crc, off, record)|;
            if next <= |file| then Gives(crc, file, pos, false, [], Reading(Some(record), next, 0)) && Holds(file, next, rest)
            else Yields(crc, file, pos, [])
  {
    RecordBytesAre(crc, off, record);
    var first := Fragments(crc, off, record, true);
    HoldsParts(file, pos, first, rest);
    FragmentsReadBack(crc, file, pos, off, record, true, []);
    assert [] + record == record;
    if pos + |first| > |file| {
      YieldsNone(crc, file, pos);
    }
  }

  lemma {:induction false} RecordsReadBack(crc: Crc, file: Bytes, pos: nat, off: nat, records: seq<Bytes>)
    requires off < BLOCK_SIZE && pos % BLOCK_SIZE == off && Holds(file, pos, FileFrom(crc, off, records))
    requires |file| <= pos + |FileFrom(crc, off, records)|
    ensures Yields(crc, file, pos, records[..Whole(crc, off, records, |file| - pos)])
    decreases |records|
  {
    if |records| == 0 {
      AtTheEnd(crc, file);
    } else {
      var n := |RecordBytes(crc, off, records[0])|;
      var off' := (off + n) % BLOCK_SIZE;
      var m := Whole(crc, off, records, |file| - pos);
      FirstReadsBack(crc, file, pos, off, records[0], FileFrom(crc, off', records[1..]));
      if pos + n <= |file| {
        NextOffset(pos, off, n);
        RecordsReadBack(crc, file, pos + n, off', records[1..]);
        YieldsMore(crc, file, pos, records[0], pos + n, records[1..][..m - 1]);
        assert [records[0]] + records[1..][..m - 1] == records[..m];
      }
    }
  }

  lemma {:induction false} NextOffset(pos: nat, off: nat, n: nat)
    requires pos % BLOCK_SIZE == off
    ensures (pos + n) % BLOCK_SIZE == (off + n) % BLOCK_SIZE
  {
  }

  /** Any byte prefix of a log gives back exactly the records that are whole in it,
      with no corruption reported. */
  lemma {:induction false} PrefixReadsBack(crc: Crc, records: seq<Bytes>, k: nat)
    requires k <= |FileOf(crc, records)|
    ensures ReadAll(crc, FileOf(crc, records)[..k], 0) == (records[..Whole(crc, 0, records, k)], 0)
  {
    var file := FileOf(crc, records)[..k];
    HoldsIf(file, 0, FileOf(crc, records));
    RecordsReadBack(crc, file, 0, 0, records);
    YieldsOpens(9, crc, file, 0, records[..Whole(crc, 0, records, k)]);
  }

  /** The whole log gives back all of them. */
  lemma {:induction false} LogReadsBack(crc: Crc, records: seq<Bytes>)
    ensures ReadAll(crc, FileOf(crc, records), 0) == (records, 0)
  {
    var file := FileOf(crc, records);
    PrefixReadsBack(crc, records, |file|);
    WholeIsExact(crc, 0, records, |file|, |records|);
    assert records[..|records|] == records && file[..|file|] == file;
  }

  // ----- after damage -----

  lemma {:induction false} FrameReads(crc: Crc, file: Bytes, pos: nat, t: Byte, data: Bytes)
    requires FrameAt(crc, file, pos, t, data) && t != 0
    ensures PhysicalAt(crc, file, pos) == Rec(t, data, pos + 7 + |data|)
  {
    PhysicalLayout(crc, t, data);
    assert Holds(file, pos, Physical(crc, t, data));
    PhysicalReadsBack(crc, file, pos, pos % BLOCK_SIZE, t, data);
  }

  lemma {:induction false} NextHeaderIs(pos: nat)
    ensures NextHeader(pos) == pos || (NextHeader(pos) == BlockEnd(pos) && NextHeader(pos) - pos < HEADER_SIZE && NextHeader(pos) % BLOCK_SIZE == 0)
  {
  }

  lemma {:induction false} NextFrameReads(crc: Crc, file: Bytes, pos: nat, next: nat, t: Byte, data: Bytes)
    requires next == NextHeader(pos) && FrameAt(crc, file, next, t, data) && t != 0
    ensures pos <= next && next + 7 + |data| <= |file| && PhysicalAt(crc, file, pos) == Rec(t, data, next + 7 + |data|)
  {
    FrameReads(crc, file, next, t, data);
    NextHeaderIs(pos);
    if pos < next {
      SkipTrailer(crc, file, pos, next);
    }
  }

  lemma {:induction false} WholeReads(crc: Crc, file: Bytes, pos: nat, next: nat, data: Bytes, inFragment: bool, scratch: Bytes)
    requires next == NextHeader(pos) && FrameAt(crc, file, next, 1, data)
    ensures pos <= |file|
    ensures var r := RecordFrom(crc, file, pos, inFragment, scratch); r.record == Some(data) && r.next == next + 7 + |data|
  {
    NextFrameReads(crc, file, pos, next, 1, data);
  }

  lemma {:induction false} OpeningReads(crc: Crc, file: Bytes, pos: nat, next: nat, data: Bytes, inFragment: bool, scratch: Bytes)
    requires next == NextHeader(pos) && FrameAt(crc, file, next, 2, data)
    ensures pos <= |file| && next + 7 + |data| <= |file|
    ensures var r, rest := RecordFrom(crc, file, pos, inFragment, scratch), RecordFrom(crc, file, next + 7 + |data|, true, data);
      r.record == rest.record && r.next == rest.next
  {
    NextFrameReads(crc, file, pos, next, 2, data);
    GoOn(crc, file, pos, inFragment, scratch);
  }

  lemma {:induction false} NextFrameParsed(crc: Crc, file: Bytes, pos: nat, next: nat, t: Byte, data: Bytes)
    requires next == NextHeader(pos) && FrameAt(crc, file, next, t, data) && t != 0
    ensures pos <= |file| && Parses(crc, file, pos, Rec(t, data, next + 7 + |data|))
  {
    NextFrameReads(crc, file, pos, next, t, data);
    ParsesOpens(pos + 9, crc, file, pos, Rec(t, data, next + 7 + |data|));
  }

  lemma {:induction false} HeldFrame(crc: Crc, file: Bytes, starts: seq<nat>, parts: seq<Bytes>, k: nat)
    requires Held(crc, file, starts, parts, true) && k < |parts|
    ensures FrameAt(crc, file, starts[k], TypeOf(k, |parts|), parts[k]) && starts[k] + 7 + |parts[k]| <= |file|
    ensures k > 0 ==> starts[k] == NextHeader(starts[k - 1] + 7 + |parts[k - 1]|)
  {
    assert FragmentAt(crc, file, starts, parts, |parts|, k);
    assert k > 0 ==> GoesOn(starts, parts, k);
  }

  /** The fragments of a record after its first ones complete it. */
  lemma {:induction false} RestReads(crc: Crc, file: Bytes, starts: seq<nat>, parts: seq<Bytes>, k: nat, pos: nat, scratch: Bytes,
      record: Bytes, end: nat)
    requires Held(crc, file, starts, parts, true) && 0 < k < |parts| && pos == starts[k - 1] + 7 + |parts[k - 1]|
    requires scratch == Concat(parts[..k]) && record == Concat(parts) && end == starts[|starts| - 1] + 7 + |parts[|parts| - 1]|
    ensures Gives(crc, file, pos, true, scratch, Reading(Some(record), end, 0))
    decreases |parts| - k
  {
    HeldFrame(crc, file, starts, parts, k);
    ConcatUpTo(parts, k);
    NextFrameParsed(crc, file, pos, starts[k], if k + 1 == |parts| then 4 else 3, parts[k]);
    if k + 1 == |parts| {
      assert parts[..k + 1] == parts;
      AfterLast(crc, file, pos, false, scratch, parts[k], end);
    } else {
      RestReads(crc, file, starts, parts, k + 1, starts[k] + 7 + |parts[k]|, scratch + parts[k], record, end);
      AfterMore(crc, file, pos, false, scratch, parts[k], starts[k] + 7 + |parts[k]|, Reading(Some(record), end, 0));
    }
  }

  lemma {:induction false} FirstPart(parts: seq<Bytes>)
    requires |parts| > 0
    ensures Concat(parts[..1]) == parts[0] && (|parts| == 1 ==> Concat(parts) == parts[0])
  {
    ConcatUpTo(parts, 0);
    assert parts[..0] == [] && [] + parts[0] == parts[0];
    assert |parts| == 1 ==> parts[..1] == parts;
  }

  lemma {:induction false} BegunReads(crc: Crc, file: Bytes, pos: nat, inFragment: bool, scratch: Bytes,
      starts: seq<nat>, parts: seq<Bytes>, next: nat, end: nat)
    requires Held(crc, file, starts, parts, true) && starts[0] == NextHeader(pos) && |parts| > 1
    requires next == starts[0] + 7 + |parts[0]| && end == starts[|starts| - 1] + 7 + |parts[|parts| - 1]|
    ensures pos <= |file|
    ensures var r := RecordFrom(crc, file, pos, inFragment, scratch); r.record == Some(Concat(parts)) && r.next == end
  {
    HeldFrame(crc, file, starts, parts, 0);
    FirstPart(parts);
    OpeningReads(crc, file, pos, starts[0], parts[0], inFragment, scratch);
    RestReads(crc, file, starts, parts, 1, next, parts[0], Concat(parts), end);
    GivesOpens(next + 9, crc, file, next, true, parts[0], Reading(Some(Concat(parts)), end, 0));
  }

  lemma {:induction false} RecordReads(crc: Crc, file: Bytes, pos: nat, inFragment: bool, scratch: Bytes,
      starts: seq<nat>, parts: seq<Bytes>, end: nat)
    requires Held(crc, file, starts, parts, true) && starts[0] == NextHeader(pos) && pos <= |file|
    requires end == starts[|starts| - 1] + 7 + |parts[|parts| - 1]|
    ensures var r := RecordFrom(crc, file, pos, inFragment, scratch); r.record == Some(Concat(parts)) && r.next == end
  {
    HeldFrame(crc, file, starts, parts, 0);
    FirstPart(parts);
    if |parts| == 1 {
      WholeReads(crc, file, pos, starts[0], parts[0], inFragment, scratch);
    } else {
      BegunReads(crc, file, pos, inFragment, scratch, starts, parts, starts[0] + 7 + |parts[0]|, end);
    }
  }

  /** Whatever is in the block, the reader does not go past the block's end. */
  lemma {:induction false} PhysicalStays(crc: Crc, file: Bytes, pos: nat, b: nat)
    requires pos < b && b % BLOCK_SIZE == 0 && b <= |file|
    ensures var r := PhysicalAt(crc, file, pos);
      if BlockEnd(pos) - pos < HEADER_SIZE && BlockEnd(pos) == b then r == PhysicalAt(crc, file, b) else !r.Eof? && pos < r.next <= b
    decreases b - pos
  {
    assert BlockEnd(pos) <= b;
    if BlockEnd(pos) - pos < HEADER_SIZE {
      if BlockEnd(pos) < b {
        PhysicalStays(crc, file, BlockEnd(pos), b);
      }
    }
  }

  /** Whatever is damaged before it, a record that begins with a block is yielded in its turn. */
  lemma {:induction false} BlockStartReads(crc: Crc, file: Bytes, pos: nat, inFragment: bool, scratch: Bytes,
      starts: seq<nat>, parts: seq<Bytes>)
    requires Held(crc, file, starts, parts, true) && starts[0] % 32768 == 0 && pos <= starts[0] <= |file|
    ensures var r := RecordFrom(crc, file, pos, inFragment, scratch);
      && r.record.Some?
      && (r.next <= starts[0] || (r.record.value == Concat(parts) && r.next == starts[|starts| - 1] + 7 + |parts[|parts| - 1]|))
    decreases |file| - pos
  {
    var b := starts[0];
    if pos == b || (BlockEnd(pos) - pos < HEADER_SIZE && BlockEnd(pos) == b) {
      assert NextHeader(pos) == b;
      RecordReads(crc, file, pos, inFragment, scratch, starts, parts, starts[|starts| - 1] + 7 + |parts[|parts| - 1]|);
    } else {
      PhysicalStays(crc, file, pos, b);
      GoOn(crc, file, pos, inFragment, scratch);
      match StepOf(PhysicalAt(crc, file, pos), |file|, inFragment, scratch)
      case Done(_, _, _) =>
      case Go(next, inFragment', scratch', _) =>
        BlockStartReads(crc, file, next, inFragment', scratch', starts, parts);
    }
  }

  /** So nothing but its own damage can keep it from being read. */
  lemma {:induction false} BlockStartIsFound(crc: Crc, file: Bytes, pos: nat, starts: seq<nat>, parts: seq<Bytes>)
    requires Held(crc, file, starts, parts, true) && starts[0] % 32768 == 0 && pos <= starts[0] <= |file|
    ensures Concat(parts) in ReadAll(crc, file, pos).0
    decreases |file| - pos
  {
    BlockStartReads(crc, file, pos, false, [], starts, parts);
    var r := RecordFrom(crc, file, pos, false, []);
    if r.next <= starts[0] {
      BlockStartIsFound(crc, file, r.next, starts, parts);
    }
    assert ReadAll(crc, file, pos).0 == [r.record.value] + ReadAll(crc, file, r.next).0;
  }
}
