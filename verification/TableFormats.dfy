// How a table file is laid out (table/format.cc): handles, blocks with their type and
// checksum, and the footer.
module TableFormats {
  import opened Keys
  import opened Coding
  import opened Log

  // ----- handles -----

  datatype Handle = Handle(offset: nat, size: nat)

  predicate HandleFits(h: Handle) {
    h.offset < TWO_64 && h.size < TWO_64
  }

  function HandleBytes(h: Handle): Bytes {
    Varint(h.offset) + Varint(h.size)
  }

  /** A handle and the rest of the input. */
  function DecodeHandle(bs: Bytes): Option<(Handle, Bytes)> {
    match GetVarint64(bs)
    case None => None
    case Some((offset, r1)) =>
      match GetVarint64(r1)
      case None => None
      case Some((size, r2)) => Some((Handle(offset, size), r2))
  }

  lemma {:induction false} HandleRoundTrip(h: Handle, rest: Bytes)
    requires HandleFits(h)
    ensures DecodeHandle(HandleBytes(h) + rest) == Some((h, rest)) && |HandleBytes(h)| <= 20
  {
    GetVarint64RoundTrip(h.offset, Varint(h.size) + rest);
    GetVarint64RoundTrip(h.size, rest);
    Varint64Fits(h.offset);
    Varint64Fits(h.size);
    assert HandleBytes(h) + rest == Varint(h.offset) + (Varint(h.size) + rest);
  }

  // ----- blocks in the file -----

  const BLOCK_TRAILER_SIZE: nat := 5

  /** Snappy, where it is compiled in: either side may refuse. */
  datatype Codec = Codec(compress: Bytes -> Option<Bytes>, uncompress: Bytes -> Option<Bytes>)

  ghost predicate CodecOk(codec: Codec) {
    forall raw :: codec.compress(raw).Some? ==> codec.uncompress(codec.compress(raw).value) == Some(raw)
  }

  const NO_COMPRESSION: Byte := 0
  const SNAPPY: Byte := 1

  /** WriteBlock: compressed where that saves an eighth. */
  function Choose(codec: Codec, raw: Bytes): (Byte, Bytes) {
    match codec.compress(raw)
    case Some(c) => if |c| < |raw| - |raw| / 8 then (SNAPPY, c) else (NO_COMPRESSION, raw)
    case None => (NO_COMPRESSION, raw)
  }

  /** WriteRawBlock: the contents, their type, and the checksum of both. */
  function RawBlock(crc: Crc, kind: Byte, contents: Bytes): (r: Bytes)
    ensures |r| == |contents| + BLOCK_TRAILER_SIZE
  {
    contents + [kind] + Fixed(4, Mask(crc(contents + [kind])))
  }

  /** The contents of a block; nothing if the file is too short, or if the checksum, where it
      is verified, or the type does not fit. */
  function ReadBlock(crc: Crc, codec: Codec, verify: bool, file: Bytes, h: Handle): Option<Bytes> {
    var n := h.size;
    if h.offset + n + BLOCK_TRAILER_SIZE > |file| then None
    else
      var data := file[h.offset..h.offset + n + BLOCK_TRAILER_SIZE];
      if verify && Unmask(DecodeFixed(data[n + 1..]) % TWO_32) != crc(data[..n + 1]) then None
      else if data[n] == NO_COMPRESSION then Some(data[..n])
      else if data[n] == SNAPPY then codec.uncompress(data[..n])
      else None
  }

  lemma {:induction false} RawBlockParts(crc: Crc, kind: Byte, contents: Bytes)
    ensures var data, n := RawBlock(crc, kind, contents), |contents|;
            && data[..n] == contents && data[n] == kind && data[..n + 1] == contents + [kind]
            && data[n + 1..] == Fixed(4, Mask(crc(contents + [kind])))
  {
    var data, n := RawBlock(crc, kind, contents), |contents|;
    assert data == (contents + [kind]) + Fixed(4, Mask(crc(contents + [kind])));
    assert data[..n + 1][..n] == contents;
  }

  /** In numbers: the type is 0 or, for a compressed block, 1, and the checksum four bytes. */
  lemma {:induction false} RawBlockLayout(crc: Crc, codec: Codec, raw: Bytes)
    ensures var (kind, contents) := Choose(codec, raw);
      && (if codec.compress(raw).Some? && |codec.compress(raw).value| < |raw| - |raw| / 8
          then kind == 1 && contents == codec.compress(raw).value else kind == 0 && contents == raw)
      && var sum := Mask(crc(contents + [kind]));
        RawBlock(crc, kind, contents) == contents + [kind, sum % 256, sum / 256 % 256, sum / 65536 % 256, sum / 16777216]
  {
    var (kind, contents) := Choose(codec, raw);
    Fixed32Layout(Mask(crc(contents + [kind])));
  }

  /** Whatever the file: a block that is read is whole, of a known type and, where that is asked
      for, has the right checksum; and every such block is read. */
  lemma {:induction false} ReadIsSound(crc: Crc, codec: Codec, verify: bool, file: Bytes, h: Handle)
    ensures ReadBlock(crc, codec, verify, file, h).Some? <==>
      && h.offset + h.size + 5 <= |file|
      && var contents, kind := file[h.offset..h.offset + h.size], file[h.offset + h.size];
        && (verify ==> file[h.offset..h.offset + h.size + 5] == RawBlock(crc, kind, contents))
        && (kind == 0 || (kind == 1 && codec.uncompress(contents).Some?))
    ensures ReadBlock(crc, codec, verify, file, h).Some? ==>
      var contents := file[h.offset..h.offset + h.size];
      ReadBlock(crc, codec, verify, file, h) == if file[h.offset + h.size] == 0 then Some(contents) else codec.uncompress(contents)
  {
    var n := h.size;
    if h.offset + n + 5 <= |file| {
      var data := file[h.offset..h.offset + n + 5];
      var contents, kind := data[..n], data[n];
      assert contents == file[h.offset..h.offset + n] && kind == file[h.offset + n] && data[..n + 1] == contents + [kind];
      assert data == data[..n + 1] + data[n + 1..];
      StoredChecksum(data[n + 1..], crc(contents + [kind]));
    }
  }

  lemma {:induction false} StoredChecksum(field: Bytes, sum: Word)
    requires |field| == 4
    ensures Unmask(DecodeFixed(field) % TWO_32) == sum <==> field == Fixed(4, Mask(sum))
  {
    ChecksumReadsBack(sum);
    if Unmask(DecodeFixed(field) % TWO_32) == sum {
      Log.StoredChecksum(field, sum);
    }
  }

  lemma {:induction false} ChecksumReadsBack(sum: Word)
    ensures Unmask(DecodeFixed(Fixed(4, Mask(sum))) % TWO_32) == sum
  {
    Fixed32RoundTrip(Mask(sum));
    MaskRoundTrip(sum);
  }

  /** Whatever comes before and after it in the file, a block reads back. */
  lemma {:induction false} BlockReadsBack(crc: Crc, codec: Codec, verify: bool, before: Bytes, raw: Bytes, after: Bytes)
    requires CodecOk(codec)
    ensures var (kind, contents) := Choose(codec, raw);
            ReadBlock(crc, codec, verify, before + RawBlock(crc, kind, contents) + after, Handle(|before|, |contents|)) == Some(raw)
  {
    var (kind, contents) := Choose(codec, raw);
    InTheMiddle(before, RawBlock(crc, kind, contents), after);
    RawBlockParts(crc, kind, contents);
    ChecksumReadsBack(crc(contents + [kind]));
  }

  /** A block that is never compressed: the filter. */
  lemma {:induction false} PlainBlockReadsBack(crc: Crc, codec: Codec, verify: bool, before: Bytes, raw: Bytes, after: Bytes)
    ensures ReadBlock(crc, codec, verify, before + RawBlock(crc, NO_COMPRESSION, raw) + after, Handle(|before|, |raw|)) == Some(raw)
  {
    InTheMiddle(before, RawBlock(crc, NO_COMPRESSION, raw), after);
    RawBlockParts(crc, NO_COMPRESSION, raw);
    ChecksumReadsBack(crc(raw + [NO_COMPRESSION]));
  }

  lemma {:induction false} InTheMiddle(a: Bytes, b: Bytes, c: Bytes)
    ensures (a + b + c)[|a|..|a| + |b|] == b
  {
  }

  /** Appending to the file leaves what is in it. */
  lemma {:induction false} BlockStays(crc: Crc, codec: Codec, verify: bool, file: Bytes, more: Bytes, h: Handle)
    requires ReadBlock(crc, codec, verify, file, h).Some?
    ensures ReadBlock(crc, codec, verify, file + more, h) == ReadBlock(crc, codec, verify, file, h)
  {
    var end := h.offset + h.size + BLOCK_TRAILER_SIZE;
    assert (file + more)[h.offset..end] == file[h.offset..end];
  }

  // ----- the footer -----

  const MAGIC: nat := 0xdb4775248b80fb57
  const FOOTER_SIZE: nat := 48

  /** Two handles, padded to 40 bytes. */
  function Padded(bs: Bytes): (r: Bytes)
    ensures |r| == 40
  {
    if |bs| <= 40 then bs + seq(40 - |bs|, _ => 0) else bs[..40]
  }

  function FooterBytes(meta: Handle, index: Handle): (r: Bytes)
    ensures |r| == FOOTER_SIZE
  {
    Padded(HandleBytes(meta) + HandleBytes(index)) + Fixed(4, MAGIC % TWO_32) + Fixed(4, MAGIC / TWO_32)
  }

  /** The handles of the metaindex and of the index; nothing if this is no table. */
  function DecodeFooter(bs: Bytes): Option<(Handle, Handle)>
    requires |bs| == FOOTER_SIZE
  {
    if DecodeFixed(bs[40..44]) + DecodeFixed(bs[44..]) * TWO_32 != MAGIC then None
    else
      match DecodeHandle(bs)
      case None => None
      case Some((meta, rest)) =>
        match DecodeHandle(rest)
        case None => None
        case Some((index, _)) => Some((meta, index))
  }

  /** The last eight bytes of every table. */
  lemma {:induction false} FooterLayout(meta: Handle, index: Handle)
    requires HandleFits(meta) && HandleFits(index)
    ensures var handles := Varint(meta.offset) + Varint(meta.size) + Varint(index.offset) + Varint(index.size);
      |handles| <= 40 && FooterBytes(meta, index) ==
        handles + seq(40 - |handles|, _ => 0) + [0x57, 0xfb, 0x80, 0x8b, 0x24, 0x75, 0x47, 0xdb]
  {
    HandleRoundTrip(meta, []);
    HandleRoundTrip(index, []);
    MagicBytes();
    assert HandleBytes(meta) + HandleBytes(index) == Varint(meta.offset) + Varint(meta.size) + Varint(index.offset) + Varint(index.size);
  }

  lemma {:induction false} MagicBytes()
    ensures Fixed(4, MAGIC % TWO_32) + Fixed(4, MAGIC / TWO_32) == [0x57, 0xfb, 0x80, 0x8b, 0x24, 0x75, 0x47, 0xdb]
  {
    Fixed32Layout(MAGIC % TWO_32);
    Fixed32Layout(MAGIC / TWO_32);
  }

  lemma {:induction false} FooterRoundTrip(meta: Handle, index: Handle)
    requires HandleFits(meta) && HandleFits(index)
    ensures DecodeFooter(FooterBytes(meta, index)) == Some((meta, index))
  {
    var bs := FooterBytes(meta, index);
    HandleRoundTrip(meta, []);
    HandleRoundTrip(index, []);
    var pad := bs[|HandleBytes(meta) + HandleBytes(index)|..];
    assert bs == HandleBytes(meta) + (HandleBytes(index) + pad);
    HandleRoundTrip(meta, HandleBytes(index) + pad);
    HandleRoundTrip(index, pad);
    assert bs[40..44] == Fixed(4, MAGIC % TWO_32) && bs[44..] == Fixed(4, MAGIC / TWO_32);
    Fixed32RoundTrip(MAGIC % TWO_32);
    Fixed32RoundTrip(MAGIC / TWO_32);
  }
}
