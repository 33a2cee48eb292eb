/**
 How a table file holds its blocks: handles, block trailers and the footer.
 */
module TableFormats {
  import opened Wrappers
  import opened Comparator
  import opened Codings
  import Logs

  const BLOCK_TRAILER_SIZE: nat := 5
  const MAX_HANDLE_LENGTH: nat := 20
  const FOOTER_LENGTH: nat := 48

  const MAGIC_LOW: uint32 := 0x8b80_fb57
  const MAGIC_HIGH: uint32 := 0xdb47_7524

  const NO_COMPRESSION: byte := 0
  const SNAPPY_COMPRESSION: byte := 1

  /** The checksum, and a compressor with its inverse. */
  datatype Codec = Codec(crc: Bytes -> uint32, compress: Bytes -> Option<Bytes>, uncompress: Bytes -> Option<Bytes>)

  ghost predicate CodecOk(c: Codec) {
    forall b :: c.compress(b).Some? ==> c.uncompress(c.compress(b).value) == Some(b)
  }

  // ----- Handles -----

  datatype BlockHandle = BlockHandle(offset: uint64, size: uint64)

  function EncodeHandle(h: BlockHandle): (b: Bytes)
    ensures |b| <= MAX_HANDLE_LENGTH
  {
    VarintPowers();
    VarintSize(h.offset, 10);
    VarintSize(h.size, 10);
    Varint(h.offset) + Varint(h.size)
  }

  /** The handle that starts the input, and what follows it. */
  function DecodeHandle(input: Bytes): Option<(BlockHandle, Bytes)> {
    match GetVarint64(input)
    case None => None
    case Some((offset, rest1)) =>
      match GetVarint64(rest1)
      case None => None
      case Some((size, rest2)) => Some((BlockHandle(offset, size), rest2))
  }

  lemma HandleRoundTrip(h: BlockHandle, rest: Bytes)
    ensures DecodeHandle(EncodeHandle(h) + rest) == Some((h, rest))
  {
    Regroup(Varint(h.offset), Varint(h.size), rest);
    Varint64RoundTrip(h.offset, Varint(h.size) + rest);
    Varint64RoundTrip(h.size, rest);
  }

  // ----- The footer -----

  /** The two handles, padded to their largest size, and the magic number. */
  function EncodeFooter(metaIndex: BlockHandle, index: BlockHandle): (b: Bytes)
    ensures |b| == FOOTER_LENGTH
  {
    var handles := EncodeHandle(metaIndex) + EncodeHandle(index);
    handles + Zeros(2 * MAX_HANDLE_LENGTH - |handles|) + (Fixed32(MAGIC_LOW) + Fixed32(MAGIC_HIGH))
  }

  /** The metaindex and index handles of a footer. */
  function DecodeFooter(b: Bytes): Option<(BlockHandle, BlockHandle)>
    requires |b| == FOOTER_LENGTH
  {
    if HasMagic(b[40..44], b[44..]) then DecodeHandles(b) else None
  }

  predicate HasMagic(low: Bytes, high: Bytes)
    requires |low| == |high| == 4
  {
    DecodeFixed32(low) == MAGIC_LOW && DecodeFixed32(high) == MAGIC_HIGH
  }

  function DecodeHandles(b: Bytes): Option<(BlockHandle, BlockHandle)> {
    match DecodeHandle(b)
    case None => None
    case Some((first, rest)) =>
      match DecodeHandle(rest)
      case None => None
      case Some((second, _)) => Some((first, second))
  }

  lemma {:induction false} FooterRoundTrip(metaIndex: BlockHandle, index: BlockHandle)
    ensures DecodeFooter(EncodeFooter(metaIndex, index)) == Some((metaIndex, index))
  {
    var m, i := EncodeHandle(metaIndex), EncodeHandle(index);
    var padding := Zeros(2 * MAX_HANDLE_LENGTH - |m + i|);
    FooterParts(m, i, padding, Fixed32(MAGIC_LOW), Fixed32(MAGIC_HIGH));
    FooterReads(EncodeFooter(metaIndex, index), metaIndex, index, padding + (Fixed32(MAGIC_LOW) + Fixed32(MAGIC_HIGH)));
  }

  lemma {:induction false} FooterReads(b: Bytes, metaIndex: BlockHandle, index: BlockHandle, rest: Bytes)
    requires |b| == FOOTER_LENGTH && b[40..44] == Fixed32(MAGIC_LOW) && b[44..] == Fixed32(MAGIC_HIGH)
    requires b == EncodeHandle(metaIndex) + (EncodeHandle(index) + rest)
    ensures DecodeFooter(b) == Some((metaIndex, index))
  {
    HandlesRoundTrip(metaIndex, index, rest);
    WithMagic(b);
  }

  lemma {:induction false} WithMagic(b: Bytes)
    requires |b| == FOOTER_LENGTH && b[40..44] == Fixed32(MAGIC_LOW) && b[44..] == Fixed32(MAGIC_HIGH)
    ensures DecodeFooter(b) == DecodeHandles(b)
  {
  }

  lemma {:induction false} HandlesRoundTrip(first: BlockHandle, second: BlockHandle, rest: Bytes)
    ensures DecodeHandles(EncodeHandle(first) + (EncodeHandle(second) + rest)) == Some((first, second))
  {
    HandleRoundTrip(first, EncodeHandle(second) + rest);
    HandleRoundTrip(second, rest);
  }

  lemma FooterParts(m: Bytes, i: Bytes, padding: Bytes, low: Bytes, high: Bytes)
    requires |m| + |i| + |padding| == 40 && |low| == |high| == 4
    ensures var b := m + i + padding + (low + high);
            |b| == 48 && b[40..44] == low && b[44..] == high && b == m + (i + (padding + (low + high)))
  {
  }

  // ----- Blocks in a file -----

  function Trailer(c: Codec, stored: Bytes, kind: byte): (b: Bytes)
    ensures |b| == BLOCK_TRAILER_SIZE
  {
    [kind] + Fixed32(Logs.Mask(c.crc(stored + [kind])))
  }

  /** WriteBlock: compressed only if that saves an eighth. */
  function Stored(c: Codec, raw: Bytes): (s: (Bytes, byte)) {
    match c.compress(raw)
    case Some(b) => if |b| < |raw| - |raw| / 8 then (b, SNAPPY_COMPRESSION) else (raw, NO_COMPRESSION)
    case None => (raw, NO_COMPRESSION)
  }

  /** The bytes of the file at a handle are a stored block and its trailer. */
  ghost predicate StoredAt(c: Codec, file: Bytes, h: BlockHandle, stored: Bytes, kind: byte) {
    && h.size == |stored|
    && h.offset + h.size + BLOCK_TRAILER_SIZE <= |file|
    && file[h.offset..h.offset + h.size] == stored
    && file[h.offset + h.size..h.offset + h.size + BLOCK_TRAILER_SIZE] == Trailer(c, stored, kind)
  }

  /** A read of the block at h gives these contents. */
  ghost predicate Holds(c: Codec, file: Bytes, h: BlockHandle, contents: Bytes) {
    StoredAt(c, file, h, Stored(c, contents).0, Stored(c, contents).1) || StoredAt(c, file, h, contents, NO_COMPRESSION)
  }

  lemma HoldsInLonger(c: Codec, file: Bytes, more: Bytes, h: BlockHandle, contents: Bytes)
    requires Holds(c, file, h, contents)
    ensures Holds(c, file + more, h, contents)
  {
    var stored, kind := Stored(c, contents).0, Stored(c, contents).1;
    if StoredAt(c, file, h, stored, kind) {
      StoredInLonger(c, file, more, h, stored, kind);
    } else {
      StoredInLonger(c, file, more, h, contents, NO_COMPRESSION);
    }
  }

  lemma StoredInLonger(c: Codec, file: Bytes, more: Bytes, h: BlockHandle, stored: Bytes, kind: byte)
    requires StoredAt(c, file, h, stored, kind)
    ensures StoredAt(c, file + more, h, stored, kind)
  {
    var i := h.offset;
    var j := i + h.size;
    assert (file + more)[i..j] == file[i..j];
    assert (file + more)[j..j + BLOCK_TRAILER_SIZE] == file[j..j + BLOCK_TRAILER_SIZE];
  }

  lemma AppendedBlock(c: Codec, file: Bytes, stored: Bytes, kind: byte, h: BlockHandle)
    requires h.offset == |file| && h.size == |stored|
    ensures StoredAt(c, file + stored + Trailer(c, stored, kind), h, stored, kind)
  {
  }

  /** The contents of the block at a handle, if its trailer allows them to be read. */
  function ReadBlock(c: Codec, verifyChecksums: bool, file: Bytes, h: BlockHandle): Option<Bytes> {
    if |file| < h.offset + h.size + BLOCK_TRAILER_SIZE then None
    else
      var stored := file[h.offset..h.offset + h.size];
      var trailer := file[h.offset + h.size..h.offset + h.size + BLOCK_TRAILER_SIZE];
      if verifyChecksums && Logs.Unmask(DecodeFixed32(trailer[1..])) != c.crc(stored + [trailer[0]]) then None
      else if trailer[0] == NO_COMPRESSION then Some(stored)
      else if trailer[0] == SNAPPY_COMPRESSION then c.uncompress(stored)
      else None
  }

  /** What was written is read, with or without checksums. */
  lemma ReadsStored(c: Codec, verifyChecksums: bool, file: Bytes, h: BlockHandle, contents: Bytes)
    requires CodecOk(c) && Holds(c, file, h, contents)
    ensures ReadBlock(c, verifyChecksums, file, h) == Some(contents)
  {
    var stored, kind := Stored(c, contents).0, Stored(c, contents).1;
    if StoredAt(c, file, h, stored, kind) {
      TrailerReads(c, stored, kind);
    } else {
      TrailerReads(c, contents, NO_COMPRESSION);
    }
  }

  lemma TrailerReads(c: Codec, stored: Bytes, kind: byte)
    ensures var t := Trailer(c, stored, kind);
            t[0] == kind && Logs.Unmask(DecodeFixed32(t[1..])) == c.crc(stored + [kind])
  {
    var word := Fixed32(Logs.Mask(c.crc(stored + [kind])));
    assert ([kind] + word)[1..] == word;
    Logs.MaskRoundTrip(c.crc(stored + [kind]));
  }
}
