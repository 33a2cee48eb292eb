/**
 The bytes on disk, in numbers: what other programs that read the files rely on.  Reading
 back what was written says nothing of these, since reader and writer could both be
 changed.
 */
module Formats {
  import opened Wrappers
  import opened Comparator
  import opened Codings
  import opened Entries
  import Logs
  import WriteBatches
  import VersionEdits
  import TableFormats
  import Blooms
  import FilterBlocks
  import InternalKeys

  // ----- Numbers -----

  /** Byte i of a fixed-width number is its digit i in base 256. */
  lemma {:induction false} LittleEndianMeans(n: nat, width: nat, i: nat)
    requires i < width
    ensures LittleEndian(n, width)[i] as nat == n / Power(256, i) % 256
  {
    if i > 0 {
      LittleEndianMeans(n / 256, width - 1, i - 1);
      DivideTwice(n, 256, Power(256, i - 1));
    }
  }

  lemma DivideTwice(n: nat, a: nat, b: nat)
    requires a > 0 && b > 0
    ensures a * b > 0 && n / a / b == n / (a * b)
  {
    var m := n / a;
    var q, s, r := m / b, m % b, n % a;
    Regrouped(a, b, q, s, r);
    Bounded(a, b, s, r);
    assert n == a * m + r && m == b * q + s;
    ModUnique(n, a * b, q, a * s + r);
    DivUnique(n, a * b, q, a * s + r);
  }

  lemma Regrouped(a: nat, b: nat, q: nat, s: nat, r: nat)
    ensures a * (b * q + s) + r == (a * b) * q + (a * s + r)
  {
    assert a * (b * q + s) == a * (b * q) + a * s;
    assert a * (b * q) == (a * b) * q;
  }

  lemma Bounded(a: nat, b: nat, s: nat, r: nat)
    requires a > 0 && b > 0 && s < b && r < a
    ensures 0 <= a * s + r < a * b
  {
    assert a * s <= a * (b - 1);
    assert a * (b - 1) == a * b - a;
  }

  lemma DivUnique(n: nat, m: nat, q: nat, r: nat)
    requires r < m && n == m * q + r && n % m == r
    ensures n / m == q
  {
    assert m * (n / m) == m * q;
    assert m * (n / m - q) == 0;
    MultipleAtLeast(m, n / m - q);
  }

  /** The value of groups of seven bits, the least significant first. */
  function GroupValue(b: Bytes): nat {
    if b == [] then 0 else b[0] as nat % 128 + 128 * GroupValue(b[1..])
  }

  /** A varint has the bit 128 on all bytes but the last, seven bits of the number in each, and none to spare. */
  lemma {:induction false} VarintMeans(n: nat)
    ensures var b := Varint(n);
            && GroupValue(b) == n && (|b| > 1 ==> b[|b|-1] != 0)
            && forall i | 0 <= i < |b| :: b[i] >= 128 <==> i < |b| - 1
  {
    if n >= 128 {
      var rest := Varint(n / 128);
      VarintMeans(n / 128);
      assert Varint(n)[1..] == rest;
      assert forall i | 1 <= i < |Varint(n)| :: Varint(n)[i] == rest[i-1];
    } else {
      assert Varint(n)[1..] == [];
      assert GroupValue([]) == 0;
    }
  }

  // ----- Internal keys -----

  /** An internal key ends with a byte for the type, 1 for a value and 0 for a deletion, and seven for the number. */
  lemma InternalKeyEnds(user: Bytes, k: IKey)
    ensures InternalKeys.InternalKey(user, InternalKeys.TagWord(k)) ==
            user + ([if k.kind.Value? then 1 else 0] + LittleEndian(k.seqno, 7))
  {
    var tag := InternalKeys.TagWord(k);
    assert tag / 256 == k.seqno;
    assert LittleEndian(tag, 8) == [(tag % 256) as byte] + LittleEndian(tag / 256, 7);
  }

  // ----- The log -----

  /** The stored checksum is the checksum rotated right by 15 bits, plus 0xa282ead8. */
  lemma MaskMeans(crc: uint32)
    ensures exists rot: uint32 :: rot % 131072 == crc / 32768 && rot / 131072 == crc % 32768
              && Logs.Mask(crc) == (rot + 2726488792) % 4294967296
  {
    var rot: uint32 := crc / 32768 + crc % 32768 * 131072;
    Logs.RotationRoundTrip(crc / 32768, crc % 32768, 32768, 131072);
    assert rot % 131072 == crc / 32768 && rot / 131072 == crc % 32768;
  }

  /** Checksum, length and type in 4, 2 and 1 bytes, then the bytes of the record. */
  function LogFragment(crc: Bytes -> uint32, t: byte, payload: Bytes): Bytes
    requires |payload| < 65536
  {
    Fixed32(Logs.Mask(crc([t] + payload))) + [(|payload| % 256) as byte, (|payload| / 256) as byte, t] + payload
  }

  /** The last fragment of a record has what is left of it. */
  lemma LastFragment(crc: Bytes -> uint32, off: Logs.Offset, left: Bytes, begin: bool)
    requires |left| <= 32761 && (off + 7 <= 32768 ==> off + 7 + |left| <= 32768)
    ensures Logs.Fragments(crc, off, left, begin) ==
            Logs.Trailer(off) + LogFragment(crc, if begin then 1 else 4, left)
  {
    assert left[..|left|] == left;
    assert Logs.Chunk(crc, off, left, begin) + [] == Logs.Chunk(crc, off, left, begin);
  }

  /** Any other fills its block. */
  lemma FullFragment(crc: Bytes -> uint32, off: Logs.Offset, left: Bytes, begin: bool)
    requires off + 7 <= 32768 < off + 7 + |left|
    ensures var n := 32768 - off - 7;
            Logs.Fragments(crc, off, left, begin) ==
            LogFragment(crc, if begin then 2 else 3, left[..n]) + Logs.Fragments(crc, 32768, left[n..], false)
  {
    FullChunk(crc, off, left, begin);
    assert Logs.Fits(off, |left|) == 32768 - off - 7 && Logs.AfterChunk(off, |left|) == 32768;
  }

  lemma FullChunk(crc: Bytes -> uint32, off: Logs.Offset, left: Bytes, begin: bool)
    requires off + 7 <= 32768 < off + 7 + |left|
    ensures Logs.Chunk(crc, off, left, begin) == LogFragment(crc, if begin then 2 else 3, left[..32768 - off - 7])
  {
    var payload := left[..32768 - off - 7];
    var t := if begin then 2 else 3;
    assert Logs.Trailer(off) == [] && Logs.TypeOf(begin, false) == t;
    assert [] + LogFragment(crc, t, payload) == LogFragment(crc, t, payload);
  }

  /** A new block starts with the next fragment. */
  lemma NextBlock(crc: Bytes -> uint32, left: Bytes, begin: bool)
    ensures Logs.Fragments(crc, 32768, left, begin) == Logs.Fragments(crc, 0, left, begin)
  {
    assert Logs.Trailer(32768) == [] == Logs.Trailer(0);
  }

  /** A record that fits in the block is one fragment of type 1. */
  lemma WholeRecord(crc: Bytes -> uint32, off: Logs.Offset, record: Bytes)
    requires off + 7 + |record| <= 32768
    ensures Logs.Fragments(crc, off, record, true) == LogFragment(crc, 1, record)
  {
    LastFragment(crc, off, record, true);
  }

  /** What is left of a block, if it is less than a header, is zeros. */
  lemma BlockEnds(crc: Bytes -> uint32, off: Logs.Offset, record: Bytes)
    requires 32768 - 7 < off && |record| <= 32761
    ensures Logs.Fragments(crc, off, record, true) == Zeros(32768 - off) + LogFragment(crc, 1, record)
  {
    LastFragment(crc, off, record, true);
  }

  /** A longer record has a first fragment of type 2, a last one of type 4, and those between of type 3. */
  lemma ThreeFragments(crc: Bytes -> uint32, off: Logs.Offset, record: Bytes)
    requires off + 7 <= 32768 && 32768 - off - 7 + 32761 < |record| <= 32768 - off - 7 + 65522
    ensures var n := 32768 - off - 7;
            Logs.Fragments(crc, off, record, true) ==
            LogFragment(crc, 2, record[..n])
            + (LogFragment(crc, 3, record[n..][..32761]) + LogFragment(crc, 4, record[n..][32761..]))
  {
    var rest := record[32768 - off - 7..];
    FullFragment(crc, off, record, true);
    NextBlock(crc, rest, false);
    FullFragment(crc, 0, rest, false);
    NextBlock(crc, rest[32761..], false);
    LastFragment(crc, 0, rest[32761..], false);
    assert [] + LogFragment(crc, 4, rest[32761..]) == LogFragment(crc, 4, rest[32761..]);
  }

  // ----- Batches -----

  /** A batch is its sequence number in 8 bytes, the number of operations in 4, and the operations. */
  lemma BatchBytes(sequence: uint64, ops: seq<WriteBatches.Op>)
    requires |ops| < 4294967296
    ensures WriteBatches.Encode(sequence, ops) ==
            LittleEndian(sequence, 8) + LittleEndian(|ops|, 4) + WriteBatches.Records(ops)
  {
  }

  /** A put is 1 and two strings with their lengths, a deletion 0 and one. */
  lemma OperationBytes(key: Bytes, value: Bytes)
    requires |key| < 4294967296 && |value| < 4294967296
    ensures WriteBatches.Record(WriteBatches.Op.Put(key, value)) ==
            [1] + (Varint(|key|) + key) + (Varint(|value|) + value)
    ensures WriteBatches.Record(WriteBatches.Op.Delete(key)) == [0] + (Varint(|key|) + key)
  {
  }

  // ----- Edits -----

  /** Each field of an edit starts with its number. */
  lemma FieldStarts(f: VersionEdits.Field)
    ensures VersionEdits.FieldBytes(f)[0] ==
            match f
            case ComparatorName(_) => 1
            case LogNumber(_) => 2
            case NextFileNumber(_) => 3
            case LastSequence(_) => 4
            case CompactPointer(_, _) => 5
            case DeletedFile(_, _) => 6
            case NewFile(_, _) => 7
            case PrevLogNumber(_) => 9
    ensures VersionEdits.FieldBytes(f)[1..] == VersionEdits.Payload(f)
  {
    assert Varint(VersionEdits.Tag(f)) == [VersionEdits.Tag(f) as byte];
  }

  // ----- Tables -----

  /** A table file ends with the magic number 0xdb4775248b80fb57, the least significant byte first. */
  lemma FooterEnds(metaIndex: TableFormats.BlockHandle, index: TableFormats.BlockHandle)
    ensures var b := TableFormats.EncodeFooter(metaIndex, index);
            |b| == 48 && b[40..] == [0x57, 0xfb, 0x80, 0x8b, 0x24, 0x75, 0x47, 0xdb]
  {
    MagicBytes();
    var handles := TableFormats.EncodeHandle(metaIndex) + TableFormats.EncodeHandle(index);
    var padded := handles + Zeros(40 - |handles|);
    assert |padded| == 40;
  }

  lemma MagicBytes()
    ensures Fixed32(TableFormats.MAGIC_LOW) == [0x57, 0xfb, 0x80, 0x8b]
    ensures Fixed32(TableFormats.MAGIC_HIGH) == [0x24, 0x75, 0x47, 0xdb]
  {
    forall i: nat | i < 4
      ensures LittleEndian(TableFormats.MAGIC_LOW, 4)[i] as nat == TableFormats.MAGIC_LOW / Power(256, i) % 256
      ensures LittleEndian(TableFormats.MAGIC_HIGH, 4)[i] as nat == TableFormats.MAGIC_HIGH / Power(256, i) % 256
    {
      LittleEndianMeans(TableFormats.MAGIC_LOW, 4, i);
      LittleEndianMeans(TableFormats.MAGIC_HIGH, 4, i);
    }
    assert Power(256, 1) == 256 && Power(256, 2) == 65536 && Power(256, 3) == 16777216;
  }

  /** A block is stored compressed, with 1 behind it, exactly if that saves more than an eighth of it; else with 0. */
  lemma StoredMeans(c: TableFormats.Codec, raw: Bytes)
    ensures var saves := c.compress(raw).Some? && |c.compress(raw).value| + |raw| / 8 < |raw|;
            TableFormats.Stored(c, raw) == if saves then (c.compress(raw).value, 1) else (raw, 0)
  {
  }

  // ----- Filters -----

  /** A filter block ends with where its array of offsets starts, in 4 bytes, and 11, as filters are for 2 KB each. */
  lemma FilterBlockEnds(p: FilterBlocks.Policy, contents: Bytes, lists: seq<seq<Bytes>>)
    requires FilterBlocks.IsFilterBlock(p, contents, lists)
    ensures var n := |contents|;
            n >= 5 && contents[n-1] == 11 && DecodeFixed32(contents[n-5..n-1]) + 4 * |lists| + 5 == n
    ensures FilterBlocks.FILTER_BASE == 2048
  {
    var result, offsets :| FilterBlocks.Finished(p, contents, lists, result, offsets);
    if offsets != [] {
      FixedArrayAt(offsets, 0);
    }
    var tail := Fixed32(|result|) + [11];
    assert contents == (result + FixedArray(offsets)) + tail && |tail| == 5;
    assert contents[|contents|-5..] == tail && tail[..4] == Fixed32(|result|);
    assert contents[|contents|-5..|contents|-1] == tail[..4];
  }

  /** A filter has as few bytes as hold the bits per key of its keys, or 64 bits if these are fewer. */
  lemma FilterSize(n: nat, bitsPerKey: nat)
    ensures var bits := if n * bitsPerKey < 64 then 64 else n * bitsPerKey;
            bits <= 8 * Blooms.FilterBytes(n, bitsPerKey) < bits + 8
  {
  }

  /** A hash is rotated right by 17 bits. */
  lemma RotatedMeans(h: uint32)
    ensures Blooms.Rotated(h) % 32768 == h / 131072 && Blooms.Rotated(h) / 32768 == h % 131072
  {
    Logs.RotationRoundTrip(h / 131072, h % 131072, 131072, 32768);
  }

  /** Probe j is the hash plus j times its rotation, in 32 bits. */
  lemma {:induction false} ProbeMeans(h: uint32, j: nat)
    ensures Blooms.Probe(h, j) == (h + j * Blooms.Rotated(h)) % 4294967296
  {
    if j > 0 {
      ProbeMeans(h, j - 1);
      OneStepMore(h, Blooms.Rotated(h), j, 4294967296);
    } else {
      ModUnique(h, 4294967296, 0, h);
    }
  }

  lemma OneTimeMore(h: nat, d: nat, j: nat)
    requires j > 0
    ensures h + (j - 1) * d + d == h + j * d
  {
  }

  lemma OneStepMore(h: nat, d: nat, j: nat, m: nat)
    requires j > 0 && m > 0
    ensures ((h + (j - 1) * d) % m + d) % m == (h + j * d) % m
  {
    OneTimeMore(h, d, j);
    AddModulo(h + (j - 1) * d, d, m);
  }

  lemma AddModulo(a: nat, b: nat, m: nat)
    requires m > 0
    ensures (a % m + b) % m == (a + b) % m
  {
    var q, r := (a % m + b) / m, (a % m + b) % m;
    assert a == m * (a / m) + a % m;
    assert a % m + b == m * q + r;
    assert a + b == m * (a / m + q) + r;
    ModUnique(a + b, m, a / m + q, r);
  }
}
