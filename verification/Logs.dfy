/**
 The write-ahead log: records are cut into fragments that never cross a 32768-byte
 block, and read back exactly.  A file cut off at any byte yields the records that
 end before the cut, and nothing is reported as corrupt.
 */
module Logs {
  import opened Wrappers
  import opened Comparator
  import opened Codings

  const BLOCK_SIZE: nat := 32768
  const HEADER_SIZE: nat := 7

  const ZERO_TYPE: byte := 0
  const FULL_TYPE: byte := 1
  const FIRST_TYPE: byte := 2
  const MIDDLE_TYPE: byte := 3
  const LAST_TYPE: byte := 4

  // ----- Stored checksums -----

  const MASK_DELTA: nat := 0xa282_ead8

  /** Rotation right by 15 bits, then a constant added in 32-bit arithmetic. */
  function Mask(crc: uint32): uint32 {
    (crc / 0x8000 + crc % 0x8000 * 0x2_0000 + MASK_DELTA) % TWO_TO_32
  }

  function Unmask(masked: uint32): uint32 {
    var rot := (masked + TWO_TO_32 - MASK_DELTA) % TWO_TO_32;
    rot / 0x2_0000 + rot % 0x2_0000 * 0x8000
  }

  lemma DeltaRoundTrip(x: uint32)
    ensures ((x + MASK_DELTA) % TWO_TO_32 + TWO_TO_32 - MASK_DELTA) % TWO_TO_32 == x
    ensures ((x + TWO_TO_32 - MASK_DELTA) % TWO_TO_32 + MASK_DELTA) % TWO_TO_32 == x
  {
  }

  lemma RotationRoundTrip(a: nat, b: nat, lo: nat, hi: nat)
    requires lo > 0 && hi > 0 && a < hi && b < lo
    ensures (a + b * hi) / hi == b && (a + b * hi) % hi == a
  {
    ModUnique(a + b * hi, hi, b, a);
    var q := (a + b * hi) / hi;
    assert hi * q + a == a + b * hi;
    assert hi * (q - b) == 0;
    MultipleAtLeast(hi, q - b);
  }

  lemma MaskRoundTrip(crc: uint32)
    ensures Unmask(Mask(crc)) == crc && Mask(Unmask(crc)) == crc
  {
    var rot := crc / 0x8000 + crc % 0x8000 * 0x2_0000;
    RotationRoundTrip(crc / 0x8000, crc % 0x8000, 0x8000, 0x2_0000);
    DeltaRoundTrip(rot);
    var back := (crc + TWO_TO_32 - MASK_DELTA) % TWO_TO_32;
    RotationRoundTrip(back / 0x2_0000, back % 0x2_0000, 0x2_0000, 0x8000);
    DeltaRoundTrip(crc);
  }

  // ----- The layout of a log -----

  /** A physical record: checksum, length and type, then the payload. */
  function Physical(crc: Bytes -> uint32, t: byte, payload: Bytes): (b: Bytes)
    requires |payload| < 0x1_0000
    ensures |b| == HEADER_SIZE + |payload|
  {
    Fixed32(Mask(crc([t] + payload))) + [(|payload| % 256) as byte, (|payload| / 256) as byte, t] + payload
  }

  type Offset = n: nat | n <= BLOCK_SIZE

  /** The zeros that fill a block too full for another header. */
  function Trailer(off: Offset): (b: Bytes)
    ensures |b| == if BLOCK_SIZE - off < HEADER_SIZE then BLOCK_SIZE - off else 0
  {
    if BLOCK_SIZE - off < HEADER_SIZE then Zeros(BLOCK_SIZE - off) else []
  }

  function HeaderStart(off: Offset): (o: Offset)
    ensures o + HEADER_SIZE <= BLOCK_SIZE
  {
    if BLOCK_SIZE - off < HEADER_SIZE then 0 else off
  }

  /** How much of a record fits in the current block. */
  function Fits(off: Offset, left: nat): (n: nat)
    ensures n <= left && HeaderStart(off) + HEADER_SIZE + n <= BLOCK_SIZE
  {
    var avail := BLOCK_SIZE - HeaderStart(off) - HEADER_SIZE;
    if left < avail then left else avail
  }

  function TypeOf(begin: bool, end: bool): byte {
    if begin && end then FULL_TYPE else if begin then FIRST_TYPE else if end then LAST_TYPE else MIDDLE_TYPE
  }

  /** The bytes of the next fragment of what is left of a record. */
  function Chunk(crc: Bytes -> uint32, off: Offset, left: Bytes, begin: bool): (b: Bytes)
    ensures |b| == |Trailer(off)| + HEADER_SIZE + Fits(off, |left|)
  {
    var n := Fits(off, |left|);
    Trailer(off) + Physical(crc, TypeOf(begin, n == |left|), left[..n])
  }

  function AfterChunk(off: Offset, left: nat): Offset {
    HeaderStart(off) + HEADER_SIZE + Fits(off, left)
  }

  /** All the fragments of what is left of a record. */
  function Fragments(crc: Bytes -> uint32, off: Offset, left: Bytes, begin: bool): (b: Bytes)
    ensures |b| >= HEADER_SIZE
    decreases |left|, BLOCK_SIZE - off
  {
    var n := Fits(off, |left|);
    Chunk(crc, off, left, begin) + if n == |left| then [] else Fragments(crc, AfterChunk(off, |left|), left[n..], false)
  }

  /** Where in its block a record ends. */
  function EndOffset(off: Offset, left: nat): Offset
    decreases left, BLOCK_SIZE - off
  {
    var n := Fits(off, left);
    if n == left then AfterChunk(off, left) else EndOffset(AfterChunk(off, left), left - n)
  }

  /** The log of a list of records, started at an offset in a block. */
  function Log(crc: Bytes -> uint32, off: Offset, records: seq<Bytes>): Bytes
    decreases |records|
  {
    if records == [] then []
    else Fragments(crc, off, records[0], true) + Log(crc, EndOffset(off, |records[0]|), records[1..])
  }

  /** The records of a log that end before the cut. */
  function Complete(crc: Bytes -> uint32, off: Offset, records: seq<Bytes>, cut: nat): seq<Bytes>
    decreases |records|
  {
    if records == [] || cut < |Fragments(crc, off, records[0], true)| then []
    else
      var size := |Fragments(crc, off, records[0], true)|;
      [records[0]] + Complete(crc, EndOffset(off, |records[0]|), records[1..], cut - size)
  }

  lemma {:induction false} AllComplete(crc: Bytes -> uint32, off: Offset, records: seq<Bytes>)
    ensures Complete(crc, off, records, |Log(crc, off, records)|) == records
    decreases |records|
  {
    if records != [] {
      AllComplete(crc, EndOffset(off, |records[0]|), records[1..]);
      assert [records[0]] + records[1..] == records;
    }
  }

  /** The records before the cut are the first ones. */
  lemma {:induction false} CompleteIsPrefix(crc: Bytes -> uint32, off: Offset, records: seq<Bytes>, cut: nat)
    ensures Complete(crc, off, records, cut) <= records
    decreases |records|
  {
    if records != [] && cut >= |Fragments(crc, off, records[0], true)| {
      CompleteIsPrefix(crc, EndOffset(off, |records[0]|), records[1..], cut - |Fragments(crc, off, records[0], true)|);
    }
  }

  /** The end of a record is where the length of its fragments says it is, whole blocks aside. */
  lemma {:induction false} EndOffsetIsPosition(crc: Bytes -> uint32, off: Offset, left: Bytes, begin: bool)
    returns (blocks: nat)
    ensures off + |Fragments(crc, off, left, begin)| == EndOffset(off, |left|) + blocks * BLOCK_SIZE
    decreases |left|, BLOCK_SIZE - off
  {
    var n := Fits(off, |left|);
    var here := if BLOCK_SIZE - off < HEADER_SIZE then 1 else 0;
    assert off + |Trailer(off)| == HeaderStart(off) + here * BLOCK_SIZE;
    if n < |left| {
      var more := EndOffsetIsPosition(crc, AfterChunk(off, |left|), left[n..], false);
      blocks := here + more;
    } else {
      blocks := here;
    }
  }

  lemma {:induction false} LogEndIsPosition(crc: Bytes -> uint32, off: Offset, records: seq<Bytes>)
    returns (blocks: nat)
    ensures off + |Log(crc, off, records)| == LogEnd(off, records) + blocks * BLOCK_SIZE
    decreases |records|
  {
    if records == [] {
      blocks := 0;
    } else {
      var first := EndOffsetIsPosition(crc, off, records[0], true);
      var rest := LogEndIsPosition(crc, EndOffset(off, |records[0]|), records[1..]);
      blocks := first + rest;
    }
  }

  function LogEnd(off: Offset, records: seq<Bytes>): Offset
    decreases |records|
  {
    if records == [] then off else LogEnd(EndOffset(off, |records[0]|), records[1..])
  }

  /** The end of one block is the start of the next. */
  lemma FullBlockIsNewBlock(crc: Bytes -> uint32, records: seq<Bytes>)
    ensures Log(crc, BLOCK_SIZE, records) == Log(crc, 0, records)
  {
    if records != [] {
      SameStartSameFragments(crc, BLOCK_SIZE, 0, records[0]);
    }
  }

  /** Only the trailer and the place of the next header matter of an offset. */
  lemma SameStartSameFragments(crc: Bytes -> uint32, a: Offset, b: Offset, left: Bytes)
    requires Trailer(a) == Trailer(b) && HeaderStart(a) == HeaderStart(b)
    ensures Fragments(crc, a, left, true) == Fragments(crc, b, left, true)
    ensures EndOffset(a, |left|) == EndOffset(b, |left|)
  {
    assert Fits(a, |left|) == Fits(b, |left|);
    assert Chunk(crc, a, left, true) == Chunk(crc, b, left, true);
    assert AfterChunk(a, |left|) == AfterChunk(b, |left|);
  }

  lemma {:induction false} LogOfFirst(crc: Bytes -> uint32, off: Offset, records: seq<Bytes>)
    requires records != []
    ensures var next := EndOffset(off, |records[0]|);
            Log(crc, off, records) == Fragments(crc, off, records[0], true) + Log(crc, next, records[1..]) &&
            LogEnd(off, records) == LogEnd(next, records[1..])
  {
  }

  lemma {:induction false} FirstOfBoth(a: seq<Bytes>, b: seq<Bytes>)
    requires a != []
    ensures (a + b)[0] == a[0] && (a + b)[1..] == a[1..] + b
  {
  }

  lemma {:induction false} LogAppend(crc: Bytes -> uint32, off: Offset, a: seq<Bytes>, b: seq<Bytes>)
    ensures Log(crc, off, a + b) == Log(crc, off, a) + Log(crc, LogEnd(off, a), b)
    decreases |a|
  {
    if a == [] {
      assert a + b == b;
    } else {
      var next := EndOffset(off, |a[0]|);
      LogAppend(crc, next, a[1..], b);
      FirstOfBoth(a, b);
      LogOfFirst(crc, off, a);
      LogOfFirst(crc, off, a + b);
      Regroup(Fragments(crc, off, a[0], true), Log(crc, next, a[1..]), Log(crc, LogEnd(off, a), b));
    }
  }

  /** A second writer that continues an existing log by its length continues the list of records. */
  lemma ReopenedLog(crc: Bytes -> uint32, a: seq<Bytes>, b: seq<Bytes>)
    ensures Log(crc, 0, a) + Log(crc, |Log(crc, 0, a)| % BLOCK_SIZE, b) == Log(crc, 0, a + b)
  {
    var blocks := LogEndIsPosition(crc, 0, a);
    LogAppend(crc, 0, a, b);
    var end := LogEnd(0, a);
    if end == BLOCK_SIZE {
      FullBlockIsNewBlock(crc, b);
      ModUnique(|Log(crc, 0, a)|, BLOCK_SIZE, blocks + 1, 0);
    } else {
      ModUnique(|Log(crc, 0, a)|, BLOCK_SIZE, blocks, end);
    }
  }

  /** What is left to write after one fragment. */
  lemma NextFragment(crc: Bytes -> uint32, dest: Bytes, off: Offset, left: Bytes, begin: bool)
    ensures var n := Fits(off, |left|);
            var written := dest + Chunk(crc, off, left, begin);
            if n == |left| then
              && dest + Fragments(crc, off, left, begin) == written
              && EndOffset(off, |left|) == AfterChunk(off, |left|)
            else
              && dest + Fragments(crc, off, left, begin) ==
                 written + Fragments(crc, AfterChunk(off, |left|), left[n..], false)
              && EndOffset(off, |left|) == EndOffset(AfterChunk(off, |left|), |left[n..]|)
  {
    var n := Fits(off, |left|);
    var chunk := Chunk(crc, off, left, begin);
    if n == |left| {
      assert chunk + [] == chunk;
    } else {
      Regroup(dest, chunk, Fragments(crc, AfterChunk(off, |left|), left[n..], false));
    }
  }

  // ----- The writer -----

  class Writer {
    const crc: Bytes -> uint32
    var dest: Bytes
    var blockOffset: Offset

    /** A writer that goes on at the end of a file. */
    constructor (crc: Bytes -> uint32, dest: Bytes)
      ensures this.crc == crc && this.dest == dest && blockOffset == |dest| % BLOCK_SIZE
    {
      this.crc := crc;
      this.dest := dest;
      blockOffset := |dest| % BLOCK_SIZE;
    }

    method AddRecord(slice: Bytes)
      modifies this
      ensures dest == old(dest) + Fragments(crc, old(blockOffset), slice, true)
      ensures blockOffset == EndOffset(old(blockOffset), |slice|)
    {
      ghost var target := dest + Fragments(crc, blockOffset, slice, true);
      ghost var end := EndOffset(blockOffset, |slice|);
      var left := slice;
      var begin := true;
      var going := true;
      while going
        invariant going ==>
                  dest + Fragments(crc, blockOffset, left, begin) == target && EndOffset(blockOffset, |left|) == end
        invariant !going ==> dest == target && blockOffset == end
        decreases going, |left|, BLOCK_SIZE - blockOffset
      {
        NextFragment(crc, dest, blockOffset, left, begin);
        var n := EmitFragment(left, begin);
        left := left[n..];
        begin := false;
        going := left != [];
      }
    }

    method EmitFragment(left: Bytes, begin: bool) returns (n: nat)
      modifies this
      ensures n == Fits(old(blockOffset), |left|)
      ensures dest == old(dest) + Chunk(crc, old(blockOffset), left, begin)
      ensures blockOffset == AfterChunk(old(blockOffset), |left|)
    {
      if BLOCK_SIZE - blockOffset < HEADER_SIZE {
        dest := dest + Trailer(blockOffset);
        blockOffset := 0;
      }
      var avail := BLOCK_SIZE - blockOffset - HEADER_SIZE;
      n := if |left| < avail then |left| else avail;
      EmitPhysicalRecord(TypeOf(begin, n == |left|), left[..n]);
    }

    method EmitPhysicalRecord(t: byte, payload: Bytes)
      requires blockOffset + HEADER_SIZE + |payload| <= BLOCK_SIZE
      modifies this
      ensures dest == old(dest) + Physical(crc, t, payload)
      ensures blockOffset == old(blockOffset) + HEADER_SIZE + |payload|
    {
      var length := |payload|;
      var header := Fixed32(Mask(crc([t] + payload))) + [(length % 256) as byte, (length / 256) as byte, t];
      dest := dest + header;
      dest := dest + payload;
      blockOffset := blockOffset + HEADER_SIZE + length;
    }
  }
}
