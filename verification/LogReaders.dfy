/**
 Reading a log back: blocks are buffered, physical records checked, and fragments
 put together.  On what a writer produced, cut off anywhere, the reader returns
 exactly the records that end before the cut and reports nothing.
 */
module LogReaders {
  import opened Wrappers
  import opened Comparator
  import opened Codings
  import opened Logs

  const EOF: nat := 5
  const BAD_RECORD: nat := 6

  /** The first bytes of a physical record say what it is. */
  lemma HeaderFields(crc: Bytes -> uint32, t: byte, payload: Bytes, rest: Bytes)
    requires |payload| < 0x1_0000
    ensures var b := Physical(crc, t, payload) + rest;
            && b[..4] == Fixed32(Mask(crc([t] + payload)))
            && b[4] as nat + 256 * b[5] as nat == |payload| && b[6] == t
            && b[6..HEADER_SIZE + |payload|] == [t] + payload
            && b[HEADER_SIZE..HEADER_SIZE + |payload|] == payload
            && b[HEADER_SIZE + |payload|..] == rest
  {
    var b := Physical(crc, t, payload) + rest;
    assert b[6..HEADER_SIZE + |payload|] == [b[6]] + b[HEADER_SIZE..HEADER_SIZE + |payload|];
  }

  /** What is left of a cut file after its first n bytes. */
  lemma CutDrop(a: Bytes, b: Bytes, cut: nat)
    requires cut <= |a| + |b|
    ensures cut >= |a| ==> (a + b)[..cut] == a + b[..cut - |a|] && (a + b)[..cut][|a|..] == b[..cut - |a|]
  {
  }

  /** The physical record of the next fragment of what is left of a record. */
  function RecordOf(crc: Bytes -> uint32, off: Offset, left: Bytes, begin: bool): Bytes {
    Physical(crc, TypeOf(begin, Fits(off, |left|) == |left|), left[..Fits(off, |left|)])
  }

  /**
   What filling the buffer leaves of an awaited fragment.  b bytes of the file were
   buffered, and it goes on as rest, or as more once the buffer is filled.
   */
  lemma FilledChunk(crc: Bytes -> uint32, off: Offset, rest: Bytes, b: nat, atEof: bool, ok: bool, off': Offset,
                    more: Bytes,
                    left: Bytes, begin: bool, tail: Bytes, cut: nat)
    requires cut <= |Chunk(crc, off, left, begin)| + |tail| && rest == (Chunk(crc, off, left, begin) + tail)[..cut]
    requires b <= |rest| && if atEof then b == |rest| && off + b < BLOCK_SIZE else off + b == BLOCK_SIZE
    requires b >= HEADER_SIZE ==> ok && more == rest && off' == off
    requires b < HEADER_SIZE && atEof ==> !ok
    requires b < HEADER_SIZE && !atEof ==>
             (ok <==> |rest| - b >= HEADER_SIZE) && (ok ==> more == rest[b..] && off' == 0)
    ensures !ok ==> cut < |Chunk(crc, off, left, begin)|
    ensures ok ==> off' == HeaderStart(off) && |Trailer(off)| <= cut
    ensures ok ==> more == (RecordOf(crc, off, left, begin) + tail)[..cut - |Trailer(off)|]
  {
    var record := RecordOf(crc, off, left, begin);
    assert Chunk(crc, off, left, begin) + tail == Trailer(off) + (record + tail);
    if ok {
      CutDrop(Trailer(off), record + tail, cut);
    }
  }

  /** An awaited record is an awaited fragment and what comes after it. */
  lemma FragmentFirst(crc: Bytes -> uint32, off: Offset, left: Bytes, begin: bool, tail: Bytes, cut: nat)
    returns (after: Bytes)
    requires cut <= |Fragments(crc, off, left, begin)| + |tail|
    ensures var n := Fits(off, |left|);
            after == if n == |left| then tail else Fragments(crc, AfterChunk(off, |left|), left[n..], false) + tail
    ensures Fragments(crc, off, left, begin) + tail == Chunk(crc, off, left, begin) + after
    ensures |Chunk(crc, off, left, begin)| <= |Fragments(crc, off, left, begin)|
  {
    var n := Fits(off, |left|);
    if n == |left| {
      after := tail;
      assert Chunk(crc, off, left, begin) + [] == Chunk(crc, off, left, begin);
    } else {
      var more := Fragments(crc, AfterChunk(off, |left|), left[n..], false);
      after := more + tail;
      Regroup(Chunk(crc, off, left, begin), more, tail);
    }
  }

  /** The first record of a log, and the log after it. */
  function FirstRecord(records: seq<Bytes>): Bytes {
    if records == [] then [] else records[0]
  }

  function LaterLog(crc: Bytes -> uint32, off: Offset, records: seq<Bytes>): Bytes {
    if records == [] then [] else Log(crc, EndOffset(off, |records[0]|), records[1..])
  }

  /**
   A record put together so far, and what of the log is still to be read for it.  The
   record takes size bytes and ends at offset end; the file has cut bytes from its start.
   */
  ghost predicate Reassembling(crc: Bytes -> uint32, record: Bytes, size: nat, end: Offset, cut: nat,
                               scratch: Bytes, begin: bool, off: Offset, left: Bytes, now: nat)
  {
    && scratch + left == record
    && (begin ==> scratch == [])
    && now <= cut
    && EndOffset(off, |left|) == end
    && |Fragments(crc, off, left, begin)| + cut == size + now
  }

  lemma ReassemblingStep(crc: Bytes -> uint32, record: Bytes, size: nat, end: Offset, cut: nat,
                         scratch: Bytes, begin: bool, off: Offset, left: Bytes, now: nat)
    requires Reassembling(crc, record, size, end, cut, scratch, begin, off, left, now)
    ensures now < |Chunk(crc, off, left, begin)| ==> cut < size
    ensures now >= |Chunk(crc, off, left, begin)| ==>
            var n := Fits(off, |left|);
            if n == |left| then
              scratch + left == record && AfterChunk(off, |left|) == end
                  && |Chunk(crc, off, left, begin)| + cut == size + now
            else
              Reassembling(crc, record, size, end, cut, scratch + left[..n], false, AfterChunk(off, |left|), left[n..],
                           now - |Chunk(crc, off, left, begin)|)
  {
    var n := Fits(off, |left|);
    assert scratch + left == (scratch + left[..n]) + left[n..];
    var after := FragmentFirst(crc, off, left, begin, [], 0);
  }

  /**
   From this offset the file goes on with what is left of a record and then tail, and is cut off
   after `cut` bytes.
   */
  ghost predicate AwaitsAt(crc: Bytes -> uint32, off: Offset, rest: Bytes, left: Bytes, begin: bool, tail: Bytes,
                           cut: nat) {
    && cut <= |Fragments(crc, off, left, begin)| + |tail|
    && rest == (Fragments(crc, off, left, begin) + tail)[..cut]
  }

  ghost predicate MidwayAt(crc: Bytes -> uint32, off: Offset, rest: Bytes, job: Job,
                           scratch: Bytes, inFragmentedRecord: bool, left: Bytes, now: nat)
  {
    && AwaitsAt(crc, off, rest, left, !inFragmentedRecord, job.tail, now)
    && Reassembling(crc, job.record, job.size, job.end, job.cut, scratch, !inFragmentedRecord, off, left, now)
  }

  /** One turn of the loop that read a fragment: it completes the record or leaves less of it. */
  lemma StepOutcome(crc: Bytes -> uint32, off: Offset, rest: Bytes, job: Job,
                    scratch: Bytes, inFragmentedRecord: bool, left: Bytes, now: nat,
                    fragment: Bytes, off': Offset, rest': Bytes)
    requires MidwayAt(crc, off, rest, job, scratch, inFragmentedRecord, left, now)
    requires now >= |Chunk(crc, off, left, !inFragmentedRecord)|
    requires fragment == left[..Fits(off, |left|)] && off' == AfterChunk(off, |left|)
    requires if fragment == left then rest' == job.tail[..now - |Chunk(crc, off, left, !inFragmentedRecord)|]
             else AwaitsAt(crc, off', rest', left[|fragment|..], false, job.tail,
                 now - |Chunk(crc, off, left, !inFragmentedRecord)|)
    ensures fragment == left ==>
              scratch + fragment == job.record && job.size <= job.cut <= job.size + |job.tail| && off' == job.end
              && rest' == job.tail[..job.cut - job.size]
    ensures fragment != left ==>
              MidwayAt(crc, off', rest', job, scratch + fragment, true, left[|fragment|..],
                  now - |Chunk(crc, off, left, !inFragmentedRecord)|)
  {
    WholeFragment(left, Fits(off, |left|), fragment);
    var after := FragmentFirst(crc, off, left, !inFragmentedRecord, job.tail, now);
    ReassemblingStep(crc, job.record, job.size, job.end, job.cut, scratch, !inFragmentedRecord, off, left, now);
  }

  lemma WholeFragment(left: Bytes, n: nat, fragment: Bytes)
    requires n <= |left| && fragment == left[..n]
    ensures fragment == left <==> n == |left|
  {
  }

  /**
   A record being read: it takes size bytes and ends at offset end, then comes tail, and the file
   has cut bytes from here.
   */
  datatype Job = Job(record: Bytes, tail: Bytes, cut: nat, size: nat, end: Offset)

  class Reader {
    const crc: Bytes -> uint32
    const file: Bytes
    /** How much of the file has been read into the buffer, and what of it is not consumed. */
    var pos: nat
    var buffer: Bytes
    var eof: bool
    /** The sizes of the pieces reported as corrupt. */
    var reports: seq<nat>
    /** Where the block in the buffer starts. */
    ghost var start: int

    ghost predicate Valid()
      reads this
    {
      && |buffer| <= pos <= |file| && buffer == file[pos - |buffer|..pos]
      && start <= pos - |buffer|
      && (!eof ==> pos == start + BLOCK_SIZE)
      && (eof ==> pos == |file| < start + BLOCK_SIZE)
    }

    /** The part of the file not consumed yet, and its offset in its block. */
    ghost function Rest(): Bytes
      requires Valid()
      reads this
    {
      file[pos - |buffer|..]
    }

    ghost function Off(): Offset
      requires Valid()
      reads this
    {
      pos - |buffer| - start
    }

    ghost predicate AtEnd()
      reads this
    {
      Valid() && eof && buffer == []
    }

    constructor (crc: Bytes -> uint32, file: Bytes)
      ensures Valid() && this.crc == crc && this.file == file
      ensures Rest() == file && Off() == BLOCK_SIZE && reports == []
    {
      this.crc := crc;
      this.file := file;
      pos, buffer, eof, reports := 0, [], false, [];
      start := 0 - BLOCK_SIZE;
      new;
      assert buffer == file[pos - |buffer|..pos];
      assert Valid();
      assert file[0..] == file;
    }

    method ReportCorruption(bytes: nat)
      modifies this`reports
      ensures reports == old(reports) + [bytes]
    {
      reports := reports + [bytes];
    }

    /** Sees to it that the buffer holds a header, skipping the trailer of a block; false at the end of the file. */
    method FillBuffer() returns (ok: bool)
      requires Valid()
      modifies this`pos, this`buffer, this`eof, this`start
      ensures Valid() && (ok ==> |buffer| >= HEADER_SIZE) && (!ok ==> AtEnd())
      ensures old(|buffer|) >= HEADER_SIZE ==> ok && Rest() == old(Rest()) && Off() == old(Off())
      ensures old(|buffer|) < HEADER_SIZE && old(eof) ==> !ok
      ensures old(|buffer|) < HEADER_SIZE && !old(eof) ==>
                (ok <==> |old(Rest())| - old(|buffer|) >= HEADER_SIZE)
                && (ok ==> Rest() == old(Rest())[old(|buffer|)..] && Off() == 0)
      ensures ok ==> |Rest()| <= |old(Rest())|
    {
      ok := true;
      while |buffer| < HEADER_SIZE
        invariant Valid() && ok
        invariant (pos == old(pos) && buffer == old(buffer) && eof == old(eof) && start == old(start))
               || (old(|buffer|) < HEADER_SIZE && !old(eof) && Rest() == old(Rest())[old(|buffer|)..] && Off() == 0
                   && (eof || |buffer| == BLOCK_SIZE))
        decreases if eof then 0 else 1, if |buffer| < HEADER_SIZE then 1 else 0
      {
        if eof {
          AllBuffered();
          buffer := [];
          return false;
        }
        ReadBlock();
      }
    }

    /** At the end of the file the buffer is all that is left. */
    lemma AllBuffered()
      requires Valid() && eof
      ensures Rest() == buffer
    {
    }

    /** Gives up the trailer of the block in the buffer and reads the next one. */
    method ReadBlock()
      requires Valid() && !eof
      modifies this`pos, this`buffer, this`eof, this`start
      ensures Valid() && Rest() == old(Rest())[old(|buffer|)..] && Off() == 0
      ensures eof || |buffer| == BLOCK_SIZE
    {
      start := pos;
      var n := if |file| - pos < BLOCK_SIZE then |file| - pos else BLOCK_SIZE;
      buffer := file[pos..pos + n];
      pos := pos + n;
      eof := n < BLOCK_SIZE;
    }

    method RemovePrefix(n: nat)
      requires Valid() && n <= |buffer|
      modifies this`buffer
      ensures Valid() && Rest() == old(Rest())[n..] && Off() == old(Off()) + n
    {
      buffer := buffer[n..];
    }

    /** Gives up what is buffered. */
    method DropBuffer()
      requires Valid() && buffer != []
      modifies this`buffer
      ensures Valid() && buffer == [] && |Rest()| < |old(Rest())| && (eof ==> AtEnd())
    {
      buffer := [];
    }

    /** The buffer, holding a header, starts with this physical record, unless the file ends first. */
    ghost predicate StartsWith(t: byte, payload: Bytes, tail: Bytes, cut: nat)
      requires Valid()
      reads this
    {
      && |payload| < 0x1_0000 && FULL_TYPE <= t <= LAST_TYPE
      && Off() + HEADER_SIZE + |payload| <= BLOCK_SIZE
      && cut <= HEADER_SIZE + |payload| + |tail|
      && Rest() == (Physical(crc, t, payload) + tail)[..cut]
    }

    /** The fields that ParseBuffer reads, for a buffer that starts with a written record. */
    lemma BufferStartsWith(t: byte, payload: Bytes, tail: Bytes, cut: nat)
      requires Valid() && |buffer| >= HEADER_SIZE && StartsWith(t, payload, tail, cut)
      ensures buffer[4] as nat + 256 * buffer[5] as nat == |payload| && buffer[6] == t
      ensures HEADER_SIZE + |payload| <= |buffer| <==> HEADER_SIZE + |payload| <= cut
      ensures HEADER_SIZE + |payload| > |buffer| ==> eof
      ensures HEADER_SIZE + |payload| <= |buffer| ==>
                && DecodeFixed32(buffer[..4]) == Mask(crc([t] + payload))
                && buffer[6..HEADER_SIZE + |payload|] == [t] + payload
                && buffer[HEADER_SIZE..HEADER_SIZE + |payload|] == payload
                && Rest()[HEADER_SIZE + |payload|..] == tail[..cut - (HEADER_SIZE + |payload|)]
    {
      var whole := Physical(crc, t, payload) + tail;
      HeaderFields(crc, t, payload, tail);
      assert buffer == Rest()[..|buffer|];
      assert buffer == whole[..|buffer|];
      assert buffer[..4] == whole[..4];
      if HEADER_SIZE + |payload| <= |buffer| {
        assert buffer[6..HEADER_SIZE + |payload|] == whole[6..HEADER_SIZE + |payload|];
        assert buffer[HEADER_SIZE..HEADER_SIZE + |payload|] == whole[HEADER_SIZE..HEADER_SIZE + |payload|];
        CutDrop(Physical(crc, t, payload), tail, cut);
      }
    }

    /** Parses and checks the physical record at the front of the buffer. */
    method ParseBuffer(ghost ty: byte, ghost payload: Bytes, ghost tail: Bytes, ghost cut: nat)
      returns (t: nat, fragment: Bytes)
      requires Valid() && |buffer| >= HEADER_SIZE
      modifies this`buffer, this`reports
      ensures Valid() && |Rest()| < |old(Rest())|
      ensures old(StartsWith(ty, payload, tail, cut)) && cut >= HEADER_SIZE + |payload| ==>
                && t == ty as nat && fragment == payload && reports == old(reports)
                && Rest() == tail[..cut - (HEADER_SIZE + |payload|)] && Off() == old(Off()) + HEADER_SIZE + |payload|
      ensures old(StartsWith(ty, payload, tail, cut)) && cut < HEADER_SIZE + |payload| ==>
                t == EOF && AtEnd() && reports == old(reports)
    {
      if StartsWith(ty, payload, tail, cut) {
        BufferStartsWith(ty, payload, tail, cut);
      }
      var length := buffer[4] as nat + 256 * buffer[5] as nat;
      t := buffer[6] as nat;
      if HEADER_SIZE + length > |buffer| {
        var dropSize := |buffer|;
        DropBuffer();
        if !eof {
          ReportCorruption(dropSize);
          return BAD_RECORD, [];
        }
        return EOF, [];
      }
      if t == ZERO_TYPE as nat && length == 0 {
        DropBuffer();
        return BAD_RECORD, [];
      }
      MaskRoundTrip(crc(buffer[6..HEADER_SIZE + length]));
      var expected := Unmask(DecodeFixed32(buffer[..4]));
      var actual := crc(buffer[6..HEADER_SIZE + length]);
      if actual != expected {
        var dropSize := |buffer|;
        DropBuffer();
        ReportCorruption(dropSize);
        return BAD_RECORD, [];
      }
      fragment := buffer[HEADER_SIZE..HEADER_SIZE + length];
      RemovePrefix(HEADER_SIZE + length);
    }

    /** The file goes on with the next fragment of a record and then tail, and is cut off after `cut` more bytes. */
    ghost predicate AwaitsChunk(left: Bytes, begin: bool, tail: Bytes, cut: nat)
      requires Valid()
      reads this
    {
      && cut <= |Chunk(crc, Off(), left, begin)| + |tail|
      && Rest() == (Chunk(crc, Off(), left, begin) + tail)[..cut]
    }

    method ReadPhysicalRecord(ghost left: Bytes, ghost begin: bool, ghost tail: Bytes, ghost cut: nat)
      returns (t: nat, fragment: Bytes)
      requires Valid()
      modifies this`pos, this`buffer, this`eof, this`start, this`reports
      ensures Valid() && (t != EOF ==> |Rest()| < |old(Rest())|)
      ensures old(AwaitsChunk(left, begin, tail, cut)) && cut >= |Chunk(crc, old(Off()), left, begin)| ==>
                && t == TypeOf(begin, Fits(old(Off()), |left|) == |left|) as nat
                && fragment == left[..Fits(old(Off()), |left|)] && reports == old(reports)
                && Rest() == tail[..cut - |Chunk(crc, old(Off()), left, begin)|]
                     && Off() == AfterChunk(old(Off()), |left|)
      ensures old(AwaitsChunk(left, begin, tail, cut)) && cut < |Chunk(crc, old(Off()), left, begin)| ==>
                t == EOF && AtEnd() && reports == old(reports)
    {
      ghost var awaits, off, rest, b, atEof := AwaitsChunk(left, begin, tail, cut), Off(), Rest(), |buffer|, eof;
      ghost var n := Fits(off, |left|);
      var ok := FillBuffer();
      if awaits {
        FilledChunk(crc, off, rest, b, atEof, ok, Off(), Rest(), left, begin, tail, cut);
      }
      if !ok {
        return EOF, [];
      }
      t, fragment := ParseBuffer(TypeOf(begin, n == |left|), left[..n], tail,
          if awaits then cut - |Trailer(off)| else 0);
    }

    /** The file goes on with what is left of a record and then tail. */
    ghost predicate Awaits(left: Bytes, begin: bool, tail: Bytes, cut: nat)
      requires Valid()
      reads this
    {
      AwaitsAt(crc, Off(), Rest(), left, begin, tail, cut)
    }

    /** The file goes on with the log of the records. */
    ghost predicate Follows(records: seq<Bytes>, cut: nat)
      requires Valid()
      reads this
    {
      cut <= |Log(crc, Off(), records)| && Rest() == Log(crc, Off(), records)[..cut]
    }

    /** Reads one fragment of an awaited record. */
    method ReadFragment(ghost left: Bytes, ghost begin: bool, ghost tail: Bytes, ghost cut: nat)
      returns (t: nat, fragment: Bytes)
      requires Valid()
      modifies this`pos, this`buffer, this`eof, this`start, this`reports
      ensures Valid() && (t != EOF ==> |Rest()| < |old(Rest())|)
      ensures old(Awaits(left, begin, tail, cut)) ==> reports == old(reports)
      ensures old(Awaits(left, begin, tail, cut)) && cut < |Chunk(crc, old(Off()), left, begin)| ==> t == EOF && AtEnd()
      ensures old(Awaits(left, begin, tail, cut)) && cut >= |Chunk(crc, old(Off()), left, begin)| ==>
                && t == TypeOf(begin, Fits(old(Off()), |left|) == |left|) as nat
                && fragment == left[..Fits(old(Off()), |left|)] && Off() == AfterChunk(old(Off()), |left|)
                && if fragment == left then Rest() == tail[..cut - |Chunk(crc, old(Off()), left, begin)|]
                   else Awaits(left[|fragment|..], false, tail, cut - |Chunk(crc, old(Off()), left, begin)|)
    {
      ghost var after: Bytes := [];
      if Awaits(left, begin, tail, cut) {
        after := FragmentFirst(crc, Off(), left, begin, tail, cut);
      }
      t, fragment := ReadPhysicalRecord(left, begin, after, cut);
    }

    /** What ReadRecord does with a fragment: goes on, or is done with a record. */
    method Assemble(t: nat, fragment: Bytes, scratch: Bytes, inFragmentedRecord: bool)
      returns (done: Option<Bytes>, scratch': Bytes, inFragmentedRecord': bool)
      modifies this`reports
      ensures (inFragmentedRecord || scratch == []) && t == TypeOf(!inFragmentedRecord, true) as nat ==>
                done == Some(scratch + fragment) && reports == old(reports)
      ensures (inFragmentedRecord || scratch == []) && t == TypeOf(!inFragmentedRecord, false) as nat ==>
                done == None && scratch' == scratch + fragment && inFragmentedRecord' && reports == old(reports)
    {
      done, scratch', inFragmentedRecord' := None, scratch, inFragmentedRecord;
      assert [] + fragment == fragment;
      if t == FULL_TYPE as nat {
        if inFragmentedRecord && scratch != [] {
          ReportCorruption(|scratch|);
        }
        done := Some(fragment);
      } else if t == FIRST_TYPE as nat {
        if inFragmentedRecord && scratch != [] {
          ReportCorruption(|scratch|);
        }
        scratch', inFragmentedRecord' := fragment, true;
      } else if t == MIDDLE_TYPE as nat {
        if inFragmentedRecord {
          scratch' := scratch + fragment;
        } else {
          ReportCorruption(|fragment|);
        }
      } else if t == LAST_TYPE as nat {
        if inFragmentedRecord {
          done := Some(scratch + fragment);
        } else {
          ReportCorruption(|fragment|);
        }
      } else if t == BAD_RECORD {
        if inFragmentedRecord {
          ReportCorruption(|scratch|);
          scratch', inFragmentedRecord' := [], false;
        }
      } else {
        ReportCorruption(|fragment| + if inFragmentedRecord then |scratch| else 0);
        scratch', inFragmentedRecord' := [], false;
      }
    }

    /** The next record, or nothing at the end of the file. */
    method ReadRecord(ghost records: seq<Bytes>, ghost cut: nat) returns (r: Option<Bytes>)
      requires Valid()
      modifies this`pos, this`buffer, this`eof, this`start, this`reports
      ensures Valid() && (r.Some? ==> |Rest()| < |old(Rest())|)
      ensures old(Follows(records, cut)) ==> reports == old(reports)
      ensures old(Follows(records, cut)) && records != [] && cut >= |Fragments(crc, old(Off()), records[0], true)| ==>
                && r == Some(records[0]) && Off() == EndOffset(old(Off()), |records[0]|)
                && Follows(records[1..], cut - |Fragments(crc, old(Off()), records[0], true)|)
      ensures old(Follows(records, cut)) && (records == [] || cut < |Fragments(crc, old(Off()), records[0], true)|) ==>
                r == None && AtEnd()
    {
      r := ReassembleRecord(FirstRecord(records), LaterLog(crc, Off(), records), cut);
    }

    /** The loop of ReadRecord: one record from its fragments. */
    method ReassembleRecord(ghost record: Bytes, ghost tail: Bytes, ghost cut: nat) returns (r: Option<Bytes>)
      requires Valid()
      modifies this`pos, this`buffer, this`eof, this`start, this`reports
      ensures Valid() && (r.Some? ==> |Rest()| < |old(Rest())|)
      ensures old(Awaits(record, true, tail, cut)) ==> reports == old(reports)
      ensures old(Awaits(record, true, tail, cut)) && cut >= |Fragments(crc, old(Off()), record, true)| ==>
                && r == Some(record) && Off() == EndOffset(old(Off()), |record|)
                && Rest() == tail[..cut - |Fragments(crc, old(Off()), record, true)|]
      ensures old(Awaits(record, true, tail, cut)) && cut < |Fragments(crc, old(Off()), record, true)| ==>
              r == None && AtEnd()
    {
      var scratch: Bytes := [];
      var inFragmentedRecord := false;
      ghost var awaits := Awaits(record, true, tail, cut);
      ghost var job := Job(record, tail, cut, |Fragments(crc, Off(), record, true)|, EndOffset(Off(), |record|));
      ghost var left := record;
      ghost var now: nat := cut;
      while true
        invariant Valid() && |Rest()| <= |old(Rest())|
        invariant awaits ==> reports == old(reports) && Midway(job, scratch, inFragmentedRecord, left, now)
        decreases |Rest()|
      {
        var t, done;
        t, done, scratch, inFragmentedRecord, left, now := NextStep(job, scratch, inFragmentedRecord, left, now);
        if t == EOF {
          return None;
        } else if done.Some? {
          return done;
        }
      }
    }

    ghost predicate Midway(job: Job, scratch: Bytes, inFragmentedRecord: bool, left: Bytes, now: nat)
      requires Valid()
      reads this
    {
      MidwayAt(crc, Off(), Rest(), job, scratch, inFragmentedRecord, left, now)
    }

    /**
     The outcome of one turn of the loop: the file ends within the record, the record is complete,
     or more is to come.
     */
    ghost predicate Stepped(job: Job, t: nat, done: Option<Bytes>, scratch: Bytes, inFragmentedRecord: bool,
                            left: Bytes, now: nat)
      requires Valid()
      reads this
    {
      if t == EOF then job.cut < job.size && AtEnd()
      else if done.Some? then
        done == Some(job.record) && job.size <= job.cut <= job.size + |job.tail| && Off() == job.end
            && Rest() == job.tail[..job.cut - job.size]
      else Midway(job, scratch, inFragmentedRecord, left, now)
    }

    /** One turn of the loop. */
    method NextStep(ghost job: Job, scratch: Bytes, inFragmentedRecord: bool, ghost left: Bytes, ghost now: nat)
      returns (t: nat, done: Option<Bytes>, scratch': Bytes, inFragmentedRecord': bool, ghost left': Bytes,
              ghost now': nat)
      requires Valid()
      modifies this`pos, this`buffer, this`eof, this`start, this`reports
      ensures Valid() && (t != EOF ==> |Rest()| < |old(Rest())|)
      ensures old(Midway(job, scratch, inFragmentedRecord, left, now)) ==>
                reports == old(reports) && Stepped(job, t, done, scratch', inFragmentedRecord', left', now')
    {
      ghost var chunk := |Chunk(crc, Off(), left, !inFragmentedRecord)|;
      done, scratch', inFragmentedRecord', left', now' := None, scratch, inFragmentedRecord, left, now;
      var fragment;
      t, fragment := ReadStep(job, scratch, inFragmentedRecord, left, now);
      if t != EOF {
        done, scratch', inFragmentedRecord' := Assemble(t, fragment, scratch, inFragmentedRecord);
        if |fragment| <= |left| && chunk <= now {
          left', now' := left[|fragment|..], now - chunk;
        }
      }
    }

    /** What a fragment means for the record being read. */
    ghost predicate Advanced(job: Job, t: nat, fragment: Bytes, scratch: Bytes, inFragmentedRecord: bool, left: Bytes,
                             now: int)
      requires Valid()
      reads this
    {
      && (inFragmentedRecord || scratch == [])
      && t == TypeOf(!inFragmentedRecord, fragment == left) as nat
      && 0 <= now && |fragment| <= |left|
      && if fragment == left then
           scratch + fragment == job.record && job.size <= job.cut <= job.size + |job.tail| && Off() == job.end
           && Rest() == job.tail[..job.cut - job.size]
         else Midway(job, scratch + fragment, true, left[|fragment|..], now)
    }

    method ReadStep(ghost job: Job, ghost scratch: Bytes, ghost inFragmentedRecord: bool, ghost left: Bytes,
                    ghost now: nat)
      returns (t: nat, fragment: Bytes)
      requires Valid()
      modifies this`pos, this`buffer, this`eof, this`start, this`reports
      ensures Valid() && (t != EOF ==> |Rest()| < |old(Rest())|)
      ensures old(Midway(job, scratch, inFragmentedRecord, left, now)) ==>
                && reports == old(reports)
                && if t == EOF then job.cut < job.size && AtEnd()
                   else Advanced(job, t, fragment, scratch, inFragmentedRecord, left,
                                 now - |Chunk(crc, old(Off()), left, !inFragmentedRecord)|)
    {
      ghost var off, rest := Off(), Rest();
      ghost var midway := Midway(job, scratch, inFragmentedRecord, left, now);
      if midway {
        ReassemblingStep(crc, job.record, job.size, job.end, job.cut, scratch, !inFragmentedRecord, off, left, now);
      }
      t, fragment := ReadFragment(left, !inFragmentedRecord, job.tail, now);
      if midway && t != EOF {
        StepOutcome(crc, off, rest, job, scratch, inFragmentedRecord, left, now, fragment, Off(), Rest());
        WholeFragment(left, Fits(off, |left|), fragment);
      }
    }
  }

  // ----- Whole logs -----

  lemma FullBlockIsComplete(crc: Bytes -> uint32, records: seq<Bytes>, cut: nat)
    ensures Complete(crc, BLOCK_SIZE, records, cut) == Complete(crc, 0, records, cut)
  {
    if records != [] {
      SameStartSameFragments(crc, BLOCK_SIZE, 0, records[0]);
    }
  }

  lemma CompleteStep(crc: Bytes -> uint32, off: Offset, rest: seq<Bytes>, left: nat, read: seq<Bytes>)
    ensures rest == [] || left < |Fragments(crc, off, rest[0], true)| ==> read + Complete(crc, off, rest, left) == read
    ensures rest != [] && left >= |Fragments(crc, off, rest[0], true)| ==>
              read + Complete(crc, off, rest, left) ==
              (read + [rest[0]]) +
                  Complete(crc, EndOffset(off, |rest[0]|), rest[1..], left - |Fragments(crc, off, rest[0], true)|)
  {
  }

  method WriteLog(crc: Bytes -> uint32, records: seq<Bytes>) returns (file: Bytes)
    ensures file == Log(crc, 0, records)
  {
    var writer := new Writer(crc, []);
    for i := 0 to |records|
      invariant writer.crc == crc && fresh(writer)
      invariant writer.dest == Log(crc, 0, records[..i]) && writer.blockOffset == LogEnd(0, records[..i])
    {
      assert records[..i+1] == records[..i] + [records[i]];
      LogAppend(crc, 0, records[..i], [records[i]]);
      LogEndAppend(0, records[..i], records[i]);
      OneRecordLog(crc, writer.blockOffset, records[i]);
      writer.AddRecord(records[i]);
    }
    assert records[..|records|] == records;
    file := writer.dest;
  }

  lemma OneRecordLog(crc: Bytes -> uint32, off: Offset, record: Bytes)
    ensures Log(crc, off, [record]) == Fragments(crc, off, record, true)
  {
    assert Fragments(crc, off, record, true) + [] == Fragments(crc, off, record, true);
  }

  lemma {:induction false} LogEndAppend(off: Offset, records: seq<Bytes>, r: Bytes)
    ensures LogEnd(off, records + [r]) == EndOffset(LogEnd(off, records), |r|)
    decreases |records|
  {
    if records != [] {
      LogEndAppend(EndOffset(off, |records[0]|), records[1..], r);
      assert (records + [r])[1..] == records[1..] + [r];
    }
  }

  /** Reads a whole file: of a log cut off anywhere, the records before the cut, and no report. */
  method ReadLog(crc: Bytes -> uint32, file: Bytes, ghost records: seq<Bytes>, ghost cut: nat)
    returns (read: seq<Bytes>, reports: seq<nat>)
    ensures cut <= |Log(crc, 0, records)| && file == Log(crc, 0, records)[..cut] ==>
              read == Complete(crc, 0, records, cut) && reports == []
  {
    var reader := new Reader(crc, file);
    read := [];
    ghost var isLog := cut <= |Log(crc, 0, records)| && file == Log(crc, 0, records)[..cut];
    ghost var rest := records;
    ghost var left: nat := cut;
    FullBlockIsNewBlock(crc, records);
    FullBlockIsComplete(crc, records, cut);
    var going := true;
    while going
      invariant reader.Valid() && reader.crc == crc && fresh(reader)
      invariant isLog ==> reader.reports == []
      invariant isLog && going ==> reader.Follows(rest, left)
      invariant isLog && going ==> read + Complete(crc, reader.Off(), rest, left) == Complete(crc, 0, records, cut)
      invariant isLog && !going ==> read == Complete(crc, 0, records, cut)
      decreases going, |reader.Rest()|
    {
      ghost var off := reader.Off();
      CompleteStep(crc, off, rest, left, read);
      var r := reader.ReadRecord(rest, left);
      if r.None? {
        going := false;
      } else {
        read := read + [r.value];
        if isLog {
          rest, left := rest[1..], left - |Fragments(crc, off, rest[0], true)|;
        }
      }
    }
    reports := reader.reports;
  }

  /** Nothing is lost of a log that is not cut. */
  method ReadBack(crc: Bytes -> uint32, records: seq<Bytes>) returns (read: seq<Bytes>, reports: seq<nat>)
    ensures read == records && reports == []
  {
    var file := WriteLog(crc, records);
    assert file == file[..|file|];
    AllComplete(crc, 0, records);
    read, reports := ReadLog(crc, file, records, |file|);
  }
}
