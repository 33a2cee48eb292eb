/**
 The write-ahead log as a file: the batches of the groups are appended to it, and after a
 crash that cuts it off anywhere RecoverLogFile gives back the numbered operations of the
 whole batches before the cut, which are what the memtable had of them.
 */
module LogFiles {
  import opened Wrappers
  import opened Comparator
  import opened Codings
  import opened WriteBatches
  import opened GroupCommits
  import opened Logs
  import opened LogReaders

  /** Each record is the batch of a group. */
  ghost predicate AreBatches(log: seq<LogRecord>, records: seq<Bytes>) {
    |log| == |records| && forall i {:trigger IsRecord(log[i], records[i])} | 0 <= i < |log| ::
        IsRecord(log[i], records[i])
  }

  ghost predicate IsRecord(r: LogRecord, record: Bytes) {
    r.first < TWO_TO_64 && IsBatch(record, r.first, r.ops)
  }

  // ----- Writing -----

  /** The log that writers append to. */
  class LogFile {
    const writer: Logs.Writer
    ghost var log: seq<LogRecord>
    ghost var records: seq<Bytes>

    ghost predicate Valid()
      reads this, writer
    {
      && writer.dest == Log(writer.crc, 0, records) && writer.blockOffset == LogEnd(0, records)
      && AreBatches(log, records)
    }

    constructor (crc: Bytes -> uint32)
      ensures Valid() && fresh(writer) && writer.crc == crc && log == []
    {
      writer := new Logs.Writer(crc, []);
      log, records := [], [];
    }

    /** The leader of a group appends the group's batch. */
    method Append(batch: WriteBatch, ghost s: uint64, ghost ops: seq<Op>)
      requires Valid() && batch.Holds(s, ops)
      modifies this, writer
      ensures Valid() && log == old(log) + [LogRecord(s, ops)]
    {
      ghost var record := batch.rep;
      assert IsRecord(LogRecord(s, ops), record);
      LogAppend(writer.crc, 0, records, [record]);
      LogEndAppend(0, records, record);
      OneRecordLog(writer.crc, writer.blockOffset, record);
      writer.AddRecord(batch.rep);
      OneMoreBatch(log, records, LogRecord(s, ops), record);
      log, records := log + [LogRecord(s, ops)], records + [record];
    }
  }

  lemma OneMoreBatch(log: seq<LogRecord>, records: seq<Bytes>, r: LogRecord, record: Bytes)
    requires AreBatches(log, records) && IsRecord(r, record)
    ensures AreBatches(log + [r], records + [record])
  {
    var log', records' := log + [r], records + [record];
    forall i | 0 <= i < |log'|
      ensures IsRecord(log'[i], records'[i])
    {
      assert i < |log| ==> IsRecord(log[i], records[i]);
    }
  }

  // ----- Reading -----

  /** InsertInto: the operations of a batch, numbered from its sequence number on. */
  method InsertInto(record: Bytes) returns (status: WriteBatches.Status, found: seq<Numbered>, last: int)
    requires |record| >= WriteBatches.HEADER_SIZE
    ensures forall r: LogRecord {:trigger IsRecord(r, record)} | IsRecord(r, record) ::
              status == Ok && found == NumberedFrom(r.first, r.ops) && last == r.first + |r.ops| - 1
  {
    var batch := new WriteBatch();
    batch.rep := record;
    var ops;
    status, ops := batch.Iterate();
    found := NumberedFrom(batch.Sequence(), ops);
    last := batch.Sequence() + batch.Count() - 1;
    forall r: LogRecord | IsRecord(r, record)
      ensures status == Ok && found == NumberedFrom(r.first, r.ops) && last == r.first + |r.ops| - 1
    {
      assert batch.Holds(r.first, r.ops);
      HeaderParts(record, r.first, r.ops);
    }
  }

  /**
   RecoverLogFile: too small records are passed over, and so is the rest of a bad batch
   unless checks are paranoid.
   */
  method RecoverLogFile(crc: Bytes -> uint32, file: Bytes, start: int, paranoid: bool,
                        ghost log: seq<LogRecord>, ghost records: seq<Bytes>, ghost cut: nat)
    returns (ok: bool, mem: seq<Numbered>, max: int)
    requires AreBatches(log, records) && cut <= |Log(crc, 0, records)| && file == Log(crc, 0, records)[..cut]
    ensures var k := |Complete(crc, 0, records, cut)|;
            && k <= |log| && ok && mem == LogEntries(log[..k])
            && start <= max && (forall i | 0 <= i < k :: log[i].first + |log[i].ops| - 1 <= max)
            && (max == start || exists i :: 0 <= i < k && max == log[i].first + |log[i].ops| - 1)
  {
    var read, reports := ReadLog(crc, file, records, cut);
    CompleteIsPrefix(crc, 0, records, cut);
    assert AreBatches(log[..|read|], read) by {
      forall i | 0 <= i < |read|
        ensures IsRecord(log[..|read|][i], read[i])
      {
        assert IsRecord(log[i], records[i]);
      }
    }
    ok, mem, max := ReplayRecords(read, start, paranoid, log[..|read|]);
    assert forall i | 0 <= i < |read| :: log[..|read|][i] == log[i];
  }

  /** The loop over the records read. */
  method ReplayRecords(read: seq<Bytes>, start: int, paranoid: bool, ghost log: seq<LogRecord>)
    returns (ok: bool, mem: seq<Numbered>, max: int)
    requires AreBatches(log, read)
    ensures ok && IsReplay(log, start, mem, max)
  {
    ok, mem, max := true, [], start;
    var i := 0;
    while i < |read| && ok
      invariant 0 <= i <= |read| && ok && IsReplay(log[..i], start, mem, max)
    {
      assert IsRecord(log[i], read[i]);
      ReplayMore(log, i, start, mem, max);
      ok, mem, max := ReplayRecord(read[i], mem, max, paranoid, log[i]);
      i := i + 1;
    }
    assert log[..i] == log;
  }

  ghost predicate IsReplay(log: seq<LogRecord>, start: int, mem: seq<Numbered>, max: int) {
    mem == LogEntries(log) && IsLargest(log, start, max)
  }

  lemma ReplayMore(log: seq<LogRecord>, i: nat, start: int, mem: seq<Numbered>, max: int)
    requires i < |log| && IsReplay(log[..i], start, mem, max)
    ensures var r := log[i];
            var last := r.first + |r.ops| - 1;
            IsReplay(log[..i+1], start, mem + NumberedFrom(r.first, r.ops), if last > max then last else max)
  {
    LargestMore(log[..i], start, max, log[i]);
    assert log[..i+1] == log[..i] + [log[i]] && log[..i+1][..i] == log[..i];
  }

  /** max is the larger of start and the last sequence numbers of the records. */
  ghost predicate IsLargest(log: seq<LogRecord>, start: int, max: int) {
    && start <= max && (forall i | 0 <= i < |log| :: log[i].first + |log[i].ops| - 1 <= max)
    && (max == start || exists i :: 0 <= i < |log| && max == log[i].first + |log[i].ops| - 1)
  }

  lemma LargestMore(log: seq<LogRecord>, start: int, max: int, r: LogRecord)
    requires IsLargest(log, start, max)
    ensures var last := r.first + |r.ops| - 1;
            IsLargest(log + [r], start, if last > max then last else max)
  {
    assert (log + [r])[|log|] == r && forall i | 0 <= i < |log| :: (log + [r])[i] == log[i];
  }

  /** One record of the log. */
  method ReplayRecord(record: Bytes, mem: seq<Numbered>, max: int, paranoid: bool, ghost r: LogRecord)
    returns (ok: bool, mem': seq<Numbered>, max': int)
    requires IsRecord(r, record)
    ensures ok && mem' == mem + NumberedFrom(r.first, r.ops)
    ensures var last := r.first + |r.ops| - 1;
            max' == if last > max then last else max
  {
    ok, mem', max' := true, mem, max;
    HeaderParts(record, r.first, r.ops);
    if |record| >= WriteBatches.HEADER_SIZE {
      var status, found, last := InsertInto(record);
      mem' := mem + found;
      ok := status == Ok || !paranoid;
      if last > max {
        max' := last;
      }
    }
  }

  /** A log cut off by a crash: what comes back are the operations of its whole batches, and their largest number. */
  method RecoverCut(l: LogFile, cut: nat, start: int, paranoid: bool)
    returns (ok: bool, mem: seq<Numbered>, max: int)
    requires l.Valid() && cut <= |l.writer.dest|
    ensures var k := |Complete(l.writer.crc, 0, l.records, cut)|;
            && k <= |l.log| && ok && mem == LogEntries(l.log[..k])
            && start <= max && (forall i | 0 <= i < k :: l.log[i].first + |l.log[i].ops| - 1 <= max)
            && (max == start || exists i :: 0 <= i < k && max == l.log[i].first + |l.log[i].ops| - 1)
  {
    ok, mem, max := RecoverLogFile(l.writer.crc, l.writer.dest[..cut], start, paranoid, l.log, l.records, cut);
  }
}
