/**
 The manifest as a file: the edits that LogAndApply stamps with the counters and appends
 to a log, and the recovery that reads them back.  However much of the file a crash cuts
 off, recovery gives the whole edits before the cut and the counters as of the last one.
 */
module Manifests {
  import opened Wrappers
  import opened Comparator
  import opened Codings
  import opened VersionEdits
  import opened Logs
  import opened LogReaders

  datatype Counters = Counters(logNumber: uint64, prevLogNumber: uint64, nextFile: uint64, lastSequence: uint64)

  datatype Outcome =
    | Recovered(edits: seq<Contents>, counters: Counters)
    | BadRecord(status: Status)
    | WrongComparator
    | NoNextFile
    | NoLogNumber
    | NoLastSequence
    | CorruptLog

  const NO_FIELDS := Contents(None, None, None, None, None, [], {}, [])

  // ----- Writing -----

  ghost predicate AreEncodings(edits: seq<Contents>, records: seq<Bytes>) {
    |edits| == |records| && forall i | 0 <= i < |edits| :: IsEncoding(edits[i], records[i])
  }

  /** An edit as an object, to be encoded. */
  method NewEdit(c: Contents) returns (e: VersionEdit)
    ensures fresh(e) && e.Value() == c
  {
    e := new VersionEdit();
    e.comparator, e.logNumber, e.prevLogNumber := c.comparator, c.logNumber, c.prevLogNumber;
    e.nextFileNumber, e.lastSequence := c.nextFileNumber, c.lastSequence;
    e.compactPointers, e.deletedFiles, e.newFiles := c.compactPointers, c.deletedFiles, c.newFiles;
  }

  /** The open manifest. */
  class Descriptor {
    const writer: Writer
    ghost var edits: seq<Contents>
    ghost var records: seq<Bytes>

    ghost predicate Valid()
      reads this, writer
    {
      && writer.dest == Log(writer.crc, 0, records) && writer.blockOffset == LogEnd(0, records)
      && AreEncodings(edits, records)
    }

    /** A new manifest starts with a snapshot of the version, or of nothing. */
    constructor (crc: Bytes -> uint32, first: Contents)
      ensures Valid() && fresh(writer) && writer.crc == crc && edits == [first]
    {
      writer := new Writer(crc, []);
      edits, records := [], [];
      new;
      Append(first);
    }

    method Append(e: Contents)
      requires Valid()
      modifies this, writer
      ensures Valid() && edits == old(edits) + [e]
    {
      var edit := NewEdit(e);
      var record := edit.EncodeTo([]);
      assert record[0..] == record;
      LogAppend(writer.crc, 0, records, [record]);
      LogEndAppend(0, records, record);
      OneRecordLog(writer.crc, writer.blockOffset, record);
      writer.AddRecord(record);
      edits, records := edits + [e], records + [record];
    }

    /** The edit is written with its own log numbers, or the current ones, and the other counters of the moment. */
    method LogAndApply(e: Contents, c: Counters)
      requires Valid()
      modifies this, writer
      ensures Valid() && |edits| == |old(edits)| + 1 && edits[..|old(edits)|] == old(edits)
      ensures var a := edits[|edits|-1];
              && a.nextFileNumber == Some(c.nextFile) && a.lastSequence == Some(c.lastSequence)
              && (a.logNumber == if e.logNumber.Some? then e.logNumber else Some(c.logNumber))
              && (a.prevLogNumber == if e.prevLogNumber.Some? then e.prevLogNumber else Some(c.prevLogNumber))
              && a.comparator == e.comparator && a.compactPointers == e.compactPointers
              && a.deletedFiles == e.deletedFiles && a.newFiles == e.newFiles
    {
      var a := e;
      if a.logNumber.None? {
        a := a.(logNumber := Some(c.logNumber));
      }
      if a.prevLogNumber.None? {
        a := a.(prevLogNumber := Some(c.prevLogNumber));
      }
      a := a.(nextFileNumber := Some(c.nextFile));
      a := a.(lastSequence := Some(c.lastSequence));
      Append(a);
    }
  }

  // ----- Reading -----

  /** The value of a field in the last of the edits that has it. */
  function LastSet(edits: seq<Contents>, field: Contents -> Option<uint64>): Option<uint64> {
    if edits == [] then None
    else if field(edits[|edits|-1]).Some? then field(edits[|edits|-1])
    else LastSet(edits[..|edits|-1], field)
  }

  const NEXT_FILE: Contents -> Option<uint64> := (c: Contents) => c.nextFileNumber
  const LOG_NUMBER: Contents -> Option<uint64> := (c: Contents) => c.logNumber
  const PREV_LOG_NUMBER: Contents -> Option<uint64> := (c: Contents) => c.prevLogNumber
  const LAST_SEQUENCE: Contents -> Option<uint64> := (c: Contents) => c.lastSequence

  predicate ComparatorOk(e: Contents, name: Bytes) {
    e.comparator.Some? ==> e.comparator.value == name
  }

  /** What recovery should give for a list of edits. */
  function Expected(edits: seq<Contents>, name: Bytes): Outcome {
    if exists i :: 0 <= i < |edits| && !ComparatorOk(edits[i], name) then WrongComparator
    else if LastSet(edits, NEXT_FILE).None? then NoNextFile
    else if LastSet(edits, LOG_NUMBER).None? then NoLogNumber
    else if LastSet(edits, LAST_SEQUENCE).None? then NoLastSequence
    else
      var prev := LastSet(edits, PREV_LOG_NUMBER);
      Recovered(edits, Counters(LastSet(edits, LOG_NUMBER).value, if prev.Some? then prev.value else 0,
                                LastSet(edits, NEXT_FILE).value, LastSet(edits, LAST_SEQUENCE).value))
  }

  /** The value of a field in the last of the edits that has it, at position i. */
  ghost predicate IsLastSet(edits: seq<Contents>, field: Contents -> Option<uint64>, i: nat, value: uint64) {
    i < |edits| && field(edits[i]) == Some(value) && forall j | i < j < |edits| :: field(edits[j]).None?
  }

  lemma {:induction false} LastSetMeans(edits: seq<Contents>, field: Contents -> Option<uint64>)
    ensures LastSet(edits, field).None? <==> forall i | 0 <= i < |edits| :: field(edits[i]).None?
    ensures LastSet(edits, field).Some? ==> exists i :: IsLastSet(edits, field, i, LastSet(edits, field).value)
  {
    if edits != [] {
      var n := |edits| - 1;
      LastSetMeans(edits[..n], field);
      if field(edits[n]).Some? {
        assert IsLastSet(edits, field, n, field(edits[n]).value);
      } else if LastSet(edits[..n], field).Some? {
        var i :| IsLastSet(edits[..n], field, i, LastSet(edits[..n], field).value);
        assert IsLastSet(edits, field, i, LastSet(edits, field).value);
      }
    }
  }

  /** The errors of recovery, in the order of the source, and the counters it goes on with. */
  lemma ExpectedMeans(edits: seq<Contents>, name: Bytes)
    ensures var r := Expected(edits, name);
            if exists i :: 0 <= i < |edits| && edits[i].comparator.Some? && edits[i].comparator.value != name then
              r == WrongComparator
            else if forall i | 0 <= i < |edits| :: edits[i].nextFileNumber.None? then r == NoNextFile
            else if forall i | 0 <= i < |edits| :: edits[i].logNumber.None? then r == NoLogNumber
            else if forall i | 0 <= i < |edits| :: edits[i].lastSequence.None? then r == NoLastSequence
            else
              && r.Recovered? && r.edits == edits
              && (exists i :: IsLastSet(edits, NEXT_FILE, i, r.counters.nextFile))
              && (exists i :: IsLastSet(edits, LOG_NUMBER, i, r.counters.logNumber))
              && (exists i :: IsLastSet(edits, LAST_SEQUENCE, i, r.counters.lastSequence))
              && if forall i | 0 <= i < |edits| :: edits[i].prevLogNumber.None? then r.counters.prevLogNumber == 0
                 else exists i :: IsLastSet(edits, PREV_LOG_NUMBER, i, r.counters.prevLogNumber)
  {
    LastSetMeans(edits, NEXT_FILE);
    LastSetMeans(edits, LOG_NUMBER);
    LastSetMeans(edits, PREV_LOG_NUMBER);
    LastSetMeans(edits, LAST_SEQUENCE);
  }

  lemma LastSetMore(edits: seq<Contents>, e: Contents, field: Contents -> Option<uint64>)
    ensures LastSet(edits + [e], field) == if field(e).Some? then field(e) else LastSet(edits, field)
  {
    assert (edits + [e])[..|edits|] == edits;
  }

  /** What the loop of Recover has seen: the newest value of each counter. */
  datatype Seen = Seen(logNumber: Option<uint64>, prevLogNumber: Option<uint64>, nextFile: Option<uint64>,
                       lastSequence: Option<uint64>)

  predicate IsSeen(edits: seq<Contents>, seen: Seen) {
    && seen.logNumber == LastSet(edits, LOG_NUMBER) && seen.prevLogNumber == LastSet(edits, PREV_LOG_NUMBER)
    && seen.nextFile == LastSet(edits, NEXT_FILE) && seen.lastSequence == LastSet(edits, LAST_SEQUENCE)
  }

  /** One edit further. */
  method See(seen: Seen, e: Contents, ghost edits: seq<Contents>) returns (seen': Seen)
    requires IsSeen(edits, seen)
    ensures IsSeen(edits + [e], seen')
  {
    LastSetMore(edits, e, LOG_NUMBER);
    LastSetMore(edits, e, PREV_LOG_NUMBER);
    LastSetMore(edits, e, NEXT_FILE);
    LastSetMore(edits, e, LAST_SEQUENCE);
    seen' := seen;
    if e.logNumber.Some? {
      seen' := seen'.(logNumber := e.logNumber);
    }
    if e.prevLogNumber.Some? {
      seen' := seen'.(prevLogNumber := e.prevLogNumber);
    }
    if e.nextFileNumber.Some? {
      seen' := seen'.(nextFile := e.nextFileNumber);
    }
    if e.lastSequence.Some? {
      seen' := seen'.(lastSequence := e.lastSequence);
    }
  }

  /** The checks after the loop. */
  method Conclude(seen: Seen, edits: seq<Contents>, name: Bytes) returns (r: Outcome)
    requires IsSeen(edits, seen) && forall i | 0 <= i < |edits| :: ComparatorOk(edits[i], name)
    ensures r == Expected(edits, name) && (r.Recovered? ==> r.edits == edits) && !r.BadRecord?
  {
    if seen.nextFile.None? {
      return NoNextFile;
    }
    if seen.logNumber.None? {
      return NoLogNumber;
    }
    if seen.lastSequence.None? {
      return NoLastSequence;
    }
    var prev := if seen.prevLogNumber.Some? then seen.prevLogNumber.value else 0;
    r := Recovered(edits, Counters(seen.logNumber.value, prev, seen.nextFile.value, seen.lastSequence.value));
  }

  /** The outcome of DecodeFrom for a new edit. */
  function ReadsAs(record: Bytes): (Status, Contents) {
    DecodeFields(NO_FIELDS, record)
  }

  method ReadEdit(record: Bytes) returns (status: Status, e: Contents)
    ensures (status, e) == ReadsAs(record)
  {
    var edit := new VersionEdit();
    status := edit.DecodeFrom(record);
    e := edit.Value();
  }

  /** The record does not read as an edit, or names another comparator. */
  predicate Unusable(record: Bytes, name: Bytes) {
    ReadsAs(record).0 != Ok || !ComparatorOk(ReadsAs(record).1, name)
  }

  predicate AllUsable(records: seq<Bytes>, name: Bytes) {
    forall i | 0 <= i < |records| :: !Unusable(records[i], name)
  }

  function EditsOf(records: seq<Bytes>): (edits: seq<Contents>)
    ensures |edits| == |records| && forall i | 0 <= i < |edits| :: edits[i] == ReadsAs(records[i]).1
  {
    seq(|records|, i requires 0 <= i < |records| => ReadsAs(records[i]).1)
  }

  /** Record i is the first that cannot be used, and r says why: it does not decode, or names another comparator. */
  ghost predicate FailsAt(records: seq<Bytes>, name: Bytes, i: nat, r: Outcome) {
    && i < |records| && AllUsable(records[..i], name) && Unusable(records[i], name)
    && r == if ReadsAs(records[i]).0 != Ok then BadRecord(ReadsAs(records[i]).0) else WrongComparator
  }

  /** The record as an edit, or why it cannot be used. */
  method ReadUsable(record: Bytes, name: Bytes) returns (failure: Option<Outcome>, e: Contents)
    ensures e == ReadsAs(record).1 && (failure.None? <==> !Unusable(record, name))
    ensures failure.Some? ==>
              failure.value == if ReadsAs(record).0 != Ok then BadRecord(ReadsAs(record).0) else WrongComparator
  {
    var status;
    status, e := ReadEdit(record);
    failure := None;
    if status != Ok {
      failure := Some(BadRecord(status));
    } else if e.comparator.Some? && e.comparator.value != name {
      failure := Some(WrongComparator);
    }
  }

  lemma OneMoreUsable(records: seq<Bytes>, name: Bytes, i: nat)
    requires i < |records| && AllUsable(records[..i], name) && !Unusable(records[i], name)
    ensures AllUsable(records[..i+1], name)
    ensures EditsOf(records[..i+1]) == EditsOf(records[..i]) + [ReadsAs(records[i]).1]
  {
    assert records[..i+1] == records[..i] + [records[i]];
  }

  /** The loop of Recover. */
  method ReadEdits(records: seq<Bytes>, name: Bytes)
    returns (failure: Option<Outcome>, edits: seq<Contents>, seen: Seen)
    ensures failure.None? ==> AllUsable(records, name) && edits == EditsOf(records) && IsSeen(edits, seen)
    ensures failure.Some? ==> exists i :: FailsAt(records, name, i, failure.value)
  {
    failure, edits, seen := None, [], Seen(None, None, None, None);
    for i := 0 to |records|
      invariant AllUsable(records[..i], name) && edits == EditsOf(records[..i]) && IsSeen(edits, seen)
    {
      var why, e := ReadUsable(records[i], name);
      if why.Some? {
        assert FailsAt(records, name, i, why.value);
        return why, edits, seen;
      }
      OneMoreUsable(records, name, i);
      seen := See(seen, e, edits);
      edits := edits + [e];
    }
    assert records[..|records|] == records;
  }

  /** VersionSet::Recover; corrupt says that the log reader reported something. */
  method Recover(records: seq<Bytes>, corrupt: bool, name: Bytes) returns (r: Outcome)
    ensures !AllUsable(records, name) ==> exists i :: FailsAt(records, name, i, r)
    ensures AllUsable(records, name) && corrupt ==> r == CorruptLog
    ensures AllUsable(records, name) && !corrupt ==> r == Expected(EditsOf(records), name)
  {
    var failure, edits, seen := ReadEdits(records, name);
    if failure.Some? {
      return failure.value;
    }
    if corrupt {
      return CorruptLog;
    }
    r := Conclude(seen, edits, name);
  }

  // ----- Both -----

  /** What is written of edits that can be written is read back. */
  lemma EncodingsAreRead(edits: seq<Contents>, records: seq<Bytes>)
    requires AreEncodings(edits, records)
    requires forall i | 0 <= i < |edits| :: Writable(edits[i]) && LevelsOk(edits[i])
    ensures EditsOf(records) == edits && forall i | 0 <= i < |records| :: ReadsAs(records[i]).0 == Ok
  {
    forall i | 0 <= i < |records|
      ensures ReadsAs(records[i]) == (Ok, edits[i])
    {
      RoundTripIff(NO_FIELDS, edits[i], records[i]);
    }
  }

  /**
   A manifest cut off anywhere: its k whole records are recovered as their edits say, and
   nothing else is.
   */
  method RecoverCut(d: Descriptor, cut: nat, name: Bytes) returns (r: Outcome, ghost k: nat)
    requires d.Valid() && cut <= |d.writer.dest|
    requires forall i | 0 <= i < |d.edits| :: Writable(d.edits[i]) && LevelsOk(d.edits[i])
    ensures k == |Complete(d.writer.crc, 0, d.records, cut)| <= |d.edits|
    ensures r == Expected(d.edits[..k], name)
  {
    var read, reports := ReadLog(d.writer.crc, d.writer.dest[..cut], d.records, cut);
    CompleteIsPrefix(d.writer.crc, 0, d.records, cut);
    k := |read|;
    assert AreEncodings(d.edits[..k], read);
    EncodingsAreRead(d.edits[..k], read);
    r := Recover(read, reports != [], name);
  }

  // ----- Stamped edits -----

  ghost predicate IsStamped(e: Contents) {
    e.logNumber.Some? && e.prevLogNumber.Some? && e.nextFileNumber.Some? && e.lastSequence.Some?
  }

  function CountersOf(e: Contents): Counters
    requires IsStamped(e)
  {
    Counters(e.logNumber.value, e.prevLogNumber.value, e.nextFileNumber.value, e.lastSequence.value)
  }

  /**
   The manifest of an open database has a snapshot, without counters, and what LogAndApply
   wrote.  Recovery succeeds exactly when the record after the snapshot is whole, and then
   goes on with the counters as of the last whole record.
   */
  lemma StampedRecovers(edits: seq<Contents>, name: Bytes)
    requires edits != [] && edits[0].nextFileNumber == None
    requires forall i | 1 <= i < |edits| :: IsStamped(edits[i])
    requires forall i | 0 <= i < |edits| :: ComparatorOk(edits[i], name)
    ensures Expected(edits, name) ==
            if |edits| == 1 then NoNextFile else Recovered(edits, CountersOf(edits[|edits|-1]))
  {
    if |edits| == 1 {
      LastSetMore([], edits[0], NEXT_FILE);
      assert [] + [edits[0]] == edits;
    } else {
      LastIsSet(edits, NEXT_FILE);
      LastIsSet(edits, LOG_NUMBER);
      LastIsSet(edits, PREV_LOG_NUMBER);
      LastIsSet(edits, LAST_SEQUENCE);
    }
  }

  lemma LastIsSet(edits: seq<Contents>, field: Contents -> Option<uint64>)
    requires edits != [] && field(edits[|edits|-1]).Some?
    ensures LastSet(edits, field) == field(edits[|edits|-1])
  {
  }

  lemma CutRecovers(edits: seq<Contents>, k: nat, name: Bytes)
    requires k <= |edits| && edits != [] && edits[0].nextFileNumber == None
    requires forall i | 1 <= i < |edits| :: IsStamped(edits[i])
    requires forall i | 0 <= i < |edits| :: ComparatorOk(edits[i], name)
    ensures Expected(edits[..k], name) == if k < 2 then NoNextFile else Recovered(edits[..k], CountersOf(edits[k-1]))
  {
    if k > 0 {
      StampedRecovers(edits[..k], name);
    }
  }

  /** What the manifest of an open database with this comparator lists. */
  ghost predicate IsManifest(edits: seq<Contents>, name: Bytes) {
    && edits != [] && edits[0].nextFileNumber == None
    && (forall i | 1 <= i < |edits| :: IsStamped(edits[i]))
    && (forall i | 0 <= i < |edits| :: ComparatorOk(edits[i], name))
    && forall i | 0 <= i < |edits| :: Writable(edits[i]) && LevelsOk(edits[i])
  }

  /** So a crash that cuts the manifest anywhere takes the database back to a whole record, or leaves none to open. */
  method RecoverManifest(d: Descriptor, cut: nat, name: Bytes) returns (r: Outcome, ghost k: nat)
    requires d.Valid() && cut <= |d.writer.dest| && IsManifest(d.edits, name)
    ensures k == |Complete(d.writer.crc, 0, d.records, cut)| <= |d.edits|
    ensures r == if k < 2 then NoNextFile else Recovered(d.edits[..k], CountersOf(d.edits[k-1]))
  {
    r, k := RecoverCut(d, cut, name);
    CutRecovers(d.edits, k, name);
  }

  lemma NextManifest(edits: seq<Contents>, edits': seq<Contents>, e: Contents, name: Bytes)
    requires IsManifest(edits, name) && |edits'| == |edits| + 1 && edits'[..|edits|] == edits
    requires ComparatorOk(e, name) && Writable(e) && LevelsOk(e)
    requires var a := edits'[|edits'|-1];
             && IsStamped(a) && a.comparator == e.comparator && a.compactPointers == e.compactPointers
             && a.deletedFiles == e.deletedFiles && a.newFiles == e.newFiles
    ensures IsManifest(edits', name)
  {
    assert edits'[0] == edits[0];
    forall i | 0 <= i < |edits'|
      ensures i > 0 ==> IsStamped(edits'[i])
      ensures ComparatorOk(edits'[i], name) && Writable(edits'[i]) && LevelsOk(edits'[i])
    {
      assert i < |edits| ==> edits'[i] == edits[i];
    }
  }

  /** LogAndApply on the manifest of an open database. */
  method LogNext(d: Descriptor, e: Contents, c: Counters, name: Bytes)
    requires d.Valid() && IsManifest(d.edits, name)
    requires ComparatorOk(e, name) && Writable(e) && LevelsOk(e)
    modifies d, d.writer
    ensures d.Valid() && IsManifest(d.edits, name) && |d.edits| == |old(d.edits)| + 1
    ensures var a := d.edits[|d.edits|-1];
            IsStamped(a) && CountersOf(a) == Counters(if e.logNumber.Some? then e.logNumber.value else c.logNumber,
                                                      if e.prevLogNumber.Some? then e.prevLogNumber.value
                                                      else c.prevLogNumber, c.nextFile, c.lastSequence)
  {
    ghost var edits := d.edits;
    d.LogAndApply(e, c);
    NextManifest(edits, d.edits, e, name);
  }

  /** Recovery from a manifest that is not cut. */
  method RecoverWhole(d: Descriptor, name: Bytes) returns (r: Outcome)
    requires d.Valid() && IsManifest(d.edits, name)
    ensures r == if |d.edits| == 1 then NoNextFile else Recovered(d.edits, CountersOf(d.edits[|d.edits|-1]))
  {
    ghost var k;
    AllComplete(d.writer.crc, 0, d.records);
    r, k := RecoverManifest(d, |d.writer.dest|, name);
    assert d.edits[..k] == d.edits;
  }

  /** Right after LogAndApply recovery goes on with the counters of the moment, and the log numbers of the edit. */
  method LogAndRecover(d: Descriptor, e: Contents, c: Counters, name: Bytes) returns (r: Outcome)
    requires d.Valid() && IsManifest(d.edits, name)
    requires ComparatorOk(e, name) && Writable(e) && LevelsOk(e)
    modifies d, d.writer
    ensures d.Valid() && IsManifest(d.edits, name) && |d.edits| == |old(d.edits)| + 1
    ensures r == Recovered(d.edits, Counters(if e.logNumber.Some? then e.logNumber.value else c.logNumber,
                                             if e.prevLogNumber.Some? then e.prevLogNumber.value else c.prevLogNumber,
                                             c.nextFile, c.lastSequence))
  {
    LogNext(d, e, c, name);
    r := RecoverWhole(d, name);
  }
}
