/**
 An open database: the mutable state of DBImpl and VersionSet, and the operations
 that take it from one state of the store to the next.  Reads answer exactly what
 the history of writes says.  Every operation keeps that, but for the compactions that
 change a read: these go on as the code does, and their contracts say exactly when they
 leave a valid store.
 */
module Databases {
  import opened Wrappers
  import opened Comparator
  import opened Entries
  import opened Versions
  import opened Selection
  import opened Compactions
  import opened Installs
  import opened Builders
  import opened Replay
  import opened Edits
  import opened Preservation
  import opened Stores
  import opened StoreSteps
  import opened Recovery
  import opened CompactionInputs
  import DbIters
  import InternalIterators

  /** One operation of a write batch. */
  datatype Update = Update(user: UserKey, kind: Kind, value: Bytes)

  /** The entries of a batch whose first sequence number follows `last`. */
  function RecordOf(updates: seq<Update>, last: SeqNo): (r: seq<Entry>)
    requires last + |updates| <= MAX_SEQUENCE
    ensures |r| == |updates| && Consecutive(r, last)
  {
    seq(|updates|, i requires 0 <= i < |updates| =>
      Entry(IKey(updates[i].user, last + 1 + i, updates[i].kind), updates[i].value))
  }

  /**
   What writing updates does to reads: a key is then read as its last update says, a key without
   one as before, and nothing changes at the sequence numbers there were.
   */
  ghost predicate IsWritten(h: set<Entry>, last: SeqNo, updates: seq<Update>, h': set<Entry>, last': SeqNo) {
    && (forall i | 0 <= i < |updates| && (forall j | i < j < |updates| :: updates[j].user != updates[i].user) ::
         Lookup(h', updates[i].user, last').Visible() ==
         if updates[i].kind.Value? then Found(updates[i].value) else Miss)
    && (forall k | forall i | 0 <= i < |updates| :: updates[i].user != k :: Lookup(h', k, last') == Lookup(h, k, last))
    && forall k, snap: SeqNo | snap <= last :: Lookup(h', k, snap) == Lookup(h, k, snap)
  }

  lemma WriteReads(h: set<Entry>, last: SeqNo, updates: seq<Update>, h': set<Entry>, last': SeqNo)
    requires Distinct(h) && SeqnosUpTo(h, last) && last' == last + |updates|
    requires h' == h + SetOf(RecordOf(updates, last))
    ensures IsWritten(h, last, updates, h', last')
  {
    var r := RecordOf(updates, last);
    RecordDistinct(h, r, last);
    forall i | 0 <= i < |updates| && (forall j | i < j < |updates| :: updates[j].user != updates[i].user)
      ensures Lookup(h', updates[i].user, last').Visible() ==
              if updates[i].kind.Value? then Found(updates[i].value) else Miss
    {
      LastUpdateRead(h, updates, last, r, i);
    }
    forall k | forall i | 0 <= i < |updates| :: updates[i].user != k
      ensures Lookup(h', k, last') == Lookup(h, k, last)
    {
      ExtendedRead(h, SetOf(r), k, last, last');
      LookupMiss(SetOf(r), k, last');
    }
    forall k, snap: SeqNo | snap <= last
      ensures Lookup(h', k, snap) == Lookup(h, k, snap)
    {
      ReadBelow(h, SetOf(r), k, snap);
    }
  }

  lemma LastUpdateRead(h: set<Entry>, updates: seq<Update>, last: SeqNo, r: seq<Entry>, i: nat)
    requires Distinct(h + SetOf(r)) && SeqnosUpTo(h, last)
    requires last + |updates| <= MAX_SEQUENCE && r == RecordOf(updates, last)
    requires i < |updates| && forall j | i < j < |updates| :: updates[j].user != updates[i].user
    ensures Lookup(h + SetOf(r), updates[i].user, last + |updates|).Visible() ==
            if updates[i].kind.Value? then Found(updates[i].value) else Miss
  {
    assert r[i] in SetOf(r) && r[i].ikey.user == updates[i].user;
    forall o | o in h + SetOf(r) && o.ikey.user == updates[i].user
      ensures o.ikey.seqno <= r[i].ikey.seqno
    {
      if o in SetOf(r) {
        var j :| 0 <= j < |r| && r[j] == o;
      }
    }
    assert IsLatest(h + SetOf(r), updates[i].user, last + |updates|, r[i]);
    LookupLatest(h + SetOf(r), updates[i].user, last + |updates|, r[i]);
  }

  lemma RecordIsFresh(run: seq<Entry>, r: seq<Entry>, last: SeqNo, i: nat)
    requires Consecutive(r, last) && i < |r|
    requires forall e | e in run :: e.ikey.seqno <= last + i
    ensures forall e | e in run :: e.ikey != r[i].ikey
    ensures r[i].ikey.seqno == last + i + 1
  {
  }

  /** InsertInto: each entry of a record goes into the memtable. */
  method InsertAll(mem: seq<Entry>, r: seq<Entry>, ghost last: SeqNo) returns (mem': seq<Entry>)
    requires Sorted(mem) && SeqnosUpTo(SetOf(mem), last) && Consecutive(r, last)
    ensures Sorted(mem') && SetOf(mem') == SetOf(mem) + SetOf(r)
  {
    mem' := mem;
    for i := 0 to |r|
      invariant Sorted(mem') && SetOf(mem') == SetOf(mem) + SetOf(r[..i])
      invariant forall e | e in SetOf(mem') :: e.ikey.seqno <= last + i
    {
      assert forall e | e in mem' :: e in SetOf(mem');
      RecordIsFresh(mem', r, last, i);
      assert r[..i+1] == r[..i] + [r[i]];
      mem' := InsertEntry(mem', r[i]);
    }
    assert r[..|r|] == r;
  }

  // ----- Applying one edit to the current version -----

  /** An edit whose files have numbers that are new to the level they go to. */
  lemma FreshEdit(v: Version, e: Edit, t: LevelNumber, outs: Level)
    requires AddsAt(e, t, outs) && NumbersName(outs)
    requires forall g, h | g in v[t] && h in outs :: g.number != h.number
    ensures FreshHistory(v, [e])
  {
    assert [e][..0] == [];
    assert FreshHistory(v, []);
    forall l: LevelNumber
      ensures FreshAt(v[l], AddedSoFar([], l), AddedAt(e.added, l))
    {
      assert forall f | f in AddedAt(e.added, l) :: l == t && f in outs;
    }
  }

  /** The edit can be applied to the version: no file number is given out twice. */
  ghost predicate Applicable(v: Version, e: Edit) {
    FreshHistory(v, [e]) && forall l: LevelNumber :: Ordered(v[l])
  }

  method NextVersion(v: Version, e: Edit) returns (v': Version)
    requires Applicable(v, e)
    ensures IsVersionAfter(v, [e], v')
  {
    AllInOrder(v);
    v' := ApplyToVersion(v, e);
    assert [e][..0] == [] && [e][..1] == [e];
    forall l: LevelNumber
      ensures Ordered(v'[l]) && forall f :: f in v'[l] <==> HasAfter(v[l], [e], l, f)
    {
      OneEdit(v, [e], 0, v, v', l);
    }
  }

  lemma AllInOrder(v: Version)
    requires forall l: LevelNumber :: Ordered(v[l])
    ensures forall l: LevelNumber :: InOrder(v[l])
  {
  }

  lemma FlushEditApplies(s: Store, level: LevelNumber, f: File)
    requires FilesOk(s) && f.number == s.nextFile
    ensures Applicable(s.current, FlushEdit(level, f))
  {
    DescribedIsOrdered(s.disk.manifest, s.current);
    CurrentBelow(s);
    FlushAddsAt(level, f);
    FreshEdit(s.current, FlushEdit(level, f), level, [f]);
  }

  lemma CompactionEditApplies(s: Store, c: Compaction, outs: Level)
    requires FilesOk(s) && PendingOk(s) && c.level + 1 < NUM_LEVELS && NumbersName(outs) && AreWritten(s, outs)
    ensures Applicable(s.current, CompactionEdit(c, outs))
  {
    DescribedIsOrdered(s.disk.manifest, s.current);
    OutputsDifferFromLevel(s, c.level + 1, outs);
    CompactionAddsAt(c, outs);
    FreshEdit(s.current, CompactionEdit(c, outs), c.level + 1, outs);
  }

  lemma MoveEditApplies(m: Manifest, v: Version, c: Compaction)
    requires Describes(m, v) && c.level + 1 < NUM_LEVELS && |c.inputs0| == 1 && c.inputs0[0] in v[c.level]
    ensures Applicable(v, CompactionEdit(c, c.inputs0))
  {
    DescribedIsOrdered(m, v);
    NextLevelNumbersDiffer(m, v, c.level, c.inputs0[0]);
    CompactionAddsAt(c, c.inputs0);
    FreshEdit(v, CompactionEdit(c, c.inputs0), c.level + 1, c.inputs0);
  }

  lemma OneInput(v: Version, c: Compaction)
    requires Closed(v, c) && |c.inputs0| == 1
    ensures c.inputs0[0] in v[c.level]
  {
  }

  lemma NoEditApplies(s: Store)
    requires FilesOk(s)
    ensures Applicable(s.current, Edit({}, []))
  {
    DescribedIsOrdered(s.disk.manifest, s.current);
    FreshEdit(s.current, Edit({}, []), 0, []);
  }

  // ----- The output files of a compaction -----

  lemma {:induction false} ConcatParts(runs: seq<seq<Entry>>, i: nat)
    requires i < |runs| && Sorted(Concat(runs))
    ensures Sorted(runs[i])
    decreases |runs|
  {
    var n := |runs| - 1;
    var front := Concat(runs[..n]);
    if i < n {
      assert Concat(runs)[..|front|] == front;
      ConcatParts(runs[..n], i);
    } else {
      assert forall j | 0 <= j < |runs[n]| :: Concat(runs)[|front| + j] == runs[n][j];
    }
  }

  /** DoCompactionWork on the merged inputs: a sorted run for each output file. */
  method OutputRuns(v: Version, level: nat, m: seq<Entry>, ss: SeqNo, stopBefore: int -> bool, bigEnough: int -> bool)
    returns (runs: seq<seq<Entry>>)
    requires Sorted(m) && forall l | 1 <= l < NUM_LEVELS :: SortedLevel(v[l])
    ensures Concat(runs) == Written(v, level, m, |m|, ss)
    ensures forall r | r in runs :: r != [] && Sorted(r)
  {
    var cursor := new BaseLevelCursor(v, level);
    runs := DoCompactionWork(cursor, m, ss, seq(|m|, stopBefore), seq(|m|, bigEnough));
    KeptSorted(v, level, m, |m|, ss);
    forall i | 0 <= i < |runs|
      ensures Sorted(runs[i])
    {
      ConcatParts(runs, i);
    }
  }

  method MergedRuns(v: Version, c: Compaction, ss: SeqNo, stopBefore: int -> bool, bigEnough: int -> bool)
    returns (m: seq<Entry>, runs: seq<seq<Entry>>)
    requires Versions.Valid(v) && Closed(v, c) && Orderly(v[c.level], c.level, c.inputs0)
    ensures Merged(m, c) && Concat(runs) == Written(v, c.level, m, |m|, ss)
    ensures forall r | r in runs :: r != [] && Sorted(r)
  {
    m := MergeInputs(v, c);
    runs := OutputRuns(v, c.level, m, ss, stopBefore, bigEnough);
  }

  /** The tables written so far hold the first output runs. */
  ghost predicate HasOutputs(s: Store, outs: Level, runs: seq<seq<Entry>>) {
    && AreWritten(s, outs) && NumbersName(outs) && (forall g | g in outs :: g.number < s.nextFile)
    && Flatten(outs) == Concat(runs)
  }

  lemma NoOutputsYet(s: Store)
    ensures HasOutputs(s, [], [])
  {
  }

  lemma OneMoreOutput(s: Store, s': Store, outs: Level, runs: seq<seq<Entry>>, f: File)
    requires HasOutputs(s, outs, runs) && WriteTable(s, f, s')
    ensures HasOutputs(s', outs + [f], runs + [f.run])
  {
    assert (outs + [f])[..|outs|] == outs && (runs + [f.run])[..|runs|] == runs;
  }

  lemma RecordFits(s: Store)
    requires Inv(s)
    ensures Sorted(s.mem) && SeqnosUpTo(SetOf(s.mem), s.lastSequence)
    ensures Consecutive(s.logged, s.lastSequence) && s.lastSequence + |s.logged| <= MAX_SEQUENCE
  {
    LastLogged(s);
    assert SetOf(s.mem) <= Held(s);
  }

  lemma ValidCurrent(s: Store)
    requires Inv(s)
    ensures Versions.Valid(s.current) && forall l | 1 <= l < NUM_LEVELS :: SortedLevel(s.current[l])
  {
  }

  lemma SortedImm(s: Store)
    requires Inv(s) && s.imm.Some?
    ensures Sorted(s.imm.value) && Versions.Valid(s.current)
  {
  }

  lemma NoEditKeepsVersion(v: Version, v': Version)
    requires IsVersionAfter(v, [Edit({}, [])], v') && Applicable(v, Edit({}, []))
    ensures v' == v
  {
    var e := Edit({}, []);
    forall l: LevelNumber, f
      ensures f in v[l] <==> HasAfter(v[l], [e], l, f)
    {
      AfterOneEdit(v[l], e, l, f);
    }
    VersionAfterUnique(v, [e], v, v');
  }

  lemma HistoryFits(s: Store)
    requires Inv(s) && s.logged == []
    ensures Distinct(s.history) && SeqnosUpTo(s.history, s.lastSequence)
  {
    assert s.history - SetOf(s.logged) == s.history;
  }

  lemma ReadsHistory(s: Store, k: UserKey, snap: SeqNo)
    requires SequencesOk(s) && HistoryOk(s) && (snap == s.lastSequence || snap in s.snapshots)
    ensures Lookup(Held(s), k, snap).Visible() == Lookup(s.history, k, snap).Visible()
  {
  }

  // ----- Opening -----

  lemma {:induction false} ChunksJoin(a: Level, x: seq<Entry>, b: Level, y: seq<Entry>)
    requires Chunked(a, x) && Chunked(b, y)
    ensures Chunked(a + b, x + y)
    decreases |b|
  {
    if b == [] {
      assert a + b == a && x + y == x;
    } else {
      var front, f := b[..|b|-1], b[|b|-1];
      var i :| 0 <= i <= |y| && IsChunk(b, y, i) && Chunked(front, y[..i]);
      ChunksJoin(a, x, front, y[..i]);
      assert (x + y)[..|x| + i] == x + y[..i] && (x + y)[|x| + i..] == y[i..];
      AppendChunk(a + front, x + y, |x| + i, f);
      assert (a + front) + [f] == a + b;
    }
  }

  lemma NumbersJoin(a: Level, b: Level, bound: nat)
    requires NumbersIncrease(a) && NumbersIncrease(b)
    requires forall f | f in a :: f.number < bound
    requires forall f | f in b :: bound <= f.number
    ensures NumbersIncrease(a + b)
  {
    assert forall i | 0 <= i < |a| :: a[i] in a;
    assert forall i | 0 <= i < |b| :: b[i] in b;
  }

  /** Any two bounds on the log numbers give the same replay. */
  lemma BoundsAgree(logs: map<nat, seq<Entry>>, first: nat, a: nat, b: nat)
    requires forall n | n in logs :: n < a && n < b
    ensures ReplayLogs(logs, first, a) == ReplayLogs(logs, first, b)
  {
    var lo, hi := if a < b then a else b, if a < b then b else a;
    if first <= lo {
      ReplayNothing(logs, first, lo, hi);
    } else if first <= hi {
      ReplayNothing(logs, first, first, hi);
    }
  }

  method LogsEnd(logs: map<nat, seq<Entry>>) returns (end: nat)
    ensures forall n | n in logs :: n < end
    ensures end > 0 ==> end - 1 in logs
  {
    var names := logs.Keys;
    end := 0;
    while names != {}
      invariant names <= logs.Keys && forall n | n in logs && n !in names :: n < end
      invariant end > 0 ==> end - 1 in logs
      decreases names
    {
      var n :| n in names;
      if n >= end {
        end := n + 1;
      }
      names := names - {n};
    }
  }

  /** The larger of max and the largest sequence number in the log. */
  method MaxSequence(log: seq<Entry>, max: SeqNo) returns (m: SeqNo)
    ensures max <= m && SeqnosUpTo(SetOf(log), m)
    ensures m == max || exists e :: e in log && e.ikey.seqno == m
  {
    m := max;
    for i := 0 to |log|
      invariant max <= m && forall j | 0 <= j < i :: log[j].ikey.seqno <= m
      invariant m == max || exists e :: e in log && e.ikey.seqno == m
    {
      if log[i].ikey.seqno > m {
        m := log[i].ikey.seqno;
        assert log[i] in log;
      }
    }
  }

  lemma {:induction false} IncreasingPieces(logs: map<nat, seq<Entry>>, first: nat, n: nat, upTo: nat)
    requires first <= n < upTo && n in logs && Increasing(ReplayLogs(logs, first, upTo))
    ensures Increasing(logs[n])
    decreases upTo
  {
    var front := ReplayLogs(logs, first, upTo - 1);
    if n == upTo - 1 {
      IncreasingSuffix(front, logs[n]);
    } else {
      assert ReplayLogs(logs, first, upTo)[..|front|] == front;
      IncreasingPieces(logs, first, n, upTo - 1);
    }
  }

  /** What RecoverLogFile has made of the logs below n. */
  ghost predicate Rebuilt(d: Disk, n: nat, files: Level, next: nat, last: SeqNo) {
    && Chunked(files, ReplayLogs(d.logs, d.manifest.logNumber, n)) && NumbersIncrease(files)
    && d.manifest.nextFile <= next
    && (forall f | f in files :: d.manifest.nextFile <= f.number < next)
    && (forall m | m in d.logs && m < n :: m < next)
    && IsRecoveredSequence(d, ReplayLogs(d.logs, d.manifest.logNumber, n), last)
  }

  lemma NothingRebuilt(d: Disk)
    requires d.manifest.logNumber < d.manifest.nextFile
    ensures Rebuilt(d, d.manifest.logNumber, [], d.manifest.nextFile, d.manifest.lastSequence)
  {
    assert ReplayLogs(d.logs, d.manifest.logNumber, d.manifest.logNumber) == [];
  }

  lemma RebuiltOneMore(d: Disk, n: nat, files: Level, next: nat, last: SeqNo, fs: Level, next': nat, last': SeqNo)
    requires Rebuilt(d, n, files, next, last) && d.manifest.logNumber <= n && n in d.logs
    requires Chunked(fs, d.logs[n]) && NumbersIncrease(fs) && forall f | f in fs :: next <= f.number < next'
    requires next <= next' && n < next'
    requires last <= last' && SeqnosUpTo(SetOf(d.logs[n]), last')
    requires last' == last || exists e :: e in d.logs[n] && e.ikey.seqno == last'
    ensures Rebuilt(d, n + 1, files + fs, next', last')
  {
    var front := ReplayLogs(d.logs, d.manifest.logNumber, n);
    assert ReplayLogs(d.logs, d.manifest.logNumber, n + 1) == front + d.logs[n];
    ChunksJoin(files, front, fs, d.logs[n]);
    NumbersJoin(files, fs, next);
    SetOfConcat(front, d.logs[n]);
  }

  lemma RebuiltSkips(d: Disk, n: nat, files: Level, next: nat, last: SeqNo)
    requires Rebuilt(d, n, files, next, last) && d.manifest.logNumber <= n && n !in d.logs
    ensures Rebuilt(d, n + 1, files, next, last)
  {
    var front := ReplayLogs(d.logs, d.manifest.logNumber, n);
    assert front + [] == front;
  }

  /** The logs in the order of their numbers, each rebuilt into tables with numbers not yet used. */
  method RebuildFromLogs(d: Disk, memtableFull: (nat, int) -> bool, end: nat)
    returns (files: Level, next: nat, last: SeqNo)
    requires d.manifest.logNumber < d.manifest.nextFile && d.manifest.logNumber <= end
    requires Increasing(ReplayLogs(d.logs, d.manifest.logNumber, end))
    ensures Rebuilt(d, end, files, next, last)
  {
    files, next, last := [], d.manifest.nextFile, d.manifest.lastSequence;
    NothingRebuilt(d);
    for n := d.manifest.logNumber to end
      invariant Rebuilt(d, n, files, next, last)
    {
      if n in d.logs {
        IncreasingPieces(d.logs, d.manifest.logNumber, n, end);
        var log := d.logs[n];
        var fs := RebuildTables(log, seq(|log|, i => memtableFull(n, i)), next);
        var last' := MaxSequence(log, last);
        var next' := if next + |fs| <= n then n + 1 else next + |fs|;
        RebuiltOneMore(d, n, files, next, last, fs, next', last');
        files, next, last := files + fs, next', last';
      } else {
        RebuiltSkips(d, n, files, next, last);
      }
    }
  }

  lemma RecoveryInputs(d: Disk, v: Version, log: seq<Entry>, bound: nat, last: SeqNo, h: set<Entry>, end: nat)
    requires Recoverable(d, v, log, bound, last, h)
    requires forall n | n in d.logs :: n < end
    ensures FreshHistory(EMPTY_VERSION, d.manifest.edits) && forall l: LevelNumber :: Ordered(EMPTY_VERSION[l])
    ensures IsVersionAfter(EMPTY_VERSION, d.manifest.edits, v)
    ensures d.manifest.logNumber < d.manifest.nextFile
    ensures ReplayLogs(d.logs, d.manifest.logNumber, end) == log && Increasing(log)
  {
    BoundsAgree(d.logs, d.manifest.logNumber, bound, end);
  }

  lemma RebuiltIsRecovered(d: Disk, v: Version, log: seq<Entry>, bound: nat, last: SeqNo, h: set<Entry>,
                           end: nat, files: Level, next: nat, last': SeqNo)
    requires Recoverable(d, v, log, bound, last, h)
    requires (forall n | n in d.logs :: n < end) && Rebuilt(d, end, files, next, last')
    ensures last' == last
    ensures Recoverable(d, v, log, end, last, h)
    ensures Chunked(files, log) && NumbersIncrease(files) && d.manifest.nextFile <= next
    ensures forall f | f in files :: d.manifest.nextFile <= f.number < next
  {
    BoundsAgree(d.logs, d.manifest.logNumber, bound, end);
    assert forall e | e in log :: e in SetOf(log);
  }

  lemma LevelZeroEditApplies(m: Manifest, v: Version, files: Level)
    requires Describes(m, v) && NumbersIncrease(files) && forall f | f in files :: m.nextFile <= f.number
    ensures Applicable(v, LevelZeroEdit(files))
  {
    DescribedIsOrdered(m, v);
    DescribedBelow(m, v);
    LevelZeroAddsAt(files);
    FreshEdit(v, LevelZeroEdit(files), 0, files);
  }

  lemma RecoverableDescribes(d: Disk, v: Version, log: seq<Entry>, bound: nat, last: SeqNo, h: set<Entry>)
    requires Recoverable(d, v, log, bound, last, h)
    ensures Describes(d.manifest, v)
  {
  }

  /** The state of a database just opened. */
  function Opened(d: Disk, v: Version, logfile: nat, last: SeqNo, h: set<Entry>): Store {
    Store(d, [], None, v, multiset{}, logfile, logfile, logfile + 1, last, [], {}, [], h)
  }

  /** What recovery leaves on disk: the rebuilt tables, a new log, and a new manifest. */
  function RecoveredDisk(d: Disk, snapshot: Edit, files: Level, newLog: nat, last: SeqNo): Disk {
    Disk(WithTables(d.tables, files), d.logs[newLog := []],
        Manifest([snapshot, LevelZeroEdit(files)], newLog, last, newLog + 1))
  }

  lemma OpenedRecovers(d: Disk, v: Version, log: seq<Entry>, bound: nat, last: SeqNo, h: set<Entry>,
                       snapshot: Edit, files: Level, newLog: nat, v': Version)
    requires Recoverable(d, v, log, bound, last, h)
    requires Chunked(files, log) && NumbersIncrease(files)
    requires forall f | f in files :: d.manifest.nextFile <= f.number < newLog
    requires bound <= newLog && d.manifest.nextFile <= newLog
    requires IsSnapshot(snapshot, v) && IsVersionAfter(v, [LevelZeroEdit(files)], v')
    ensures Inv(Opened(RecoveredDisk(d, snapshot, files, newLog, last), v', newLog, last, h))
  {
    RecoveryRestores(d, v, log, bound, last, h, snapshot, files, newLog, v',
                     Opened(RecoveredDisk(d, snapshot, files, newLog, last), v', newLog, last, h));
  }

  /** VersionSet::Recover: the version that the manifest describes. */
  method RecoverVersion(d: Disk, ghost v: Version) returns (w: Version)
    requires FreshHistory(EMPTY_VERSION, d.manifest.edits) && (forall l: LevelNumber :: Ordered(EMPTY_VERSION[l]))
    requires IsVersionAfter(EMPTY_VERSION, d.manifest.edits, v)
    ensures w == v
  {
    AllInOrder(EMPTY_VERSION);
    w := ReplayOnce(EMPTY_VERSION, d.manifest.edits);
    VersionAfterUnique(EMPTY_VERSION, d.manifest.edits, v, w);
  }

  /** DBImpl::Recover and the rest of DB::Open, as far as they touch the disk. */
  method RecoverDisk(d: Disk, memtableFull: (nat, int) -> bool,
                     ghost v: Version, ghost log: seq<Entry>, ghost bound: nat, ghost last: SeqNo, ghost h: set<Entry>)
    returns (d': Disk, v': Version, newLog: nat, sequence: SeqNo)
    requires Recoverable(d, v, log, bound, last, h)
    ensures sequence == last && Inv(Opened(d', v', newLog, sequence, h))
  {
    var logsEnd := LogsEnd(d.logs);
    var end := if logsEnd < d.manifest.logNumber then d.manifest.logNumber else logsEnd;
    RecoveryInputs(d, v, log, bound, last, h, end);
    var w := RecoverVersion(d, v);
    var files;
    files, newLog, sequence := RebuildFromLogs(d, memtableFull, end);
    RebuiltIsRecovered(d, v, log, bound, last, h, end, files, newLog, sequence);
    var snapshot := WriteSnapshot(w);
    RecoverableDescribes(d, v, log, bound, last, h);
    LevelZeroEditApplies(d.manifest, v, files);
    v' := NextVersion(w, LevelZeroEdit(files));
    d' := RecoveredDisk(d, snapshot, files, newLog, sequence);
    OpenedRecovers(d, v, log, end, last, h, snapshot, files, newLog, v');
  }

  // ----- Deleting files -----

  /** The numbers of the files in one version. */
  method AddVersionFiles(v: Version, live: set<nat>) returns (live': set<nat>)
    ensures forall n :: n in live' <==> n in live || Lists(v, n)
  {
    live' := live;
    for level := 0 to NUM_LEVELS
      invariant forall n :: n in live' <==> n in live || exists l, f :: 0 <= l < level && f in v[l] && f.number == n
    {
      live' := live' + NumbersOf(v[level]);
    }
  }

  method AddLiveFiles(versions: set<Version>, live: set<nat>) returns (live': set<nat>)
    ensures forall n :: n in live' <==> n in live || exists v: Version :: v in versions && Lists(v, n)
  {
    live' := live;
    var rest := versions;
    while rest != {}
      invariant rest <= versions
      invariant forall n :: n in live' <==> n in live || exists v: Version :: v in versions && v !in rest && Lists(v, n)
      decreases rest
    {
      var v :| v in rest;
      live' := AddVersionFiles(v, live');
      rest := rest - {v};
    }
  }

  /** Deletes the files of one type whose number is not to be kept. */
  method DeleteFiles<T>(files: map<nat, T>, keep: nat -> bool) returns (left: map<nat, T>)
    ensures forall n :: n in left <==> n in files && keep(n)
    ensures forall n | n in left :: left[n] == files[n]
  {
    left := files;
    var names := files.Keys;
    while names != {}
      invariant names <= files.Keys
      invariant forall n :: n in left <==> n in files && (n in names || keep(n))
      invariant forall n | n in left :: left[n] == files[n]
      decreases names
    {
      var n :| n in names;
      if !keep(n) {
        left := left - {n};
      }
      names := names - {n};
    }
  }

  /**
   Of the tables exactly those are left that are being written, or that the current version or a pinned one
   lists; of the logs those from the log number on.
   */
  ghost predicate IsCleaned(s: Store, d: Disk) {
    && d.manifest == s.disk.manifest
    && (forall n | n in s.disk.tables ::
         n in d.tables <==>
           n in s.pending
           || exists v: Version, l: LevelNumber, f :: (v == s.current || v in s.pinned) && f in v[l] && f.number == n)
    && (forall n | n in d.tables :: n in s.disk.tables && d.tables[n] == s.disk.tables[n])
    && (forall n | n in s.disk.logs :: n in d.logs <==> s.logNumber <= n)
    && forall n | n in d.logs :: n in s.disk.logs && d.logs[n] == s.disk.logs[n]
  }

  lemma CleanedDisk(s: Store)
    ensures IsCleaned(s, Disk(LiveTables(s), NeededLogs(s), s.disk.manifest))
  {
    forall n
      ensures Live(s, n) <==> n in s.pending || exists v: Version, l: LevelNumber, f ::
                (v == s.current || v in s.pinned) && f in v[l] && f.number == n
    {
      if v: Version, l: LevelNumber, f :| (v == s.current || v in s.pinned) && f in v[l] && f.number == n {
        assert Lists(v, n);
      }
      if v: Version :| (v == s.current || v in s.pinned) && Lists(v, n) {
        var l, f :| 0 <= l < NUM_LEVELS && f in v[l] && f.number == n;
      }
    }
  }

  lemma NextRun(runs: seq<seq<Entry>>, i: nat)
    requires i < |runs| && forall r | r in runs :: r != [] && Sorted(r)
    ensures runs[i] != [] && Sorted(runs[i]) && runs[..i+1] == runs[..i] + [runs[i]]
  {
    assert runs[i] in runs;
  }

  /** Looks for a file that goes on with the largest user key of the second inputs. */
  method IsBoundaryClosed(v: Version, c: Compaction) returns (closed: bool)
    requires Versions.Valid(v) && Closed(v, c)
    ensures closed <==> BoundaryClosed(v, c)
  {
    if c.inputs1 == [] {
      NoSecondInputsClosed(v, c);
      return true;
    }
    var _, largest := GetRange(c.inputs1);
    var b := FindSmallestBoundaryFile(v[c.level + 1], largest);
    ValidSearchable(v, c.level + 1);
    BoundaryClosedIff(v, c, largest);
    closed := b.None?;
  }

  /** v' is v with the inputs replaced by outs, in which the merged inputs lost what the loop drops. */
  ghost predicate IsRewrite(v: Version, c: Compaction, ss: SeqNo, m: seq<Entry>, outs: Level, v': Version) {
    && c.level + 1 < NUM_LEVELS && Merged(m, c)
    && Flatten(outs) == Written(v, c.level, m, |m|, ss)
    && IsVersionAfter(v, [CompactionEdit(c, outs)], v')
  }

  /** runs are what the loop writes of the merged inputs m at the smallest snapshot of its start. */
  ghost predicate IsWork(s: Store, c: Compaction, m: seq<Entry>, ss: SeqNo, runs: seq<seq<Entry>>) {
    && Closed(s.current, c) && Merged(m, c) && ss <= SmallestSnapshot(s)
    && Concat(runs) == Written(s.current, c.level, m, |m|, ss)
  }

  lemma SameWork(s: Store, s': Store, c: Compaction, m: seq<Entry>, ss: SeqNo, runs: seq<seq<Entry>>)
    requires IsWork(s, c, m, ss, runs) && s'.mem == s.mem && s'.imm == s.imm && s'.current == s.current
    requires s'.lastSequence == s.lastSequence && s'.snapshots == s.snapshots
    ensures Held(s') == Held(s) && SmallestSnapshot(s') == SmallestSnapshot(s) && IsWork(s', c, m, ss, runs)
  {
  }

  /** What a compaction comes to: one file moves, or the inputs are rewritten. */
  ghost predicate Compacted(s: Store, c: Compaction, fewGrandparents: bool, s': Store) {
    if IsTrivialMove(c, fewGrandparents) then MoveFile(s, c, s'.current, s')
    else exists m, outs :: IsRewrite(s.current, c, SmallestSnapshot(s), m, outs, s'.current)
  }

  predicate IsTrivialMove(c: Compaction, fewGrandparents: bool) {
    |c.inputs0| == 1 && c.inputs1 == [] && fewGrandparents
  }

  /** Rewriting the inputs changes no read that can still be asked for. */
  ghost predicate RewriteKeepsReads(s: Store, c: Compaction) {
    c.level + 1 < NUM_LEVELS ==>
      forall m | Merged(m, c) :: !ReadChanges(Held(s), s.current, c, m, SmallestSnapshot(s), SmallestSnapshot(s))
  }

  lemma OneMerge(s: Store, c: Compaction, m: seq<Entry>)
    requires Merged(m, c) && c.level + 1 < NUM_LEVELS
    ensures RewriteKeepsReads(s, c) <==>
            !ReadChanges(Held(s), s.current, c, m, SmallestSnapshot(s), SmallestSnapshot(s))
  {
    forall n | Merged(n, c)
      ensures n == m
    {
      SameMerge(n, m, c);
    }
  }

  lemma SameMerge(a: seq<Entry>, b: seq<Entry>, c: Compaction)
    requires Merged(a, c) && Merged(b, c)
    ensures a == b
  {
    forall e
      ensures e in a <==> e in b
    {
      assert e in SetOf(a) <==> e in SetOf(b);
    }
    SortedUnique(a, b);
  }

  /**
   Inputs whose boundary is closed are rewritten without changing a read, unless no larger sequence
   number is left.
   */
  lemma ClosedRewriteKeepsReads(s: Store, c: Compaction)
    requires Inv(s) && Closed(s.current, c) && BoundaryClosed(s.current, c) && SmallestSnapshot(s) < MAX_SEQUENCE
    ensures RewriteKeepsReads(s, c)
  {
    forall m | Merged(m, c)
      ensures !ReadChanges(Held(s), s.current, c, m, SmallestSnapshot(s), SmallestSnapshot(s))
    {
      ClosedChangesNothing(Held(s), s.current, c, m, SmallestSnapshot(s), SmallestSnapshot(s));
    }
  }

  class DBImpl {
    var disk: Disk
    var mem: seq<Entry>
    var imm: Option<seq<Entry>>
    var current: Version
    var pinned: multiset<Version>
    var logNumber: nat
    var logfile: nat
    var nextFile: nat
    var lastSequence: SeqNo
    var snapshots: seq<SeqNo>
    var pending: set<nat>
    ghost var logged: seq<Entry>
    ghost var history: set<Entry>

    ghost function State(): Store
      reads this
    {
      Store(disk, mem, imm, current, pinned, logNumber, logfile, nextFile, lastSequence, snapshots, pending, logged,
          history)
    }

    ghost predicate Valid()
      reads this
    {
      Inv(State())
    }

    method Get(k: UserKey, snapshot: Option<SeqNo>) returns (o: Outcome)
      requires Valid()
      requires snapshot.Some? ==> snapshot.value in snapshots
      ensures o == Lookup(history, k, if snapshot.Some? then snapshot.value else lastSequence).Visible()
    {
      var snap := if snapshot.Some? then snapshot.value else lastSequence;
      o := Versions.Get(Memory(mem, if imm.Some? then imm.value else []), current, k, snap);
      ReadsHistory(State(), k, snap);
    }

    /** An iterator that shows exactly the pairs that reads at the snapshot answer. */
    method NewIterator(snapshot: Option<SeqNo>) returns (it: DbIters.DBIter)
      requires Valid()
      requires snapshot.Some? ==> snapshot.value in snapshots
      ensures fresh(it) && fresh(it.iter) && fresh(it.iter.positions) && fresh(it.iter.cached)
      ensures it.Valid() && it.sequence == if snapshot.Some? then snapshot.value else lastSequence
      ensures forall k, value :: Lookup(history, k, it.sequence).Visible() == Found(value) <==>
                exists i :: 0 <= i < |it.All()| && DbIters.Shown(it.All(), it.sequence, i)
                            && it.All()[i].ikey.user == k && it.All()[i].value == value
    {
      var snap := if snapshot.Some? then snapshot.value else lastSequence;
      it := InternalIterators.NewIterator(mem, imm, current, snap);
      forall k, value
        ensures Lookup(history, k, snap).Visible() == Found(value) <==>
                  exists i :: 0 <= i < |it.All()| && DbIters.Shown(it.All(), snap, i)
                              && it.All()[i].ikey.user == k && it.All()[i].value == value
      {
        ReadsHistory(State(), k, snap);
        DbIters.ShownAnswersReads(it.All(), snap, k, value);
      }
    }

    /** DB::Open: recovery from what a crash, or an earlier close, left on disk. */
    constructor Open(d: Disk, memtableFull: (nat, int) -> bool,
                     ghost v: Version, ghost log: seq<Entry>, ghost bound: nat, ghost last: SeqNo, ghost h: set<Entry>)
      requires Recoverable(d, v, log, bound, last, h)
      ensures Valid() && history == h && lastSequence == last && logged == [] && snapshots == []
    {
      var d', v', newLog, sequence := RecoverDisk(d, memtableFull, v, log, bound, last, h);
      disk, mem, imm, current, pinned := d', [], None, v', multiset{};
      logNumber, logfile, nextFile, lastSequence := newLog, newLog, newLog + 1, sequence;
      snapshots, pending, logged, history := [], {}, [], h;
    }

    // ----- Writing -----

    /** The record of a batch is appended to the log. */
    method AddRecord(r: seq<Entry>)
      requires Valid() && logged == [] && Consecutive(r, lastSequence)
      modifies this`disk, this`logged, this`history
      ensures Valid() && LogRecord(old(State()), r, State())
    {
      ghost var s := State();
      disk := disk.(logs := disk.logs[logfile := disk.logs[logfile] + r]);
      logged := r;
      history := history + SetOf(r);
      LogRecordKeepsInv(s, r, State());
    }

    /** The logged record reaches the memtable, and then readers. */
    method InsertInto(r: seq<Entry>)
      requires Valid() && logged == r
      modifies this`mem, this`lastSequence, this`logged
      ensures Valid() && InsertRecord(old(State()), mem, State())
    {
      ghost var s := State();
      RecordFits(s);
      mem := InsertAll(mem, r, lastSequence);
      lastSequence := lastSequence + |r|;
      logged := [];
      InsertRecordKeepsInv(s, mem, State());
    }

    method Write(updates: seq<Update>)
      requires Valid() && logged == [] && lastSequence + |updates| <= MAX_SEQUENCE
      modifies this`disk, this`mem, this`lastSequence, this`logged, this`history
      ensures Valid() && logged == []
      ensures lastSequence == old(lastSequence) + |updates|
      ensures history == old(history) + SetOf(RecordOf(updates, old(lastSequence)))
      ensures IsWritten(old(history), old(lastSequence), updates, history, lastSequence)
    {
      ghost var h, last := history, lastSequence;
      HistoryFits(State());
      WriteRecord(RecordOf(updates, lastSequence));
      WriteReads(h, last, updates, history, lastSequence);
    }

    /** The record of a group is logged and then inserted. */
    method WriteRecord(r: seq<Entry>)
      requires Valid() && logged == [] && Consecutive(r, lastSequence) && lastSequence + |r| <= MAX_SEQUENCE
      modifies this`disk, this`mem, this`lastSequence, this`logged, this`history
      ensures Valid() && logged == []
      ensures lastSequence == old(lastSequence) + |r| && history == old(history) + SetOf(r)
    {
      AddRecord(r);
      InsertInto(r);
    }

    /** A read of a key before some updates are written, and one after. */
    method WriteAndGet(updates: seq<Update>, k: UserKey) returns (before: Outcome, after: Outcome)
      requires Valid() && logged == [] && lastSequence + |updates| <= MAX_SEQUENCE
      modifies this`disk, this`mem, this`lastSequence, this`logged, this`history
      ensures Valid() && logged == []
      ensures (forall i | 0 <= i < |updates| :: updates[i].user != k) ==> after == before
      ensures forall i | 0 <= i < |updates| && updates[i].user == k
                && (forall j | i < j < |updates| :: updates[j].user != k) ::
                after == if updates[i].kind.Value? then Found(updates[i].value) else Miss
    {
      before := Get(k, None);
      Write(updates);
      after := Get(k, None);
    }

    /** The switching branch of MakeRoomForWrite. */
    method SwitchToNewMemtable()
      requires Valid() && logged == [] && imm.None?
      modifies this`disk, this`mem, this`imm, this`logfile, this`nextFile
      ensures Valid() && SwitchMemtable(old(State()), State())
    {
      ghost var s := State();
      disk := disk.(logs := disk.logs[nextFile := []]);
      logfile := nextFile;
      nextFile := nextFile + 1;
      imm := Some(mem);
      mem := [];
      SwitchMemtableKeepsInv(s, State());
    }

    // ----- Flushing -----

    method CompactMemTable(size: nat, grandparentLimit: nat) returns (ghost level: LevelNumber, ghost f: File)
      requires Valid() && imm.Some?
      modifies this`disk, this`imm, this`current, this`logNumber, this`nextFile
      ensures Valid()
      ensures if old(imm) == Some([]) then FlushNothing(old(State()), State())
              else FlushMemtable(old(State()), level, f, current, State())
      ensures old(imm) != Some([]) ==>
                IsLevelFor(old(current), UserRange(f.Smallest(), f.Largest()), grandparentLimit, level)
    {
      level, f := 0, ANY_FILE;
      if imm.value == [] {
        FlushEmptyMemtable();
      } else {
        SortedImm(State());
        var table: File := FileRep(nextFile, size, imm.value);
        var lvl := PickLevelForMemTableOutput(current, UserRange(table.Smallest(), table.Largest()), grandparentLimit);
        level, f := lvl, table;
        FlushToLevel(lvl, table);
      }
    }

    method FlushEmptyMemtable()
      requires Valid() && imm == Some([])
      modifies this`disk, this`imm, this`current, this`logNumber, this`nextFile
      ensures Valid() && FlushNothing(old(State()), State())
    {
      ghost var s := State();
      NoEditApplies(s);
      nextFile := nextFile + 1;
      LogAndApply(Edit({}, []), logfile);
      NoEditKeepsVersion(s.current, current);
      imm := None;
      FlushNothingKeepsInv(s, State());
    }

    method FlushToLevel(level: LevelNumber, f: File)
      requires Valid() && imm == Some(f.run) && f.number == nextFile && MayHold(current, level, f)
      modifies this`disk, this`imm, this`current, this`logNumber, this`nextFile
      ensures Valid() && FlushMemtable(old(State()), level, f, current, State())
    {
      ghost var s := State();
      FlushEditApplies(s, level, f);
      LogFlush(level, f);
      FlushMemtableKeepsInv(s, level, f, current, State());
    }

    method LogFlush(level: LevelNumber, f: File)
      requires imm == Some(f.run) && f.number == nextFile && MayHold(current, level, f)
      requires Applicable(current, FlushEdit(level, f))
      modifies this`disk, this`imm, this`current, this`logNumber, this`nextFile
      ensures FlushMemtable(old(State()), level, f, current, State())
    {
      nextFile := nextFile + 1;
      disk := disk.(tables := disk.tables[f.number := f]);
      LogAndApply(FlushEdit(level, f), logfile);
      imm := None;
    }

    /** VersionSet::LogAndApply: the manifest record, and then the new version. */
    method LogAndApply(e: Edit, log: nat)
      requires Applicable(current, e)
      modifies this`disk, this`current, this`logNumber
      ensures disk == old(disk).(manifest := Manifest(old(disk).manifest.edits + [e], log, lastSequence, nextFile))
      ensures IsVersionAfter(old(current), [e], current) && logNumber == log
    {
      var v := NextVersion(current, e);
      disk := disk.(manifest := Manifest(disk.manifest.edits + [e], log, lastSequence, nextFile));
      current := v;
      logNumber := log;
    }

    // ----- Compacting -----

    /** BackgroundCompaction of chosen inputs: a trivial move, or the whole work. */
    method Compact(c: Compaction, fewGrandparents: bool, stopBefore: int -> bool, bigEnough: int -> bool)
      requires Valid() && Closed(current, c) && Orderly(current[c.level], c.level, c.inputs0)
      modifies this`disk, this`current, this`nextFile, this`pending, this`logNumber
      ensures Compacted(old(State()), c, fewGrandparents, State())
      ensures Valid() <==> IsTrivialMove(c, fewGrandparents) || RewriteKeepsReads(old(State()), c)
    {
      if |c.inputs0| == 1 && c.inputs1 == [] && fewGrandparents {
        Move(c);
      } else {
        ghost var m, outs := Rewrite(c, stopBefore, bigEnough);
      }
    }

    method Move(c: Compaction)
      requires Valid() && Closed(current, c) && |c.inputs0| == 1 && c.inputs1 == []
      modifies this`disk, this`current, this`logNumber, this`pending
      ensures Valid() && MoveFile(old(State()), c, current, State())
    {
      ghost var s := State();
      OneInput(current, c);
      MoveEditApplies(disk.manifest, current, c);
      LogCompaction(c, c.inputs0, {});
      MoveFileKeepsInv(s, c, current, State());
    }

    /** The record of a compaction, and the release of the numbers of its outputs. */
    method LogCompaction(c: Compaction, outs: Level, written: set<nat>)
      requires c.level + 1 < NUM_LEVELS && Applicable(current, CompactionEdit(c, outs))
      modifies this`disk, this`current, this`logNumber, this`pending
      ensures CommitCompaction(old(State()), c, outs, written, current, State())
    {
      LogAndApply(CompactionEdit(c, outs), logNumber);
      pending := pending - written;
    }

    method Rewrite(c: Compaction, stopBefore: int -> bool, bigEnough: int -> bool)
      returns (ghost m: seq<Entry>, ghost outs: Level)
      requires Valid() && Closed(current, c) && Orderly(current[c.level], c.level, c.inputs0)
      modifies this`disk, this`current, this`nextFile, this`pending, this`logNumber
      ensures IsRewrite(old(current), c, SmallestSnapshot(old(State())), m, outs, current)
      ensures Valid() <==> RewriteKeepsReads(old(State()), c)
    {
      var ss := if snapshots == [] then lastSequence else snapshots[0];
      ValidCurrent(State());
      var merged, runs := MergedRuns(current, c, ss, stopBefore, bigEnough);
      m := merged;
      OneMerge(State(), c, m);
      outs := WriteAndInstall(c, m, ss, runs);
    }

    method WriteAndInstall(c: Compaction, ghost m: seq<Entry>, ghost ss: SeqNo, runs: seq<seq<Entry>>)
      returns (outs: Level)
      requires Valid() && IsWork(State(), c, m, ss, runs)
      requires forall r | r in runs :: r != [] && Sorted(r)
      modifies this`disk, this`current, this`nextFile, this`pending, this`logNumber
      ensures IsRewrite(old(current), c, ss, m, outs, current)
      ensures Valid() <==>
              !ReadChanges(Held(old(State())), old(current), c, m, ss, SmallestSnapshot(old(State())))
    {
      ghost var s := State();
      outs := WriteOutputs(runs);
      SameWork(s, State(), c, m, ss, runs);
      InstallCompactionResults(c, m, ss, outs, runs);
    }

    method WriteOutputs(runs: seq<seq<Entry>>) returns (outs: Level)
      requires Valid() && forall r | r in runs :: r != [] && Sorted(r)
      modifies this`disk, this`nextFile, this`pending
      ensures Valid() && HasOutputs(State(), outs, runs)
    {
      outs := [];
      NoOutputsYet(State());
      assert runs[..0] == [];
      for i := 0 to |runs|
        invariant Valid() && HasOutputs(State(), outs, runs[..i])
      {
        NextRun(runs, i);
        outs := WriteOutput(outs, runs[..i], runs[i]);
      }
      assert runs[..|runs|] == runs;
    }

    method WriteOutput(outs: Level, ghost runs: seq<seq<Entry>>, run: seq<Entry>) returns (outs': Level)
      requires Valid() && HasOutputs(State(), outs, runs) && run != [] && Sorted(run)
      modifies this`disk, this`nextFile, this`pending
      ensures Valid() && HasOutputs(State(), outs', runs + [run])
    {
      var f: File := FileRep(nextFile, |run|, run);
      ghost var s := State();
      AddTable(f);
      OneMoreOutput(s, State(), outs, runs, f);
      outs' := outs + [f];
    }

    method AddTable(f: File)
      requires Valid() && f.number == nextFile
      modifies this`disk, this`nextFile, this`pending
      ensures Valid() && WriteTable(old(State()), f, State())
    {
      ghost var s := State();
      disk := disk.(tables := disk.tables[f.number := f]);
      nextFile := nextFile + 1;
      pending := pending + {f.number};
      WriteTableKeepsInv(s, f, State());
    }

    method InstallCompactionResults(c: Compaction, ghost m: seq<Entry>, ghost ss: SeqNo, outs: Level,
                                    ghost runs: seq<seq<Entry>>)
      requires Valid() && IsWork(State(), c, m, ss, runs) && HasOutputs(State(), outs, runs)
      modifies this`disk, this`current, this`logNumber, this`pending
      ensures InstallCompaction(old(State()), c, m, ss, outs, current, State())
      ensures IsRewrite(old(current), c, ss, m, outs, current)
      ensures Valid() <==>
              !ReadChanges(Held(old(State())), old(current), c, m, ss, SmallestSnapshot(old(State())))
    {
      ghost var s := State();
      CompactionEditApplies(s, c, outs);
      LogCompaction(c, outs, NumbersOf(outs));
      InstallKeepsInvIff(s, c, m, ss, outs, current, State());
    }

    /** BackgroundCompaction with nothing to flush: picks inputs at a level and compacts them. */
    method BackgroundCompaction(level: nat, pointer: Option<IKey>, byteLimit: nat,
                                fewGrandparents: bool, stopBefore: int -> bool, bigEnough: int -> bool)
      returns (c: Compaction, ghost picked: File)
      requires Valid() && level + 1 < NUM_LEVELS && current[level] != []
      modifies this`disk, this`current, this`nextFile, this`pending, this`logNumber
      ensures IsTurnOf(old(current)[level], pointer, picked)
      ensures IsPicked(old(current)[level], old(current)[level + 1], level, picked, byteLimit, c)
      ensures c.level == level && Closed(old(current), c) && Compacted(old(State()), c, fewGrandparents, State())
      ensures Valid() <==> IsTrivialMove(c, fewGrandparents) || RewriteKeepsReads(old(State()), c)
    {
      ValidCurrent(State());
      ValidSearchable(current, level);
      var f := PickFile(current[level], pointer);
      picked := f;
      c := PickCompaction(current, level, f, byteLimit);
      Compact(c, fewGrandparents, stopBefore, bigEnough);
    }

    method DeleteObsoleteFiles()
      requires Valid()
      modifies this`disk
      ensures Valid() && Stores.DeleteObsoleteFiles(old(State()), State())
      ensures IsCleaned(old(State()), disk)
    {
      ghost var s := State();
      CleanedDisk(s);
      disk := NeededFiles();
      DeleteObsoleteFilesKeepsInv(s, State());
    }

    /** The disk without the tables that no version lists and the logs that are not needed. */
    method NeededFiles() returns (d: Disk)
      ensures d == Disk(LiveTables(State()), NeededLogs(State()), disk.manifest)
    {
      var versions := (set v | v in pinned) + {current};
      var live := AddLiveFiles(versions, pending);
      var first := logNumber;
      var tables := DeleteFiles(disk.tables, n => n in live);
      var logs := DeleteFiles(disk.logs, n => n >= first);
      assert forall n :: n in live <==> Live(State(), n);
      assert tables == LiveTables(State()) && logs == NeededLogs(State());
      d := Disk(tables, logs, disk.manifest);
    }

    // ----- Snapshots and pinned versions -----

    method GetSnapshot() returns (snap: SeqNo)
      requires Valid()
      modifies this`snapshots
      ensures Valid() && TakeSnapshot(old(State()), State())
      ensures snap == lastSequence && snapshots == old(snapshots) + [snap]
    {
      ghost var s := State();
      snap := lastSequence;
      snapshots := snapshots + [snap];
      TakeSnapshotKeepsInv(s, State());
    }

    method ReleaseSnapshot(i: nat)
      requires Valid() && i < |snapshots|
      modifies this`snapshots
      ensures Valid() && Stores.ReleaseSnapshot(old(State()), i, State())
      ensures multiset(snapshots) == multiset(old(snapshots)) - multiset{old(snapshots)[i]}
      ensures |snapshots| == |old(snapshots)| - 1
      ensures forall j | 0 <= j < |snapshots| :: snapshots[j] == old(snapshots)[if j < i then j else j + 1]
    {
      ghost var s := State();
      ReleasedOne(snapshots, i);
      snapshots := snapshots[..i] + snapshots[i+1..];
      ReleaseSnapshotKeepsInv(s, i, State());
    }

    method RefCurrent()
      requires Valid()
      modifies this`pinned
      ensures Valid() && PinVersion(old(State()), State())
      ensures forall w :: pinned[w] == old(pinned)[w] + if w == current then 1 else 0
    {
      ghost var s := State();
      pinned := pinned + multiset{current};
      PinVersionKeepsInv(s, State());
    }

    method Unref(v: Version)
      requires Valid()
      modifies this`pinned
      ensures Valid() && UnpinVersion(old(State()), v, State())
      ensures forall w :: pinned[w] == if w == v && v in old(pinned) then old(pinned)[w] - 1 else old(pinned)[w]
    {
      ghost var s := State();
      pinned := pinned - multiset{v};
      UnpinVersionKeepsInv(s, v, State());
    }
  }
}
