/**
 The whole store as a state machine: what is on disk, what is in memory, and the
 steps of writers, of the background thread and of readers.  A log file is the
 sequence of the entries of its records; a record is written or lost as a whole.
 */
module Stores {
  import opened Wrappers
  import opened Entries
  import opened Versions
  import opened Selection
  import opened Compactions
  import opened Installs
  import opened Builders
  import opened Replay
  import opened Edits
  import opened Preservation

  /** The edits of the current manifest, and the counters as of its last record. */
  datatype Manifest = Manifest(edits: seq<Edit>, logNumber: nat, lastSequence: SeqNo, nextFile: nat)

  datatype Disk = Disk(tables: map<nat, File>, logs: map<nat, seq<Entry>>, manifest: Manifest)

  /**
   logged is a record that is in the log but not yet in the memtable, and history
   is every entry ever logged.
   */
  datatype Store = Store(
    disk: Disk,
    mem: seq<Entry>, imm: Option<seq<Entry>>, current: Version, pinned: multiset<Version>,
    logNumber: nat, logfile: nat, nextFile: nat, lastSequence: SeqNo,
    snapshots: seq<SeqNo>, pending: set<nat>,
    logged: seq<Entry>, history: set<Entry>)

  function ImmRun(s: Store): seq<Entry> {
    if s.imm.Some? then s.imm.value else []
  }

  function MemoryOf(s: Store): Memory {
    Memory(s.mem, ImmRun(s))
  }

  function Held(s: Store): set<Entry> {
    Everything(MemoryOf(s), s.current)
  }

  /** DoCompactionWork's smallest_snapshot. */
  function SmallestSnapshot(s: Store): SeqNo {
    if s.snapshots == [] then s.lastSequence else s.snapshots[0]
  }

  // ----- Logs -----

  /** The entries of the logs numbered from `first` up to but not including `upTo`. */
  function ReplayLogs(logs: map<nat, seq<Entry>>, first: nat, upTo: nat): seq<Entry>
    decreases upTo
  {
    if upTo <= first then []
    else ReplayLogs(logs, first, upTo - 1) + if upTo - 1 in logs then logs[upTo-1] else []
  }

  predicate Increasing(es: seq<Entry>) {
    forall i, j | 0 <= i < j < |es| :: es[i].ikey.seqno < es[j].ikey.seqno
  }

  lemma {:induction false} ReplayCongruent(a: map<nat, seq<Entry>>, b: map<nat, seq<Entry>>, first: nat, upTo: nat)
    requires forall n | first <= n < upTo :: (n in a <==> n in b) && (n in a ==> a[n] == b[n])
    ensures ReplayLogs(a, first, upTo) == ReplayLogs(b, first, upTo)
    decreases upTo
  {
    if upTo > first {
      ReplayCongruent(a, b, first, upTo - 1);
    }
  }

  lemma {:induction false} ReplayNothing(logs: map<nat, seq<Entry>>, first: nat, mid: nat, upTo: nat)
    requires first <= mid <= upTo && forall n | mid <= n < upTo :: n !in logs
    ensures ReplayLogs(logs, first, upTo) == ReplayLogs(logs, first, mid)
    decreases upTo
  {
    if upTo > mid {
      ReplayNothing(logs, first, mid, upTo - 1);
    }
  }

  // ----- Invariants -----

  /** Reads of a and of b agree for the sequence numbers from lo to hi. */
  ghost predicate Agrees(a: set<Entry>, b: set<Entry>, lo: SeqNo, hi: SeqNo) {
    forall k: UserKey, snap: SeqNo | lo <= snap <= hi :: Lookup(a, k, snap).Visible() == Lookup(b, k, snap).Visible()
  }

  predicate SeqnosUpTo(s: set<Entry>, hi: SeqNo) {
    forall e | e in s :: e.ikey.seqno <= hi
  }

  predicate SeqnosAfter(s: set<Entry>, lo: SeqNo) {
    forall e | e in s :: lo < e.ikey.seqno
  }

  /** The sequence numbers of a record follow the last one in use. */
  predicate Consecutive(r: seq<Entry>, last: SeqNo) {
    forall i | 0 <= i < |r| :: r[i].ikey.seqno == last + 1 + i
  }

  /** A file's number is its own among the files of its level, and was never given to a deeper level. */
  ghost predicate Numbering(v: Version, edits: seq<Edit>, bound: nat) {
    && (forall l: LevelNumber :: NumbersName(v[l]))
    && (forall l: LevelNumber, m: LevelNumber, f, g {:trigger f in v[l], g in AddedSoFar(edits, m)} |
         l < m && f in v[l] && g in AddedSoFar(edits, m) :: f.number != g.number)
    && (forall m: LevelNumber, g {:trigger g in AddedSoFar(edits, m)} | g in AddedSoFar(edits, m) :: g.number < bound)
  }

  /** Replaying the manifest gives the version. */
  ghost predicate Describes(m: Manifest, v: Version) {
    && IsVersionAfter(EMPTY_VERSION, m.edits, v)
    && FreshHistory(EMPTY_VERSION, m.edits)
    && Numbering(v, m.edits, m.nextFile)
    && SeqnosUpTo(Contents(v), m.lastSequence)
  }

  predicate TablesPresent(tables: map<nat, File>, v: Version) {
    forall l, f | 0 <= l < NUM_LEVELS && f in v[l] :: f.number in tables && tables[f.number] == f
  }

  predicate NumbersBelow(v: Version, bound: nat) {
    forall l, f | 0 <= l < NUM_LEVELS && f in v[l] :: f.number < bound
  }

  ghost predicate FilesOk(s: Store) {
    && Describes(s.disk.manifest, s.current)
    && s.disk.manifest.logNumber == s.logNumber
    && s.disk.manifest.logNumber < s.disk.manifest.nextFile <= s.nextFile
    && s.disk.manifest.lastSequence <= s.lastSequence
    && TablesPresent(s.disk.tables, s.current)
    && (forall v | v in s.pinned :: TablesPresent(s.disk.tables, v) && NumbersBelow(v, s.nextFile))
  }

  /** The numbers of tables being written have not been given to any version. */
  ghost predicate PendingOk(s: Store) {
    && (forall n | n in s.pending :: n < s.nextFile && n in s.disk.tables)
    && (forall n, l: LevelNumber, f {:trigger n in s.pending, f in AddedSoFar(s.disk.manifest.edits, l)} |
         n in s.pending && f in AddedSoFar(s.disk.manifest.edits, l) :: f.number != n)
  }

  ghost predicate LogsOk(s: Store) {
    && s.logNumber <= s.logfile < s.nextFile
    && s.logfile in s.disk.logs
    && (forall n | n in s.disk.logs :: n <= s.logfile)
    && SetOf(s.disk.logs[s.logfile]) == SetOf(s.mem) + SetOf(s.logged)
    && SetOf(ReplayLogs(s.disk.logs, s.logNumber, s.logfile)) == SetOf(ImmRun(s))
    && Increasing(ReplayLogs(s.disk.logs, s.logNumber, s.logfile + 1))
  }

  ghost predicate SequencesOk(s: Store) {
    && SeqnosUpTo(Held(s), s.lastSequence)
    && Consecutive(s.logged, s.lastSequence)
    && (s.lastSequence == s.disk.manifest.lastSequence
        || exists e :: e in SetOf(s.mem) + SetOf(ImmRun(s)) && e.ikey.seqno == s.lastSequence)
    && (forall i, j | 0 <= i < j < |s.snapshots| :: s.snapshots[i] <= s.snapshots[j])
    && (forall i | 0 <= i < |s.snapshots| :: s.snapshots[i] <= s.lastSequence)
  }

  /** Every read that can still be asked for is answered as the full history answers it. */
  ghost predicate AnswersHistory(s: Store) {
    Agrees(Held(s), s.history, SmallestSnapshot(s), s.lastSequence)
  }

  ghost predicate HistoryOk(s: Store) {
    && Distinct(s.history)
    && SetOf(s.logged) <= s.history
    && SeqnosUpTo(s.history - SetOf(s.logged), s.lastSequence)
    && AnswersHistory(s)
  }

  ghost predicate Inv(s: Store) {
    && ValidStore(MemoryOf(s), s.current)
    && FilesOk(s)
    && PendingOk(s)
    && LogsOk(s)
    && SequencesOk(s)
    && HistoryOk(s)
  }

  // ----- Steps of writers -----

  /** The leader of a group appends its record to the log. */
  ghost predicate LogRecord(s: Store, r: seq<Entry>, s': Store) {
    && s.logged == [] && Consecutive(r, s.lastSequence)
    && s.logfile in s.disk.logs
    && s' == s.(
         disk := s.disk.(logs := s.disk.logs[s.logfile := s.disk.logs[s.logfile] + r]),
         logged := r,
         history := s.history + SetOf(r))
  }

  /** The record reaches the memtable and the last sequence number moves past it. */
  ghost predicate InsertRecord(s: Store, mem': seq<Entry>, s': Store) {
    && Sorted(mem') && SetOf(mem') == SetOf(s.mem) + SetOf(s.logged)
    && s.lastSequence + |s.logged| <= MAX_SEQUENCE
    && s' == s.(mem := mem', logged := [], lastSequence := s.lastSequence + |s.logged|)
  }

  /** MakeRoomForWrite: a new log and a new memtable; the old one becomes immutable. */
  ghost predicate SwitchMemtable(s: Store, s': Store) {
    && s.logged == [] && s.imm.None?
    && s' == s.(
         disk := s.disk.(logs := s.disk.logs[s.nextFile := []]),
         mem := [], imm := Some(s.mem),
         logfile := s.nextFile, nextFile := s.nextFile + 1)
  }

  // ----- Steps of the background thread -----

  /** A record appended to the manifest, with the counters of the moment. */
  function Appended(s: Store, e: Edit, logNumber: nat, nextFile: nat): Manifest {
    Manifest(s.disk.manifest.edits + [e], logNumber, s.lastSequence, nextFile)
  }

  /** CompactMemTable of a memtable with entries. */
  ghost predicate FlushMemtable(s: Store, level: LevelNumber, f: File, v': Version, s': Store) {
    && s.imm.Some? && f.run == s.imm.value && f.number == s.nextFile
    && MayHold(s.current, level, f)
    && IsVersionAfter(s.current, [FlushEdit(level, f)], v')
    && s' == s.(
         disk := s.disk.(
           tables := s.disk.tables[f.number := f],
           manifest := Appended(s, FlushEdit(level, f), s.logfile, s.nextFile + 1)),
         imm := None, current := v', logNumber := s.logfile, nextFile := s.nextFile + 1)
  }

  /** CompactMemTable of an empty memtable: no table is kept, but a file number is spent. */
  ghost predicate FlushNothing(s: Store, s': Store) {
    && s.imm == Some([])
    && s' == s.(
         disk := s.disk.(manifest := Appended(s, Edit({}, []), s.logfile, s.nextFile + 1)),
         imm := None, logNumber := s.logfile, nextFile := s.nextFile + 1)
  }

  /** A compaction writes one of its output files. */
  ghost predicate WriteTable(s: Store, f: File, s': Store) {
    && f.number == s.nextFile
    && s' == s.(
         disk := s.disk.(tables := s.disk.tables[f.number := f]),
         nextFile := s.nextFile + 1, pending := s.pending + {f.number})
  }

  /** The manifest record of a compaction, and the version it installs. */
  ghost predicate CommitCompaction(s: Store, c: Compaction, outs: Level, written: set<nat>, v': Version, s': Store) {
    && c.level + 1 < NUM_LEVELS
    && IsVersionAfter(s.current, [CompactionEdit(c, outs)], v')
    && s' == s.(
         disk := s.disk.(manifest := Appended(s, CompactionEdit(c, outs), s.logNumber, s.nextFile)),
         current := v', pending := s.pending - written)
  }

  predicate AreWritten(s: Store, outs: Level) {
    forall f | f in outs :: f.number in s.pending && f.number in s.disk.tables && s.disk.tables[f.number] == f
  }

  /**
   InstallCompactionResults: ss was the smallest snapshot when the compaction started, and
   the inputs are as selected in the version it is installed in.  As in the code, nothing is
   asked of the files that share a user key with the largest of the second inputs, and
   nothing is written if ss is the largest sequence number.
   */
  ghost predicate InstallCompaction(s: Store, c: Compaction, m: seq<Entry>, ss: SeqNo, outs: Level, v': Version,
                                    s': Store) {
    && Closed(s.current, c) && Merged(m, c)
    && ss <= SmallestSnapshot(s)
    && Flatten(outs) == Written(s.current, c.level, m, |m|, ss)
    && NumbersName(outs) && AreWritten(s, outs)
    && CommitCompaction(s, c, outs, NumbersOf(outs), v', s')
  }

  /** A trivial move: the one input file changes level. */
  ghost predicate MoveFile(s: Store, c: Compaction, v': Version, s': Store) {
    && Closed(s.current, c) && |c.inputs0| == 1 && c.inputs1 == []
    && CommitCompaction(s, c, c.inputs0, {}, v', s')
  }

  /** A failed compaction gives up its outputs. */
  ghost predicate AbandonTables(s: Store, numbers: set<nat>, s': Store) {
    s' == s.(pending := s.pending - numbers)
  }

  predicate Lists(v: Version, n: nat) {
    exists l, f :: 0 <= l < NUM_LEVELS && f in v[l] && f.number == n
  }

  /** AddLiveFiles: the numbers in any referenced version, and those being written. */
  predicate Live(s: Store, n: nat) {
    n in s.pending || Lists(s.current, n) || exists v: Version :: v in s.pinned && Lists(v, n)
  }

  function LiveTables(s: Store): map<nat, File> {
    map n | n in s.disk.tables && Live(s, n) :: s.disk.tables[n]
  }

  function NeededLogs(s: Store): map<nat, seq<Entry>> {
    map n | n in s.disk.logs && n >= s.logNumber :: s.disk.logs[n]
  }

  /** Tables of no referenced version go, and logs older than the log number. */
  ghost predicate DeleteObsoleteFiles(s: Store, s': Store) {
    s' == s.(disk := Disk(LiveTables(s), NeededLogs(s), s.disk.manifest))
  }

  // ----- Steps of readers -----

  ghost predicate TakeSnapshot(s: Store, s': Store) {
    s' == s.(snapshots := s.snapshots + [s.lastSequence])
  }

  ghost predicate ReleaseSnapshot(s: Store, i: nat, s': Store) {
    i < |s.snapshots| && s' == s.(snapshots := s.snapshots[..i] + s.snapshots[i+1..])
  }

  /** An iterator or a running compaction holds on to the current version; one version may be held several times. */
  ghost predicate PinVersion(s: Store, s': Store) {
    s' == s.(pinned := s.pinned + multiset{s.current})
  }

  ghost predicate UnpinVersion(s: Store, v: Version, s': Store) {
    s' == s.(pinned := s.pinned - multiset{v})
  }
}
