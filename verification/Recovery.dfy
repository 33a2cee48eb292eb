/**
 Crash and recovery: the version is replayed from the manifest, the logs it still
 needs are rebuilt into level-0 tables, and a new manifest and log take over.  A
 crash between any two steps loses no logged write.
 */
module Recovery {
  import opened Wrappers
  import opened Entries
  import opened Versions
  import opened Selection
  import opened Compactions
  import opened Installs
  import opened Builders
  import opened Replay
  import opened Edits
  import opened Preservation
  import opened Stores
  import opened StoreSteps

  // ----- Rebuilding tables from a log -----

  /** Insertion of an entry in a sorted run. */
  function InsertEntry(run: seq<Entry>, e: Entry): (r: seq<Entry>)
    requires Sorted(run) && forall o | o in run :: o.ikey != e.ikey
    ensures Sorted(r)
    ensures SetOf(r) == SetOf(run) + {e}
    ensures |r| == |run| + 1
  {
    if run == [] || Less(e.ikey, run[0].ikey) then
      InsertFirst(run, e);
      [e] + run
    else
      assert run == [run[0]] + run[1..];
      var rest := InsertEntry(run[1..], e);
      InsertLater(run, e, rest);
      [run[0]] + rest
  }

  lemma InsertFirst(run: seq<Entry>, e: Entry)
    requires Sorted(run) && (run != [] ==> Less(e.ikey, run[0].ikey))
    ensures Sorted([e] + run) && SetOf([e] + run) == SetOf(run) + {e}
  {
    assert forall o :: o in [e] + run <==> o == e || o in run;
  }

  lemma InsertLater(run: seq<Entry>, e: Entry, rest: seq<Entry>)
    requires Sorted(run) && run != [] && Less(run[0].ikey, e.ikey)
    requires Sorted(rest) && SetOf(rest) == SetOf(run[1..]) + {e}
    ensures Sorted([run[0]] + rest) && SetOf([run[0]] + rest) == SetOf(run) + {e}
  {
    forall i | 0 <= i < |rest|
      ensures Less(run[0].ikey, rest[i].ikey)
    {
      assert rest[i] in SetOf(rest);
    }
    assert forall o :: o in [run[0]] + rest <==> o == run[0] || o in SetOf(rest);
    assert forall o :: o in run <==> o == run[0] || o in run[1..];
  }

  /** The files hold consecutive pieces of the log. */
  ghost predicate Chunked(files: Level, log: seq<Entry>) {
    if files == [] then log == []
    else exists a :: 0 <= a <= |log| && IsChunk(files, log, a) && Chunked(files[..|files|-1], log[..a])
  }

  predicate IsChunk(files: Level, log: seq<Entry>, a: int)
    requires files != [] && 0 <= a <= |log|
  {
    SetOf(files[|files|-1].run) == SetOf(log[a..])
  }

  predicate NumbersIncrease(files: Level) {
    forall i, j | 0 <= i < j < |files| :: files[i].number < files[j].number
  }

  lemma AppendChunk(files: Level, log: seq<Entry>, a: nat, f: File)
    requires a <= |log| && Chunked(files, log[..a]) && SetOf(f.run) == SetOf(log[a..])
    ensures Chunked(files + [f], log)
  {
    assert (files + [f])[..|files|] == files;
    assert IsChunk(files + [f], log, a);
  }

  lemma FreshEntry(log: seq<Entry>, a: nat, i: nat)
    requires Increasing(log) && a <= i < |log|
    ensures forall o | o in SetOf(log[a..i]) :: o.ikey != log[i].ikey
    ensures SetOf(log[a..i+1]) == SetOf(log[a..i]) + {log[i]}
  {
    assert log[a..i+1] == log[a..i] + [log[i]];
  }

  /** The tables written hold the log so far, under increasing numbers from firstNumber on. */
  ghost predicate TablesOf(files: Level, log: seq<Entry>, firstNumber: nat) {
    && Chunked(files, log) && NumbersIncrease(files)
    && forall f | f in files :: firstNumber <= f.number < firstNumber + |files|
  }

  /** RecoverLogFile: entries go to a memtable that is written out whenever it is full, and at the end. */
  method RebuildTables(log: seq<Entry>, memtableFull: seq<bool>, firstNumber: nat) returns (files: Level)
    requires Increasing(log) && |memtableFull| == |log|
    ensures Chunked(files, log) && NumbersIncrease(files)
    ensures forall f | f in files :: firstNumber <= f.number < firstNumber + |files|
  {
    files := [];
    var mem: seq<Entry> := [];
    ghost var a := 0;
    for i := 0 to |log|
      invariant 0 <= a <= i && Sorted(mem) && SetOf(mem) == SetOf(log[a..i])
      invariant TablesOf(files, log[..a], firstNumber)
    {
      mem := InsertNext(log, a, i, mem);
      if memtableFull[i] {
        files, mem, a := WriteLevelZeroTable(log, files, mem, a, i + 1, firstNumber);
      }
    }
    if mem != [] {
      files, mem, a := WriteLevelZeroTable(log, files, mem, a, |log|, firstNumber);
    } else {
      NothingLeft(log, a);
    }
    assert log[..|log|] == log;
  }

  method InsertNext(log: seq<Entry>, ghost a: nat, i: nat, mem: seq<Entry>) returns (mem': seq<Entry>)
    requires Increasing(log) && a <= i < |log| && Sorted(mem) && SetOf(mem) == SetOf(log[a..i])
    ensures Sorted(mem') && mem' != [] && SetOf(mem') == SetOf(log[a..i+1])
  {
    FreshEntry(log, a, i);
    assert forall o | o in mem :: o in SetOf(mem);
    mem' := InsertEntry(mem, log[i]);
  }

  lemma NothingLeft(log: seq<Entry>, a: nat)
    requires a <= |log| && SetOf(log[a..|log|]) == {}
    ensures a == |log|
  {
    var rest := log[a..|log|];
    var e := if |rest| > 0 then rest[0] else ANY_FILE.run[0];
    assert |rest| > 0 ==> e in SetOf(rest);
  }

  method WriteLevelZeroTable(log: seq<Entry>, files: Level, mem: seq<Entry>, ghost a: nat, ghost i: nat,
                             firstNumber: nat)
    returns (files': Level, mem': seq<Entry>, ghost a': nat)
    requires a <= i <= |log| && mem != [] && Sorted(mem) && SetOf(mem) == SetOf(log[a..i])
    requires TablesOf(files, log[..a], firstNumber)
    ensures a' == i && mem' == []
    ensures TablesOf(files', log[..a'], firstNumber)
  {
    var f: File := FileRep(firstNumber + |files|, |mem|, mem);
    files', mem', a' := files + [f], [], i;
    assert log[..i][..a] == log[..a] && log[..i][a..] == log[a..i];
    AppendChunk(files, log[..i], a, f);
  }

  // ----- Adding the rebuilt tables to level 0 -----

  /** The version with the files added to level 0, one after the other. */
  function WithLevelZero(v: Version, files: Level): (w: Version)
    requires Ordered(v[0])
    ensures Ordered(w[0])
    ensures forall l | 1 <= l < NUM_LEVELS :: w[l] == v[l]
  {
    if files == [] then v
    else
      var u := WithLevelZero(v, files[..|files|-1]);
      u[0 := InsertFile(u[0], files[|files|-1])]
  }

  lemma {:induction false} WithLevelZeroMembers(v: Version, files: Level)
    requires Ordered(v[0]) && NumbersIncrease(files)
    requires forall f, g | f in v[0] && g in files :: f.number < g.number
    ensures forall f :: f in WithLevelZero(v, files)[0] <==> f in v[0] || f in files
  {
    if files != [] {
      var front, last := files[..|files|-1], files[|files|-1];
      WithLevelZeroMembers(v, front);
      assert files == front + [last];
      var u := WithLevelZero(v, front);
      forall g | g in u[0]
        ensures !SamePlace(g, last)
      {
        LastNumberLargest(v, files, g);
        SamePlaceMeans(g, last);
      }
    }
  }

  lemma LastNumberLargest(v: Version, files: Level, g: File)
    requires files != [] && NumbersIncrease(files)
    requires forall f, h | f in v[0] && h in files :: f.number < h.number
    requires g in v[0] || g in files[..|files|-1]
    ensures g.number < files[|files|-1].number
  {
    var front, last := files[..|files|-1], files[|files|-1];
    if g in front {
      var i :| 0 <= i < |front| && front[i] == g;
      assert files[i] == g;
    } else {
      assert last in files;
    }
  }

  lemma {:induction false} ChunkedMembers(files: Level, log: seq<Entry>)
    requires Chunked(files, log)
    ensures EntriesOf(files) == SetOf(log)
  {
    if files != [] {
      var front, last := files[..|files|-1], files[|files|-1];
      var a :| 0 <= a <= |log| && IsChunk(files, log, a) && Chunked(front, log[..a]);
      ChunkedMembers(front, log[..a]);
      assert files == front + [last];
      EntriesOfAppend(front, last);
      assert log == log[..a] + log[a..];
      SetOfConcat(log[..a], log[a..]);
    } else {
      assert EntriesOf(files) == {};
    }
  }

  lemma EntriesOfAppend(files: Level, f: File)
    ensures EntriesOf(files + [f]) == EntriesOf(files) + SetOf(f.run)
  {
    forall e
      ensures e in EntriesOf(files + [f]) <==> e in EntriesOf(files) || e in f.run
    {
      if g :| g in files && e in g.run {
        assert g in files + [f];
      }
      assert f in files + [f];
    }
  }

  lemma LaterIsNewer(log: seq<Entry>, a: nat)
    requires Increasing(log) && a <= |log|
    ensures Newer(SetOf(log[a..]), SetOf(log[..a]))
    ensures Increasing(log[..a])
  {
  }

  /** Adding the rebuilt tables keeps the version well formed and adds exactly the log's entries. */
  lemma {:induction false} RebuiltVersion(v: Version, files: Level, log: seq<Entry>)
    requires Valid(v) && Ordered(v[0]) && Chunked(files, log) && Increasing(log) && NumbersIncrease(files)
    requires Newer(SetOf(log), Contents(v)) && Distinct(SetOf(log) + Contents(v))
    requires forall f, g | f in v[0] && g in files :: f.number < g.number
    ensures Valid(WithLevelZero(v, files))
    ensures Contents(WithLevelZero(v, files)) == Contents(v) + SetOf(log)
  {
    if files == [] {
      assert Contents(v) + SetOf(log) == Contents(v);
    } else {
      var front := files[..|files|-1];
      var a :| 0 <= a <= |log| && IsChunk(files, log, a) && Chunked(front, log[..a]);
      LogPieces(v, log, a);
      assert forall i | 0 <= i < |front| :: front[i] == files[i];
      RebuiltVersion(v, front, log[..a]);
      LastTable(v, files, log, a);
    }
  }

  lemma LastTable(v: Version, files: Level, log: seq<Entry>, a: nat)
    requires files != [] && a <= |log| && IsChunk(files, log, a)
    requires Ordered(v[0]) && Increasing(log) && NumbersIncrease(files)
    requires Newer(SetOf(log), Contents(v)) && Distinct(SetOf(log) + Contents(v))
    requires forall f, g | f in v[0] && g in files :: f.number < g.number
    requires Valid(WithLevelZero(v, files[..|files|-1]))
    requires Contents(WithLevelZero(v, files[..|files|-1])) == Contents(v) + SetOf(log[..a])
    ensures Valid(WithLevelZero(v, files))
    ensures Contents(WithLevelZero(v, files)) == Contents(v) + SetOf(log)
  {
    var last, u := files[|files|-1], WithLevelZero(v, files[..|files|-1]);
    LogPieces(v, log, a);
    AddOneTable(v, files, last, u);
    NewerUnion(Contents(v), SetOf(log[..a]), SetOf(last.run));
    assert SetOf(last.run) + Contents(u) == SetOf(log) + Contents(v);
    FlushKeepsValid(u, 0, last, WithLevelZero(v, files));
    FlushContents(u, 0, last, WithLevelZero(v, files));
  }

  lemma LogPieces(v: Version, log: seq<Entry>, a: nat)
    requires Increasing(log) && a <= |log|
    requires Newer(SetOf(log), Contents(v)) && Distinct(SetOf(log) + Contents(v))
    ensures SetOf(log) == SetOf(log[..a]) + SetOf(log[a..])
    ensures Newer(SetOf(log[a..]), SetOf(log[..a])) && Increasing(log[..a])
    ensures Newer(SetOf(log[..a]), Contents(v)) && Newer(SetOf(log[a..]), Contents(v))
    ensures Distinct(SetOf(log[..a]) + Contents(v))
  {
    assert log == log[..a] + log[a..];
    SetOfConcat(log[..a], log[a..]);
    LaterIsNewer(log, a);
    DistinctSubset(SetOf(log) + Contents(v), SetOf(log[..a]) + Contents(v));
  }

  lemma AddOneTable(v: Version, files: Level, last: File, u: Version)
    requires files != [] && last == files[|files|-1] && NumbersIncrease(files)
    requires Ordered(v[0]) && forall f, g | f in v[0] && g in files :: f.number < g.number
    requires u == WithLevelZero(v, files[..|files|-1])
    ensures FlushInstalled(u, 0, last, WithLevelZero(v, files)) && MayHold(u, 0, last)
    ensures forall g | g in u[0] :: g.number < last.number
  {
    var front := files[..|files|-1];
    assert forall i | 0 <= i < |front| :: front[i] == files[i];
    WithLevelZeroMembers(v, front);
    WithLevelZeroMembers(v, files);
    assert files == front + [last];
    NumbersBelowLast(v, files, u);
  }

  lemma NumbersBelowLast(v: Version, files: Level, u: Version)
    requires files != [] && NumbersIncrease(files)
    requires forall f, g | f in v[0] && g in files :: f.number < g.number
    requires forall g | g in u[0] :: g in v[0] || g in files[..|files|-1]
    ensures forall g | g in u[0] :: g.number < files[|files|-1].number
  {
    forall g | g in u[0]
      ensures g.number < files[|files|-1].number
    {
      LastNumberLargest(v, files, g);
    }
  }

  lemma RebuiltIsAfter(v: Version, files: Level, v': Version)
    requires IsVersionAfter(v, [LevelZeroEdit(files)], v') && Ordered(v[0]) && NumbersIncrease(files)
    requires forall l: LevelNumber :: Ordered(v[l])
    requires forall f, g | f in v[0] && g in files :: f.number < g.number
    ensures v' == WithLevelZero(v, files)
  {
    WithLevelZeroMembers(v, files);
    var w := WithLevelZero(v, files);
    forall l: LevelNumber
      ensures v'[l] == w[l]
    {
      forall f
        ensures f in v'[l] <==> f in w[l]
      {
        IncreasingName(files);
        AddedFilesOnly(v, 0, files, l, f);
      }
      OrderedUnique(v'[l], w[l]);
    }
  }

  // ----- What a crash leaves, and what recovery makes of it -----

  /** The last sequence number that recovery finds in the manifest and the logs. */
  predicate IsRecoveredSequence(d: Disk, log: seq<Entry>, last: SeqNo) {
    && d.manifest.lastSequence <= last && SeqnosUpTo(SetOf(log), last)
    && (last == d.manifest.lastSequence || exists e :: e in log && e.ikey.seqno == last)
  }

  /**
   The disk stands for the history h: replaying the manifest gives v, the logs still
   needed (all numbered below bound) list log, and together they answer reads at the
   last sequence number as h does.
   */
  ghost predicate Recoverable(d: Disk, v: Version, log: seq<Entry>, bound: nat, last: SeqNo, h: set<Entry>) {
    && Describes(d.manifest, v) && TablesPresent(d.tables, v) && Valid(v)
    && d.manifest.logNumber < d.manifest.nextFile
    && (forall n | n in d.logs :: n < bound)
    && log == ReplayLogs(d.logs, d.manifest.logNumber, bound)
    && Increasing(log) && Newer(SetOf(log), Contents(v)) && Distinct(SetOf(log) + Contents(v))
    && IsRecoveredSequence(d, log, last)
    && Distinct(h) && SeqnosUpTo(h, last)
    && Agrees(SetOf(log) + Contents(v), h, last, last)
  }

  /** Reads at the last logged sequence number, were the record in flight already inserted. */
  lemma LoggedReadsAgree(s: Store, last: SeqNo)
    requires Inv(s) && last == s.lastSequence + |s.logged|
    ensures Distinct(Held(s) + SetOf(s.logged))
    ensures Agrees(Held(s) + SetOf(s.logged), s.history, last, last)
    ensures SeqnosUpTo(s.history, last) && SeqnosUpTo(Held(s) + SetOf(s.logged), last)
  {
    var r := SetOf(s.logged);
    var b := s.history - r;
    RecordDistinct(Held(s), s.logged, s.lastSequence);
    assert b + r == s.history;
    forall k: UserKey, snap: SeqNo | SmallestSnapshot(s) <= snap <= s.lastSequence
      ensures Lookup(Held(s), k, snap).Visible() == Lookup(b, k, snap).Visible()
    {
      ReadBelow(b, r, k, snap);
    }
    AgreesExtend(Held(s), b, r, SmallestSnapshot(s), s.lastSequence, last);
    AgreesLater(Held(s) + r, s.history, SmallestSnapshot(s), last, last);
    forall e | e in s.logged
      ensures e.ikey.seqno <= last
    {
      var i :| 0 <= i < |s.logged| && s.logged[i] == e;
    }
  }

  lemma LastSequenceOnDisk(s: Store, log: seq<Entry>, last: SeqNo)
    requires SequencesOk(s) && s.disk.manifest.lastSequence <= s.lastSequence
    requires last == s.lastSequence + |s.logged| && SeqnosUpTo(SetOf(log), last)
    requires SetOf(log) == SetOf(ImmRun(s)) + SetOf(s.mem) + SetOf(s.logged)
    ensures IsRecoveredSequence(s.disk, log, last)
  {
    if s.logged != [] {
      var e := s.logged[|s.logged|-1];
      assert e in SetOf(s.logged) && e in SetOf(log);
    } else if e :| e in SetOf(s.mem) + SetOf(ImmRun(s)) && e.ikey.seqno == s.lastSequence {
      assert e in SetOf(log);
    }
  }

  /** The sequence number after the record in flight is in range. */
  lemma LastLogged(s: Store)
    requires Consecutive(s.logged, s.lastSequence)
    ensures s.lastSequence + |s.logged| <= MAX_SEQUENCE
  {
    if s.logged != [] {
      var e := s.logged[|s.logged|-1];
    }
  }

  lemma NeededLogIsNewer(s: Store, log: seq<Entry>)
    requires ValidStore(MemoryOf(s), s.current) && SeqnosUpTo(Held(s), s.lastSequence)
    requires SeqnosAfter(SetOf(s.logged), s.lastSequence)
    requires SetOf(log) == SetOf(ImmRun(s)) + SetOf(s.mem) + SetOf(s.logged)
    ensures Newer(SetOf(log), Contents(s.current))
  {
    NewRecordIsNewer(Contents(s.current), SetOf(s.logged), s.lastSequence);
    NewerUnion(SetOf(ImmRun(s)), SetOf(s.mem), Contents(s.current));
    NewerUnion(SetOf(ImmRun(s)) + SetOf(s.mem), SetOf(s.logged), Contents(s.current));
  }

  /** In every state the disk alone stands for everything logged so far. */
  lemma DiskStandsForHistory(s: Store)
    requires Inv(s)
    ensures s.lastSequence + |s.logged| <= MAX_SEQUENCE
    ensures Recoverable(s.disk, s.current, ReplayLogs(s.disk.logs, s.logNumber, s.logfile + 1), s.logfile + 1,
                        s.lastSequence + |s.logged|, s.history)
  {
    LastLogged(s);
    var last := s.lastSequence + |s.logged|;
    var log := ReplayLogs(s.disk.logs, s.logNumber, s.logfile + 1);
    LoggedReadsAgree(s, last);
    RecordDistinct(Held(s), s.logged, s.lastSequence);
    NeededLogEntries(s);
    assert SetOf(log) + Contents(s.current) == Held(s) + SetOf(s.logged);
    NeededLogIsNewer(s, log);
    LastSequenceOnDisk(s, log, last);
  }

  /**
   DB::Open on a disk: v is the replayed version, files are the tables rebuilt from
   the logs, and newLog is the log it starts.
   */
  ghost predicate Recovers(d: Disk, v: Version, log: seq<Entry>, bound: nat, last: SeqNo, h: set<Entry>,
                           snapshot: Edit, files: Level, newLog: nat, v': Version, s': Store)
  {
    && Chunked(files, log) && NumbersIncrease(files)
    && (forall f | f in files :: d.manifest.nextFile <= f.number < newLog)
    && bound <= newLog && d.manifest.nextFile <= newLog
    && IsSnapshot(snapshot, v)
    && IsVersionAfter(v, [LevelZeroEdit(files)], v')
    && s' == Store(
         Disk(
           WithTables(d.tables, files),
           d.logs[newLog := []],
           Manifest([snapshot, LevelZeroEdit(files)], newLog, last, newLog + 1)),
         [], None, v', multiset{}, newLog, newLog, newLog + 1, last, [], {}, [], h)
  }

  function WithTables(tables: map<nat, File>, files: Level): map<nat, File> {
    if files == [] then tables
    else WithTables(tables, files[..|files|-1])[files[|files|-1].number := files[|files|-1]]
  }

  lemma {:induction false} WithTablesKeeps(tables: map<nat, File>, files: Level, v: Version, bound: nat)
    requires TablesPresent(tables, v) && NumbersBelow(v, bound) && forall f | f in files :: bound <= f.number
    ensures TablesPresent(WithTables(tables, files), v)
  {
    if files != [] {
      var front, last := files[..|files|-1], files[|files|-1];
      assert last in files && forall g | g in front :: g in files;
      WithTablesKeeps(tables, front, v, bound);
      NumbersBelowLater(v, bound, last.number);
      NewTableKeepsOthers(WithTables(tables, front), last, v);
    }
  }

  lemma NumbersBelowLater(v: Version, bound: nat, bound': nat)
    requires NumbersBelow(v, bound) && bound <= bound'
    ensures NumbersBelow(v, bound')
  {
  }

  lemma {:induction false} WithTablesHolds(tables: map<nat, File>, files: Level)
    requires NumbersIncrease(files)
    ensures forall f | f in files :: f.number in WithTables(tables, files) && WithTables(tables, files)[f.number] == f
  {
    if files != [] {
      var front, last := files[..|files|-1], files[|files|-1];
      assert forall i | 0 <= i < |front| :: front[i] == files[i];
      WithTablesHolds(tables, front);
      forall f | f in files
        ensures f.number in WithTables(tables, files) && WithTables(tables, files)[f.number] == f
      {
        var i :| 0 <= i < |files| && files[i] == f;
        if i < |front| {
          assert f in front && f.number < last.number;
        }
      }
    }
  }

  lemma DescribedBelow(m: Manifest, v: Version)
    requires Describes(m, v)
    ensures NumbersBelow(v, m.nextFile)
  {
    forall l, f | 0 <= l < NUM_LEVELS && f in v[l]
      ensures f.number < m.nextFile
    {
      VersionFilesWereAdded(m.edits, v, l, f);
    }
  }

  lemma DescribedApart(m: Manifest, v: Version)
    requires Describes(m, v)
    ensures forall l: LevelNumber :: PlacesApart(v[l])
  {
    forall l: LevelNumber
      ensures PlacesApart(v[l])
    {
      OrderedApart(v[l]);
    }
  }

  lemma IncreasingName(files: Level)
    requires NumbersIncrease(files)
    ensures NumbersName(files)
  {
  }

  lemma SnapshotHistory(v: Version, snapshot: Edit)
    requires IsSnapshot(snapshot, v) && forall l: LevelNumber :: NumbersName(v[l])
    ensures FreshHistory(EMPTY_VERSION, [snapshot])
    ensures forall l: LevelNumber :: AddedSoFar([snapshot], l) == v[l]
  {
    assert [snapshot][..0] == [];
    assert FreshHistory(EMPTY_VERSION, []);
    forall l: LevelNumber
      ensures FreshAt(EMPTY_VERSION[l], AddedSoFar([], l), AddedAt(snapshot.added, l))
      ensures AddedSoFar([snapshot], l) == v[l]
    {
      assert AddedAt(snapshot.added, l) == v[l] && AddedSoFar([], l) == [];
      assert [] + v[l] == v[l];
    }
  }

  /** The snapshot that a new manifest starts with describes the same version. */
  lemma SnapshotDescribes(m: Manifest, v: Version, snapshot: Edit, m': Manifest)
    requires Describes(m, v) && IsSnapshot(snapshot, v)
    requires m'.edits == [snapshot] && m.nextFile <= m'.nextFile && m.lastSequence <= m'.lastSequence
    ensures Describes(m', v)
  {
    SnapshotHistory(v, snapshot);
    DescribedApart(m, v);
    SnapshotRebuilds(v, snapshot, [], v);
    forall l: LevelNumber, k: LevelNumber, f, g | l < k && f in v[l] && g in AddedSoFar(m'.edits, k)
      ensures f.number != g.number
    {
      VersionFilesWereAdded(m.edits, v, k, g);
    }
    forall k: LevelNumber, g | g in AddedSoFar(m'.edits, k)
      ensures g.number < m'.nextFile
    {
      VersionFilesWereAdded(m.edits, v, k, g);
    }
  }

  lemma LevelZeroAddsAt(files: Level)
    ensures AddsAt(LevelZeroEdit(files), 0, files)
  {
    forall l: LevelNumber
      ensures forall g :: g in AddedAt(LevelZeroEdit(files).added, l) <==> l == 0 && g in files
    {
      TagFilesMembers(0, files, l);
    }
  }

  lemma RebuiltNumbersFree(m: Manifest, v: Version, files: Level, v': Version, bound: nat)
    requires Describes(m, v) && NumbersIncrease(files)
    requires forall f | f in files :: m.nextFile <= f.number < bound
    ensures FreeNumbers(v', m.edits, 0, files, bound)
    ensures forall l, f, g | 0 <= l < NUM_LEVELS && f in v[l] && g in files :: f.number < g.number
  {
    DescribedBelow(m, v);
  }

  /** The manifest that recovery writes describes the recovered version. */
  lemma RecoveredManifest(m: Manifest, v: Version, snapshot: Edit, files: Level, v': Version, m': Manifest)
    requires Describes(m, v) && IsSnapshot(snapshot, v) && NumbersIncrease(files)
    requires forall f | f in files :: m.nextFile <= f.number < m'.nextFile
    requires IsVersionAfter(v, [LevelZeroEdit(files)], v')
    requires m'.edits == [snapshot, LevelZeroEdit(files)]
    requires m.nextFile <= m'.nextFile && m.lastSequence <= m'.lastSequence
    requires SeqnosUpTo(Contents(v'), m'.lastSequence)
    ensures Describes(m', v')
  {
    var mid := Manifest([snapshot], m.logNumber, m.lastSequence, m.nextFile);
    SnapshotDescribes(m, v, snapshot, mid);
    LevelZeroAddsAt(files);
    RebuiltNumbersFree(mid, v, files, v', m'.nextFile);
    assert [snapshot] + [LevelZeroEdit(files)] == m'.edits;
    forall l: LevelNumber, f | f in v'[l]
      ensures f in v[l] || (l == 0 && f in files)
    {
      IncreasingName(files);
      AddedFilesOnly(v, 0, files, l, f);
    }
    DescribesAppend(mid, v, LevelZeroEdit(files), 0, files, v', m');
  }

  lemma RecoveredVersion(d: Disk, v: Version, log: seq<Entry>, files: Level, v': Version)
    requires Describes(d.manifest, v) && Valid(v)
    requires Increasing(log) && Newer(SetOf(log), Contents(v)) && Distinct(SetOf(log) + Contents(v))
    requires Chunked(files, log) && NumbersIncrease(files)
    requires forall f | f in files :: d.manifest.nextFile <= f.number
    requires IsVersionAfter(v, [LevelZeroEdit(files)], v')
    ensures Valid(v') && Contents(v') == SetOf(log) + Contents(v)
  {
    DescribedBelow(d.manifest, v);
    RebuiltIsAfter(v, files, v');
    RebuiltVersion(v, files, log);
  }

  lemma RecoveredTables(d: Disk, v: Version, files: Level, v': Version)
    requires Describes(d.manifest, v) && TablesPresent(d.tables, v) && NumbersIncrease(files)
    requires forall f | f in files :: d.manifest.nextFile <= f.number
    requires IsVersionAfter(v, [LevelZeroEdit(files)], v')
    ensures TablesPresent(WithTables(d.tables, files), v')
  {
    DescribedBelow(d.manifest, v);
    WithTablesKeeps(d.tables, files, v, d.manifest.nextFile);
    WithTablesHolds(d.tables, files);
    forall l: LevelNumber, f | f in v'[l]
      ensures f in v[l] || (l == 0 && f in files)
    {
      IncreasingName(files);
      AddedFilesOnly(v, 0, files, l, f);
    }
    TablesStayPresent(WithTables(d.tables, files), v, 0, files, v');
  }

  lemma RecoveredLogs(s': Store)
    requires s'.logNumber == s'.logfile && s'.logfile in s'.disk.logs && s'.disk.logs[s'.logfile] == []
    requires s'.logfile < s'.nextFile && forall n | n in s'.disk.logs :: n <= s'.logfile
    requires s'.mem == [] && s'.imm.None? && s'.logged == []
    ensures LogsOk(s')
  {
    ReplayAll(s'.disk.logs, s'.logfile, s'.logfile);
  }

  /**
   Recovery restores the invariant, and the recovered store answers every read at the
   last sequence number from the whole history, the record in flight at the crash included.
   */
  lemma RecoveryRestores(d: Disk, v: Version, log: seq<Entry>, bound: nat, last: SeqNo, h: set<Entry>,
                         snapshot: Edit, files: Level, newLog: nat, v': Version, s': Store)
    requires Recoverable(d, v, log, bound, last, h)
    requires Recovers(d, v, log, bound, last, h, snapshot, files, newLog, v', s')
    ensures Inv(s')
    ensures s'.history == h && s'.lastSequence == last && Held(s') == SetOf(log) + Contents(v)
  {
    RecoveredVersion(d, v, log, files, v');
    RecoveredSequences(d, v, log, last, v');
    RecoveredManifest(d.manifest, v, snapshot, files, v', s'.disk.manifest);
    RecoveredTables(d, v, files, v');
    RecoveredLogs(s');
    RecoveredReads(s', SetOf(log) + Contents(v), h);
  }

  lemma RecoveredSequences(d: Disk, v: Version, log: seq<Entry>, last: SeqNo, v': Version)
    requires Contents(v') == SetOf(log) + Contents(v)
    requires IsRecoveredSequence(d, log, last) && SeqnosUpTo(Contents(v), d.manifest.lastSequence)
    ensures SeqnosUpTo(Contents(v'), last)
  {
  }

  lemma RecoveredReads(s': Store, contents: set<Entry>, h: set<Entry>)
    requires s'.mem == [] && s'.imm.None? && s'.logged == [] && s'.snapshots == [] && s'.history == h
    requires Valid(s'.current) && Contents(s'.current) == contents
    requires SeqnosUpTo(contents, s'.lastSequence) && s'.disk.manifest.lastSequence == s'.lastSequence
    requires Distinct(h) && SeqnosUpTo(h, s'.lastSequence) && Agrees(contents, h, s'.lastSequence, s'.lastSequence)
    ensures ValidStore(MemoryOf(s'), s'.current) && SequencesOk(s') && HistoryOk(s')
    ensures Held(s') == contents
  {
    assert Held(s') == Contents(s'.current);
    assert SmallestSnapshot(s') == s'.lastSequence;
    assert h - SetOf(s'.logged) == h;
  }

  /** A recovery cut short leaves only unreferenced tables and an empty log: the disk stands for the same history. */
  lemma UnfinishedRecoveryHarmless(d: Disk, v: Version, log: seq<Entry>, bound: nat, last: SeqNo, h: set<Entry>,
                                   files: Level, newLog: nat)
    requires Recoverable(d, v, log, bound, last, h) && bound <= newLog && NumbersIncrease(files)
    requires forall f | f in files :: d.manifest.nextFile <= f.number
    ensures Recoverable(Disk(WithTables(d.tables, files), d.logs[newLog := []], d.manifest), v, log, newLog + 1, last,
            h)
  {
    var d' := Disk(WithTables(d.tables, files), d.logs[newLog := []], d.manifest);
    DescribedBelow(d.manifest, v);
    WithTablesKeeps(d.tables, files, v, d.manifest.nextFile);
    EmptyLogAddsNothing(d.logs, d.manifest.logNumber, bound, newLog);
  }

  lemma EmptyLogAddsNothing(logs: map<nat, seq<Entry>>, first: nat, bound: nat, newLog: nat)
    requires bound <= newLog && forall n | n in logs :: n < bound
    ensures ReplayLogs(logs[newLog := []], first, newLog + 1) == ReplayLogs(logs, first, bound)
  {
    if first <= newLog {
      ReplayAll(logs[newLog := []], first, newLog);
      ReplayCongruent(logs[newLog := []], logs, first, newLog);
      if first <= bound {
        ReplayNothing(logs, first, bound, newLog);
      } else {
        ReplayNothing(logs, first, first, newLog);
      }
    }
  }
}
