/**
 Whole runs of the store, with crashes between any two steps.  In every state of a run
 reads at the present and at live snapshots are answered as the history of logged writes
 answers them, exactly if no step of the run installs a compaction that changes a read.
 In such a run repeated reads at a snapshot agree, and no logged write is ever lost.
 BoundaryKept is enough for it: no file left in the output level goes on with the largest
 user key of the second inputs, and some sequence number is larger than the smallest
 snapshot.  The code sees to neither.
 */
module Runs {
  import opened Wrappers
  import opened Entries
  import opened Versions
  import opened Selection
  import opened Compactions
  import opened Installs
  import opened Builders
  import opened Replay
  import opened Edits
  import opened Preservation
  import opened Stores
  import opened StoreSteps
  import opened Recovery

  /** A recovery that stopped after writing some tables and its new log. */
  datatype Attempt = Attempt(files: Level, newLog: nat)

  datatype Action =
    | Log(record: seq<Entry>)
    | Insert(mem: seq<Entry>)
    | Switch
    | Flush(level: LevelNumber, file: File, version: Version)
    | FlushEmpty
    | Write(file: File)
    | Install(c: Compaction, merged: seq<Entry>, ss: SeqNo, outs: Level, version: Version)
    | Move(c: Compaction, version: Version)
    | Abandon(numbers: set<nat>)
    | Delete
    | Snapshot
    | Release(index: nat)
    | Pin
    | Unpin(version: Version)
    | Crash(attempts: seq<Attempt>, snapshot: Edit, files: Level, newLog: nat, version: Version)

  // ----- Crashes -----

  function LogBound(s: Store, attempts: seq<Attempt>): nat {
    if attempts == [] then s.logfile + 1 else attempts[|attempts|-1].newLog + 1
  }

  function DiskAfter(d: Disk, attempts: seq<Attempt>): Disk {
    if attempts == [] then d
    else
      var before := DiskAfter(d, attempts[..|attempts|-1]);
      var a := attempts[|attempts|-1];
      Disk(WithTables(before.tables, a.files), before.logs[a.newLog := []], before.manifest)
  }

  ghost predicate AttemptsOk(s: Store, attempts: seq<Attempt>) {
    attempts != [] ==>
      var front, a := attempts[..|attempts|-1], attempts[|attempts|-1];
      && AttemptsOk(s, front)
      && LogBound(s, front) <= a.newLog && NumbersIncrease(a.files)
      && forall f | f in a.files :: s.disk.manifest.nextFile <= f.number
  }

  lemma {:induction false} AttemptsHarmless(s: Store, attempts: seq<Attempt>, log: seq<Entry>, last: SeqNo)
    requires Recoverable(s.disk, s.current, log, s.logfile + 1, last, s.history) && AttemptsOk(s, attempts)
    ensures Recoverable(DiskAfter(s.disk, attempts), s.current, log, LogBound(s, attempts), last, s.history)
    ensures DiskAfter(s.disk, attempts).manifest == s.disk.manifest
  {
    if attempts != [] {
      var front, a := attempts[..|attempts|-1], attempts[|attempts|-1];
      AttemptsHarmless(s, front, log, last);
      UnfinishedRecoveryHarmless(DiskAfter(s.disk, front), s.current, log, LogBound(s, front), last, s.history, a.files,
          a.newLog);
    }
  }

  /** A crash in state s, some unfinished recoveries, and one that completes. */
  ghost predicate CrashAndRecover(s: Store, attempts: seq<Attempt>, snapshot: Edit, files: Level, newLog: nat,
                                  v': Version, s': Store) {
    && AttemptsOk(s, attempts)
    && exists v: Version, log: seq<Entry>, last: SeqNo ::
         && IsVersionAfter(EMPTY_VERSION, s.disk.manifest.edits, v)
         && log == ReplayLogs(DiskAfter(s.disk, attempts).logs, s.disk.manifest.logNumber, LogBound(s, attempts))
         && IsRecoveredSequence(DiskAfter(s.disk, attempts), log, last)
         && Recovers(DiskAfter(s.disk, attempts), v, log, LogBound(s, attempts), last, s.history, snapshot, files,
              newLog, v', s')
  }

  lemma RecoveredSequenceUnique(d: Disk, log: seq<Entry>, a: SeqNo, b: SeqNo)
    requires IsRecoveredSequence(d, log, a) && IsRecoveredSequence(d, log, b)
    ensures a == b
  {
    assert forall e | e in log :: e in SetOf(log);
  }

  /** What recovery reads off a disk is determined by the disk. */
  lemma RecoveredUnique(d: Disk, v: Version, log: seq<Entry>, bound: nat, last: SeqNo, h: set<Entry>, w: Version,
                        last': SeqNo)
    requires Recoverable(d, v, log, bound, last, h)
    requires IsVersionAfter(EMPTY_VERSION, d.manifest.edits, w) && IsRecoveredSequence(d, log, last')
    ensures w == v && last' == last && log == ReplayLogs(d.logs, d.manifest.logNumber, bound)
  {
    VersionAfterUnique(EMPTY_VERSION, d.manifest.edits, w, v);
    RecoveredSequenceUnique(d, log, last', last);
  }

  lemma RecoverableLog(d: Disk, v: Version, log: seq<Entry>, bound: nat, last: SeqNo, h: set<Entry>)
    requires Recoverable(d, v, log, bound, last, h)
    ensures log == ReplayLogs(d.logs, d.manifest.logNumber, bound)
  {
  }

  lemma CrashRestores(s: Store, log: seq<Entry>, last: SeqNo,
                      attempts: seq<Attempt>, snapshot: Edit, files: Level, newLog: nat, v': Version, s': Store)
    requires Recoverable(s.disk, s.current, log, s.logfile + 1, last, s.history)
    requires CrashAndRecover(s, attempts, snapshot, files, newLog, v', s')
    ensures Inv(s')
    ensures s'.history == s.history && s'.lastSequence == last
    ensures Held(s') == SetOf(log) + Contents(s.current)
  {
    AttemptsHarmless(s, attempts, log, last);
    var d, bound := DiskAfter(s.disk, attempts), LogBound(s, attempts);
    RecoverableLog(d, s.current, log, bound, last, s.history);
    var v: Version, log': seq<Entry>, last': SeqNo :|
      && IsVersionAfter(EMPTY_VERSION, s.disk.manifest.edits, v)
      && log' == ReplayLogs(d.logs, s.disk.manifest.logNumber, bound)
      && IsRecoveredSequence(d, log', last')
      && Recovers(d, v, log', bound, last', s.history, snapshot, files, newLog, v', s');
    RecoveredUnique(d, s.current, log, bound, last, s.history, v, last');
    RecoveryRestores(d, v, log, bound, last, s.history, snapshot, files, newLog, v', s');
  }

  lemma NeededEntries(s: Store)
    requires LogsOk(s)
    ensures SetOf(ReplayLogs(s.disk.logs, s.logNumber, s.logfile + 1)) + Contents(s.current) ==
            Held(s) + SetOf(s.logged)
  {
    NeededLogEntries(s);
  }

  lemma InvLogs(s: Store)
    requires Inv(s)
    ensures LogsOk(s)
  {
  }

  /** A crash loses nothing: the recovered store holds what was held and what was logged. */
  lemma CrashKeepsInv(s: Store, attempts: seq<Attempt>, snapshot: Edit, files: Level, newLog: nat, v': Version,
                      s': Store)
    requires Inv(s) && CrashAndRecover(s, attempts, snapshot, files, newLog, v', s')
    ensures Inv(s')
    ensures s'.history == s.history && s'.lastSequence == s.lastSequence + |s.logged|
    ensures Held(s') == Held(s) + SetOf(s.logged)
  {
    DiskStandsForHistory(s);
    CrashRestores(s, ReplayLogs(s.disk.logs, s.logNumber, s.logfile + 1), s.lastSequence + |s.logged|,
                  attempts, snapshot, files, newLog, v', s');
    InvLogs(s);
    NeededEntries(s);
  }

  // ----- One step of anything -----

  ghost predicate Step(s: Store, a: Action, s': Store) {
    match a
    case Log(r) => LogRecord(s, r, s')
    case Insert(mem) => InsertRecord(s, mem, s')
    case Switch => SwitchMemtable(s, s')
    case Flush(level, f, v) => FlushMemtable(s, level, f, v, s')
    case FlushEmpty => FlushNothing(s, s')
    case Write(f) => WriteTable(s, f, s')
    case Install(c, m, ss, outs, v) => InstallCompaction(s, c, m, ss, outs, v, s')
    case Move(c, v) => MoveFile(s, c, v, s')
    case Abandon(numbers) => AbandonTables(s, numbers, s')
    case Delete => DeleteObsoleteFiles(s, s')
    case Snapshot => TakeSnapshot(s, s')
    case Release(i) => ReleaseSnapshot(s, i, s')
    case Pin => PinVersion(s, s')
    case Unpin(v) => UnpinVersion(s, v, s')
    case Crash(attempts, snapshot, files, newLog, v) => CrashAndRecover(s, attempts, snapshot, files, newLog, v, s')
  }

  /** The hypothesis on a step: installing a compaction changes no read that can still be asked for. */
  ghost predicate StepKeepsReads(s: Store, a: Action) {
    a.Install? && a.c.level + 1 < NUM_LEVELS ==>
      !ReadChanges(Held(s), s.current, a.c, a.merged, a.ss, SmallestSnapshot(s))
  }

  /** A condition on the inputs that is enough for it. */
  ghost predicate BoundaryKept(s: Store, a: Action) {
    a.Install? ==> BoundaryClosed(s.current, a.c) && a.ss < MAX_SEQUENCE
  }

  lemma BoundaryKeepsReads(s: Store, a: Action, s': Store)
    requires Inv(s) && Step(s, a, s') && BoundaryKept(s, a)
    ensures StepKeepsReads(s, a)
  {
    if a.Install? {
      ClosedChangesNothing(Held(s), s.current, a.c, a.merged, a.ss, SmallestSnapshot(s));
    }
  }

  /** A step keeps the invariant exactly if it keeps the reads. */
  lemma StepKeepsInvIff(s: Store, a: Action, s': Store)
    requires Inv(s) && Step(s, a, s')
    ensures StepKeepsReads(s, a) <==> AnswersHistory(s')
    ensures StepKeepsReads(s, a) <==> Inv(s')
  {
    if a.Install? {
      InstallKeepsInvIff(s, a.c, a.merged, a.ss, a.outs, a.version, s');
    } else {
      OtherStepKeepsInv(s, a, s');
    }
  }

  lemma OtherStepKeepsInv(s: Store, a: Action, s': Store)
    requires Inv(s) && Step(s, a, s') && !a.Install?
    ensures Inv(s')
  {
    match a
    case Log(r) => LogRecordKeepsInv(s, r, s');
    case Insert(mem) => InsertRecordKeepsInv(s, mem, s');
    case Switch => SwitchMemtableKeepsInv(s, s');
    case Flush(level, f, v) => FlushMemtableKeepsInv(s, level, f, v, s');
    case FlushEmpty => FlushNothingKeepsInv(s, s');
    case Write(f) => WriteTableKeepsInv(s, f, s');
    case Move(c, v) => MoveFileKeepsInv(s, c, v, s');
    case Abandon(numbers) => AbandonTablesKeepsInv(s, numbers, s');
    case Delete => DeleteObsoleteFilesKeepsInv(s, s');
    case Snapshot => TakeSnapshotKeepsInv(s, s');
    case Release(i) => ReleaseSnapshotKeepsInv(s, i, s');
    case Pin => PinVersionKeepsInv(s, s');
    case Unpin(v) => UnpinVersionKeepsInv(s, v, s');
    case Crash(attempts, snapshot, files, newLog, v) => CrashKeepsInv(s, attempts, snapshot, files, newLog, v, s');
  }

  /** The history only grows, and only by entries newer than everything readable before. */
  ghost predicate Extends(s: Store, s': Store) {
    && s.history <= s'.history
    && SeqnosAfter(s'.history - s.history, s.lastSequence)
    && s.lastSequence <= s'.lastSequence
  }

  lemma StepExtends(s: Store, a: Action, s': Store)
    requires Inv(s) && Step(s, a, s')
    ensures Extends(s, s')
  {
    match a
    case Log(r) =>
      forall e | e in s'.history - s.history
        ensures s.lastSequence < e.ikey.seqno
      {
        var i :| 0 <= i < |r| && r[i] == e;
      }
    case Crash(attempts, snapshot, files, newLog, v) =>
      CrashKeepsInv(s, attempts, snapshot, files, newLog, v, s');
    case _ =>
  }

  // ----- Runs -----

  /** A new database: an empty manifest, and the first recovery. */
  const NEW_DISK := Disk(map[], map[], Manifest([Edit({}, [])], 0, 0, 2))

  ghost predicate Init(s: Store) {
    exists snapshot, newLog, v' :: Recovers(NEW_DISK, EMPTY_VERSION, [], 0, 0, {}, snapshot, [], newLog, v', s)
  }

  lemma EmptyEdits(l: LevelNumber)
    ensures AddedSoFar([Edit({}, [])], l) == [] && AddedAt([], l) == []
    ensures forall f :: !HasAfter(EMPTY_VERSION[l], [Edit({}, [])], l, f)
  {
    assert [Edit({}, [])][..0] == [];
    assert AddedSoFar([], l) == [];
  }

  lemma EmptyHistory()
    ensures FreshHistory(EMPTY_VERSION, [Edit({}, [])])
  {
    assert [Edit({}, [])][..0] == [];
    assert FreshHistory(EMPTY_VERSION, []);
  }

  lemma EmptyContents()
    ensures forall l | 0 <= l < NUM_LEVELS :: EMPTY_VERSION[l] == [] && EntriesOf(EMPTY_VERSION[l]) == {}
    ensures Contents(EMPTY_VERSION) == {}
  {
  }

  lemma EmptyValid()
    ensures Valid(EMPTY_VERSION)
  {
    EmptyContents();
  }

  lemma EmptyDescribed(m: Manifest)
    requires m.edits == [Edit({}, [])]
    ensures Describes(m, EMPTY_VERSION)
  {
    EmptyContents();
    EmptyHistory();
    forall l: LevelNumber
      ensures AddedSoFar(m.edits, l) == [] && forall f :: !HasAfter(EMPTY_VERSION[l], m.edits, l, f)
    {
      EmptyEdits(l);
    }
  }

  lemma NewDiskRecoverable()
    ensures Recoverable(NEW_DISK, EMPTY_VERSION, [], 0, 0, {})
  {
    EmptyDescribed(NEW_DISK.manifest);
    EmptyValid();
    EmptyContents();
    var none: set<Entry> := {};
    assert SetOf([]) + Contents(EMPTY_VERSION) == none;
  }

  lemma InitKeepsInv(s: Store)
    requires Init(s)
    ensures Inv(s)
  {
    var snapshot, newLog, v' :| Recovers(NEW_DISK, EMPTY_VERSION, [], 0, 0, {}, snapshot, [], newLog, v', s);
    NewDiskRecoverable();
    RecoveryRestores(NEW_DISK, EMPTY_VERSION, [], 0, 0, {}, snapshot, [], newLog, v', s);
  }

  /** Steps one after another. */
  ghost predicate IsPath(states: seq<Store>, actions: seq<Action>) {
    && |states| == |actions| + 1
    && forall i {:trigger actions[i]} | 0 <= i < |actions| :: Step(states[i], actions[i], states[i+1])
  }

  ghost predicate IsRun(states: seq<Store>, actions: seq<Action>) {
    IsPath(states, actions) && Init(states[0])
  }

  ghost predicate AllKeepReads(states: seq<Store>, actions: seq<Action>)
    requires |states| == |actions| + 1
  {
    forall i {:trigger actions[i]} | 0 <= i < |actions| :: StepKeepsReads(states[i], actions[i])
  }

  /** A run no step of which changes a read. */
  ghost predicate IsSoundRun(states: seq<Store>, actions: seq<Action>) {
    IsRun(states, actions) && AllKeepReads(states, actions)
  }

  lemma {:induction false} NextInv(states: seq<Store>, actions: seq<Action>, i: nat)
    requires IsPath(states, actions) && i < |actions| && Inv(states[0])
    requires forall j {:trigger actions[j]} | 0 <= j <= i :: StepKeepsReads(states[j], actions[j])
    ensures Inv(states[i+1])
    decreases i, 1
  {
    PathKeepsInv(states, actions, i);
    var s, a, s' := states[i], actions[i], states[i+1];
    assert Step(s, a, s') && StepKeepsReads(s, a);
    StepKeepsInvIff(s, a, s');
  }

  lemma {:induction false} PathKeepsInv(states: seq<Store>, actions: seq<Action>, i: nat)
    requires IsPath(states, actions) && i < |states| && Inv(states[0])
    requires forall j {:trigger actions[j]} | 0 <= j < i :: StepKeepsReads(states[j], actions[j])
    ensures Inv(states[i])
    decreases i, 0
  {
    if i > 0 {
      NextInv(states, actions, i - 1);
    }
  }

  /** Every state of every sound run satisfies the invariant. */
  lemma RunKeepsInv(states: seq<Store>, actions: seq<Action>, i: nat)
    requires IsSoundRun(states, actions) && i < |states|
    ensures Inv(states[i])
  {
    InitKeepsInv(states[0]);
    PathKeepsInv(states, actions, i);
  }

  /** If all its states answer as their history does, no step of a path changes a read. */
  lemma {:induction false} AnsweringStep(states: seq<Store>, actions: seq<Action>, i: nat)
    requires IsPath(states, actions) && i < |actions| && Inv(states[0])
    requires forall j | 0 <= j < |states| :: AnswersHistory(states[j])
    ensures StepKeepsReads(states[i], actions[i])
  {
    forall j | 0 <= j < i
      ensures StepKeepsReads(states[j], actions[j])
    {
      AnsweringStep(states, actions, j);
    }
    PathKeepsInv(states, actions, i);
    var s, a, s' := states[i], actions[i], states[i+1];
    assert Step(s, a, s') && AnswersHistory(s');
    StepKeepsInvIff(s, a, s');
  }

  /**
   A run answers every read at the present and at live snapshots as its history does, in
   all its states, exactly if no step of it changes a read.
   */
  lemma AnswersHistoryIff(states: seq<Store>, actions: seq<Action>)
    requires IsRun(states, actions)
    ensures (forall i | 0 <= i < |states| :: AnswersHistory(states[i])) <==> IsSoundRun(states, actions)
  {
    InitKeepsInv(states[0]);
    if forall i | 0 <= i < |states| :: AnswersHistory(states[i]) {
      forall i | 0 <= i < |actions|
        ensures StepKeepsReads(states[i], actions[i])
      {
        AnsweringStep(states, actions, i);
      }
    }
    if IsSoundRun(states, actions) {
      forall i | 0 <= i < |states|
        ensures AnswersHistory(states[i])
      {
        RunAnswersHistory(states, actions, i);
      }
    }
  }

  lemma RunAnswersHistory(states: seq<Store>, actions: seq<Action>, i: nat)
    requires IsSoundRun(states, actions) && i < |states|
    ensures AnswersHistory(states[i])
  {
    RunKeepsInv(states, actions, i);
  }

  /** A run whose compactions all meet the condition on the inputs is sound. */
  lemma BoundaryKeptIsSound(states: seq<Store>, actions: seq<Action>)
    requires IsRun(states, actions)
    requires forall i {:trigger actions[i]} | 0 <= i < |actions| :: BoundaryKept(states[i], actions[i])
    ensures IsSoundRun(states, actions)
  {
    InitKeepsInv(states[0]);
    forall i | 0 <= i < |actions|
      ensures StepKeepsReads(states[i], actions[i])
    {
      BoundaryKeptStep(states, actions, i);
    }
  }

  lemma {:induction false} BoundaryKeptStep(states: seq<Store>, actions: seq<Action>, i: nat)
    requires IsPath(states, actions) && i < |actions| && Inv(states[0])
    requires forall j {:trigger actions[j]} | 0 <= j <= i :: BoundaryKept(states[j], actions[j])
    ensures StepKeepsReads(states[i], actions[i])
  {
    forall j | 0 <= j < i
      ensures StepKeepsReads(states[j], actions[j])
    {
      BoundaryKeptStep(states, actions, j);
    }
    PathKeepsInv(states, actions, i);
    var s, a, s' := states[i], actions[i], states[i+1];
    assert Step(s, a, s') && BoundaryKept(s, a);
    BoundaryKeepsReads(s, a, s');
  }

  lemma NextExtends(states: seq<Store>, actions: seq<Action>, i: nat)
    requires IsSoundRun(states, actions) && i < |actions|
    ensures Extends(states[i], states[i+1])
  {
    RunKeepsInv(states, actions, i);
    var s, a, s' := states[i], actions[i], states[i+1];
    assert Step(s, a, s');
    StepExtends(s, a, s');
  }

  lemma {:induction false} RunExtends(states: seq<Store>, actions: seq<Action>, i: nat, j: nat)
    requires IsSoundRun(states, actions) && i <= j < |states|
    ensures Extends(states[i], states[j])
    decreases j
  {
    if i < j {
      RunExtends(states, actions, i, j - 1);
      NextExtends(states, actions, j - 1);
      ExtendsTransitive(states[i], states[j-1], states[j]);
    }
  }

  lemma ExtendsTransitive(a: Store, b: Store, c: Store)
    requires Extends(a, b) && Extends(b, c)
    ensures Extends(a, c)
  {
  }

  /** In every state of every sound run, reads at the present and at live snapshots answer from the whole history. */
  lemma ReadsAnswerHistory(states: seq<Store>, actions: seq<Action>, i: nat, k: UserKey, snap: SeqNo)
    requires IsSoundRun(states, actions) && i < |states|
    requires snap == states[i].lastSequence || snap in states[i].snapshots
    ensures Lookup(Held(states[i]), k, snap).Visible() == Lookup(states[i].history, k, snap).Visible()
  {
    RunKeepsInv(states, actions, i);
  }

  /** Two reads at one snapshot, at different times of a run, agree. */
  lemma SnapshotReadsRepeat(states: seq<Store>, actions: seq<Action>, i: nat, j: nat, k: UserKey, snap: SeqNo)
    requires IsSoundRun(states, actions) && i <= j < |states|
    requires snap in states[i].snapshots && snap in states[j].snapshots
    ensures Lookup(Held(states[i]), k, snap).Visible() == Lookup(Held(states[j]), k, snap).Visible()
  {
    RunKeepsInv(states, actions, i);
    RunKeepsInv(states, actions, j);
    RunExtends(states, actions, i, j);
    var a, b := states[i].history, states[j].history;
    assert b == a + (b - a);
    assert SeqnosAfter(b - a, snap);
    ReadBelow(a, b - a, k, snap);
  }

  /** Whatever was logged in a state is in the history, and so in the answers, of every later state. */
  lemma NoLoggedWriteLost(states: seq<Store>, actions: seq<Action>, i: nat, j: nat, e: Entry)
    requires IsSoundRun(states, actions) && i <= j < |states|
    requires e in SetOf(states[i].logged)
    ensures e in states[j].history
    ensures e.ikey.seqno <= states[j].lastSequence ==>
            exists o :: IsLatest(states[j].history, e.ikey.user, states[j].lastSequence, o)
              && o.ikey.seqno >= e.ikey.seqno
              && Lookup(Held(states[j]), e.ikey.user, states[j].lastSequence).Visible() == OutcomeOf(o).Visible()
  {
    RunKeepsInv(states, actions, i);
    RunKeepsInv(states, actions, j);
    RunExtends(states, actions, i, j);
    var s := states[j];
    if e.ikey.seqno <= s.lastSequence {
      assert Candidate(s.history, e.ikey.user, s.lastSequence, e);
      var o := LatestExists(s.history, e.ikey.user, s.lastSequence, e);
      LookupLatest(s.history, e.ikey.user, s.lastSequence, o);
    }
  }

  lemma CrashKeepsRecord(s: Store, a: Action, s': Store)
    requires Inv(s) && a.Crash? && Step(s, a, s')
    ensures SetOf(s.logged) <= Held(s') && s'.history == s.history
    ensures s'.lastSequence == s.lastSequence + |s.logged|
  {
    CrashKeepsInv(s, a.attempts, a.snapshot, a.files, a.newLog, a.version, s');
  }

  /** After a crash in a run, a logged record is readable even if it had not reached the memtable. */
  lemma CrashRecoversRecord(states: seq<Store>, actions: seq<Action>, i: nat)
    requires IsSoundRun(states, actions) && i < |actions| && actions[i].Crash?
    ensures SetOf(states[i].logged) <= Held(states[i+1])
    ensures states[i+1].history == states[i].history
    ensures states[i+1].lastSequence == states[i].lastSequence + |states[i].logged|
  {
    RunKeepsInv(states, actions, i);
    CrashKeepsRecord(states[i], actions[i], states[i+1]);
  }

  // ----- What readers hold -----

  /** The step takes a snapshot of x. */
  predicate TakesAt(s: Store, a: Action, x: SeqNo) {
    a.Snapshot? && s.lastSequence == x
  }

  /** The step releases a snapshot of x. */
  predicate ReleasesAt(s: Store, a: Action, x: SeqNo) {
    a.Release? && a.index < |s.snapshots| && s.snapshots[a.index] == x
  }

  function Taken(states: seq<Store>, actions: seq<Action>, i: nat, j: nat, x: SeqNo): nat
    requires i <= j <= |actions| <= |states|
    decreases j
  {
    if i == j then 0
    else Taken(states, actions, i, j - 1, x) + if TakesAt(states[j-1], actions[j-1], x) then 1 else 0
  }

  function Released(states: seq<Store>, actions: seq<Action>, i: nat, j: nat, x: SeqNo): nat
    requires i <= j <= |actions| <= |states|
    decreases j
  {
    if i == j then 0
    else Released(states, actions, i, j - 1, x) + if ReleasesAt(states[j-1], actions[j-1], x) then 1 else 0
  }

  lemma StepSnapshots(s: Store, a: Action, s': Store, x: SeqNo)
    requires Step(s, a, s') && !a.Crash?
    ensures multiset(s'.snapshots)[x] + (if ReleasesAt(s, a, x) then 1 else 0) ==
            multiset(s.snapshots)[x] + if TakesAt(s, a, x) then 1 else 0
  {
    match a
    case Release(i) =>
      ReleasedOne(s.snapshots, i);
      assert s.snapshots[i] in multiset(s.snapshots);
    case _ =>
  }

  /** Between crashes the live snapshots are those there were and those taken, less those released. */
  lemma {:induction false} SnapshotCount(states: seq<Store>, actions: seq<Action>, i: nat, j: nat, x: SeqNo)
    requires IsPath(states, actions) && i <= j < |states| && forall k | i <= k < j :: !actions[k].Crash?
    ensures multiset(states[j].snapshots)[x] + Released(states, actions, i, j, x) ==
            multiset(states[i].snapshots)[x] + Taken(states, actions, i, j, x)
    decreases j
  {
    if i < j {
      SnapshotCount(states, actions, i, j - 1, x);
      var s, a, s' := states[j-1], actions[j-1], states[j];
      assert Step(s, a, s');
      StepSnapshots(s, a, s', x);
    }
  }

  /** A snapshot that is taken and not released is live in every later state, up to a crash. */
  lemma SnapshotStaysLive(states: seq<Store>, actions: seq<Action>, i: nat, j: nat)
    requires IsPath(states, actions) && i < j < |states| && actions[i].Snapshot?
    requires forall k | i < k < j :: !actions[k].Crash? && !ReleasesAt(states[k], actions[k], states[i].lastSequence)
    ensures states[i].lastSequence in states[j].snapshots
  {
    var x := states[i].lastSequence;
    SnapshotCount(states, actions, i, j, x);
    NoneReleased(states, actions, i, j, x);
    TakenFirst(states, actions, i, j, x);
    assert x in multiset(states[j].snapshots);
  }

  lemma {:induction false} NoneReleased(states: seq<Store>, actions: seq<Action>, i: nat, j: nat, x: SeqNo)
    requires i <= j <= |actions| <= |states| && forall k | i <= k < j :: !ReleasesAt(states[k], actions[k], x)
    ensures Released(states, actions, i, j, x) == 0
    decreases j
  {
    if i < j {
      NoneReleased(states, actions, i, j - 1, x);
    }
  }

  lemma {:induction false} TakenFirst(states: seq<Store>, actions: seq<Action>, i: nat, j: nat, x: SeqNo)
    requires i < j <= |actions| <= |states| && TakesAt(states[i], actions[i], x)
    ensures Taken(states, actions, i, j, x) >= 1
    decreases j
  {
    if i < j - 1 {
      TakenFirst(states, actions, i, j - 1, x);
    }
  }

  /** How often the steps from i to j pin v. */
  function Pins(states: seq<Store>, actions: seq<Action>, i: nat, j: nat, v: Version): nat
    requires i <= j <= |actions| <= |states|
    decreases j
  {
    if i == j then 0
    else Pins(states, actions, i, j - 1, v) + if actions[j-1].Pin? && states[j-1].current == v then 1 else 0
  }

  /** Up to a crash, a version that nobody lets go of is held as often as before, and once more for each pin. */
  lemma {:induction false} PinnedStaysHeld(states: seq<Store>, actions: seq<Action>, i: nat, j: nat, v: Version)
    requires IsPath(states, actions) && i <= j < |states| && forall k | i <= k < j :: !actions[k].Crash?
    requires forall k | i <= k < j :: actions[k] != Unpin(v)
    ensures states[j].pinned[v] == states[i].pinned[v] + Pins(states, actions, i, j, v)
    decreases j
  {
    if i < j {
      PinnedStaysHeld(states, actions, i, j - 1, v);
      var s, a, s' := states[j-1], actions[j-1], states[j];
      assert Step(s, a, s');
      StepPins(s, a, s', v);
    }
  }

  lemma StepPins(s: Store, a: Action, s': Store, v: Version)
    requires Step(s, a, s') && !a.Crash? && a != Unpin(v)
    ensures s'.pinned[v] == s.pinned[v] + if a.Pin? && s.current == v then 1 else 0
  {
  }

  lemma PinnedIsHeld(states: seq<Store>, actions: seq<Action>, i: nat, j: nat)
    requires IsPath(states, actions) && i < j < |states| && actions[i].Pin?
    requires forall k | i < k < j :: !actions[k].Crash? && actions[k] != Unpin(states[i].current)
    ensures states[i].current in states[j].pinned
  {
    var s, a, s' := states[i], actions[i], states[i+1];
    assert Step(s, a, s');
    StepPins(s, a, s', s.current);
    PinnedStaysHeld(states, actions, i + 1, j, s.current);
  }

  /** So whoever holds a version in a sound run can read its tables. */
  lemma PinnedTablesStay(states: seq<Store>, actions: seq<Action>, i: nat, j: nat, l: LevelNumber, f: File)
    requires IsSoundRun(states, actions) && i < j < |states| && actions[i].Pin? && f in states[i].current[l]
    requires forall k | i < k < j :: !actions[k].Crash? && actions[k] != Unpin(states[i].current)
    ensures f.number in states[j].disk.tables && states[j].disk.tables[f.number] == f
  {
    PinnedIsHeld(states, actions, i, j);
    RunKeepsInv(states, actions, j);
    PinnedPresent(states[j], states[i].current, l, f);
  }

  lemma PinnedPresent(s: Store, v: Version, l: LevelNumber, f: File)
    requires Inv(s) && v in s.pinned && f in v[l]
    ensures f.number in s.disk.tables && s.disk.tables[f.number] == f
  {
    assert TablesPresent(s.disk.tables, v);
  }
}
