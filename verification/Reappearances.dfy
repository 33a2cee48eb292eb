/**
 Runs from a new database on that are not sound.  In the first a deleted key becomes
 readable again.  Two compactions of level 0 make it: the first splits a user key over two
 output files because a snapshot still needs both of its entries, the second, with the
 snapshot gone, selects only the first of the two files and drops the deletion marker in
 it.  In the second a key is lost by a compaction that runs once all the sequence numbers
 are used.
 */
module Reappearances {
  import opened Wrappers
  import opened Entries
  import opened Versions
  import opened Selection
  import opened Compactions
  import opened Installs
  import opened Builders
  import opened Replay
  import opened Edits
  import opened Preservation
  import opened Stores
  import opened StoreSteps
  import opened Recovery
  import opened Runs

  datatype Run = Run(states: seq<Store>, actions: seq<Action>) {
    ghost predicate Sound() {
      IsSoundRun(states, actions)
    }

    function Last(): Store
      requires states != []
    {
      states[|states|-1]
    }
  }

  /** One more step at the end of a run. */
  lemma Extend(r: Run, a: Action, s: Store) returns (r': Run)
    requires IsRun(r.states, r.actions) && Step(r.Last(), a, s)
    ensures IsRun(r'.states, r'.actions) && r'.Last() == s
    ensures r' == Run(r.states + [s], r.actions + [a])
  {
    r' := Run(r.states + [s], r.actions + [a]);
    forall i | 0 <= i < |r'.actions|
      ensures Step(r'.states[i], r'.actions[i], r'.states[i+1])
    {
      assert i < |r.actions| ==> r'.actions[i] == r.actions[i];
    }
  }

  lemma ExtendSound(r: Run, a: Action, s: Store) returns (r': Run)
    requires r.Sound() && Step(r.Last(), a, s) && BoundaryKept(r.Last(), a)
    ensures r'.Sound() && r'.Last() == s
  {
    LastInv(r);
    BoundaryKeepsReads(r.Last(), a, s);
    r' := ExtendKept(r, a, s);
  }

  lemma ExtendKept(r: Run, a: Action, s: Store) returns (r': Run)
    requires r.Sound() && Step(r.Last(), a, s) && StepKeepsReads(r.Last(), a)
    ensures r'.Sound() && r'.Last() == s
  {
    r' := Extend(r, a, s);
    OneMoreKept(r.states, r.actions, a, s);
  }

  lemma OneMoreKept(states: seq<Store>, actions: seq<Action>, a: Action, s: Store)
    requires |states| == |actions| + 1 && AllKeepReads(states, actions) && StepKeepsReads(states[|actions|], a)
    ensures AllKeepReads(states + [s], actions + [a])
  {
    forall i | 0 <= i < |actions| + 1
      ensures StepKeepsReads((states + [s])[i], (actions + [a])[i])
    {
      assert i < |actions| ==> (actions + [a])[i] == actions[i];
    }
  }

  /** A step after which a read at the present differs from the history is one that changes reads. */
  lemma ReadChanged(r: Run, a: Action, s: Store, k: UserKey)
    requires r.Sound() && Step(r.Last(), a, s) && SmallestSnapshot(s) <= s.lastSequence
    requires Lookup(Held(s), k, s.lastSequence).Visible() != Lookup(s.history, k, s.lastSequence).Visible()
    ensures !StepKeepsReads(r.Last(), a)
  {
    NotAnswered(s, k);
    LastInv(r);
    StepKeepsInvIff(r.Last(), a, s);
  }

  lemma NotAnswered(s: Store, k: UserKey)
    requires SmallestSnapshot(s) <= s.lastSequence
    requires Lookup(Held(s), k, s.lastSequence).Visible() != Lookup(s.history, k, s.lastSequence).Visible()
    ensures !AnswersHistory(s)
  {
  }

  // What the invariant says of the last state.

  lemma LastInv(r: Run)
    requires r.Sound()
    ensures Inv(r.Last())
  {
    RunKeepsInv(r.states, r.actions, |r.states| - 1);
  }

  lemma LogOpen(r: Run)
    requires r.Sound()
    ensures r.Last().logfile in r.Last().disk.logs
  {
    LastInv(r);
  }

  lemma InOrderNow(r: Run)
    requires r.Sound()
    ensures forall l: LevelNumber :: Ordered(r.Last().current[l]) && NumbersName(r.Last().current[l])
    ensures Sorted(r.Last().mem)
  {
    LastInv(r);
  }

  lemma OutputsFresh(r: Run, outs: Level)
    requires r.Sound() && AreWritten(r.Last(), outs)
    ensures forall g, h | g in r.Last().current[1] && h in outs :: g.number != h.number
  {
    LastInv(r);
    OutputsDifferFromLevel(r.Last(), 1, outs);
  }

  // ----- The steps of the run, from what they start in -----

  /** A version with files in the first two levels only. */
  function TwoLevels(zero: Level, one: Level): (v: Version)
    ensures v[0] == zero && v[1] == one && forall l | 2 <= l < NUM_LEVELS :: v[l] == []
  {
    [zero, one, [], [], [], [], []]
  }

  lemma Opened() returns (r: Run)
    ensures r.Sound()
    ensures var s := r.Last();
            && s.mem == [] && s.imm == None && s.current == TwoLevels([], []) && s.lastSequence == 0
            && s.snapshots == [] && s.logged == [] && s.history == {}
  {
    var none: Edit := Edit({}, []);
    var s := Store(Disk(map[], map[2 := []], Manifest([none, LevelZeroEdit([])], 2, 0, 3)),
                   [], None, EMPTY_VERSION, multiset{}, 2, 2, 3, 0, [], {}, [], {});
    assert LevelZeroEdit([]) == none;
    forall l: LevelNumber, f
      ensures EMPTY_VERSION[l] == [] && !HasAfter(EMPTY_VERSION[l], [none], l, f)
      ensures AddedAt(none.added, l) == EMPTY_VERSION[l]
    {
      AfterOneEdit(EMPTY_VERSION[l], none, l, f);
      EmptyEdits(l);
    }
    assert Recovers(NEW_DISK, EMPTY_VERSION, [], 0, 0, {}, none, [], 2, EMPTY_VERSION, s);
    r := Run([s], []);
  }

  /** A record is logged and inserted. */
  lemma WroteRecord(r: Run, record: seq<Entry>, mem: seq<Entry>) returns (r': Run)
    requires r.Sound() && r.Last().logged == [] && Consecutive(record, r.Last().lastSequence)
    requires Sorted(mem) && SetOf(mem) == SetOf(r.Last().mem) + SetOf(record)
    requires r.Last().lastSequence + |record| <= MAX_SEQUENCE
    ensures r'.Sound()
    ensures var s, s' := r.Last(), r'.Last();
            s' == s.(disk := s'.disk, mem := mem, lastSequence := s.lastSequence + |record|,
                     history := s.history + SetOf(record))
  {
    LogOpen(r);
    var s := r.Last();
    var s1 := s.(disk := s.disk.(logs := s.disk.logs[s.logfile := s.disk.logs[s.logfile] + record]),
                 logged := record, history := s.history + SetOf(record));
    var s2 := s1.(mem := mem, logged := [], lastSequence := s.lastSequence + |record|);
    var r1 := ExtendSound(r, Log(record), s1);
    r' := ExtendSound(r1, Insert(mem), s2);
  }

  /** The memtable becomes a table of level 0. */
  lemma Flushed(r: Run, one: Level) returns (r': Run, f: File)
    requires r.Sound() && r.Last().logged == [] && r.Last().imm == None && r.Last().mem != []
    requires r.Last().current == TwoLevels([], one)
    ensures r'.Sound() && f.run == r.Last().mem
    ensures var s, s' := r.Last(), r'.Last();
            s' == s.(disk := s'.disk, mem := [], current := TwoLevels([f], one), logNumber := s'.logNumber,
                     logfile := s'.logfile, nextFile := s'.nextFile)
  {
    InOrderNow(r);
    var s := r.Last();
    var s1 := s.(disk := s.disk.(logs := s.disk.logs[s.nextFile := []]), mem := [], imm := Some(s.mem),
                 logfile := s.nextFile, nextFile := s.nextFile + 1);
    var r1 := ExtendSound(r, Switch, s1);
    f := FileRep(s1.nextFile, 1, s.mem);
    var v' := TwoLevels([f], one);
    FlushedVersion(s.current, one, f);
    var s2 := s1.(disk := s1.disk.(tables := s1.disk.tables[f.number := f],
                                   manifest := Appended(s1, FlushEdit(0, f), s1.logfile, s1.nextFile + 1)),
                  imm := None, current := v', logNumber := s1.logfile, nextFile := s1.nextFile + 1);
    r' := ExtendSound(r1, Flush(0, f, v'), s2);
  }

  lemma FlushedVersion(v: Version, one: Level, f: File)
    requires v == TwoLevels([], one) && Ordered(v[1])
    ensures IsVersionAfter(v, [FlushEdit(0, f)], TwoLevels([f], one))
  {
    assert TagFiles(0, [f]) == [(0, f)];
    forall l: LevelNumber, g
      ensures g in TwoLevels([f], one)[l] <==> HasAfter(v[l], [FlushEdit(0, f)], l, g)
    {
      AddedFilesOnly(v, 0, [f], l, g);
    }
  }

  /** A compaction writes a table. */
  lemma WroteTable(r: Run, run: seq<Entry>) returns (r': Run, f: File)
    requires r.Sound() && run != [] && Sorted(run)
    ensures r'.Sound() && f.run == run && f.number == r.Last().nextFile
    ensures var s, s' := r.Last(), r'.Last();
            s' == s.(disk := s.disk.(tables := s.disk.tables[f.number := f]), nextFile := s.nextFile + 1,
                     pending := s.pending + {f.number})
  {
    f := FileRep(r.Last().nextFile, 1, run);
    var s := r.Last();
    r' := ExtendSound(r, Write(f), s.(disk := s.disk.(tables := s.disk.tables[f.number := f]),
                                        nextFile := s.nextFile + 1, pending := s.pending + {f.number}));
  }

  lemma WroteTables(r: Run, run1: seq<Entry>, run2: seq<Entry>) returns (r': Run, a: File, b: File)
    requires r.Sound() && run1 != [] && Sorted(run1) && run2 != [] && Sorted(run2)
    ensures r'.Sound() && a.run == run1 && b.run == run2
    ensures AreWritten(r'.Last(), [a, b]) && NumbersName([a, b])
    ensures var s, s' := r.Last(), r'.Last();
            s' == s.(disk := s'.disk, nextFile := s'.nextFile, pending := s'.pending)
  {
    var r1;
    r1, a := WroteTable(r, run1);
    r', b := WroteTable(r1, run2);
  }

  /** The version after a compaction of the only file of level 0. */
  lemma CompactedVersion(v: Version, c: Compaction, f: File, one: Level, outs: Level, one': Level)
    requires v == TwoLevels([f], one) && c.level == 0 && c.inputs0 == [f] && forall g | g in c.inputs1 :: g in one
    requires NumbersName(outs) && forall l: LevelNumber :: NumbersName(v[l])
    requires forall g, h | g in one && h in outs :: g.number != h.number
    requires Ordered(one') && forall g :: g in one' <==> (g in one && g !in c.inputs1) || g in outs
    ensures IsVersionAfter(v, [CompactionEdit(c, outs)], TwoLevels([], one'))
  {
    forall l: LevelNumber, g
      ensures g in TwoLevels([], one')[l] <==> HasAfter(v[l], [CompactionEdit(c, outs)], l, g)
    {
      CompactionEditLevel(v, c, outs, l, g);
    }
  }

  /** Installing a compaction of the only file of level 0 and some of level 1. */
  lemma InstallStep(r: Run, c: Compaction, m: seq<Entry>, ss: SeqNo, f: File, one: Level, outs: Level, one': Level)
    returns (s': Store)
    requires r.Sound() && r.Last().current == TwoLevels([f], one) && ss <= SmallestSnapshot(r.Last())
    requires c.level == 0 && c.inputs0 == [f] && Closed(r.Last().current, c) && Merged(m, c)
    requires AreWritten(r.Last(), outs) && NumbersName(outs)
    requires Flatten(outs) == Written(r.Last().current, 0, m, |m|, ss)
    requires Ordered(one') && forall g :: g in one' <==> (g in one && g !in c.inputs1) || g in outs
    ensures InstallCompaction(r.Last(), c, m, ss, outs, TwoLevels([], one'), s')
    ensures s' == r.Last().(disk := s'.disk, current := TwoLevels([], one'), pending := s'.pending)
  {
    var s := r.Last();
    InOrderNow(r);
    OutputsFresh(r, outs);
    SelectedAreListed(one, c);
    CompactedVersion(s.current, c, f, one, outs, one');
    s' := s.(disk := s.disk.(manifest := Appended(s, CompactionEdit(c, outs), s.logNumber, s.nextFile)),
             current := TwoLevels([], one'), pending := s.pending - NumbersOf(outs));
  }

  lemma SelectedAreListed(one: Level, c: Compaction)
    requires c.inputs1 == FilesIn(one, UserRange(c.smallest, c.largest))
    ensures forall g | g in c.inputs1 :: g in one
  {
    InFilesIn(one, UserRange(c.smallest, c.largest));
  }

  // ----- The run -----

  /** Three user keys in order, and what is written of them: values, and a deletion of the third. */
  datatype Keys = Keys(first: UserKey, second: UserKey, third: UserKey) {
    predicate InOrder() {
      first < second < third
    }

    function Old3(): Entry {
      Entry(IKey(third, 1, Value), [7])
    }

    function Old2(): Entry {
      Entry(IKey(second, 2, Value), [3])
    }

    function Gone3(): Entry {
      Entry(IKey(third, 3, Deletion), [])
    }

    function New1(): Entry {
      Entry(IKey(first, 4, Value), [1])
    }

    function New2(): Entry {
      Entry(IKey(second, 5, Value), [2])
    }

    function Early(): set<Entry> {
      {Old3(), Old2(), Gone3()}
    }
  }

  /** What the steps below depend on of a state with no record in flight and no immutable memtable. */
  predicate Looks(s: Store, mem: seq<Entry>, current: Version, last: SeqNo, snapshots: seq<SeqNo>,
                  history: set<Entry>) {
    && s.mem == mem && s.imm == None && s.current == current && s.lastSequence == last
    && s.snapshots == snapshots && s.logged == [] && s.history == history
  }

  /** A key is written and a snapshot taken. */
  lemma Writing(k: Keys) returns (r: Run)
    ensures r.Sound() && Looks(r.Last(), [k.Old3()], TwoLevels([], []), 1, [1], {k.Old3()})
  {
    r := Opened();
    var none: set<Entry> := {};
    assert SetOf([]) == none && SetOf([k.Old3()]) == {k.Old3()};
    r := WroteRecord(r, [k.Old3()], [k.Old3()]);
    var s := r.Last();
    r := ExtendSound(r, Snapshot, s.(snapshots := s.snapshots + [s.lastSequence]));
  }

  /** The key is deleted. */
  lemma Deleting(k: Keys) returns (r: Run)
    requires k.InOrder()
    ensures r.Sound() && Looks(r.Last(), [k.Old2(), k.Gone3(), k.Old3()], TwoLevels([], []), 3, [1], k.Early())
  {
    r := Writing(k);
    EarlyRuns(k);
    r := WroteRecord(r, [k.Old2(), k.Gone3()], [k.Old2(), k.Gone3(), k.Old3()]);
  }

  lemma EarlyRuns(k: Keys)
    requires k.InOrder()
    ensures Sorted([k.Old2(), k.Gone3(), k.Old3()]) && Consecutive([k.Old2(), k.Gone3()], 1)
    ensures SetOf([k.Old2(), k.Gone3(), k.Old3()]) == SetOf([k.Old3()]) + SetOf([k.Old2(), k.Gone3()])
    ensures {k.Old3()} + SetOf([k.Old2(), k.Gone3()]) == k.Early()
  {
    assert SetOf([k.Old3()]) == {k.Old3()};
    assert SetOf([k.Old2(), k.Gone3()]) == {k.Old2(), k.Gone3()};
  }

  /** The entries go to level 1 in two files, the deletion in one, what it covers in the other. */
  lemma Splitting(k: Keys) returns (r: Run, a: File, b: File)
    requires k.InOrder()
    ensures r.Sound() && a.run == [k.Old2(), k.Gone3()] && b.run == [k.Old3()]
    ensures Looks(r.Last(), [], TwoLevels([], [a, b]), 3, [], k.Early())
  {
    var f;
    r, f, a, b := SplitWritten(k);
    NothingDropped(k, r.Last().current, f.run);
    r := Moved(r, f, [a, b], 1);
    r := Freed(r);
  }

  /** The snapshot is released. */
  lemma Freed(r: Run) returns (r': Run)
    requires r.Sound() && |r.Last().snapshots| == 1
    ensures r'.Sound() && r'.Last() == r.Last().(snapshots := [])
  {
    var s := r.Last();
    r' := ExtendSound(r, Release(0), s.(snapshots := s.snapshots[..0] + s.snapshots[0+1..]));
  }

  /** A compaction takes the only file of level 0 to an empty level 1, dropping nothing. */
  lemma Moved(r: Run, f: File, outs: Level, ss: SeqNo) returns (r': Run)
    requires r.Sound() && r.Last().current == TwoLevels([f], [])
    requires ss <= SmallestSnapshot(r.Last()) && ss < MAX_SEQUENCE && Ordered(outs) && NumbersName(outs)
    requires AreWritten(r.Last(), outs)
    requires Flatten(outs) == f.run == Kept(r.Last().current, 0, f.run, |f.run|, ss)
    ensures r'.Sound()
    ensures var s, s' := r.Last(), r'.Last();
            s' == s.(disk := s'.disk, current := TwoLevels([], outs), pending := s'.pending)
  {
    var s := r.Last();
    var c := Compaction(0, [f], [], f.Smallest(), f.Largest());
    OnlyFile(s.current, f);
    var s' := InstallStep(r, c, f.run, ss, f, [], outs, outs);
    r' := ExtendSound(r, Install(c, f.run, ss, outs, TwoLevels([], outs)), s');
  }

  lemma SplitWritten(k: Keys) returns (r: Run, f: File, a: File, b: File)
    requires k.InOrder()
    ensures r.Sound() && f.run == [k.Old2(), k.Gone3(), k.Old3()]
    ensures a.run == [k.Old2(), k.Gone3()] && b.run == [k.Old3()] && Flatten([a, b]) == f.run
    ensures Looks(r.Last(), [], TwoLevels([f], []), 3, [1], k.Early())
    ensures AreWritten(r.Last(), [a, b]) && NumbersName([a, b])
  {
    r := Deleting(k);
    r, f := Flushed(r, []);
    r, a, b := WroteTables(r, [k.Old2(), k.Gone3()], [k.Old3()]);
    FlattenTwo(a, b);
  }

  lemma FlattenOne(a: File)
    ensures Flatten([a]) == a.run
  {
    assert [a][..0] == [];
  }

  lemma FlattenTwo(a: File, b: File)
    ensures Flatten([a, b]) == a.run + b.run
  {
    FlattenOne(a);
    assert [a, b][..1] == [a];
  }

  /** Level 0 has one file, and there is none in the level below. */
  lemma OnlyFile(v: Version, f: File)
    requires v[0] == [f] && v[1] == []
    ensures var c := Compaction(0, [f], [], f.Smallest(), f.Largest());
            Closed(v, c) && BoundaryClosed(v, c) && Merged(f.run, c)
  {
    assert f in [f];
    EntriesOfOne(f);
  }

  lemma NothingDropped(k: Keys, v: Version, m: seq<Entry>)
    requires k.InOrder() && m == [k.Old2(), k.Gone3(), k.Old3()]
    ensures Kept(v, 0, m, |m|, 1) == m
  {
    assert !Dropped(v, 0, m, 0, 1) && !Dropped(v, 0, m, 1, 1) && !Dropped(v, 0, m, 2, 1);
    assert Kept(v, 0, m, 1, 1) == [k.Old2()] && Kept(v, 0, m, 2, 1) == [k.Old2(), k.Gone3()];
  }

  /** Newer entries, none of the third key, come to level 0. */
  lemma Covering(k: Keys) returns (r: Run, a: File, b: File, u: File)
    requires k.InOrder()
    ensures r.Sound() && a.run == [k.Old2(), k.Gone3()] && b.run == [k.Old3()] && u.run == [k.New1(), k.New2()]
    ensures Looks(r.Last(), [], TwoLevels([u], [a, b]), 5, [], k.Early() + {k.New1(), k.New2()})
  {
    r, a, b := Splitting(k);
    var record := [k.New1(), k.New2()];
    assert SetOf(record) == {k.New1(), k.New2()} && SetOf([]) + SetOf(record) == SetOf(record);
    r := WroteRecord(r, record, record);
    r, u := Flushed(r, [a, b]);
  }

  /** The second compaction takes the new file and the one with the deletion; its output is written. */
  lemma CoveringWritten(k: Keys) returns (r: Run, a: File, b: File, u: File, o: File)
    requires k.InOrder()
    ensures r.Sound() && a.run == [k.Old2(), k.Gone3()] && b.run == [k.Old3()] && u.run == [k.New1(), k.New2()]
    ensures o.run == u.run && AreWritten(r.Last(), [o])
    ensures Looks(r.Last(), [], TwoLevels([u], [a, b]), 5, [], k.Early() + {k.New1(), k.New2()})
  {
    r, a, b, u := Covering(k);
    r, o := WroteTable(r, [k.New1(), k.New2()]);
  }

  /** As SetupOtherInputs finds them, the second inputs end with the deletion, and the file after them stays. */
  lemma InputsFound(k: Keys, v: Version, a: File, b: File, u: File)
    requires k.InOrder() && v == TwoLevels([u], [a, b])
    requires a.run == [k.Old2(), k.Gone3()] && b.run == [k.Old3()] && u.run == [k.New1(), k.New2()]
    ensures var c := Compaction(0, [u], [a], u.Smallest(), u.Largest());
            Closed(v, c) && Merged([k.New1(), k.New2(), k.Old2(), k.Gone3()], c) && !BoundaryClosed(v, c)
  {
    assert u in [u];
    FirstOfTwo(a, b, UserRange(u.Smallest(), u.Largest()));
    EntriesOfOne(u);
    EntriesOfOne(a);
    assert SetOf([k.New1(), k.New2(), k.Old2(), k.Gone3()]) == SetOf(u.run) + SetOf(a.run);
    assert b in v[1] && b !in [a] && k.Old3() in SetOf(b.run) && k.Gone3() in SetOf(a.run);
    assert !Newer(SetOf(b.run), SetOf(a.run));
  }

  lemma DeletionDropped(k: Keys, v: Version, m: seq<Entry>)
    requires k.InOrder() && m == [k.New1(), k.New2(), k.Old2(), k.Gone3()]
    requires forall l | 2 <= l < NUM_LEVELS :: v[l] == []
    ensures Kept(v, 0, m, |m|, 5) == [k.New1(), k.New2()]
  {
    assert !Dropped(v, 0, m, 0, 5) && !Dropped(v, 0, m, 1, 5);
    assert Hidden(m, 2, 5) && Obsolete(v, 0, m, 3, 5);
    assert Kept(v, 0, m, 1, 5) == [k.New1()] && Kept(v, 0, m, 2, 5) == [k.New1(), k.New2()];
    assert Kept(v, 0, m, 3, 5) == [k.New1(), k.New2()];
  }

  lemma SecondCompaction(k: Keys, v: Version, a: File, b: File, u: File) returns (c: Compaction, m: seq<Entry>)
    requires k.InOrder() && v == TwoLevels([u], [a, b])
    requires a.run == [k.Old2(), k.Gone3()] && b.run == [k.Old3()] && u.run == [k.New1(), k.New2()]
    ensures c.level == 0 && c.inputs0 == [u] && c.inputs1 == [a]
    ensures Closed(v, c) && Merged(m, c) && !BoundaryClosed(v, c)
    ensures Kept(v, 0, m, |m|, 5) == [k.New1(), k.New2()]
  {
    c := Compaction(0, [u], [a], u.Smallest(), u.Largest());
    m := [k.New1(), k.New2(), k.Old2(), k.Gone3()];
    InputsFound(k, v, a, b, u);
    DeletionDropped(k, v, m);
  }

  /** Its output takes the place of the second input, before the file that stays. */
  lemma SecondOutput(k: Keys, a: File, b: File, o: File)
    requires k.InOrder() && a.run == [k.Old2(), k.Gone3()] && b.run == [k.Old3()] && o.run == [k.New1(), k.New2()]
    ensures Ordered([o, b]) && NumbersName([o]) && Flatten([o]) == o.run
    ensures forall g :: g in [o, b] <==> (g in [a, b] && g !in [a]) || g in [o]
  {
    FlattenOne(o);
    assert a.run != b.run;
  }

  lemma FinalContents(k: Keys, v: Version, b: File, o: File)
    requires v == TwoLevels([], [o, b]) && o.run == [k.New1(), k.New2()] && b.run == [k.Old3()]
    ensures Everything(Memory([], []), v) == {k.New1(), k.New2(), k.Old3()}
  {
    EntriesOfTwo(o, b);
    forall e
      ensures e in Contents(v) <==> e in {k.New1(), k.New2(), k.Old3()}
    {
      if e in Contents(v) {
        var l := ContentsLevel(v, e);
        assert l == 1;
      }
      if e in EntriesOf(v[1]) {
        InContents(v, 1, e);
      }
    }
  }

  lemma ReadAgain(k: Keys)
    requires k.InOrder()
    ensures Lookup({k.New1(), k.New2(), k.Old3()}, k.third, 5) == Found([7])
  {
    var now := {k.New1(), k.New2(), k.Old3()};
    assert IsLatest(now, k.third, 5, k.Old3());
    LookupLatest(now, k.third, 5, k.Old3());
  }

  lemma ReadDeleted(k: Keys)
    requires k.InOrder()
    ensures Lookup(k.Early() + {k.New1(), k.New2()}, k.third, 5) == Deleted
  {
    var history := k.Early() + {k.New1(), k.New2()};
    assert IsLatest(history, k.third, 5, k.Gone3());
    LookupLatest(history, k.third, 5, k.Gone3());
  }

  /** The second compaction is installed. */
  lemma Dropping(k: Keys) returns (r: Run, a: Action, s: Store, b: File, o: File)
    requires k.InOrder()
    ensures r.Sound() && Step(r.Last(), a, s) && a.Install?
    ensures Looks(s, [], TwoLevels([], [o, b]), 5, [], k.Early() + {k.New1(), k.New2()})
    ensures o.run == [k.New1(), k.New2()] && b.run == [k.Old3()]
  {
    var lower, upper;
    r, lower, b, upper, o := CoveringWritten(k);
    var c, m := SecondCompaction(k, r.Last().current, lower, b, upper);
    SecondOutput(k, lower, b, o);
    s := InstallStep(r, c, m, 5, upper, [lower, b], [o], [o, b]);
    a := Install(c, m, 5, [o], TwoLevels([], [o, b]));
  }

  /**
   For any three user keys there is a run, of which all steps but the last keep the reads,
   that ends with the third key deleted by the last write to it and found by a read at the
   present.
   */
  lemma DeletedKeyReappearsInRun(k: Keys) returns (r: Run, a: Action, s: Store)
    requires k.InOrder()
    ensures r.Sound() && Step(r.Last(), a, s) && IsRun(r.states + [s], r.actions + [a])
    ensures a.Install? && !StepKeepsReads(r.Last(), a)
    ensures s.logged == [] && Lookup(s.history, k.third, s.lastSequence) == Deleted
    ensures Lookup(Held(s), k.third, s.lastSequence) == Found([7])
  {
    var b, o;
    r, a, s, b, o := Dropping(k);
    var r' := Extend(r, a, s);
    FinalContents(k, s.current, b, o);
    ReadAgain(k);
    ReadDeleted(k);
    ReadChanged(r, a, s, k.third);
  }

  // ----- A run at the end of the sequence numbers -----

  function Nth(k: UserKey, n: SeqNo): Entry {
    Entry(IKey(k, n, Value), [1])
  }

  /** Every sequence number up to n is used, in the order of the log and in that of the memtable. */
  function AllLogged(k: UserKey, n: SeqNo): (es: seq<Entry>)
    ensures |es| == n && forall i | 0 <= i < n :: es[i] == Nth(k, i + 1)
  {
    seq(n, i requires 0 <= i < n => Nth(k, i + 1))
  }

  function AllHeld(k: UserKey, n: SeqNo): (es: seq<Entry>)
    ensures |es| == n && forall i | 0 <= i < n :: es[i] == Nth(k, n - i)
  {
    seq(n, i requires 0 <= i < n => Nth(k, n - i))
  }

  lemma AllAreWritten(k: UserKey, n: SeqNo)
    ensures Consecutive(AllLogged(k, n), 0) && Sorted(AllHeld(k, n)) && SetOf(AllHeld(k, n)) == SetOf(AllLogged(k, n))
  {
    var a, b := AllLogged(k, n), AllHeld(k, n);
    forall i | 0 <= i < n
      ensures a[i] in b && b[i] in a
    {
      assert a[i] == b[n - 1 - i] && b[i] == a[n - 1 - i];
    }
  }

  /** A key is written as often as it can be, and the memtable is flushed. */
  lemma Exhausted(k: UserKey) returns (r: Run, f: File)
    ensures r.Sound() && f.run == AllHeld(k, MAX_SEQUENCE)
    ensures Looks(r.Last(), [], TwoLevels([f], []), MAX_SEQUENCE, [], SetOf(AllHeld(k, MAX_SEQUENCE)))
  {
    r := Opened();
    AllAreWritten(k, MAX_SEQUENCE);
    var none: set<Entry> := {};
    assert SetOf([]) == none;
    r := WroteRecord(r, AllLogged(k, MAX_SEQUENCE), AllHeld(k, MAX_SEQUENCE));
    r, f := Flushed(r, []);
  }

  /** The compaction of the one table writes nothing. */
  lemma Discarding(k: UserKey) returns (r: Run, a: Action, s: Store)
    ensures r.Sound() && Step(r.Last(), a, s) && a.Install? && BoundaryClosed(r.Last().current, a.c)
    ensures Looks(s, [], TwoLevels([], []), MAX_SEQUENCE, [], SetOf(AllHeld(k, MAX_SEQUENCE)))
  {
    var f;
    r, f := Exhausted(k);
    var v := r.Last().current;
    var c := Compaction(0, [f], [], f.Smallest(), f.Largest());
    OnlyFile(v, f);
    s := InstallStep(r, c, f.run, MAX_SEQUENCE, f, [], [], []);
    a := Install(c, f.run, MAX_SEQUENCE, [], TwoLevels([], []));
  }

  lemma LastWriteRead(k: UserKey, n: SeqNo)
    requires n > 0
    ensures Lookup(SetOf(AllHeld(k, n)), k, n) == Found([1])
  {
    var s := SetOf(AllHeld(k, n));
    assert AllHeld(k, n)[0] in s;
    assert IsLatest(s, k, n, Nth(k, n));
    LookupLatest(s, k, n, Nth(k, n));
  }

  /**
   For any user key there is a run, of which all steps but the last keep the reads, that
   ends with a compaction of boundary-closed inputs that loses the last write to the key.
   */
  lemma LastWriteLostInRun(k: UserKey) returns (r: Run, a: Action, s: Store)
    ensures r.Sound() && Step(r.Last(), a, s) && IsRun(r.states + [s], r.actions + [a])
    ensures a.Install? && BoundaryClosed(r.Last().current, a.c) && !StepKeepsReads(r.Last(), a)
    ensures s.logged == [] && s.lastSequence == MAX_SEQUENCE
    ensures Lookup(s.history, k, s.lastSequence) == Found([1]) && Lookup(Held(s), k, s.lastSequence) == Miss
  {
    r, a, s := Discarding(k);
    var r' := Extend(r, a, s);
    LastWriteRead(k, MAX_SEQUENCE);
    NothingHeld(s.current, k, s.lastSequence);
    ReadChanged(r, a, s, k);
  }

  lemma NothingHeld(v: Version, k: UserKey, snap: SeqNo)
    requires v == TwoLevels([], [])
    ensures Lookup(Everything(Memory([], []), v), k, snap) == Miss
  {
    var none: set<Entry> := {};
    assert forall l | 0 <= l < NUM_LEVELS :: v[l] == [];
    assert Contents(v) == none;
    LookupMiss(none, k, snap);
  }
}
