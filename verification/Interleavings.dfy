/**
 A memtable may be flushed while a compaction is at work.  The table is put where the
 version of the moment allows it, without regard to the running compaction.  The inputs
 still are what would be selected, exactly if the table does not come into their range in
 the output level; and then the same entries are dropped.  That never happens to inputs
 selected around one file, as automatic compactions are.  It can happen to those of a
 manual compaction, and the last part shows how that loses a write.
 */
module Interleavings {
  import opened Wrappers
  import opened Comparator
  import opened Entries
  import opened Versions
  import opened Selection
  import opened Compactions
  import opened Installs
  import opened Builders
  import opened Replay
  import opened Edits
  import opened Preservation
  import opened Stores
  import opened StoreSteps
  import opened Runs

  // ----- One flush -----

  lemma {:induction false} FilesInKeepsOrder(files: Level, r: Range)
    requires Ordered(files)
    ensures Ordered(FilesIn(files, r))
  {
    if files != [] {
      var n := |files| - 1;
      FilesInKeepsOrder(files[..n], r);
      InFilesIn(files[..n], r);
      var sel := FilesIn(files[..n], r);
      forall i | 0 <= i < |sel|
        ensures FileBefore(sel[i], files[n])
      {
        assert sel[i] in sel;
      }
    }
  }

  /** A new file changes which files overlap a range exactly if it does. */
  lemma OverlappingAfter(files: Level, f: File, files': Level, r: Range)
    requires Ordered(files) && f !in files && Replaced(files, [], [f], files')
    ensures FilesIn(files', r) == FilesIn(files, r) <==> !Overlaps(f, r)
  {
    InFilesIn(files, r);
    InFilesIn(files', r);
    assert f in FilesIn(files', r) <==> Overlaps(f, r);
    if !Overlaps(f, r) {
      FilesInKeepsOrder(files, r);
      FilesInKeepsOrder(files', r);
      OrderedUnique(FilesIn(files', r), FilesIn(files, r));
    }
  }

  lemma NothingOlderAfter(files: Level, sel: Level, f: File, files': Level)
    requires NothingOlderLeft(files, sel) && Replaced(files, [], [f], files') && forall g | g in sel :: g in files
    requires Newer(SetOf(f.run), EntriesOf(files))
    ensures NothingOlderLeft(files', sel)
  {
    forall g, h | g in files' && g !in sel && h in sel
      ensures Newer(SetOf(g.run), SetOf(h.run))
    {
      if g == f {
        assert forall e | e in h.run :: e in EntriesOf(files);
      }
    }
  }

  /** Exactly when inputs selected before a flush still are what would be selected. */
  lemma FlushKeepsClosedIff(v: Version, c: Compaction, level: nat, f: File, v': Version)
    requires Closed(v, c) && FlushInstalled(v, level, f, v') && f !in v[level] && Ordered(v[c.level + 1])
    requires level == c.level ==> Newer(SetOf(f.run), EntriesOf(v[c.level]))
    ensures Closed(v', c) <==> !(level == c.level + 1 && Overlaps(f, UserRange(c.smallest, c.largest)))
  {
    if level == c.level {
      NothingOlderAfter(v[level], c.inputs0, f, v'[level]);
    } else if level == c.level + 1 {
      OverlappingAfter(v[level], f, v'[level], UserRange(c.smallest, c.largest));
    }
  }

  /** The deeper levels of the keys of the inputs are not touched. */
  lemma FlushKeepsBaseLevel(v: Version, c: Compaction, level: nat, f: File, v': Version, e: Entry)
    requires Closed(v, c) && e in Inputs(c) && FlushInstalled(v, level, f, v') && MayHold(v, level, f)
    ensures BaseLevel(v', c.level, e.ikey.user) <==> BaseLevel(v, c.level, e.ikey.user)
  {
    if level >= c.level + 2 {
      var l, g := InputFile(v, c, e);
      FileRange(g, e);
      assert !Overlaps(g, UserRange(f.Smallest(), f.Largest()));
      assert !Spans(f, e.ikey.user);
      assert forall h :: h in v'[level] <==> h in v[level] || h in [f];
      assert f in v'[level];
    }
    assert forall l, h | c.level + 2 <= l < NUM_LEVELS && l != level :: h in v'[l] <==> h in v[l];
  }

  lemma InputFile(v: Version, c: Compaction, e: Entry) returns (l: nat, g: File)
    requires Closed(v, c) && e in Inputs(c)
    ensures c.level <= l <= c.level + 1 && g in v[l] && e in g.run
  {
    InFilesIn(v[c.level + 1], UserRange(c.smallest, c.largest));
    if e in EntriesOf(c.inputs0) {
      l := c.level;
      g :| g in c.inputs0 && e in g.run;
    } else {
      l := c.level + 1;
      g :| g in c.inputs1 && e in g.run;
    }
  }

  /** Two versions that agree on where the keys of the entries are deepest drop the same ones. */
  lemma {:induction false} KeptAlike(v: Version, v': Version, level: nat, m: seq<Entry>, n: nat, ss: SeqNo)
    requires n <= |m| && forall e | e in m :: BaseLevel(v', level, e.ikey.user) <==> BaseLevel(v, level, e.ikey.user)
    ensures Kept(v', level, m, n, ss) == Kept(v, level, m, n, ss)
  {
    if n > 0 {
      KeptAlike(v, v', level, m, n - 1, ss);
      assert m[n-1] in m;
    }
  }

  /** So a compaction writes the same whether it runs before the flush or after it. */
  lemma FlushKeepsWritten(v: Version, c: Compaction, m: seq<Entry>, ss: SeqNo, level: nat, f: File, v': Version)
    requires Closed(v, c) && Merged(m, c) && FlushInstalled(v, level, f, v') && MayHold(v, level, f)
    ensures Written(v', c.level, m, |m|, ss) == Written(v, c.level, m, |m|, ss)
  {
    forall e | e in m
      ensures BaseLevel(v', c.level, e.ikey.user) <==> BaseLevel(v, c.level, e.ikey.user)
    {
      assert e in SetOf(m);
      FlushKeepsBaseLevel(v, c, level, f, v', e);
    }
    KeptAlike(v, v', c.level, m, |m|, ss);
  }

  // ----- Inputs selected around one file -----

  /** h is on one side of g: before it, or after it. */
  predicate Beside(before: bool, h: File, g: File) {
    if before then h.Largest().user < g.Smallest().user else g.Largest().user < h.Smallest().user
  }

  predicate AllBeside(before: bool, files: Level, g: File) {
    forall h | h in files :: Beside(before, h, g)
  }

  predicate Apart(files: Level, g: File) {
    forall h | h in files :: Beside(true, h, g) || Beside(false, h, g)
  }

  predicate RangeBeside(before: bool, r: Range, g: File) {
    if before then r.hi.Some? && r.hi.value < g.Smallest().user else r.lo.Some? && g.Largest().user < r.lo.value
  }

  lemma RangeBesideMisses(before: bool, r: Range, g: File)
    requires RangeBeside(before, r, g)
    ensures !Overlaps(g, r)
  {
    FileRange(g, g.run[0]);
  }

  /** The files of a range on one side of g are on that side. */
  lemma InRangeBeside(before: bool, files: Level, r: Range, g: File)
    requires RangeBeside(before, r, g) && Apart(files, g)
    ensures AllBeside(before, FilesIn(files, r), g)
  {
    InFilesIn(files, r);
    FileRange(g, g.run[0]);
    forall h | h in FilesIn(files, r)
      ensures Beside(before, h, g)
    {
      FileRange(h, h.run[0]);
    }
  }

  lemma BoundsBeside(before: bool, files: Level, lo: IKey, hi: IKey, g: File)
    requires AllBeside(before, files, g) && IsSmallestOf(files, lo) && IsLargestOf(files, hi)
    ensures RangeBeside(before, UserRange(lo, hi), g)
  {
    var a :| a in files && a.Smallest() == lo;
    var b :| b in files && b.Largest() == hi;
    assert Beside(before, a, g) && Beside(before, b, g);
  }

  /** A bound past all the files on one side of g. */
  lemma {:induction false} EndOf(before: bool, files: Level, g: File, x: UserKey) returns (y: UserKey)
    requires if before then x < g.Smallest().user else g.Largest().user < x
    ensures if before then x <= y < g.Smallest().user else g.Largest().user < y <= x
    ensures forall h | h in files && Beside(before, h, g) ::
              if before then h.Largest().user <= y else y <= h.Smallest().user
  {
    y := x;
    for i := 0 to |files|
      invariant if before then x <= y < g.Smallest().user else g.Largest().user < y <= x
      invariant forall j | 0 <= j < i && Beside(before, files[j], g) ::
                  if before then files[j].Largest().user <= y else y <= files[j].Smallest().user
    {
      var h := files[i];
      if Beside(before, h, g) {
        if before && h.Largest().user > y {
          y := h.Largest().user;
        } else if !before && h.Smallest().user < y {
          y := h.Smallest().user;
        }
      }
    }
  }

  /** The least closed range of a request on one side of g does not reach g. */
  lemma ClosureBeside(before: bool, files: Level, request: Range, r: Range, g: File)
    requires IsClosure(files, request, r) && RangeBeside(before, request, g) && Apart(files, g)
    ensures RangeBeside(before, r, g)
  {
    if !RangeBeside(before, r, g) {
      var y := EndOf(before, files, g, if before then request.hi.value else request.lo.value);
      var cut := if before then r.(hi := Some(y)) else r.(lo := Some(y));
      CutIsClosed(before, files, r, g, y);
      assert Acceptable(files, request, cut);
    }
  }

  lemma CutIsClosed(before: bool, files: Level, r: Range, g: File, y: UserKey)
    requires ClosedUnder(files, r) && Apart(files, g) && !RangeBeside(before, r, g)
    requires if before then y < g.Smallest().user else g.Largest().user < y
    requires forall h | h in files && Beside(before, h, g) ::
               if before then h.Largest().user <= y else y <= h.Smallest().user
    ensures ClosedUnder(files, if before then r.(hi := Some(y)) else r.(lo := Some(y)))
  {
    var cut := if before then r.(hi := Some(y)) else r.(lo := Some(y));
    FileRange(g, g.run[0]);
    forall h | h in files && Overlaps(h, cut)
      ensures Within(h, cut)
    {
      FileRange(h, h.run[0]);
      assert Beside(before, h, g);
      assert Overlaps(h, r);
    }
  }

  lemma OverlappingBeside(before: bool, files: Level, level: nat, request: Range, sel: Level, g: File)
    requires IsOverlapping(files, level, request, sel) && RangeBeside(before, request, g) && Apart(files, g)
    ensures AllBeside(before, sel, g)
  {
    var r :| (if level == 0 then IsClosure(files, request, r) else r == request) && sel == FilesIn(files, r);
    if level == 0 {
      ClosureBeside(before, files, request, r, g);
    }
    InRangeBeside(before, files, r, g);
  }

  /** A boundary file begins with a key of the files before it, so it is on the same side. */
  lemma {:induction false} BoundariesBeside(before: bool, files: Level, sel: Level, r: Level, g: File)
    requires IsBoundaryClosure(files, sel, r) && AllBeside(before, sel, g) && Apart(files, g)
    ensures AllBeside(before, r, g)
  {
    ChainBeside(before, files, |sel|, r, |r|, g);
    assert r[..|r|] == r;
  }

  lemma {:induction false} ChainBeside(before: bool, files: Level, n: nat, r: Level, i: nat, g: File)
    requires n <= i <= |r| && IsBoundaryChain(files, n, r) && AllBeside(before, r[..n], g) && Apart(files, g)
    ensures AllBeside(before, r[..i], g)
    decreases i
  {
    if i > n {
      ChainBeside(before, files, n, r, i - 1, g);
      var b := r[i-1];
      BoundaryBeside(before, files, r[..i-1], b, g);
      assert r[..i] == r[..i-1] + [b];
    }
  }

  lemma BoundaryBeside(before: bool, files: Level, sel: Level, b: File, g: File)
    requires IsNextBoundary(files, sel, b) && AllBeside(before, sel, g) && Apart(files, g)
    ensures Beside(before, b, g)
  {
    var key :| IsLargestOf(sel, key) && IsBoundaryFile(files, key, b);
    var h :| h in sel && h.Largest() == key;
    FileRange(h, h.run[0]);
    FileRange(b, b.run[0]);
    FileRange(g, g.run[0]);
    assert Beside(before, h, g);
  }

  lemma StartBeside(before: bool, files: Level, level: nat, f: File, start: Level, g: File)
    requires StartsFrom(files, level, f, start) && Beside(before, f, g) && Apart(files, g)
    ensures AllBeside(before, start, g)
  {
    if level == 0 {
      OverlappingBeside(before, files, 0, UserRange(f.Smallest(), f.Largest()), start, g);
    }
  }

  lemma ExpansionBeside(before: bool, files: Level, c: Compaction, expanded0: Level, g: File)
    requires IsExpansion(files, c, expanded0) && AllBeside(before, c.inputs0 + c.inputs1, g) && Apart(files, g)
    ensures AllBeside(before, expanded0, g)
  {
    var lo, hi, sel :|
      && IsSmallestOf(c.inputs0 + c.inputs1, lo) && IsLargestOf(c.inputs0 + c.inputs1, hi)
      && IsOverlapping(files, c.level, UserRange(lo, hi), sel)
      && IsBoundaryClosure(files, sel, expanded0);
    BoundsBeside(before, c.inputs0 + c.inputs1, lo, hi, g);
    OverlappingBeside(before, files, c.level, UserRange(lo, hi), sel, g);
    BoundariesBeside(before, files, sel, expanded0, g);
  }

  /** All the inputs are on the side of the file the selection started from. */
  lemma InputsBeside(before: bool, files: Level, next: Level, level: nat, start: Level, byteLimit: nat, c: Compaction,
                     g: File)
    requires IsSetUp(files, next, level, start, byteLimit, c)
    requires AllBeside(before, start, g) && Apart(files, g) && Apart(next, g)
    ensures RangeBeside(before, UserRange(c.smallest, c.largest), g)
  {
    var plain: Compaction :|
      && ClosedIn(files, next, plain) && plain.level == level && IsBoundaryClosure(files, start, plain.inputs0)
      && IsGrown(files, next, plain, byteLimit, c);
    BoundariesBeside(before, files, start, plain.inputs0, g);
    BoundsBeside(before, plain.inputs0, plain.smallest, plain.largest, g);
    InRangeBeside(before, next, UserRange(plain.smallest, plain.largest), g);
    if c != plain {
      ExpansionBeside(before, files, plain, c.inputs0, g);
      BoundsBeside(before, c.inputs0, c.smallest, c.largest, g);
    }
  }

  /** A file that overlaps none of the two levels is not in the range of inputs selected around one file. */
  lemma PickedAvoids(files: Level, next: Level, level: nat, f: File, byteLimit: nat, c: Compaction, g: File)
    requires IsPicked(files, next, level, f, byteLimit, c) && f in files && Apart(files, g) && Apart(next, g)
    ensures !Overlaps(g, UserRange(c.smallest, c.largest))
  {
    var start :| StartsFrom(files, level, f, start) && IsSetUp(files, next, level, start, byteLimit, c);
    var before := Beside(true, f, g);
    StartBeside(before, files, level, f, start, g);
    InputsBeside(before, files, next, level, start, byteLimit, c, g);
    RangeBesideMisses(before, UserRange(c.smallest, c.largest), g);
  }

  lemma AllowedIsApart(v: Version, level: nat, f: File, l: nat)
    requires MayHold(v, level, f) && level > 0 && l <= level
    ensures Apart(v[l], f)
  {
    forall h | h in v[l]
      ensures Beside(true, h, f) || Beside(false, h, f)
    {
      assert !Overlaps(h, UserRange(f.Smallest(), f.Largest()));
    }
  }

  // ----- While an automatic compaction runs -----

  predicate HasAll(more: Level, files: Level) {
    forall g | g in files :: g in more
  }

  /** c was picked in v0 around f0, and m merges its inputs. */
  ghost predicate IsAutomatic(v0: Version, f0: File, byteLimit: nat, c: Compaction, m: seq<Entry>) {
    && Closed(v0, c) && f0 in v0[c.level] && Merged(m, c)
    && IsPicked(v0[c.level], v0[c.level + 1], c.level, f0, byteLimit, c)
  }

  /** The inputs, picked in v0, can be installed in v: they are closed there and lose the same entries. */
  ghost predicate StillPicked(v0: Version, v: Version, c: Compaction, m: seq<Entry>, ss: SeqNo) {
    && Closed(v, c)
    && HasAll(v[c.level], v0[c.level]) && HasAll(v[c.level + 1], v0[c.level + 1])
    && Written(v, c.level, m, |m|, ss) == Written(v0, c.level, m, |m|, ss)
  }

  lemma ApartFromFewer(files: Level, more: Level, g: File)
    requires Apart(more, g) && HasAll(more, files)
    ensures Apart(files, g)
  {
  }

  /** A flush leaves such inputs installable. */
  lemma FlushKeepsPicked(v0: Version, v: Version, f0: File, byteLimit: nat, c: Compaction, m: seq<Entry>, ss: SeqNo,
                         level: nat, f: File, v': Version)
    requires IsAutomatic(v0, f0, byteLimit, c, m)
    requires StillPicked(v0, v, c, m, ss) && Ordered(v[c.level + 1]) && Newer(SetOf(f.run), EntriesOf(v[c.level]))
    requires FlushInstalled(v, level, f, v') && MayHold(v, level, f) && f !in v[level]
    ensures StillPicked(v0, v', c, m, ss)
  {
    FlushKeepsClosedIff(v, c, level, f, v');
    FlushKeepsWritten(v, c, m, ss, level, f, v');
    if level == c.level + 1 {
      AllowedIsApart(v, level, f, c.level);
      AllowedIsApart(v, level, f, c.level + 1);
      ApartFromFewer(v0[c.level], v[c.level], f);
      ApartFromFewer(v0[c.level + 1], v[c.level + 1], f);
      PickedAvoids(v0[c.level], v0[c.level + 1], c.level, f0, byteLimit, c, f);
    }
    assert forall l: LevelNumber :: HasAll(v'[l], v[l]);
  }

  lemma FlushIsNew(s: Store, level: LevelNumber, f: File, v': Version, s': Store)
    requires Inv(s) && FlushMemtable(s, level, f, v', s')
    ensures FlushInstalled(s.current, level, f, v') && f !in s.current[level]
    ensures forall l: LevelNumber :: Ordered(s.current[l]) && Newer(SetOf(f.run), EntriesOf(s.current[l]))
  {
    FlushFacts(s, level, f, v', s');
    CurrentBelow(s);
    DescribedIsOrdered(s.disk.manifest, s.current);
    forall l: LevelNumber
      ensures Newer(SetOf(f.run), EntriesOf(s.current[l]))
    {
      NewerThanLevel(SetOf(f.run), s.current, l);
    }
  }

  lemma NewerThanLevel(a: set<Entry>, v: Version, l: LevelNumber)
    requires Newer(a, Contents(v))
    ensures Newer(a, EntriesOf(v[l]))
  {
    forall e | e in EntriesOf(v[l])
      ensures e in Contents(v)
    {
      InContents(v, l, e);
    }
  }

  /** The actions that may come between picking the inputs of a compaction and installing it. */
  predicate MayComeBetween(a: Action) {
    !a.Install? && !a.Move? && !a.Crash?
  }

  lemma OthersKeepVersion(s: Store, a: Action, s': Store)
    requires Step(s, a, s') && MayComeBetween(a) && !a.Flush?
    ensures s'.current == s.current
  {
  }

  lemma StepKeepsPicked(v0: Version, s: Store, a: Action, s': Store, f0: File, byteLimit: nat, c: Compaction,
                        m: seq<Entry>, ss: SeqNo)
    requires Inv(s) && Step(s, a, s') && MayComeBetween(a)
    requires IsAutomatic(v0, f0, byteLimit, c, m)
    requires StillPicked(v0, s.current, c, m, ss)
    ensures StillPicked(v0, s'.current, c, m, ss)
  {
    if a.Flush? {
      FlushIsNew(s, a.level, a.file, a.version, s');
      FlushKeepsPicked(v0, s.current, f0, byteLimit, c, m, ss, a.level, a.file, s'.current);
    } else {
      OthersKeepVersion(s, a, s');
    }
  }

  /**
   In a run, the inputs of an automatic compaction picked in state i can be installed in a later
   state, with the outputs that were computed from state i, whatever was flushed in between.
   */
  lemma PickedStaysInstallable(states: seq<Store>, actions: seq<Action>, i: nat, j: nat, f0: File, byteLimit: nat,
                               c: Compaction, m: seq<Entry>, ss: SeqNo)
    requires IsSoundRun(states, actions) && i <= j < |states|
    requires forall k | i <= k < j :: MayComeBetween(actions[k])
    requires IsAutomatic(states[i].current, f0, byteLimit, c, m)
    ensures StillPicked(states[i].current, states[j].current, c, m, ss)
  {
    PickedAtFirst(states[i].current, f0, byteLimit, c, m, ss);
    forall k | i <= k < j
      ensures PassesOn(states, k, states[i].current, c, m, ss)
    {
      NextKeepsPicked(states, actions, k, states[i].current, f0, byteLimit, c, m, ss);
    }
    PassedOn(states, i, j, states[i].current, c, m, ss);
  }

  lemma PickedAtFirst(v0: Version, f0: File, byteLimit: nat, c: Compaction, m: seq<Entry>, ss: SeqNo)
    requires IsAutomatic(v0, f0, byteLimit, c, m)
    ensures StillPicked(v0, v0, c, m, ss)
  {
  }

  ghost predicate PassesOn(states: seq<Store>, k: nat, v0: Version, c: Compaction, m: seq<Entry>, ss: SeqNo)
    requires k + 1 < |states|
  {
    StillPicked(v0, states[k].current, c, m, ss) ==> StillPicked(v0, states[k+1].current, c, m, ss)
  }

  lemma NextKeepsPicked(states: seq<Store>, actions: seq<Action>, k: nat, v0: Version, f0: File, byteLimit: nat,
                        c: Compaction, m: seq<Entry>, ss: SeqNo)
    requires IsSoundRun(states, actions) && k < |actions| && MayComeBetween(actions[k])
    requires IsAutomatic(v0, f0, byteLimit, c, m)
    ensures PassesOn(states, k, v0, c, m, ss)
  {
    RunKeepsInv(states, actions, k);
    var s, a, s' := states[k], actions[k], states[k+1];
    assert Step(s, a, s');
    if StillPicked(v0, s.current, c, m, ss) {
      StepKeepsPicked(v0, s, a, s', f0, byteLimit, c, m, ss);
    }
  }

  lemma {:induction false} PassedOn(states: seq<Store>, i: nat, j: nat, v0: Version, c: Compaction, m: seq<Entry>,
                                    ss: SeqNo)
    requires i <= j < |states| && StillPicked(v0, states[i].current, c, m, ss)
    requires forall k | i <= k < j :: PassesOn(states, k, v0, c, m, ss)
    ensures StillPicked(v0, states[j].current, c, m, ss)
  {
    if i < j {
      assert PassesOn(states, j - 1, v0, c, m, ss);
      PassedOn(states, i, j - 1, v0, c, m, ss);
    }
  }

  // ----- While a manual compaction runs -----

  /**
   If a table was flushed to the output level while the compaction ran, installing the outputs
   leaves the level sorted exactly if the table overlaps none of them.
   */
  lemma InstalledOverFlushIff(v: Version, c: Compaction, outs: Level, v1: Version, f: File, v': Version, v'': Version)
    requires Valid(v) && Closed(v, c) && MayHold(v, c.level + 1, f) && f !in outs
    requires Sorted(Flatten(outs)) && SetOf(Flatten(outs)) <= Inputs(c)
    requires CompactionInstalled(v, c, outs, v1)
    requires FlushInstalled(v, c.level + 1, f, v') && f !in v[c.level + 1] && CompactionInstalled(v', c, outs, v'')
    ensures SortedLevel(v''[c.level + 1]) <==>
            forall o | o in outs :: !Overlaps(o, UserRange(f.Smallest(), f.Largest()))
  {
    var files, files1 := v''[c.level + 1], v1[c.level + 1];
    CompactionKeepsValid(v, c, outs, v1);
    InFilesIn(v[c.level + 1], UserRange(c.smallest, c.largest));
    assert forall g :: g in files <==> g in files1 || g == f;
    if SortedLevel(files) {
      forall o | o in outs
        ensures !Overlaps(o, UserRange(f.Smallest(), f.Largest()))
      {
        SeparatedMisses(v, c, outs, files, o, f);
      }
    }
    if forall o | o in outs :: !Overlaps(o, UserRange(f.Smallest(), f.Largest())) {
      forall g, h | g in files && h in files && g != h
        ensures Separated(g, h)
      {
        SeparatedWithFlushed(v, c, outs, files1, f, g, h);
      }
      SeparatedIsSorted(files);
    }
  }

  lemma SeparatedMisses(v: Version, c: Compaction, outs: Level, files: Level, o: File, f: File)
    requires Closed(v, c) && MayHold(v, c.level + 1, f) && SetOf(Flatten(outs)) <= Inputs(c)
    requires SortedLevel(files) && o in files && f in files && o in outs && o != f
    ensures !Overlaps(o, UserRange(f.Smallest(), f.Largest()))
  {
    SortedSeparated(files, o, f);
    FlattenMembers(outs);
    InLevel(outs, o, o.run[0]);
    InLevel(outs, o, o.run[|o.run|-1]);
    InputApartFrom(v, c, o.run[0], f);
    InputApartFrom(v, c, o.run[|o.run|-1], f);
    FileRange(o, o.run[0]);
    FileRange(f, f.run[0]);
  }

  lemma InputApartFrom(v: Version, c: Compaction, e: Entry, f: File)
    requires Closed(v, c) && MayHold(v, c.level + 1, f) && e in Inputs(c)
    ensures !(f.Smallest().user <= e.ikey.user <= f.Largest().user)
  {
    var l, g := InputFile(v, c, e);
    FileRange(g, e);
    assert !Overlaps(g, UserRange(f.Smallest(), f.Largest()));
  }

  lemma SeparatedWithFlushed(v: Version, c: Compaction, outs: Level, files1: Level, f: File, g: File, h: File)
    requires MayHold(v, c.level + 1, f) && SortedLevel(files1)
    requires forall o | o in files1 :: o in v[c.level + 1] || o in outs
    requires forall o | o in outs :: !Overlaps(o, UserRange(f.Smallest(), f.Largest()))
    requires (g in files1 || g == f) && (h in files1 || h == f) && g != h
    ensures Separated(g, h)
  {
    if g == f {
      NoOverlapNoSharedKey(f, h, h.run[0], f.run[0]);
    } else if h == f {
      NoOverlapNoSharedKey(f, g, g.run[0], f.run[0]);
    } else {
      SortedSeparated(files1, g, h);
    }
  }

  const BEFORE := Entry(IKey(KEY_1, 10, Value), [1])
  const AFTER := Entry(IKey(KEY_3, 11, Value), [3])
  const BETWEEN := Entry(IKey(KEY_2, 12, Value), [2])

  const FIRST: File := FileRep(20, 1, [BEFORE])
  const SECOND: File := FileRep(21, 1, [AFTER])
  const FLUSHED: File := FileRep(22, 1, [BETWEEN])
  const OUTPUT: File := FileRep(23, 1, [BEFORE, AFTER])

  const GAP: Version := [[], [FIRST, SECOND], [], [], [], [], []]
  const GAP_FILLED: Version := [[], [FIRST, SECOND], [FLUSHED], [], [], [], []]
  const GAP_SPANNED: Version := [[], [], [OUTPUT, FLUSHED], [], [], [], []]
  const GAP_INPUTS := Compaction(1, [FIRST, SECOND], [], BEFORE.ikey, AFTER.ikey)

  lemma GapContents()
    ensures forall l | 0 <= l < NUM_LEVELS && l != 1 :: EntriesOf(GAP[l]) == {}
    ensures EntriesOf(GAP[1]) == {BEFORE, AFTER} && Contents(GAP) == {BEFORE, AFTER}
  {
    EntriesOfTwo(FIRST, SECOND);
    forall e
      ensures e in Contents(GAP) <==> e in EntriesOf(GAP[1])
    {
      if e in Contents(GAP) {
        var l := ContentsLevel(GAP, e);
      }
      if e in EntriesOf(GAP[1]) {
        InContents(GAP, 1, e);
      }
    }
  }

  lemma GapValid()
    ensures Valid(GAP)
  {
    GapContents();
    assert GAP[0] == [] && forall l | 2 <= l < NUM_LEVELS :: GAP[l] == [];
    forall l | 1 <= l < NUM_LEVELS
      ensures SortedLevel(GAP[l])
    {
      assert l == 1 || GAP[l] == [];
    }
    forall i, j | 0 <= i < j < NUM_LEVELS
      ensures Newer(EntriesOf(GAP[i]), EntriesOf(GAP[j]))
    {
      assert i != 1 || j != 1;
    }
  }

  lemma GapInputs()
    ensures Closed(GAP, GAP_INPUTS) && Merged([BEFORE, AFTER], GAP_INPUTS)
    ensures FilesIn([FIRST, SECOND], Range(None, None)) == [FIRST, SECOND]
  {
    EntriesOfTwo(FIRST, SECOND);
    assert FIRST in [FIRST, SECOND] && SECOND in [FIRST, SECOND];
    assert [FIRST, SECOND][..1] == [FIRST] && [FIRST][..0] == [];
    assert FilesIn([FIRST], Range(None, None)) == [FIRST];
    assert forall e :: e in EntriesOf(GAP_INPUTS.inputs1) ==> false;
  }

  lemma AllTaken(start: Level, fileLimit: nat)
    requires fileLimit > 1 && StartsIn([FIRST, SECOND], 1, Range(None, None), fileLimit, start)
    ensures start == [FIRST, SECOND]
  {
    GapInputs();
    var sel :| IsOverlapping([FIRST, SECOND], 1, Range(None, None), sel) && IsTruncated(sel, fileLimit, start);
    assert sel == [FIRST, SECOND];
    assert TotalFileSize([FIRST]) == 1 && sel[..1] == [FIRST] && sel[..2] == sel && start == sel[..|start|];
  }

  /** Nothing is added to all the files of the level. */
  lemma NoMore(start: Level, byteLimit: nat, c: Compaction)
    requires start == [FIRST, SECOND] && IsSetUp([FIRST, SECOND], [], 1, start, byteLimit, c)
    ensures c == GAP_INPUTS
  {
    var plain: Compaction :|
      && ClosedIn([FIRST, SECOND], [], plain) && plain.level == 1
           && IsBoundaryClosure([FIRST, SECOND], start, plain.inputs0)
      && IsGrown([FIRST, SECOND], [], plain, byteLimit, c);
    if |plain.inputs0| > 2 {
      NoBoundaryInGap(plain.inputs0[..2], plain.inputs0[2]);
    }
    assert plain.inputs0 == [FIRST, SECOND];
    GapInputs();
    OneSmallest(plain.inputs0, plain.smallest, BEFORE.ikey);
    OneLargest(plain.inputs0, plain.largest, AFTER.ikey);
  }

  lemma NoBoundaryInGap(sel: Level, b: File)
    requires sel == [FIRST, SECOND]
    ensures !IsNextBoundary([FIRST, SECOND], sel, b)
  {
    KeysInOrder();
    if key :| IsLargestOf(sel, key) && IsBoundaryFile([FIRST, SECOND], key, b) {
      assert SECOND in sel;
    }
  }

  lemma KeysInOrder()
    ensures KEY_1 < KEY_2 < KEY_3
  {
    RankEmbedsOrder([1], [2]);
    RankEmbedsOrder([2], [3]);
  }

  lemma BothPicked(fileLimit: nat, byteLimit: nat, c: Compaction)
    requires fileLimit > 1 && IsPickedIn([FIRST, SECOND], [], 1, Range(None, None), fileLimit, byteLimit, c)
    ensures c == GAP_INPUTS
  {
    var start :| StartsIn([FIRST, SECOND], 1, Range(None, None), fileLimit, start)
      && IsSetUp([FIRST, SECOND], [], 1, start, byteLimit, c);
    AllTaken(start, fileLimit);
    NoMore(start, byteLimit, c);
  }

  lemma GapSearchable()
    ensures GAP[1] == [FIRST, SECOND] && GAP[2] == [] && Searchable(GAP[1], 1) && Occupied(GAP[1], Range(None, None))
  {
    GapValid();
    ValidSearchable(GAP, 1);
    assert FIRST in GAP[1] && Overlaps(FIRST, Range(None, None));
  }

  /** A manual compaction of everything takes both files, unless the first alone reaches the limit. */
  method PickAcrossGap(fileLimit: nat, byteLimit: nat) returns (c: Option<Compaction>)
    requires fileLimit > 1
    ensures c == Some(GAP_INPUTS)
  {
    GapSearchable();
    c := CompactRange(GAP, 1, Range(None, None), fileLimit, byteLimit);
    BothPicked(fileLimit, byteLimit, c.value);
  }

  /** The table with the key between them goes to the output level. */
  method LevelForFlushed(grandparentLimit: nat) returns (level: nat)
    ensures level == 2 && MayHold(GAP, level, FLUSHED)
  {
    GapValid();
    KeysInOrder();
    level := PickLevelForMemTableOutput(GAP, UserRange(FLUSHED.Smallest(), FLUSHED.Largest()), grandparentLimit);
    assert FilesIn([], UserRange(FLUSHED.Smallest(), FLUSHED.Largest())) == [];
    assert GAP[0] == [] && GAP[2] == [] && GAP[3] == [];
  }

  lemma GapFilled()
    ensures FlushInstalled(GAP, 2, FLUSHED, GAP_FILLED)
    ensures CompactionInstalled(GAP_FILLED, GAP_INPUTS, [OUTPUT], GAP_SPANNED)
    ensures !Closed(GAP_FILLED, GAP_INPUTS)
  {
    KeysInOrder();
    assert OUTPUT.run != FLUSHED.run;
    assert Overlaps(FLUSHED, UserRange(BEFORE.ikey, AFTER.ikey));
    assert [FLUSHED][..0] == [];
    assert FilesIn([FLUSHED], UserRange(BEFORE.ikey, AFTER.ikey)) == [FLUSHED];
  }

  lemma GapWritten(ss: SeqNo)
    requires ss < MAX_SEQUENCE
    ensures Flatten([OUTPUT]) == Written(GAP, 1, [BEFORE, AFTER], 2, ss)
  {
    var m := [BEFORE, AFTER];
    KeysInOrder();
    assert [OUTPUT][..0] == [] && Flatten([OUTPUT]) == [] + OUTPUT.run;
    assert !Dropped(GAP, 1, m, 0, ss) && !Dropped(GAP, 1, m, 1, ss);
    assert Kept(GAP, 1, m, 1, ss) == [BEFORE];
  }

  lemma SpannedContents()
    ensures Distinct(Contents(GAP_SPANNED)) && IsLatest(Contents(GAP_SPANNED), KEY_2, 12, BETWEEN)
  {
    KeysInOrder();
    EntriesOfTwo(OUTPUT, FLUSHED);
    forall e
      ensures e in Contents(GAP_SPANNED) <==> e in {BEFORE, AFTER, BETWEEN}
    {
      if e in Contents(GAP_SPANNED) {
        var l := ContentsLevel(GAP_SPANNED, e);
        assert l == 2;
      }
      if e in EntriesOf(GAP_SPANNED[2]) {
        InContents(GAP_SPANNED, 2, e);
      }
    }
  }

  lemma SearchedFileMisses()
    ensures forall g | g in GAP_SPANNED[2] :: !Less(g.Largest(), SeekKey(KEY_2, 12))
    ensures forall e | e in GAP_SPANNED[2][0].run :: e.ikey.user != KEY_2
  {
    KeysInOrder();
  }

  /**
   A valid version, the inputs a manual compaction picks in it, and a table that a flush may put in
   the output level while it runs, such that the outputs come to overlap the table: the level is no
   longer sorted, and the one file of it that a lookup of the flushed key searches, the first whose
   largest key is not before the target, does not have the key.
   */
  lemma ManualCompactionHidesFlush(ss: SeqNo)
    requires ss < MAX_SEQUENCE
    ensures Valid(GAP) && Closed(GAP, GAP_INPUTS) && Merged([BEFORE, AFTER], GAP_INPUTS)
    ensures FlushInstalled(GAP, 2, FLUSHED, GAP_FILLED) && !Closed(GAP_FILLED, GAP_INPUTS)
    ensures Flatten([OUTPUT]) == Written(GAP, 1, [BEFORE, AFTER], 2, ss)
    ensures CompactionInstalled(GAP_FILLED, GAP_INPUTS, [OUTPUT], GAP_SPANNED) && !SortedLevel(GAP_SPANNED[2])
    ensures Lookup(Contents(GAP_SPANNED), KEY_2, 12) == Found([2])
    ensures forall g | g in GAP_SPANNED[2] :: !Less(g.Largest(), SeekKey(KEY_2, 12))
    ensures forall e | e in GAP_SPANNED[2][0].run :: e.ikey.user != KEY_2
  {
    GapValid();
    GapInputs();
    GapFilled();
    GapWritten(ss);
    KeysInOrder();
    SpannedContents();
    LookupLatest(Contents(GAP_SPANNED), KEY_2, 12, BETWEEN);
    SearchedFileMisses();
  }
}
