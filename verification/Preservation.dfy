/**
 Exactly when a compaction of files chosen by SetupOtherInputs changes a read at or after
 the smallest snapshot.  Boundary files decide it: SetupOtherInputs leaves none of the
 first input set behind, but may leave one of the second, and the last part shows a store
 where this makes a deleted key reappear.
 */
module Preservation {
  import opened Wrappers
  import opened Comparator
  import opened Entries
  import opened Versions
  import opened Selection
  import opened Compactions
  import opened Installs

  /** m lists the entries of the chosen files in internal-key order. */
  ghost predicate Merged(m: seq<Entry>, c: Compaction) {
    Sorted(m) && SetOf(m) == Inputs(c)
  }

  /** No file left in the output level goes on with the user keys of the second inputs. */
  ghost predicate BoundaryClosed(v: Version, c: Compaction) {
    c.level + 1 < NUM_LEVELS && NothingOlderLeft(v[c.level + 1], c.inputs1)
  }

  /**
   In the words of AddBoundaryInputs: this holds exactly if that search,
   run on the second input set, would find no boundary file.
   */
  lemma BoundaryClosedIff(v: Version, c: Compaction, key: IKey)
    requires c.level + 1 < NUM_LEVELS && Searchable(v[c.level + 1], c.level + 1)
    requires c.inputs1 == FilesIn(v[c.level + 1], UserRange(c.smallest, c.largest)) && IsLargestOf(c.inputs1, key)
    ensures BoundaryClosed(v, c) <==> NoContinuation(v[c.level + 1], key)
  {
    ClosedSliceIff(v[c.level + 1], UserRange(c.smallest, c.largest), c.inputs1, key);
  }

  lemma ClosedSliceIff(files: Level, r: Range, sel: Level, key: IKey)
    requires SortedLevel(files) && Distinct(EntriesOf(files))
    requires sel == FilesIn(files, r) && IsLargestOf(sel, key)
    ensures NothingOlderLeft(files, sel) <==> NoContinuation(files, key)
  {
    var g :| g in sel && g.Largest() == key;
    OverlapsAreSlice(files, r);
    if NoContinuation(files, key) {
      SliceLeavesNothingOlder(files, sel);
    } else {
      var f :| f in files && Continues(f, key);
      ContinuationIsOlder(files, sel, key, g, f);
    }
  }

  lemma ContinuationIsOlder(files: Level, sel: Level, key: IKey, g: File, f: File)
    requires IsLargestOf(sel, key) && g in sel && g.Largest() == key
    requires f in files && Continues(f, key)
    ensures !NothingOlderLeft(files, sel)
  {
    FileRange(f, f.run[0]);
    assert f !in sel;
    var x, y := f.run[0], g.run[|g.run|-1];
    assert x in SetOf(f.run) && y in SetOf(g.run);
    assert x.ikey == f.Smallest() && y.ikey == key;
    assert !Newer(SetOf(f.run), SetOf(g.run));
  }

  /** An empty second input set is closed. */
  lemma NoSecondInputsClosed(v: Version, c: Compaction)
    requires c.level + 1 < NUM_LEVELS && c.inputs1 == []
    ensures BoundaryClosed(v, c)
  {
  }

  // ----- What a dropped marker covers -----

  lemma OutsideFirstInputs(v: Version, c: Compaction, e: Entry, l: nat, f: File, o: Entry)
    requires LevelsOrdered(v) && Closed(v, c)
    requires e in EntriesOf(c.inputs0) && l < c.level + 2 && f in v[l] && o in f.run
    requires o !in Inputs(c) && o.ikey.user == e.ikey.user
    ensures o.ikey.seqno > e.ikey.seqno
  {
    var g := FirstInput(v[c.level], c.inputs0, e);
    if l <= c.level {
      NotSelected(c.inputs0, f, o);
      OutsideNewer(v, c.level, c.inputs0, l, f, g, o, e);
    } else {
      SharedKeyIsInput(v[c.level + 1], c, f, g, o, e);
    }
  }

  lemma FirstInput(files: Level, sel: Level, e: Entry) returns (g: File)
    requires e in EntriesOf(sel) && forall f | f in sel :: f in files
    ensures g in sel && g in files && e in g.run
  {
    g :| g in sel && e in g.run;
  }

  lemma NotSelected(sel: Level, f: File, o: Entry)
    requires o in f.run && o !in EntriesOf(sel)
    ensures f !in sel
  {
  }

  lemma FileHolding(v: Version, level: nat, o: Entry) returns (l: nat, f: File)
    requires o in Contents(v) && BaseLevel(v, level, o.ikey.user)
    ensures l < NUM_LEVELS && l < level + 2 && f in v[l] && o in f.run
  {
    l := ContentsLevel(v, o);
    f :| f in v[l] && o in f.run;
    FileRange(f, o);
    assert Spans(f, o.ikey.user);
  }

  /** A file of the output level that shares a user key with the first inputs is a second input. */
  lemma SharedKeyIsInput(next: Level, c: Compaction, f: File, g: File, o: Entry, e: Entry)
    requires IsSmallestOf(c.inputs0, c.smallest) && IsLargestOf(c.inputs0, c.largest)
    requires c.inputs1 == FilesIn(next, UserRange(c.smallest, c.largest))
    requires g in c.inputs0 && e in g.run && f in next && o in f.run && o.ikey.user == e.ikey.user
    ensures o in EntriesOf(c.inputs1)
  {
    FileRange(f, o);
    FileRange(g, e);
    InFilesIn(next, UserRange(c.smallest, c.largest));
    InLevel(c.inputs1, f, o);
  }

  lemma OutsideNewer(v: Version, level: nat, sel: Level, l: nat, f: File, g: File, o: Entry, e: Entry)
    requires LevelsOrdered(v) && l <= level < NUM_LEVELS && NothingOlderLeft(v[level], sel)
    requires f in v[l] && o in f.run && g in v[level] && g in sel && e in g.run
    requires l == level ==> f !in sel
    requires o.ikey.user == e.ikey.user
    ensures o.ikey.seqno > e.ikey.seqno
  {
    InLevel(v[l], f, o);
    InLevel(v[level], g, e);
    if l < level {
      assert Newer(EntriesOf(v[l]), EntriesOf(v[level]));
    } else {
      assert Newer(SetOf(f.run), SetOf(g.run));
      assert o in SetOf(f.run) && e in SetOf(g.run);
    }
  }

  lemma InputLevels(v: Version, c: Compaction)
    requires Closed(v, c)
    ensures EntriesOf(c.inputs0) <= EntriesOf(v[c.level])
    ensures EntriesOf(c.inputs1) <= EntriesOf(v[c.level + 1])
  {
    InFilesIn(v[c.level + 1], UserRange(c.smallest, c.largest));
    SubsetOfLevel(c.inputs0, v[c.level]);
    SubsetOfLevel(c.inputs1, v[c.level + 1]);
  }

  /** What an obsolete marker of the inputs covers outside them is in the files that go on with the last user key. */
  lemma CoveredIsBeyond(mem: Memory, v: Version, c: Compaction, e: Entry, o: Entry)
    requires ValidStore(mem, v) && Closed(v, c) && e in Inputs(c) && BaseLevel(v, c.level, e.ikey.user)
    requires o in Everything(mem, v) && o !in Inputs(c) && o.ikey.user == e.ikey.user && o.ikey.seqno <= e.ikey.seqno
    ensures e in EntriesOf(c.inputs1)
    ensures exists f :: f in v[c.level + 1] && f !in c.inputs1 && o in f.run && Less(e.ikey, f.Smallest())
  {
    InputsInContents(v, c, e);
    var l, f := FileHolding(v, c.level, o);
    if e in EntriesOf(c.inputs0) {
      OutsideFirstInputs(v, c, e, l, f, o);
    } else if l <= c.level {
      OutsideAbove(v, c, e, l, f, o);
    } else {
      NotSelected(c.inputs1, f, o);
      UnselectedApart(v, c, f);
      FileRange(f, o);
      assert Distinct(Everything(mem, v)) && e != o;
    }
  }

  lemma OutsideAbove(v: Version, c: Compaction, e: Entry, l: nat, f: File, o: Entry)
    requires LevelsOrdered(v) && Closed(v, c) && e in EntriesOf(c.inputs1) && l <= c.level && f in v[l] && o in f.run
    requires o.ikey.user == e.ikey.user
    ensures o.ikey.seqno > e.ikey.seqno
  {
    InFilesIn(v[c.level + 1], UserRange(c.smallest, c.largest));
    var g := FirstInput(v[c.level + 1], c.inputs1, e);
    InLevel(v[l], f, o);
    InLevel(v[c.level + 1], g, e);
    assert Newer(EntriesOf(v[l]), EntriesOf(v[c.level + 1]));
  }

  /** A file that begins after a second input with its user key goes on with the largest key of them all. */
  lemma BeyondContinues(v: Version, c: Compaction, e: Entry, key: IKey, f: File)
    requires Closed(v, c) && SortedLevel(v[c.level + 1]) && IsLargestOf(c.inputs1, key)
    requires e in EntriesOf(c.inputs1) && f in v[c.level + 1] && f !in c.inputs1 && Less(e.ikey, f.Smallest())
    requires f.Smallest().user == e.ikey.user
    ensures Continues(f, key)
  {
    var g :| g in c.inputs1 && e in g.run;
    var h :| h in c.inputs1 && h.Largest() == key;
    FileRange(g, e);
    UnselectedApart(v, c, f);
    InLevel(c.inputs1, h, h.run[|h.run|-1]);
    InLevel(c.inputs1, g, e);
  }

  /** b is the boundary file of the second inputs, and k the user key it goes on with. */
  ghost predicate Boundary(v: Version, c: Compaction, k: UserKey, b: File)
    requires c.level + 1 < NUM_LEVELS
  {
    b.Smallest().user == k && exists key :: IsLargestOf(c.inputs1, key) && IsBoundaryFile(v[c.level + 1], key, b)
  }

  /** The boundary file begins with what the marker covers. */
  lemma BoundaryAnswers(mem: Memory, v: Version, c: Compaction, m: seq<Entry>, i: nat, b: File)
    requires ValidStore(mem, v) && Closed(v, c) && Merged(m, c) && i < |m|
    requires BaseLevel(v, c.level, m[i].ikey.user) && Boundary(v, c, m[i].ikey.user, b)
    ensures Lookup(Everything(mem, v) - SetOf(m), m[i].ikey.user, m[i].ikey.seqno) == OutcomeOf(b.run[0])
  {
    var s, e, x := Everything(mem, v), m[i], b.run[0];
    var outside := s - SetOf(m);
    assert e in SetOf(m);
    BoundaryOutside(mem, v, c, e, b);
    DistinctSubset(s, outside);
    forall o | o in outside && o.ikey.user == e.ikey.user && o.ikey.seqno <= e.ikey.seqno
      ensures o.ikey.seqno <= x.ikey.seqno
    {
      NoneBefore(mem, v, c, e, b, o);
    }
    LookupLatest(outside, e.ikey.user, e.ikey.seqno, x);
  }

  lemma NoneBefore(mem: Memory, v: Version, c: Compaction, e: Entry, b: File, o: Entry)
    requires ValidStore(mem, v) && Closed(v, c) && e in Inputs(c) && BaseLevel(v, c.level, e.ikey.user)
    requires Boundary(v, c, e.ikey.user, b)
    requires o in Everything(mem, v) && o !in Inputs(c) && o.ikey.user == e.ikey.user && o.ikey.seqno <= e.ikey.seqno
    ensures o.ikey.seqno <= b.Smallest().seqno
  {
    var key, f := CoveredFile(mem, v, c, e, o);
    BeginsBefore(v, c, b, key, f, o.ikey);
  }

  /** No file that goes on with the largest key begins before the boundary file. */
  lemma BeginsBefore(v: Version, c: Compaction, b: File, key: IKey, f: File, o: IKey)
    requires c.level + 1 < NUM_LEVELS && Boundary(v, c, o.user, b)
    requires f in v[c.level + 1] && Continues(f, key) && IsLargestOf(c.inputs1, key)
    requires f.Smallest().user == o.user && !Less(o, f.Smallest())
    ensures o.seqno <= b.Smallest().seqno
  {
    var same :| IsLargestOf(c.inputs1, same) && IsBoundaryFile(v[c.level + 1], same, b);
    OneLargest(c.inputs1, key, same);
    OlderThrough(b.Smallest(), f.Smallest(), o);
  }

  lemma OlderThrough(first: IKey, second: IKey, third: IKey)
    requires first.user == second.user == third.user && !Less(second, first) && !Less(third, second)
    ensures third.seqno <= first.seqno
  {
  }

  lemma CoveredFile(mem: Memory, v: Version, c: Compaction, e: Entry, o: Entry) returns (key: IKey, f: File)
    requires ValidStore(mem, v) && Closed(v, c) && e in Inputs(c) && BaseLevel(v, c.level, e.ikey.user)
    requires o in Everything(mem, v) && o !in Inputs(c) && o.ikey.user == e.ikey.user && o.ikey.seqno <= e.ikey.seqno
    ensures f in v[c.level + 1] && Continues(f, key) && IsLargestOf(c.inputs1, key)
    ensures f.Smallest().user == e.ikey.user && !Less(o.ikey, f.Smallest())
  {
    CoveredIsBeyond(mem, v, c, e, o);
    f := FileBeyond(v[c.level + 1], c.inputs1, e, o);
    key := LargestExists(c.inputs1);
    BeyondContinues(v, c, e, key, f);
  }

  lemma FileBeyond(files: Level, sel: Level, e: Entry, o: Entry) returns (f: File)
    requires exists f :: f in files && f !in sel && o in f.run && Less(e.ikey, f.Smallest())
    requires o.ikey.user == e.ikey.user
    ensures f in files && f !in sel && Less(e.ikey, f.Smallest())
    ensures f.Smallest().user == e.ikey.user && !Less(o.ikey, f.Smallest())
  {
    f :| f in files && f !in sel && o in f.run && Less(e.ikey, f.Smallest());
    FileRange(f, o);
  }

  lemma BoundaryOutside(mem: Memory, v: Version, c: Compaction, e: Entry, b: File)
    requires ValidStore(mem, v) && Closed(v, c) && e in Inputs(c) && Boundary(v, c, e.ikey.user, b)
    ensures b.run[0] in Everything(mem, v) && b.run[0] !in Inputs(c)
    ensures b.run[0].ikey.seqno < e.ikey.seqno
  {
    BoundaryInContents(v, c, e.ikey.user, b);
    InputsInContents(v, c, e);
    BoundaryAfter(v, c, b);
    BeginsAfter(Inputs(c), Everything(mem, v), e, b);
  }

  lemma BoundaryInContents(v: Version, c: Compaction, k: UserKey, b: File)
    requires c.level + 1 < NUM_LEVELS && Boundary(v, c, k, b)
    ensures b.run[0] in Contents(v)
  {
    InLevel(v[c.level + 1], b, b.run[0]);
    InContents(v, c.level + 1, b.run[0]);
  }

  lemma BeginsAfter(inputs: set<Entry>, s: set<Entry>, e: Entry, b: File)
    requires e in inputs && forall o | o in inputs :: Less(o.ikey, b.Smallest())
    requires Distinct(s) && e in s && b.run[0] in s && e.ikey.user == b.Smallest().user
    ensures b.run[0] !in inputs && b.run[0].ikey.seqno < e.ikey.seqno
  {
    LaterIsOlder(s, e, b.run[0]);
  }

  lemma LaterIsOlder(s: set<Entry>, e: Entry, x: Entry)
    requires Distinct(s) && e in s && x in s && Less(e.ikey, x.ikey) && e.ikey.user == x.ikey.user
    ensures x.ikey.seqno < e.ikey.seqno
  {
  }

  /** The boundary file comes after all the inputs. */
  lemma BoundaryAfter(v: Version, c: Compaction, b: File)
    requires Closed(v, c) && SortedLevel(v[c.level + 1]) && Boundary(v, c, b.Smallest().user, b)
    ensures b !in c.inputs1 && forall e | e in Inputs(c) :: Less(e.ikey, b.Smallest())
  {
    var key :| IsLargestOf(c.inputs1, key) && IsBoundaryFile(v[c.level + 1], key, b);
    FileRange(b, b.run[0]);
    assert b !in c.inputs1;
    UnselectedApart(v, c, b);
    var h :| h in c.inputs1 && h.Largest() == key;
    InLevel(c.inputs1, h, h.run[|h.run|-1]);
  }

  /** Without a boundary file of its user key a marker covers nothing outside the inputs. */
  lemma NothingCovered(mem: Memory, v: Version, c: Compaction, m: seq<Entry>, i: nat)
    requires ValidStore(mem, v) && Closed(v, c) && Merged(m, c) && i < |m|
    requires BaseLevel(v, c.level, m[i].ikey.user)
    requires forall b :: !Boundary(v, c, m[i].ikey.user, b)
    ensures Lookup(Everything(mem, v) - SetOf(m), m[i].ikey.user, m[i].ikey.seqno) == Miss
  {
    var e, outside := m[i], Everything(mem, v) - SetOf(m);
    assert e in SetOf(m);
    forall o
      ensures !Candidate(outside, e.ikey.user, e.ikey.seqno, o)
    {
      if Candidate(outside, e.ikey.user, e.ikey.seqno, o) {
        var b := BoundaryOfCovered(mem, v, c, e, o);
      }
    }
    LookupMiss(outside, e.ikey.user, e.ikey.seqno);
  }

  lemma BoundaryOfCovered(mem: Memory, v: Version, c: Compaction, e: Entry, o: Entry) returns (b: File)
    requires ValidStore(mem, v) && Closed(v, c) && e in Inputs(c) && BaseLevel(v, c.level, e.ikey.user)
    requires o in Everything(mem, v) && o !in Inputs(c) && o.ikey.user == e.ikey.user && o.ikey.seqno <= e.ikey.seqno
    ensures Boundary(v, c, e.ikey.user, b)
  {
    var key, f := CoveredFile(mem, v, c, e, o);
    b := BoundaryExists(v[c.level + 1], key, f);
  }

  lemma {:induction false} LargestExists(files: Level) returns (key: IKey)
    requires files != []
    ensures IsLargestOf(files, key)
  {
    key := files[0].Largest();
    assert files[0] in files;
    for i := 1 to |files|
      invariant exists f :: f in files && f.Largest() == key
      invariant forall j | 0 <= j < i :: !Less(key, files[j].Largest())
    {
      if Less(key, files[i].Largest()) {
        key := files[i].Largest();
        assert files[i] in files;
      }
    }
  }

  lemma {:induction false} BoundaryExists(files: Level, key: IKey, f: File) returns (b: File)
    requires f in files && Continues(f, key)
    ensures IsBoundaryFile(files, key, b)
  {
    b := f;
    for i := 0 to |files|
      invariant b in files && Continues(b, key)
      invariant forall j | 0 <= j < i && Continues(files[j], key) :: !Less(files[j].Smallest(), b.Smallest())
    {
      if Continues(files[i], key) && Less(files[i].Smallest(), b.Smallest()) {
        b := files[i];
      }
    }
  }

  // ----- Exactly when reads are kept -----

  /**
   The boundary file b of the second inputs begins with a value of the user key of m[i], and
   m[i] is a deletion marker that the loop drops although reads from `from` on report it.
   */
  ghost predicate UncoversAt(s: set<Entry>, v: Version, c: Compaction, m: seq<Entry>, ss: SeqNo, from: SeqNo, i: nat,
                             b: File)
    requires i < |m| && c.level + 1 < NUM_LEVELS
  {
    && Boundary(v, c, m[i].ikey.user, b) && b.run[0].ikey.kind.Value?
    && Obsolete(v, c.level, m, i, ss) && IsLatest(s, m[i].ikey.user, from, m[i])
  }

  /** Some read from `from` on changes: what it reported is dropped, and what is found instead is another answer. */
  ghost predicate ReadChanges(s: set<Entry>, v: Version, c: Compaction, m: seq<Entry>, ss: SeqNo, from: SeqNo)
    requires c.level + 1 < NUM_LEVELS
  {
    if ss == MAX_SEQUENCE then exists i :: 0 <= i < |m| && Answers(s, m, from, i)
    else exists i, b :: 0 <= i < |m| && UncoversAt(s, v, c, m, ss, from, i, b)
  }

  lemma UncoveredResurrects(mem: Memory, v: Version, c: Compaction, m: seq<Entry>, ss: SeqNo, from: SeqNo, i: nat,
                            b: File)
    requires ValidStore(mem, v) && Closed(v, c) && Merged(m, c) && i < |m|
    requires UncoversAt(Everything(mem, v), v, c, m, ss, from, i, b)
    ensures Resurrects(Everything(mem, v), v, c.level, m, ss, from, i)
  {
    BoundaryAnswers(mem, v, c, m, i, b);
  }

  lemma ResurrectedIsUncovered(mem: Memory, v: Version, c: Compaction, m: seq<Entry>, ss: SeqNo, from: SeqNo, i: nat)
    returns (b: File)
    requires ValidStore(mem, v) && Closed(v, c) && Merged(m, c) && i < |m|
    requires Resurrects(Everything(mem, v), v, c.level, m, ss, from, i)
    ensures UncoversAt(Everything(mem, v), v, c, m, ss, from, i, b)
  {
    if x :| Boundary(v, c, m[i].ikey.user, x) {
      b := x;
      BoundaryAnswers(mem, v, c, m, i, b);
    } else {
      NothingCovered(mem, v, c, m, i);
    }
  }

  lemma ResurrectsIff(mem: Memory, v: Version, c: Compaction, m: seq<Entry>, ss: SeqNo, from: SeqNo)
    requires ValidStore(mem, v) && Closed(v, c) && Merged(m, c)
    ensures (exists i :: 0 <= i < |m| && Missed(Everything(mem, v), v, c.level, m, ss, from, i)) <==>
            ReadChanges(Everything(mem, v), v, c, m, ss, from)
  {
    var s := Everything(mem, v);
    if ss == MAX_SEQUENCE {
      assert forall i | 0 <= i < |m| :: Missed(s, v, c.level, m, ss, from, i) <==> Answers(s, m, from, i);
    } else {
      if i :| 0 <= i < |m| && Missed(s, v, c.level, m, ss, from, i) {
        var b := ResurrectedIsUncovered(mem, v, c, m, ss, from, i);
      }
      if i, b :| 0 <= i < |m| && UncoversAt(s, v, c, m, ss, from, i, b) {
        UncoveredResurrects(mem, v, c, m, ss, from, i, b);
        assert Missed(s, v, c.level, m, ss, from, i);
      }
    }
  }

  lemma InputsInContents(v: Version, c: Compaction, e: Entry)
    requires Closed(v, c) && e in Inputs(c)
    ensures e in Contents(v)
  {
    InputLevels(v, c);
    if e in EntriesOf(c.inputs0) {
      InContents(v, c.level, e);
    } else {
      InContents(v, c.level + 1, e);
    }
  }

  /**
   A compaction of the whole store, through any version in which its outputs were
   installed: the store stays valid, and exactly when no read from a sequence number at or
   after the smallest snapshot on changes.
   */
  lemma CompactionKeepsReadsIff(mem: Memory, v: Version, c: Compaction, m: seq<Entry>, ss: SeqNo, from: SeqNo,
                                outs: Level, v': Version)
    requires ValidStore(mem, v) && Closed(v, c) && Merged(m, c) && ss <= from
    requires Flatten(outs) == Written(v, c.level, m, |m|, ss)
    requires CompactionInstalled(v, c, outs, v')
    ensures ValidStore(mem, v') && Contents(v') <= Contents(v)
    ensures ReadsKept(Everything(mem, v), Everything(mem, v'), from) <==>
            !ReadChanges(Everything(mem, v), v, c, m, ss, from)
  {
    var s := Everything(mem, v);
    WrittenIsInput(v, c, m, ss);
    CompactionKeepsValid(v, c, outs, v');
    CompactionContents(v, c, outs, v');
    StoreShrinks(mem, v, v');
    EverythingAfter(mem, v, c, m, ss, v');
    InputsAllInStore(mem, v, c, m);
    ReadsKeptIff(s, v, c.level, m, ss, from);
    ResurrectsIff(mem, v, c, m, ss, from);
  }

  /** With the boundary closed, and a smallest snapshot that leaves a larger number, nothing changes. */
  lemma ClosedChangesNothing(s: set<Entry>, v: Version, c: Compaction, m: seq<Entry>, ss: SeqNo, from: SeqNo)
    requires Valid(v) && Closed(v, c) && BoundaryClosed(v, c) && ss < MAX_SEQUENCE
    ensures !ReadChanges(s, v, c, m, ss, from)
  {
    ValidSearchable(v, c.level + 1);
    forall key | IsLargestOf(c.inputs1, key)
      ensures NoContinuation(v[c.level + 1], key)
    {
      BoundaryClosedIff(v, c, key);
    }
  }

  /** So a compaction of boundary-closed inputs preserves every read at or after the smallest snapshot. */
  lemma CompactionPreservesReads(mem: Memory, v: Version, c: Compaction, m: seq<Entry>, ss: SeqNo, outs: Level,
                                 v': Version)
    requires ValidStore(mem, v) && Closed(v, c) && BoundaryClosed(v, c) && Merged(m, c) && ss < MAX_SEQUENCE
    requires Flatten(outs) == Written(v, c.level, m, |m|, ss)
    requires CompactionInstalled(v, c, outs, v')
    ensures ValidStore(mem, v')
    ensures ReadsKept(Everything(mem, v), Everything(mem, v'), ss)
  {
    CompactionKeepsReadsIff(mem, v, c, m, ss, ss, outs, v');
    ClosedChangesNothing(Everything(mem, v), v, c, m, ss, ss);
  }

  lemma WrittenIsInput(v: Version, c: Compaction, m: seq<Entry>, ss: SeqNo)
    requires Merged(m, c)
    ensures Sorted(Written(v, c.level, m, |m|, ss)) && SetOf(Written(v, c.level, m, |m|, ss)) <= Inputs(c)
  {
    KeptSorted(v, c.level, m, |m|, ss);
    KeptMembers(v, c.level, m, |m|, ss);
    forall e | e in Written(v, c.level, m, |m|, ss)
      ensures e in Inputs(c)
    {
      assert e in SetOf(m);
    }
  }

  lemma StoreShrinks(mem: Memory, v: Version, v': Version)
    requires ValidStore(mem, v) && Valid(v') && Contents(v') <= Contents(v)
    ensures ValidStore(mem, v')
  {
    DistinctSubset(Everything(mem, v), Everything(mem, v'));
  }

  lemma InputsAllInStore(mem: Memory, v: Version, c: Compaction, m: seq<Entry>)
    requires Closed(v, c) && Merged(m, c)
    ensures SetOf(m) <= Everything(mem, v)
  {
    forall e | e in m
      ensures e in Contents(v)
    {
      assert e in SetOf(m);
      InputsInContents(v, c, e);
    }
  }

  /** The two memtables hold no input entry, so only the version changes. */
  lemma EverythingAfter(mem: Memory, v: Version, c: Compaction, m: seq<Entry>, ss: SeqNo, v': Version)
    requires ValidStore(mem, v) && Closed(v, c) && Merged(m, c)
    requires Contents(v') == (Contents(v) - Inputs(c)) + SetOf(Written(v, c.level, m, |m|, ss))
    ensures Everything(mem, v') == After(Everything(mem, v), v, c.level, m, ss)
  {
    MemoryHasNoInput(mem, v, c);
    SwapInUnion(SetOf(mem.mem) + SetOf(mem.imm), Contents(v), SetOf(m), SetOf(Written(v, c.level, m, |m|, ss)));
  }

  lemma MemoryHasNoInput(mem: Memory, v: Version, c: Compaction)
    requires ValidStore(mem, v) && Closed(v, c)
    ensures SetOf(mem.mem) + SetOf(mem.imm) !! Inputs(c)
  {
    forall e | e in Inputs(c)
      ensures e !in SetOf(mem.mem) + SetOf(mem.imm)
    {
      InputsInContents(v, c, e);
      InOnePlace(mem, v, e);
    }
  }

  lemma InOnePlace(mem: Memory, v: Version, e: Entry)
    requires Newer(SetOf(mem.mem), Contents(v)) && Newer(SetOf(mem.imm), Contents(v))
    requires e in Contents(v)
    ensures e !in SetOf(mem.mem) && e !in SetOf(mem.imm)
  {
  }

  lemma SwapInUnion(a: set<Entry>, b: set<Entry>, removed: set<Entry>, added: set<Entry>)
    requires a !! removed
    ensures a + ((b - removed) + added) == ((a + b) - removed) + added
  {
  }

  // ----- A read that changes -----

  // User keys are the ranks of byte strings, in the order of the strings.
  const KEY_1: UserKey := Rank([1])
  const KEY_2: UserKey := Rank([2])
  const KEY_3: UserKey := Rank([3])

  const UPPER_1 := Entry(IKey(KEY_1, 30, Value), [1])
  const UPPER_2 := Entry(IKey(KEY_2, 31, Value), [2])
  const LOWER_2 := Entry(IKey(KEY_2, 20, Value), [3])
  const MARKER := Entry(IKey(KEY_3, 21, Deletion), [])
  const COVERED := Entry(IKey(KEY_3, 5, Value), [7])

  const UPPER: File := FileRep(10, 1, [UPPER_1, UPPER_2])
  const LOWER: File := FileRep(11, 1, [LOWER_2, MARKER])
  const BEYOND: File := FileRep(12, 1, [COVERED])

  const SPLIT_KEY: Version := [[], [UPPER], [LOWER, BEYOND], [], [], [], []]
  const SPLIT_INPUTS := Compaction(1, [UPPER], [LOWER], UPPER_1.ikey, UPPER_2.ikey)
  const SPLIT_MERGED := [UPPER_1, UPPER_2, LOWER_2, MARKER]

  lemma SplitKeyContents()
    ensures forall l | 0 <= l < NUM_LEVELS && l != 1 && l != 2 :: EntriesOf(SPLIT_KEY[l]) == {}
    ensures EntriesOf(SPLIT_KEY[1]) == {UPPER_1, UPPER_2}
    ensures EntriesOf(SPLIT_KEY[2]) == {LOWER_2, MARKER, COVERED}
    ensures Contents(SPLIT_KEY) == {UPPER_1, UPPER_2, LOWER_2, MARKER, COVERED}
  {
    EntriesOfOne(UPPER);
    EntriesOfTwo(LOWER, BEYOND);
    forall e
      ensures e in Contents(SPLIT_KEY) <==> e in EntriesOf(SPLIT_KEY[1]) || e in EntriesOf(SPLIT_KEY[2])
    {
      if e in Contents(SPLIT_KEY) {
        var l := ContentsLevel(SPLIT_KEY, e);
      }
      if e in EntriesOf(SPLIT_KEY[1]) {
        InContents(SPLIT_KEY, 1, e);
      }
      if e in EntriesOf(SPLIT_KEY[2]) {
        InContents(SPLIT_KEY, 2, e);
      }
    }
  }

  lemma EntriesOfOne(f: File)
    ensures EntriesOf([f]) == SetOf(f.run)
  {
    assert f in [f];
  }

  lemma EntriesOfTwo(f: File, g: File)
    ensures EntriesOf([f, g]) == SetOf(f.run) + SetOf(g.run)
  {
    assert f in [f, g] && g in [f, g];
  }

  lemma SplitKeyOrdered()
    ensures LevelsOrdered(SPLIT_KEY)
  {
    SplitKeyContents();
    assert Newer(EntriesOf(SPLIT_KEY[1]), EntriesOf(SPLIT_KEY[2]));
    forall i, j | 0 <= i < j < NUM_LEVELS
      ensures Newer(EntriesOf(SPLIT_KEY[i]), EntriesOf(SPLIT_KEY[j]))
    {
      assert (i == 1 && j == 2) || (i != 1 && i != 2) || (j != 1 && j != 2);
    }
  }

  lemma SplitMarkerAnswers()
    ensures Distinct(Contents(SPLIT_KEY)) && IsLatest(Contents(SPLIT_KEY), KEY_3, 40, MARKER)
  {
    SplitKeyContents();
  }

  lemma SplitKeyValid()
    ensures Valid(SPLIT_KEY)
  {
    SplitKeyOrdered();
    SplitMarkerAnswers();
    assert SPLIT_KEY[0] == [];
    forall l | 1 <= l < NUM_LEVELS
      ensures SortedLevel(SPLIT_KEY[l])
    {
      assert l == 1 || l == 2 || SPLIT_KEY[l] == [];
    }
  }

  lemma SplitInputsClosed()
    ensures Closed(SPLIT_KEY, SPLIT_INPUTS)
    ensures Merged(SPLIT_MERGED, SPLIT_INPUTS)
    ensures !BoundaryClosed(SPLIT_KEY, SPLIT_INPUTS)
  {
    UpperIsAll();
    SecondInputsAreLower();
    SplitMerges();
    MarkerIsNotOlder();
  }

  lemma UpperIsAll()
    ensures NothingOlderLeft([UPPER], [UPPER])
    ensures IsSmallestOf([UPPER], UPPER_1.ikey) && IsLargestOf([UPPER], UPPER_2.ikey)
  {
    assert UPPER in [UPPER];
  }

  lemma SecondInputsAreLower()
    ensures FilesIn([LOWER, BEYOND], UserRange(UPPER_1.ikey, UPPER_2.ikey)) == [LOWER]
  {
    FirstOfTwo(LOWER, BEYOND, UserRange(UPPER_1.ikey, UPPER_2.ikey));
  }

  lemma FirstOfTwo(f: File, g: File, r: Range)
    requires Overlaps(f, r) && !Overlaps(g, r)
    ensures FilesIn([f, g], r) == [f]
  {
    assert [f, g][..1] == [f] && [f][..0] == [];
    assert FilesIn([f], r) == [f];
  }

  lemma SplitMerges()
    ensures Sorted(SPLIT_MERGED) && SetOf(SPLIT_MERGED) == EntriesOf([UPPER]) + EntriesOf([LOWER])
  {
    EntriesOfOne(UPPER);
    EntriesOfOne(LOWER);
    assert SetOf(UPPER.run) == {UPPER_1, UPPER_2} && SetOf(LOWER.run) == {LOWER_2, MARKER};
  }

  /** The file that stays holds an older entry of the key of the marker. */
  lemma MarkerIsNotOlder()
    ensures !NothingOlderLeft([LOWER, BEYOND], [LOWER])
  {
    assert BEYOND in [LOWER, BEYOND] && BEYOND !in [LOWER] && LOWER in [LOWER];
    assert COVERED in SetOf(BEYOND.run) && MARKER in SetOf(LOWER.run);
    assert !Newer(SetOf(BEYOND.run), SetOf(LOWER.run));
  }

  lemma SplitMarkerObsolete()
    ensures Obsolete(SPLIT_KEY, 1, SPLIT_MERGED, 3, 40)
  {
    assert forall l | 3 <= l < NUM_LEVELS :: SPLIT_KEY[l] == [];
  }

  lemma SplitCoveredAnswers()
    ensures SetOf(SPLIT_MERGED) <= Contents(SPLIT_KEY)
    ensures Contents(SPLIT_KEY) - SetOf(SPLIT_MERGED) == {COVERED}
    ensures Lookup({COVERED}, KEY_3, 21) == Found([7])
  {
    SplitKeyContents();
    assert SetOf(SPLIT_MERGED) == {UPPER_1, UPPER_2, LOWER_2, MARKER};
    assert IsLatest({COVERED}, KEY_3, 21, COVERED);
    LookupLatest({COVERED}, KEY_3, 21, COVERED);
  }

  /** The first level has one file, so whatever the expansion limit these inputs are the ones picked. */
  lemma OnlySelection(c: Compaction)
    requires Closed(SPLIT_KEY, c) && c.level == 1 && Orderly(SPLIT_KEY[1], 1, c.inputs0)
    ensures c == SPLIT_INPUTS
  {
    SplitInputsClosed();
    var a, b :| 0 <= a < b <= |[UPPER]| && c.inputs0 == [UPPER][a..b];
    assert c.inputs0 == [UPPER];
  }

  method PickSplitInputs(byteLimit: nat) returns (c: Compaction)
    ensures c == SPLIT_INPUTS
  {
    SplitKeyValid();
    ValidSearchable(SPLIT_KEY, 1);
    c := PickCompaction(SPLIT_KEY, 1, UPPER, byteLimit);
    OnlySelection(c);
  }

  /**
   A valid version, and the inputs that are picked in it, for which a compaction makes
   a deleted key readable again.
   */
  lemma DeletedKeyReappears()
    ensures Valid(SPLIT_KEY) && Closed(SPLIT_KEY, SPLIT_INPUTS) && Merged(SPLIT_MERGED, SPLIT_INPUTS)
    ensures !BoundaryClosed(SPLIT_KEY, SPLIT_INPUTS)
    ensures Lookup(Contents(SPLIT_KEY), KEY_3, 40) == Deleted
    ensures Lookup(After(Contents(SPLIT_KEY), SPLIT_KEY, 1, SPLIT_MERGED, 40), KEY_3, 40) == Found([7])
  {
    SplitKeyValid();
    SplitInputsClosed();
    SplitMarkerAnswers();
    SplitMarkerObsolete();
    SplitCoveredAnswers();
    LookupLatest(Contents(SPLIT_KEY), KEY_3, 40, MARKER);
    ReadPastMarker(Contents(SPLIT_KEY), SPLIT_KEY, 1, SPLIT_MERGED, 40, 40, 3);
  }
}
