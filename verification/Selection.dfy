/**
 Choosing the files that a compaction or a flush touches: overlap tests, the
 overlap closure of level 0, boundary files, the inputs of a compaction and the
 level that receives a flushed memtable.
 */
module Selection {
  import opened Wrappers
  import opened Entries
  import opened Versions

  /** A range of user keys; a missing bound is unbounded. */
  datatype Range = Range(lo: Option<UserKey>, hi: Option<UserKey>)

  predicate Overlaps(f: File, r: Range) {
    && !(r.lo.Some? && f.Largest().user < r.lo.value)
    && !(r.hi.Some? && f.Smallest().user > r.hi.value)
  }

  /** A file of the level has keys in the range. */
  predicate Occupied(files: Level, r: Range) {
    exists f :: f in files && Overlaps(f, r)
  }

  predicate Within(f: File, r: Range) {
    && (r.lo.Some? ==> r.lo.value <= f.Smallest().user)
    && (r.hi.Some? ==> f.Largest().user <= r.hi.value)
  }

  /** outer includes inner. */
  predicate Includes(outer: Range, inner: Range) {
    && (outer.lo.Some? ==> inner.lo.Some? && outer.lo.value <= inner.lo.value)
    && (outer.hi.Some? ==> inner.hi.Some? && inner.hi.value <= outer.hi.value)
  }

  /** No file straddles an end of the range. */
  predicate ClosedUnder(files: Level, r: Range) {
    forall f | f in files && Overlaps(f, r) :: Within(f, r)
  }

  /** The files that overlap r, in level order. */
  function FilesIn(files: Level, r: Range): Level {
    if files == [] then []
    else FilesIn(files[..|files|-1], r) + if Overlaps(files[|files|-1], r) then [files[|files|-1]] else []
  }

  lemma {:induction false} InFilesIn(files: Level, r: Range)
    ensures forall f :: f in FilesIn(files, r) <==> f in files && Overlaps(f, r)
  {
    if files != [] {
      InFilesIn(files[..|files|-1], r);
    }
  }

  // ----- Overlap tests -----

  /** Is there a file in the list with a key in the range? */
  method SomeFileOverlapsRange(disjointSorted: bool, files: Level, r: Range) returns (b: bool)
    requires disjointSorted ==> SortedLevel(files)
    ensures b <==> exists f :: f in files && Overlaps(f, r)
  {
    if !disjointSorted {
      for i := 0 to |files|
        invariant forall j | 0 <= j < i :: !Overlaps(files[j], r)
      {
        var f := files[i];
        var after := r.lo.Some? && r.lo.value > f.Largest().user;
        var before := r.hi.Some? && r.hi.value < f.Smallest().user;
        if after || before {
        } else {
          assert f in files && Overlaps(f, r);
          return true;
        }
      }
      return false;
    }
    var index := 0;
    if r.lo.Some? {
      index := FindFile(files, SeekKey(r.lo.value, MAX_SEQUENCE));
    }
    OverlapInSortedLevel(files, r, index);
    if index >= |files| {
      return false;
    }
    b := !(r.hi.Some? && r.hi.value < files[index].Smallest().user);
  }

  lemma OverlapInSortedLevel(files: Level, r: Range, index: nat)
    requires SortedLevel(files) && index <= |files|
    requires r.lo.Some? ==> forall j | 0 <= j < index :: Less(files[j].Largest(), SeekKey(r.lo.value, MAX_SEQUENCE))
    requires r.lo.Some? ==>
             forall j | index <= j < |files| :: !Less(files[j].Largest(), SeekKey(r.lo.value, MAX_SEQUENCE))
    requires r.lo.None? ==> index == 0
    ensures (exists f :: f in files && Overlaps(f, r)) <==>
            index < |files| && !(r.hi.Some? && r.hi.value < files[index].Smallest().user)
  {
    if f :| f in files && Overlaps(f, r) {
      var j :| 0 <= j < |files| && files[j] == f;
      FileRange(files[j], files[j].run[0]);
      if j > index {
        FileRange(files[index], files[index].run[0]);
        assert Less(files[index].Largest(), files[j].Smallest());
      }
    }
    if index < |files| && !(r.hi.Some? && r.hi.value < files[index].Smallest().user) {
      assert files[index] in files && Overlaps(files[index], r);
    }
  }

  // ----- GetOverlappingInputs -----

  /** Files sticking out of the range on the left, and on the right. */
  function StartsBefore(files: Level, lo: Option<UserKey>): set<File> {
    set f | f in files && lo.Some? && f.Smallest().user < lo.value
  }

  function EndsAfter(files: Level, hi: Option<UserKey>): set<File> {
    set f | f in files && hi.Some? && hi.value < f.Largest().user
  }

  /** c is a range that may be returned for the request: it includes it and cuts through no file. */
  predicate Acceptable(files: Level, request: Range, c: Range) {
    Includes(c, request) && ClosedUnder(files, c)
  }

  /** r is the least acceptable range. */
  ghost predicate IsClosure(files: Level, request: Range, r: Range) {
    && Acceptable(files, request, r)
    && forall c | Acceptable(files, request, c) :: Includes(c, r)
  }

  /**
   The files of one level that overlap the request.  Level 0 files overlap one
   another, so there the request grows, restarting the scan, until it cuts through
   no file; it grows to the least such range.
   */
  method GetOverlappingInputs(files: Level, level: nat, request: Range) returns (inputs: Level, r: Range)
    ensures level > 0 ==> r == request
    ensures level == 0 ==> IsClosure(files, request, r)
    ensures inputs == FilesIn(files, r)
  {
    r := request;
    inputs := [];
    var i := 0;
    while i < |files|
      invariant 0 <= i <= |files|
      invariant level > 0 ==> r == request
      invariant Includes(r, request)
      invariant inputs == FilesIn(files[..i], r)
      invariant level == 0 ==> forall f | f in inputs :: Within(f, r)
      invariant level == 0 ==> forall c | Acceptable(files, request, c) :: Includes(c, r)
      decreases StartsBefore(files, r.lo), EndsAfter(files, r.hi), |files| - i
    {
      var f := files[i];
      assert files[..i+1][..i] == files[..i];
      i := i + 1;
      if r.lo.Some? && f.Largest().user < r.lo.value {
      } else if r.hi.Some? && f.Smallest().user > r.hi.value {
      } else {
        inputs := inputs + [f];
        if level == 0 {
          WideningStaysLeast(files, request, r, f);
          if r.lo.Some? && f.Smallest().user < r.lo.value {
            assert f in StartsBefore(files, r.lo);
            r := r.(lo := Some(f.Smallest().user));
            assert f !in StartsBefore(files, r.lo);
            inputs := [];
            i := 0;
          } else if r.hi.Some? && f.Largest().user > r.hi.value {
            assert f in EndsAfter(files, r.hi);
            r := r.(hi := Some(f.Largest().user));
            assert f !in EndsAfter(files, r.hi);
            inputs := [];
            i := 0;
          }
        }
      }
    }
    assert files[..|files|] == files;
    InFilesIn(files, r);
  }

  lemma WideningStaysLeast(files: Level, request: Range, r: Range, f: File)
    requires f in files && Overlaps(f, r)
    requires forall c | Acceptable(files, request, c) :: Includes(c, r)
    ensures r.lo.Some? && f.Smallest().user < r.lo.value ==>
      forall c | Acceptable(files, request, c) :: Includes(c, r.(lo := Some(f.Smallest().user)))
    ensures r.hi.Some? && r.hi.value < f.Largest().user ==>
      forall c | Acceptable(files, request, c) :: Includes(c, r.(hi := Some(f.Largest().user)))
  {
    forall c | Acceptable(files, request, c)
      ensures Within(f, c)
    {
      assert Includes(c, r) && Overlaps(f, c);
    }
  }

  // ----- Ranges of a list of files -----

  predicate IsSmallestOf(files: Level, key: IKey) {
    && (exists f :: f in files && f.Smallest() == key)
    && forall f | f in files :: !Less(f.Smallest(), key)
  }

  predicate IsLargestOf(files: Level, key: IKey) {
    && (exists f :: f in files && f.Largest() == key)
    && forall f | f in files :: !Less(key, f.Largest())
  }

  method GetRange(files: Level) returns (smallest: IKey, largest: IKey)
    requires files != []
    ensures IsSmallestOf(files, smallest) && IsLargestOf(files, largest)
  {
    smallest, largest := files[0].Smallest(), files[0].Largest();
    ghost var s, l := 0, 0;
    for i := 1 to |files|
      invariant 0 <= s < i && smallest == files[s].Smallest()
      invariant 0 <= l < i && largest == files[l].Largest()
      invariant forall j | 0 <= j < i :: !Less(files[j].Smallest(), smallest)
      invariant forall j | 0 <= j < i :: !Less(largest, files[j].Largest())
    {
      if Less(files[i].Smallest(), smallest) {
        smallest, s := files[i].Smallest(), i;
      }
      if Less(largest, files[i].Largest()) {
        largest, l := files[i].Largest(), i;
      }
    }
    assert files[s] in files && files[l] in files;
  }

  // ----- Boundary files -----

  /** f goes on with the user key of key, after key. */
  predicate Continues(f: File, key: IKey) {
    Less(key, f.Smallest()) && f.Smallest().user == key.user
  }

  predicate NoContinuation(files: Level, key: IKey) {
    forall f | f in files :: !Continues(f, key)
  }

  /** b is the first file of the level that goes on with the user key of key. */
  ghost predicate IsBoundaryFile(files: Level, key: IKey, b: File) {
    b in files && Continues(b, key) && forall f | f in files && Continues(f, key) :: !Less(f.Smallest(), b.Smallest())
  }

  /** The first file of the level that goes on with the user key of largest. */
  method FindSmallestBoundaryFile(files: Level, largest: IKey) returns (b: Option<File>)
    ensures b.None? ==> NoContinuation(files, largest)
    ensures b.Some? ==> IsBoundaryFile(files, largest, b.value)
  {
    b := None;
    for i := 0 to |files|
      invariant b.None? ==> NoContinuation(files[..i], largest)
      invariant b.Some? ==> b.value in files && Continues(b.value, largest)
      invariant b.Some? ==>
                forall f | f in files[..i] && Continues(f, largest) :: !Less(f.Smallest(), b.value.Smallest())
    {
      var f := files[i];
      assert files[..i+1] == files[..i] + [f];
      if Less(largest, f.Smallest()) && f.Smallest().user == largest.user {
        if b.None? || Less(f.Smallest(), b.value.Smallest()) {
          b := Some(f);
        }
      }
    }
    assert files[..|files|] == files;
  }

  /** The selection is a contiguous part of the level. */
  predicate Slice(files: Level, sel: Level) {
    exists a, b :: 0 <= a < b <= |files| && sel == files[a..b]
  }

  function FilesAfter(files: Level, key: IKey): set<File> {
    set f | f in files && Less(key, f.Smallest())
  }

  ghost predicate IsNextBoundary(files: Level, sel: Level, b: File) {
    exists key :: IsLargestOf(sel, key) && IsBoundaryFile(files, key, b)
  }

  /** Past the first n, every file of r is the boundary file of those before it. */
  ghost predicate IsBoundaryChain(files: Level, n: nat, r: Level) {
    forall i {:trigger r[i]} | n <= i < |r| :: IsNextBoundary(files, r[..i], r[i])
  }

  /** r is the selection extended by one boundary file after the other, until there is none. */
  ghost predicate IsBoundaryClosure(files: Level, sel: Level, r: Level) {
    && sel <= r && IsBoundaryChain(files, |sel|, r)
    && (r != [] ==> exists key :: IsLargestOf(r, key) && NoContinuation(files, key))
  }

  lemma ChainAppend(files: Level, n: nat, r: Level, key: IKey, b: File)
    requires IsBoundaryChain(files, n, r) && IsLargestOf(r, key) && IsBoundaryFile(files, key, b)
    ensures IsBoundaryChain(files, n, r + [b])
  {
    var r' := r + [b];
    forall i | n <= i < |r'|
      ensures IsNextBoundary(files, r'[..i], r'[i])
    {
      if i < |r| {
        assert r'[..i] == r[..i] && r'[i] == r[i];
      } else {
        assert r'[..i] == r;
      }
    }
  }

  /**
   Extends a selection by the files that go on with its largest user key, until
   no file of the level does.
   */
  method AddBoundaryInputs(levelFiles: Level, compactionFiles: Level) returns (r: Level)
    ensures IsBoundaryClosure(levelFiles, compactionFiles, r)
    ensures compactionFiles == [] ==> r == []
    ensures compactionFiles <= r
    ensures forall f | f in r :: f in compactionFiles || f in levelFiles
    ensures r != [] ==> exists key :: IsLargestOf(r, key) && NoContinuation(levelFiles, key)
    ensures (forall key | IsLargestOf(compactionFiles, key) :: NoContinuation(levelFiles, key)) ==> r == compactionFiles
    ensures SortedLevel(levelFiles) && Slice(levelFiles, compactionFiles) ==> Slice(levelFiles, r)
  {
    r := compactionFiles;
    if compactionFiles == [] {
      return;
    }
    var smallest, largest := GetRange(compactionFiles);
    var searching := true;
    while searching
      invariant Extending(levelFiles, compactionFiles, r, largest)
      invariant !searching ==> NoContinuation(levelFiles, largest)
      decreases searching, FilesAfter(levelFiles, largest)
    {
      var b := FindSmallestBoundaryFile(levelFiles, largest);
      if b.Some? {
        ExtendOnce(levelFiles, compactionFiles, r, largest, b.value);
        r := r + [b.value];
        largest := b.value.Largest();
      } else {
        searching := false;
      }
    }
  }

  /** What holds of the selection r, with its largest key, while boundary files are added to it. */
  ghost predicate Extending(levelFiles: Level, compactionFiles: Level, r: Level, largest: IKey) {
    && r != [] && compactionFiles <= r && IsBoundaryChain(levelFiles, |compactionFiles|, r)
    && (forall f | f in r :: f in compactionFiles || f in levelFiles)
    && IsLargestOf(r, largest)
    && ((forall key | IsLargestOf(compactionFiles, key) :: NoContinuation(levelFiles, key)) ==> r == compactionFiles)
    && (SortedLevel(levelFiles) && Slice(levelFiles, compactionFiles) ==> Slice(levelFiles, r))
  }

  lemma ExtendOnce(levelFiles: Level, compactionFiles: Level, r: Level, largest: IKey, f: File)
    requires Extending(levelFiles, compactionFiles, r, largest) && IsBoundaryFile(levelFiles, largest, f)
    ensures Extending(levelFiles, compactionFiles, r + [f], f.Largest())
    ensures FilesAfter(levelFiles, f.Largest()) < FilesAfter(levelFiles, largest)
  {
    FewerAfter(levelFiles, largest, f);
    AppendBoundary(levelFiles, r, largest, f);
    ChainAppend(levelFiles, |compactionFiles|, r, largest, f);
  }

  lemma FewerAfter(levelFiles: Level, largest: IKey, f: File)
    requires f in levelFiles && Continues(f, largest)
    ensures FilesAfter(levelFiles, f.Largest()) < FilesAfter(levelFiles, largest)
  {
    FileRange(f, f.run[0]);
    assert f in FilesAfter(levelFiles, largest) && f !in FilesAfter(levelFiles, f.Largest());
  }

  lemma AppendBoundary(levelFiles: Level, sel: Level, largest: IKey, f: File)
    requires f in levelFiles && Continues(f, largest) && IsLargestOf(sel, largest)
    requires forall g | g in levelFiles && Continues(g, largest) :: !Less(g.Smallest(), f.Smallest())
    ensures Less(largest, f.Largest()) && IsLargestOf(sel + [f], f.Largest())
    ensures SortedLevel(levelFiles) && Slice(levelFiles, sel) ==> Slice(levelFiles, sel + [f])
  {
    LargerStill(sel, largest, f);
    if SortedLevel(levelFiles) && Slice(levelFiles, sel) {
      ExtendSlice(levelFiles, sel, largest, f);
    }
  }

  lemma LargerStill(sel: Level, largest: IKey, f: File)
    requires Continues(f, largest) && IsLargestOf(sel, largest)
    ensures Less(largest, f.Largest()) && IsLargestOf(sel + [f], f.Largest())
  {
    FileRange(f, f.run[0]);
    assert f in sel + [f];
  }

  lemma ExtendSlice(levelFiles: Level, sel: Level, largest: IKey, f: File)
    requires SortedLevel(levelFiles) && Slice(levelFiles, sel)
    requires f in levelFiles && Continues(f, largest) && IsLargestOf(sel, largest)
    requires forall g | g in levelFiles && Continues(g, largest) :: !Less(g.Smallest(), f.Smallest())
    ensures Slice(levelFiles, sel + [f])
  {
    var a, b :| 0 <= a < b <= |levelFiles| && sel == levelFiles[a..b];
    SliceLargest(levelFiles, a, b, largest);
    NextFileContinues(levelFiles, b, f);
    SliceAppend(levelFiles, a, b);
  }

  lemma SliceAppend(files: Level, a: nat, b: nat)
    requires a < b < |files|
    ensures Slice(files, files[a..b] + [files[b]])
  {
    assert files[a..b] + [files[b]] == files[a..b+1];
  }

  lemma SliceLargest(files: Level, a: nat, b: nat, largest: IKey)
    requires SortedLevel(files) && a < b <= |files| && IsLargestOf(files[a..b], largest)
    ensures files[b-1].Largest() == largest
  {
    LargestMonotone(files);
    assert files[b-1] in files[a..b];
    var g :| g in files[a..b] && g.Largest() == largest;
    var m :| a <= m < b && files[m] == g;
  }

  /** In a sorted level the first file that goes on with a key is the next file. */
  lemma NextFileContinues(files: Level, b: nat, f: File)
    requires SortedLevel(files) && 0 < b <= |files|
    requires f in files && Continues(f, files[b-1].Largest())
    requires forall g | g in files && Continues(g, files[b-1].Largest()) :: !Less(g.Smallest(), f.Smallest())
    ensures b < |files| && files[b] == f
  {
    var m :| 0 <= m < |files| && files[m] == f;
    FileRange(f, f.run[0]);
    LargestMonotone(files);
    assert m >= b;
    FileRange(files[b], files[b].run[0]);
    assert Less(files[b-1].Largest(), files[b].Smallest());
    assert m > b ==> Less(files[b].Largest(), files[m].Smallest());
  }

  // ----- The inputs of a compaction -----

  /** Every entry left behind in the level is newer than the selected ones with its user key. */
  ghost predicate NothingOlderLeft(files: Level, sel: Level) {
    forall f, g {:trigger Newer(SetOf(f.run), SetOf(g.run))} | f in files && f !in sel && g in sel ::
      Newer(SetOf(f.run), SetOf(g.run))
  }

  /** A contiguous selection with no continuation leaves nothing older behind. */
  lemma SliceLeavesNothingOlder(files: Level, sel: Level)
    requires SortedLevel(files) && Distinct(EntriesOf(files)) && Slice(files, sel)
    requires exists key :: IsLargestOf(sel, key) && NoContinuation(files, key)
    ensures NothingOlderLeft(files, sel)
  {
    var key :| IsLargestOf(sel, key) && NoContinuation(files, key);
    var a, b :| 0 <= a < b <= |files| && sel == files[a..b];
    SliceLargest(files, a, b, key);
    forall f, g | f in files && f !in sel && g in sel
      ensures Newer(SetOf(f.run), SetOf(g.run))
    {
      OutsideSlice(files, a, b, f, g);
    }
  }

  lemma OutsideSlice(files: Level, a: nat, b: nat, f: File, g: File)
    requires SortedLevel(files) && Distinct(EntriesOf(files)) && a < b <= |files|
    requires NoContinuation(files, files[b-1].Largest())
    requires f in files && f !in files[a..b] && g in files[a..b]
    ensures Newer(SetOf(f.run), SetOf(g.run))
  {
    var m := PositionOutside(files, a, b, f);
    var j := PositionInside(files, a, b, g);
    OrderOfFiles(files, b, m, j);
  }

  lemma PositionOutside(files: Level, a: nat, b: nat, f: File) returns (m: nat)
    requires a < b <= |files| && f in files && f !in files[a..b]
    ensures m < |files| && files[m] == f && (m < a || b <= m)
  {
    m :| 0 <= m < |files| && files[m] == f;
  }

  lemma PositionInside(files: Level, a: nat, b: nat, g: File) returns (j: nat)
    requires a < b <= |files| && g in files[a..b]
    ensures a <= j < b && files[j] == g
  {
    j :| a <= j < b && files[j] == g;
  }

  lemma OrderOfFiles(files: Level, b: nat, m: nat, j: nat)
    requires SortedLevel(files) && Distinct(EntriesOf(files))
    requires j < b <= |files| && m < |files| && (m < j || b <= m)
    requires NoContinuation(files, files[b-1].Largest())
    ensures Newer(SetOf(files[m].run), SetOf(files[j].run))
  {
    forall x, y | x in files[m].run && y in files[j].run && x.ikey.user == y.ikey.user
      ensures x.ikey.seqno > y.ikey.seqno
    {
      OrderOfEntries(files, b, m, j, x, y);
    }
  }

  lemma OrderOfEntries(files: Level, b: nat, m: nat, j: nat, x: Entry, y: Entry)
    requires SortedLevel(files) && Distinct(EntriesOf(files))
    requires j < b <= |files| && m < |files| && (m < j || b <= m)
    requires NoContinuation(files, files[b-1].Largest())
    requires x in files[m].run && y in files[j].run && x.ikey.user == y.ikey.user
    ensures x.ikey.seqno > y.ikey.seqno
  {
    FileRange(files[m], x);
    FileRange(files[j], y);
    if m < j {
      assert files[m] in files && files[j] in files;
      assert x in EntriesOf(files) && y in EntriesOf(files);
      assert Less(files[m].Largest(), files[j].Smallest());
    } else {
      LargestMonotone(files);
      assert Less(files[b-1].Largest(), files[m].Smallest());
      assert Continues(files[m], files[b-1].Largest());
    }
  }

  /** In a sorted level a file between two files of a range is in the range. */
  lemma NoGap(files: Level, r: Range, i: nat, j: nat, k: nat)
    requires SortedLevel(files) && i <= j <= k < |files|
    ensures Overlaps(files[i], r) && Overlaps(files[k], r) ==> Overlaps(files[j], r)
  {
    if i < j < k {
      FileRange(files[j], files[j].run[0]);
      assert Less(files[i].Largest(), files[j].Smallest());
      assert Less(files[j].Largest(), files[k].Smallest());
    }
  }

  lemma {:induction false} OverlapsFrom(files: Level, r: Range, a: nat, b: nat)
    requires a <= b <= |files|
    requires forall m | 0 <= m < |files| :: Overlaps(files[m], r) <==> a <= m < b
    ensures FilesIn(files, r) == files[a..b]
  {
    if files != [] {
      var n := |files| - 1;
      if b == |files| && a < b {
        OverlapsFrom(files[..n], r, a, n);
        assert files[a..b] == files[..n][a..n] + [files[n]];
      } else if a == b {
        OverlapsFrom(files[..n], r, 0, 0);
      } else {
        OverlapsFrom(files[..n], r, a, b);
        assert files[a..b] == files[..n][a..b];
      }
    }
  }

  lemma OverlapInterval(files: Level, r: Range, m: nat) returns (a: nat, b: nat)
    requires SortedLevel(files) && m < |files| && Overlaps(files[m], r)
    ensures a < b <= |files|
    ensures forall i | 0 <= i < |files| :: Overlaps(files[i], r) <==> a <= i < b
  {
    a, b := m, m + 1;
    while a > 0 && Overlaps(files[a-1], r)
      invariant 0 <= a <= m && forall i | a <= i <= m :: Overlaps(files[i], r)
    {
      a := a - 1;
    }
    while b < |files| && Overlaps(files[b], r)
      invariant m < b <= |files| && forall i | m <= i < b :: Overlaps(files[i], r)
    {
      b := b + 1;
    }
    forall i | 0 <= i < a
      ensures !Overlaps(files[i], r)
    {
      NoGap(files, r, i, a - 1, m);
    }
    forall i | b <= i < |files|
      ensures !Overlaps(files[i], r)
    {
      NoGap(files, r, m, b, i);
    }
  }

  /** In a sorted level the files overlapping a range are contiguous. */
  lemma OverlapsAreSlice(files: Level, r: Range)
    requires SortedLevel(files) && FilesIn(files, r) != []
    ensures Slice(files, FilesIn(files, r))
  {
    InFilesIn(files, r);
    var f := FilesIn(files, r)[0];
    assert f in FilesIn(files, r);
    var m :| 0 <= m < |files| && files[m] == f;
    var a, b := OverlapInterval(files, r, m);
    OverlapsFrom(files, r, a, b);
  }

  /** Level 0: a range that cuts through no file separates user keys. */
  lemma ClosedLeavesNothingOlder(files: Level, r: Range)
    requires ClosedUnder(files, r)
    ensures NothingOlderLeft(files, FilesIn(files, r))
  {
    InFilesIn(files, r);
    forall f, g | f in files && f !in FilesIn(files, r) && g in FilesIn(files, r)
      ensures Newer(SetOf(f.run), SetOf(g.run))
    {
      forall x, y | x in f.run && y in g.run && x.ikey.user == y.ikey.user
        ensures false
      {
        FileRange(f, x);
        FileRange(g, y);
      }
    }
  }

  datatype Compaction = Compaction(level: nat, inputs0: Level, inputs1: Level, smallest: IKey, largest: IKey)

  function UserRange(smallest: IKey, largest: IKey): Range {
    Range(Some(smallest.user), Some(largest.user))
  }

  /** What SetupOtherInputs guarantees about the files it selects from two adjacent levels. */
  ghost predicate ClosedIn(files: Level, next: Level, c: Compaction) {
    && c.inputs0 != []
    && (forall f | f in c.inputs0 :: f in files)
    && NothingOlderLeft(files, c.inputs0)
    && IsSmallestOf(c.inputs0, c.smallest)
    && IsLargestOf(c.inputs0, c.largest)
    && c.inputs1 == FilesIn(next, UserRange(c.smallest, c.largest))
  }

  ghost predicate Closed(v: Version, c: Compaction) {
    c.level + 1 < NUM_LEVELS && ClosedIn(v[c.level], v[c.level + 1], c)
  }

  /** What is needed of the level that a compaction starts from. */
  ghost predicate Searchable(files: Level, level: nat) {
    level > 0 ==> SortedLevel(files) && Distinct(EntriesOf(files))
  }

  lemma ValidSearchable(v: Version, level: nat)
    requires Valid(v) && level < NUM_LEVELS
    ensures Searchable(v[level], level)
  {
    DistinctParts(v, level, ANY_FILE);
  }

  /** What the callers of SetupOtherInputs start from. */
  predicate Startable(files: Level, level: nat, inputs0: Level, r: Range) {
    && inputs0 != []
    && (level == 0 ==> ClosedUnder(files, r) && inputs0 == FilesIn(files, r))
    && (level > 0 ==> Slice(files, inputs0))
  }

  function TotalFileSize(files: Level): nat {
    if files == [] then 0 else files[0].size + TotalFileSize(files[1..])
  }

  /** The selection lists files of the level in the level's order, none twice. */
  ghost predicate Orderly(files: Level, level: nat, sel: Level) {
    if level == 0 then exists r :: sel == FilesIn(files, r) else Slice(files, sel)
  }

  /** AddBoundaryInputs applied to a startable selection of the level. */
  method CloseInputs(files: Level, level: nat, inputs0: Level, ghost r: Range) returns (closed: Level)
    requires Searchable(files, level) && Startable(files, level, inputs0, r)
    ensures IsBoundaryClosure(files, inputs0, closed)
    ensures forall f | f in closed :: f in files
    ensures NothingOlderLeft(files, closed) && Orderly(files, level, closed)
  {
    closed := AddBoundaryInputs(files, inputs0);
    if level == 0 {
      InFilesIn(files, r);
      ClosedHasNoContinuation(files, r);
      ClosedLeavesNothingOlder(files, r);
    } else {
      SliceLeavesNothingOlder(files, closed);
    }
  }

  lemma ClosedHasNoContinuation(files: Level, r: Range)
    requires ClosedUnder(files, r)
    ensures forall key | IsLargestOf(FilesIn(files, r), key) :: NoContinuation(files, key)
  {
    var sel := FilesIn(files, r);
    InFilesIn(files, r);
    forall key | IsLargestOf(sel, key)
      ensures NoContinuation(files, key)
    {
      var g :| g in sel && g.Largest() == key;
      forall f | f in files
        ensures !Continues(f, key)
      {
        FileRange(f, f.run[0]);
        FileRange(g, g.run[0]);
      }
    }
  }

  lemma OneLargest(files: Level, a: IKey, b: IKey)
    requires IsLargestOf(files, a) && IsLargestOf(files, b)
    ensures a == b
  {
    LessIsStrictTotalOrder(a, b, a);
  }

  lemma OneSmallest(files: Level, a: IKey, b: IKey)
    requires IsSmallestOf(files, a) && IsSmallestOf(files, b)
    ensures a == b
  {
    LessIsStrictTotalOrder(a, b, a);
  }

  /** sel is what GetOverlappingInputs finds for the request. */
  ghost predicate IsOverlapping(files: Level, level: nat, request: Range, sel: Level) {
    exists r :: (if level == 0 then IsClosure(files, request, r) else r == request) && sel == FilesIn(files, r)
  }

  /** expanded0 has the files of the compaction's level in the range of both its input sets, and the boundary files. */
  ghost predicate IsExpansion(files: Level, c: Compaction, expanded0: Level) {
    exists lo, hi, sel ::
      && IsSmallestOf(c.inputs0 + c.inputs1, lo) && IsLargestOf(c.inputs0 + c.inputs1, hi)
      && IsOverlapping(files, c.level, UserRange(lo, hi), sel)
      && IsBoundaryClosure(files, sel, expanded0)
  }

  /** The larger inputs have more files, are not too large, and need no more files of the next level. */
  ghost predicate GrowsForFree(next: Level, c: Compaction, expanded0: Level, byteLimit: nat) {
    && |expanded0| > |c.inputs0| && TotalFileSize(c.inputs1) + TotalFileSize(expanded0) < byteLimit
    && forall lo, hi | IsSmallestOf(expanded0, lo) && IsLargestOf(expanded0, hi) ::
         |FilesIn(next, UserRange(lo, hi))| == |c.inputs1|
  }

  /** c is plain, or plain with the inputs of its level expanded: that exactly if they grow for free. */
  ghost predicate IsGrown(files: Level, next: Level, plain: Compaction, byteLimit: nat, c: Compaction) {
    if plain.inputs1 == [] then c == plain
    else exists expanded0 {:trigger IsExpansion(files, plain, expanded0)} ::
           && IsExpansion(files, plain, expanded0)
           && if GrowsForFree(next, plain, expanded0, byteLimit) then c.inputs0 == expanded0 else c == plain
  }

  /** c is what SetupOtherInputs makes of the files it starts from. */
  ghost predicate IsSetUp(files: Level, next: Level, level: nat, start: Level, byteLimit: nat, c: Compaction) {
    && ClosedIn(files, next, c) && c.level == level
    && exists plain: Compaction {:trigger ClosedIn(files, next, plain)} ::
         && ClosedIn(files, next, plain) && plain.level == level && IsBoundaryClosure(files, start, plain.inputs0)
         && IsGrown(files, next, plain, byteLimit, c)
  }

  /**
   Completes a compaction: closes the inputs of its level, adds the overlapping files
   of the next level, and grows the first set when that costs nothing in the second.
   */
  method SetupOtherInputs(files: Level, next: Level, level: nat, start: Level, ghost r: Range, byteLimit: nat)
    returns (c: Compaction)
    requires Searchable(files, level) && Startable(files, level, start, r)
    ensures IsSetUp(files, next, level, start, byteLimit, c)
    ensures Orderly(files, level, c.inputs0)
    ensures forall f | f in start :: f in c.inputs0
  {
    var inputs0 := CloseInputs(files, level, start, r);
    c := AddNextLevel(files, next, level, inputs0);
    ghost var plain := c;
    if c.inputs1 != [] {
      c := GrowInputs(files, next, c, byteLimit);
    }
    assert ClosedIn(files, next, plain);
  }

  method GrowInputs(files: Level, next: Level, plain: Compaction, byteLimit: nat) returns (c: Compaction)
    requires Searchable(files, plain.level) && ClosedIn(files, next, plain) && plain.inputs1 != []
    requires Orderly(files, plain.level, plain.inputs0)
    ensures ClosedIn(files, next, c) && c.level == plain.level && IsGrown(files, next, plain, byteLimit, c)
    ensures Orderly(files, c.level, c.inputs0)
    ensures forall f | f in plain.inputs0 :: f in c.inputs0
  {
    c := plain;
    var expanded0 := ExpandInputs(files, next, plain);
    if |expanded0| > |plain.inputs0| && TotalFileSize(plain.inputs1) + TotalFileSize(expanded0) < byteLimit {
      var expanded := AddNextLevel(files, next, plain.level, expanded0);
      NextLevelGrowth(next, plain, expanded0, expanded, byteLimit);
      if |expanded.inputs1| == |plain.inputs1| {
        c := expanded;
      }
    }
  }

  lemma NextLevelGrowth(next: Level, c: Compaction, expanded0: Level, expanded: Compaction, byteLimit: nat)
    requires |expanded0| > |c.inputs0| && TotalFileSize(c.inputs1) + TotalFileSize(expanded0) < byteLimit
    requires IsSmallestOf(expanded0, expanded.smallest) && IsLargestOf(expanded0, expanded.largest)
    requires expanded.inputs1 == FilesIn(next, UserRange(expanded.smallest, expanded.largest))
    ensures GrowsForFree(next, c, expanded0, byteLimit) <==> |expanded.inputs1| == |c.inputs1|
  {
    forall lo, hi | IsSmallestOf(expanded0, lo) && IsLargestOf(expanded0, hi)
      ensures lo == expanded.smallest && hi == expanded.largest
    {
      OneSmallest(expanded0, lo, expanded.smallest);
      OneLargest(expanded0, hi, expanded.largest);
    }
  }

  /** The files of the next level in the range of the inputs chosen so far. */
  method AddNextLevel(files: Level, next: Level, level: nat, inputs0: Level) returns (c: Compaction)
    requires inputs0 != [] && NothingOlderLeft(files, inputs0)
    requires forall f | f in inputs0 :: f in files
    ensures ClosedIn(files, next, c) && c.level == level && c.inputs0 == inputs0
  {
    var smallest, largest := GetRange(inputs0);
    var inputs1, _ := GetOverlappingInputs(next, level + 1, UserRange(smallest, largest));
    c := Compaction(level, inputs0, inputs1, smallest, largest);
  }

  /** What growing costs: no further file of the next level, and no more bytes than the limit allows. */
  lemma GrowthIsFree(files: Level, next: Level, plain: Compaction, byteLimit: nat, c: Compaction)
    requires ClosedIn(files, next, plain) && ClosedIn(files, next, c) && IsGrown(files, next, plain, byteLimit, c)
    requires forall f | f in plain.inputs0 :: f in c.inputs0
    ensures c.inputs1 == plain.inputs1
    ensures c == plain || (|c.inputs0| > |plain.inputs0|
                           && TotalFileSize(c.inputs0) + TotalFileSize(c.inputs1) < byteLimit)
  {
    if c != plain {
      Wider(plain, c);
      FilesInWider(next, UserRange(plain.smallest, plain.largest), UserRange(c.smallest, c.largest));
    }
  }

  /** More files have a wider range. */
  lemma Wider(plain: Compaction, c: Compaction)
    requires IsSmallestOf(plain.inputs0, plain.smallest) && IsLargestOf(plain.inputs0, plain.largest)
    requires IsSmallestOf(c.inputs0, c.smallest) && IsLargestOf(c.inputs0, c.largest)
    requires forall f | f in plain.inputs0 :: f in c.inputs0
    ensures Includes(UserRange(c.smallest, c.largest), UserRange(plain.smallest, plain.largest))
  {
    var f :| f in plain.inputs0 && f.Smallest() == plain.smallest;
    var g :| g in plain.inputs0 && g.Largest() == plain.largest;
    assert f in c.inputs0 && g in c.inputs0;
  }

  lemma {:induction false} FilesInWider(files: Level, r: Range, wide: Range)
    requires Includes(wide, r)
    ensures |FilesIn(files, r)| <= |FilesIn(files, wide)|
    ensures |FilesIn(files, r)| == |FilesIn(files, wide)| ==> FilesIn(files, r) == FilesIn(files, wide)
  {
    if files != [] {
      FilesInWider(files[..|files|-1], r, wide);
    }
  }

  /** All files of the compaction's level in the range of both its input sets, closed again. */
  method ExpandInputs(files: Level, next: Level, c: Compaction) returns (expanded0: Level)
    requires Searchable(files, c.level) && ClosedIn(files, next, c)
    ensures expanded0 != []
    ensures forall f | f in expanded0 :: f in files
    ensures NothingOlderLeft(files, expanded0) && Orderly(files, c.level, expanded0)
    ensures IsExpansion(files, c, expanded0)
    ensures forall f | f in c.inputs0 :: f in expanded0
  {
    var allStart, allLimit := GetRange(c.inputs0 + c.inputs1);
    var r: Range;
    expanded0, r := GetOverlappingInputs(files, c.level, UserRange(allStart, allLimit));
    RangeKeepsFiles(files, c.inputs0, c.inputs0 + c.inputs1, allStart, allLimit, r);
    if c.level > 0 {
      OverlapsAreSlice(files, r);
    }
    var overlapping := expanded0;
    assert IsOverlapping(files, c.level, UserRange(allStart, allLimit), overlapping);
    expanded0 := CloseInputs(files, c.level, overlapping, r);
    assert forall f | f in overlapping :: f in expanded0;
  }

  /** The files a range was computed from overlap any range that includes it. */
  lemma RangeKeepsFiles(files: Level, part: Level, all: Level, smallest: IKey, largest: IKey, r: Range)
    requires IsSmallestOf(all, smallest) && IsLargestOf(all, largest)
    requires Includes(r, UserRange(smallest, largest))
    requires part != [] && forall f | f in part :: f in all && f in files
    ensures forall f | f in part :: f in FilesIn(files, r)
    ensures FilesIn(files, r) != []
  {
    InFilesIn(files, r);
    forall f | f in part
      ensures f in FilesIn(files, r)
    {
      FileRange(f, f.run[0]);
      assert f in all;
    }
    assert part[0] in part;
  }

  predicate NonePast(files: Level, pointer: IKey) {
    forall f | f in files :: !Less(pointer, f.Largest())
  }

  predicate IsFirstPast(files: Level, pointer: IKey, f: File) {
    exists i :: 0 <= i < |files| && f == files[i] && Less(pointer, f.Largest()) && NonePast(files[..i], pointer)
  }

  /** f is the first file past the pointer, or the first of all if there is no pointer or no file past it. */
  predicate IsTurnOf(files: Level, pointer: Option<IKey>, f: File) {
    if pointer.None? || NonePast(files, pointer.value) then files != [] && f == files[0]
    else IsFirstPast(files, pointer.value, f)
  }

  /** The first file past the compaction pointer, wrapping around. */
  method PickFile(files: Level, pointer: Option<IKey>) returns (f: File)
    requires files != []
    ensures f in files && IsTurnOf(files, pointer, f)
  {
    for i := 0 to |files|
      invariant pointer.None? ==> i == 0
      invariant pointer.Some? ==> NonePast(files[..i], pointer.value)
    {
      assert files[..i+1] == files[..i] + [files[i]];
      if pointer.None? || Less(pointer.value, files[i].Largest()) {
        return files[i];
      }
    }
    assert files[..|files|] == files;
    return files[0];
  }

  /** What an automatic compaction of f starts from: the file itself, or at level 0 all that overlap it. */
  ghost predicate StartsFrom(files: Level, level: nat, f: File, start: Level) {
    if level > 0 then start == [f]
    else IsOverlapping(files, 0, UserRange(f.Smallest(), f.Largest()), start)
  }

  ghost predicate IsPicked(files: Level, next: Level, level: nat, f: File, byteLimit: nat, c: Compaction) {
    exists start :: StartsFrom(files, level, f, start) && IsSetUp(files, next, level, start, byteLimit, c)
  }

  /** Automatic compaction of the file f of the level. */
  method PickCompaction(v: Version, level: nat, f: File, byteLimit: nat) returns (c: Compaction)
    requires level + 1 < NUM_LEVELS && Searchable(v[level], level) && f in v[level]
    ensures Closed(v, c) && c.level == level && f in c.inputs0
    ensures IsPicked(v[level], v[level+1], level, f, byteLimit, c)
    ensures Orderly(v[level], level, c.inputs0)
  {
    ghost var r;
    var start;
    start, r := StartWith(v[level], level, f);
    c := SetupOtherInputs(v[level], v[level+1], level, start, r, byteLimit);
    PickedFrom(v, level, f, byteLimit, start, c);
  }

  lemma PickedFrom(v: Version, level: nat, f: File, byteLimit: nat, start: Level, c: Compaction)
    requires level + 1 < NUM_LEVELS && StartsFrom(v[level], level, f, start)
    requires IsSetUp(v[level], v[level+1], level, start, byteLimit, c)
    ensures IsPicked(v[level], v[level+1], level, f, byteLimit, c) && Closed(v, c) && c.level == level
  {
  }

  method StartWith(files: Level, level: nat, f: File) returns (start: Level, ghost r: Range)
    requires f in files
    ensures f in start && StartsFrom(files, level, f, start) && Startable(files, level, start, r)
  {
    start, r := [f], Range(None, None);
    if level == 0 {
      var smallest, largest := GetRange([f]);
      start, r := GetOverlappingInputs(files, 0, UserRange(smallest, largest));
      RangeKeepsFiles(files, [f], [f], smallest, largest, r);
      assert smallest == f.Smallest() && largest == f.Largest();
    } else {
      var i :| 0 <= i < |files| && files[i] == f;
      assert [f] == files[i..i+1];
    }
  }

  /** Widening a range that no file overlaps does not make one overlap it. */
  lemma ClosureOccupied(files: Level, level: nat, request: Range, r: Range)
    requires if level == 0 then IsClosure(files, request, r) else r == request
    ensures FilesIn(files, r) == [] <==> !Occupied(files, request)
  {
    InFilesIn(files, r);
    if level == 0 && !Occupied(files, request) {
      assert Acceptable(files, request, request);
      if f :| f in files && Overlaps(f, r) {
        assert Overlaps(f, request);
      }
    }
    if f :| f in files && Overlaps(f, request) {
      assert Overlaps(f, r) && f in FilesIn(files, r);
    }
  }

  /** What a manual compaction starts from: the files overlapping the request, of a sorted level only as many as fit. */
  ghost predicate StartsIn(files: Level, level: nat, request: Range, fileLimit: nat, start: Level) {
    exists sel :: IsOverlapping(files, level, request, sel)
      && if level > 0 then IsTruncated(sel, fileLimit, start) else start == sel
  }

  ghost predicate IsPickedIn(files: Level, next: Level, level: nat, request: Range, fileLimit: nat, byteLimit: nat,
                             c: Compaction) {
    exists start ::
      StartsIn(files, level, request, fileLimit, start) && IsSetUp(files, next, level, start, byteLimit, c)
  }

  /** Manual compaction of a range: at most about one output file's worth of a sorted level. */
  method CompactRange(v: Version, level: nat, request: Range, fileLimit: nat, byteLimit: nat)
    returns (c: Option<Compaction>)
    requires level + 1 < NUM_LEVELS && Searchable(v[level], level)
    ensures c.Some? ==> Closed(v, c.value) && c.value.level == level
    ensures c.Some? ==> IsPickedIn(v[level], v[level+1], level, request, fileLimit, byteLimit, c.value)
    ensures c.Some? ==> Orderly(v[level], level, c.value.inputs0)
    ensures c.None? <==> !Occupied(v[level], request)
  {
    ghost var r;
    var start;
    start, r := StartInRange(v[level], level, request, fileLimit);
    if start == [] {
      return None;
    }
    var d := SetupOtherInputs(v[level], v[level+1], level, start, r, byteLimit);
    PickedIn(v, level, request, fileLimit, byteLimit, start, d);
    c := Some(d);
  }

  lemma PickedIn(v: Version, level: nat, request: Range, fileLimit: nat, byteLimit: nat, start: Level, c: Compaction)
    requires level + 1 < NUM_LEVELS && StartsIn(v[level], level, request, fileLimit, start)
    requires IsSetUp(v[level], v[level+1], level, start, byteLimit, c)
    ensures IsPickedIn(v[level], v[level+1], level, request, fileLimit, byteLimit, c) && Closed(v, c)
    ensures c.level == level
  {
  }

  method StartInRange(files: Level, level: nat, request: Range, fileLimit: nat)
    returns (start: Level, ghost r: Range)
    requires Searchable(files, level)
    ensures start == [] <==> !Occupied(files, request)
    ensures start != [] ==> StartsIn(files, level, request, fileLimit, start) && Startable(files, level, start, r)
  {
    var whole;
    start, whole := GetOverlappingInputs(files, level, request);
    r := whole;
    ClosureOccupied(files, level, request, r);
    assert IsOverlapping(files, level, request, start);
    if level > 0 && start != [] {
      OverlapsAreSlice(files, r);
      start := TruncateInputs(files, start, fileLimit);
    }
  }

  lemma SlicePrefix(files: Level, a: nat, b: nat, n: nat)
    requires a <= b <= |files| && n <= b - a
    ensures files[a..b][..n] == files[a..a+n]
  {
  }

  /** r is the shortest prefix, of at least one file, whose size reaches the limit, or else the whole list. */
  predicate IsTruncated(files: Level, limit: nat, r: Level) {
    && r <= files && (files != [] ==> r != [])
    && (r == files || TotalFileSize(r) >= limit)
    && forall n | 0 < n < |r| :: TotalFileSize(files[..n]) < limit
  }

  lemma {:induction false} TotalOfPrefix(files: Level, n: nat)
    requires n < |files|
    ensures TotalFileSize(files[..n+1]) == TotalFileSize(files[..n]) + files[n].size
  {
    if n > 0 {
      TotalOfPrefix(files[1..], n - 1);
      assert files[..n+1][1..] == files[1..][..n] && files[..n][1..] == files[1..][..n-1];
    }
  }

  method TruncateInputs(files: Level, inputs: Level, fileLimit: nat) returns (r: Level)
    requires Slice(files, inputs)
    ensures IsTruncated(inputs, fileLimit, r) && Slice(files, r)
  {
    ghost var a, b :| 0 <= a < b <= |files| && inputs == files[a..b];
    var total := 0;
    for i := 0 to |inputs|
      invariant total == TotalFileSize(inputs[..i])
      invariant forall n | 0 < n <= i :: TotalFileSize(inputs[..n]) < fileLimit
    {
      TotalOfPrefix(inputs, i);
      total := total + inputs[i].size;
      if total >= fileLimit {
        r := inputs[..i+1];
        SlicePrefix(files, a, b, i + 1);
        return;
      }
    }
    assert inputs[..|inputs|] == inputs;
    r := inputs;
  }

  // ----- The level that receives a flushed memtable -----

  const MAX_MEM_COMPACT_LEVEL := 2

  /** A table over the range may go one level below this one. */
  predicate GoesDeeper(v: Version, r: Range, level: nat, grandparentLimit: nat)
    requires level + 1 < NUM_LEVELS
  {
    && !Occupied(v[level+1], r)
    && (level + 2 < NUM_LEVELS ==> TotalFileSize(FilesIn(v[level+2], r)) <= grandparentLimit)
  }

  /** Level 0 if it overlaps the range, and otherwise the first level, up to 2, that a table may not go below. */
  predicate IsLevelFor(v: Version, r: Range, grandparentLimit: nat, level: nat) {
    && level <= 2
    && (level > 0 ==> forall l, f | 0 <= l <= level && f in v[l] :: !Overlaps(f, r))
    && (Occupied(v[0], r) ==> level == 0)
    && (!Occupied(v[0], r) && level < 2 ==> !GoesDeeper(v, r, level, grandparentLimit))
    && forall l | 0 <= l < level :: GoesDeeper(v, r, l, grandparentLimit)
  }

  /** The deepest level, at most 2, that the range can reach without passing over its own keys. */
  method PickLevelForMemTableOutput(v: Version, r: Range, grandparentLimit: nat) returns (level: nat)
    requires Valid(v)
    ensures IsLevelFor(v, r, grandparentLimit, level)
  {
    level := 0;
    var overlap := SomeFileOverlapsRange(false, v[0], r);
    if !overlap {
      while level < MAX_MEM_COMPACT_LEVEL
        invariant level <= MAX_MEM_COMPACT_LEVEL
        invariant forall l, f | 0 <= l <= level && f in v[l] :: !Overlaps(f, r)
        invariant forall l | 0 <= l < level :: GoesDeeper(v, r, l, grandparentLimit)
      {
        var next := SomeFileOverlapsRange(true, v[level+1], r);
        if next {
          return;
        }
        if level + 2 < NUM_LEVELS {
          var overlaps, _ := GetOverlappingInputs(v[level+2], level + 2, r);
          if TotalFileSize(overlaps) > grandparentLimit {
            return;
          }
        }
        level := level + 1;
      }
    }
  }
}
