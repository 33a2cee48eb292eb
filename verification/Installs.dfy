/**
 Installing a new version: a flush adds one file to a level, a compaction replaces
 the inputs of two levels by its outputs.  Both keep every version well formed, and
 the effect on the contents is exactly the flushed or the dropped entries.
 */
module Installs {
  import opened Entries
  import opened Versions
  import opened Selection
  import opened Compactions

  /** The order in which a level lists its files. */
  predicate FileBefore(f: File, g: File) {
    Less(f.Smallest(), g.Smallest()) || (f.Smallest() == g.Smallest() && f.number < g.number)
  }

  predicate Ordered(files: Level) {
    forall i, j | 0 <= i < j < |files| :: FileBefore(files[i], files[j])
  }

  /** files' lists, in order, the files left after the removals, and the added ones. */
  ghost predicate Replaced(files: Level, removed: Level, added: Level, files': Level) {
    && Ordered(files')
    && forall f :: f in files' <==> (f in files && f !in removed) || f in added
  }

  ghost predicate FlushInstalled(v: Version, level: nat, f: File, v': Version) {
    && level < NUM_LEVELS
    && Replaced(v[level], [], [f], v'[level])
    && forall l | 0 <= l < NUM_LEVELS && l != level :: v'[l] == v[l]
  }

  ghost predicate CompactionInstalled(v: Version, c: Compaction, outs: Level, v': Version) {
    && c.level + 1 < NUM_LEVELS
    && Replaced(v[c.level], c.inputs0, [], v'[c.level])
    && Replaced(v[c.level + 1], c.inputs1, outs, v'[c.level + 1])
    && forall l | 0 <= l < NUM_LEVELS && l != c.level && l != c.level + 1 :: v'[l] == v[l]
  }

  // ----- Lists of files as lists of entries -----

  lemma InLevel(files: Level, f: File, e: Entry)
    requires f in files && e in f.run
    ensures e in EntriesOf(files)
  {
  }

  function Flatten(files: Level): seq<Entry> {
    if files == [] then [] else Flatten(files[..|files|-1]) + files[|files|-1].run
  }

  lemma {:induction false} FlattenMembers(files: Level)
    ensures SetOf(Flatten(files)) == EntriesOf(files)
  {
    if files != [] {
      var n := |files| - 1;
      FlattenMembers(files[..n]);
      assert files == files[..n] + [files[n]];
      forall e
        ensures e in EntriesOf(files) <==> e in EntriesOf(files[..n]) || e in files[n].run
      {
        if f :| f in files && e in f.run {
          assert f in files[..n] || f == files[n];
        }
      }
      assert forall e :: e in Flatten(files) <==> e in Flatten(files[..n]) || e in files[n].run;
    }
  }

  /** Consecutive pieces of a sorted run are a sorted level. */
  lemma {:induction false} FlattenSorted(files: Level)
    requires Sorted(Flatten(files))
    ensures SortedLevel(files)
  {
    if files != [] {
      var n := |files| - 1;
      var front := Flatten(files[..n]);
      assert Flatten(files)[..|front|] == front && Flatten(files)[|front|] == files[n].run[0];
      FlattenSorted(files[..n]);
      FlattenMembers(files[..n]);
      forall i | 0 <= i < n
        ensures Less(files[i].Largest(), files[n].Smallest())
      {
        var e := files[i].run[|files[i].run|-1];
        assert files[..n][i] == files[i];
        InLevel(files[..n], files[i], e);
        assert e in SetOf(front);
        var p :| 0 <= p < |front| && front[p] == e;
        assert Flatten(files)[p] == e;
      }
      forall i, j | 0 <= i < j < |files|
        ensures Less(files[i].Largest(), files[j].Smallest())
      {
        if j < n {
          assert files[..n][i] == files[i] && files[..n][j] == files[j];
        }
      }
    }
  }

  // ----- Ordered lists -----

  predicate Separated(f: File, g: File) {
    Less(f.Largest(), g.Smallest()) || Less(g.Largest(), f.Smallest())
  }

  /** An ordered list of pairwise disjoint files is a sorted level. */
  lemma SeparatedIsSorted(files: Level)
    requires Ordered(files)
    requires forall f, g | f in files && g in files && f != g :: Separated(f, g)
    ensures SortedLevel(files)
  {
    forall i, j | 0 <= i < j < |files|
      ensures Less(files[i].Largest(), files[j].Smallest())
    {
      assert FileBefore(files[i], files[j]);
      assert files[i] in files && files[j] in files && Separated(files[i], files[j]);
      FileRange(files[i], files[i].run[0]);
      FileRange(files[j], files[j].run[0]);
    }
  }

  lemma SortedSeparated(files: Level, f: File, g: File)
    requires SortedLevel(files) && f in files && g in files && f != g
    ensures Separated(f, g)
  {
    var i :| 0 <= i < |files| && files[i] == f;
    var j :| 0 <= j < |files| && files[j] == g;
  }

  /** Distinct files of an ordered list with distinct numbers keep distinct numbers. */
  lemma NumbersStayDistinct(files: Level, files': Level)
    requires Ordered(files')
    requires forall f, g | f in files' && g in files' && f.number == g.number :: f == g
    ensures DistinctNumbers(files')
  {
  }

  /** Ordered lists with the same files are equal. */
  lemma {:induction false} OrderedUnique(a: Level, b: Level)
    requires Ordered(a) && Ordered(b)
    requires forall f :: f in a <==> f in b
    ensures a == b
  {
    assert b != [] ==> b[0] in a;
    if a != [] {
      assert a[0] in b;
      var i :| 0 <= i < |b| && b[i] == a[0];
      var j :| 0 <= j < |a| && a[j] == b[0];
      assert a[0] == b[0];
      forall f
        ensures f in a[1..] <==> f in b[1..]
      {
        OrderedTail(a, f);
        OrderedTail(b, f);
      }
      OrderedUnique(a[1..], b[1..]);
      assert a == [a[0]] + a[1..] && b == [b[0]] + b[1..];
    }
  }

  lemma OrderedTail(a: Level, f: File)
    requires Ordered(a) && a != []
    ensures f in a[1..] <==> f in a && f != a[0]
  {
    if f in a && f != a[0] {
      var i :| 0 <= i < |a| && a[i] == f;
      assert a[1..][i-1] == f;
    }
  }

  // ----- A flush -----

  /** The level chosen for a flushed memtable may hold it. */
  predicate MayHold(v: Version, level: nat, f: File) {
    && level < NUM_LEVELS
    && (level > 0 ==> forall l, g | 0 <= l <= level && g in v[l] :: !Overlaps(g, UserRange(f.Smallest(), f.Largest())))
  }

  lemma NoOverlapNoSharedKey(f: File, g: File, x: Entry, y: Entry)
    requires !Overlaps(g, UserRange(f.Smallest(), f.Largest()))
    requires x in g.run && y in f.run
    ensures x.ikey.user != y.ikey.user
    ensures Separated(f, g)
  {
    FileRange(g, x);
    FileRange(f, y);
  }

  lemma FlushContents(v: Version, level: nat, f: File, v': Version)
    requires FlushInstalled(v, level, f, v')
    ensures EntriesOf(v'[level]) == EntriesOf(v[level]) + SetOf(f.run)
    ensures Contents(v') == Contents(v) + SetOf(f.run)
  {
    assert f in v'[level];
    forall e
      ensures e in EntriesOf(v'[level]) <==> e in EntriesOf(v[level]) || e in f.run
    {
      if g :| g in v[level] && e in g.run {
        assert g in v'[level];
      }
    }
    forall e
      ensures e in Contents(v') <==> e in Contents(v) || e in f.run
    {
      if e in Contents(v') {
        var l := ContentsLevel(v', e);
        if l != level {
          InContents(v, l, e);
        } else if e in EntriesOf(v[level]) {
          InContents(v, level, e);
        }
      }
      if e in Contents(v) {
        var l := ContentsLevel(v, e);
        InContents(v', l, e);
      }
      if e in f.run {
        InContents(v', level, e);
      }
    }
  }

  /** A flush keeps every version well formed. */
  lemma FlushKeepsValid(v: Version, level: nat, f: File, v': Version)
    requires Valid(v) && FlushInstalled(v, level, f, v') && MayHold(v, level, f)
    requires Newer(SetOf(f.run), Contents(v)) && Distinct(SetOf(f.run) + Contents(v))
    requires forall g | g in v[0] :: g.number < f.number
    ensures Valid(v')
  {
    FlushContents(v, level, f, v');
    FlushSortsLevels(v, level, f, v');
    FlushOrdersLevels(v, level, f, v');
  }

  lemma FlushSortsLevels(v: Version, level: nat, f: File, v': Version)
    requires Valid(v) && FlushInstalled(v, level, f, v') && MayHold(v, level, f)
    requires Newer(SetOf(f.run), Contents(v))
    requires forall g | g in v[0] :: g.number < f.number
    ensures DistinctNumbers(v'[0]) && NewestByNumber(v'[0])
    ensures forall l | 1 <= l < NUM_LEVELS :: SortedLevel(v'[l])
  {
    if level == 0 {
      FlushLevelZero(v, f, v'[0]);
    } else {
      FlushSortsLevel(v, level, f, v'[level]);
    }
  }

  lemma FlushSortsLevel(v: Version, level: nat, f: File, files: Level)
    requires 0 < level < NUM_LEVELS && SortedLevel(v[level]) && MayHold(v, level, f)
    requires Replaced(v[level], [], [f], files)
    ensures SortedLevel(files)
  {
    forall g, h | g in files && h in files && g != h
      ensures Separated(g, h)
    {
      FlushSeparated(v, level, f, g, h);
    }
    SeparatedIsSorted(files);
  }

  lemma FlushSeparated(v: Version, level: nat, f: File, g: File, h: File)
    requires 0 < level < NUM_LEVELS && SortedLevel(v[level]) && MayHold(v, level, f)
    requires (g in v[level] || g == f) && (h in v[level] || h == f) && g != h
    ensures Separated(g, h)
  {
    if g == f {
      NoOverlapNoSharedKey(f, h, h.run[0], f.run[0]);
    } else if h == f {
      NoOverlapNoSharedKey(f, g, g.run[0], f.run[0]);
    } else {
      SortedSeparated(v[level], g, h);
    }
  }

  lemma FlushLevelZero(v: Version, f: File, files: Level)
    requires Valid(v) && Replaced(v[0], [], [f], files)
    requires Newer(SetOf(f.run), Contents(v))
    requires forall g | g in v[0] :: g.number < f.number
    ensures DistinctNumbers(files) && NewestByNumber(files)
  {
    NumbersStayDistinct(v[0], files);
    forall g, h | g in files && h in files && g.number > h.number
      ensures Newer(SetOf(g.run), SetOf(h.run))
    {
      if g == f {
        assert h in v[0];
        assert forall e | e in h.run :: e in Contents(v);
      } else {
        assert g in v[0] && h in v[0];
      }
    }
  }

  lemma FlushOrdersLevels(v: Version, level: nat, f: File, v': Version)
    requires Valid(v) && FlushInstalled(v, level, f, v') && MayHold(v, level, f)
    requires Newer(SetOf(f.run), Contents(v))
    ensures LevelsOrdered(v')
  {
    FlushContents(v, level, f, v');
    forall i, j | 0 <= i < j < NUM_LEVELS
      ensures Newer(EntriesOf(v'[i]), EntriesOf(v'[j]))
    {
      assert Newer(EntriesOf(v[i]), EntriesOf(v[j]));
      forall x, y | x in EntriesOf(v'[i]) && y in EntriesOf(v'[j]) && x.ikey.user == y.ikey.user
        ensures x.ikey.seqno > y.ikey.seqno
      {
        if j == level && y in f.run {
          var g :| g in v[i] && x in g.run;
          NoOverlapNoSharedKey(f, g, x, y);
        } else if i == level && x in f.run {
          InContents(v, j, y);
        }
      }
    }
  }

  // ----- A compaction -----

  /** The entries of the chosen files. */
  function Inputs(c: Compaction): set<Entry> {
    EntriesOf(c.inputs0) + EntriesOf(c.inputs1)
  }

  /** A file of the output level that was not chosen lies wholly before or wholly after the inputs. */
  lemma UnselectedApart(v: Version, c: Compaction, g: File)
    requires Closed(v, c) && SortedLevel(v[c.level + 1])
    requires g in v[c.level + 1] && g !in c.inputs1
    ensures (forall e | e in Inputs(c) :: Less(g.Largest(), e.ikey))
            || (forall e | e in Inputs(c) :: Less(e.ikey, g.Smallest()))
  {
    InFilesIn(v[c.level + 1], UserRange(c.smallest, c.largest));
    if g.Largest().user < c.smallest.user {
      forall e | e in Inputs(c)
        ensures Less(g.Largest(), e.ikey)
      {
        InputAbove(v[c.level + 1], c, g, e);
      }
    } else {
      forall e | e in Inputs(c)
        ensures Less(e.ikey, g.Smallest())
      {
        InputBelow(v[c.level + 1], c, g, e);
      }
    }
  }

  lemma InputAbove(next: Level, c: Compaction, g: File, e: Entry)
    requires SortedLevel(next) && g in next && IsSmallestOf(c.inputs0, c.smallest)
    requires forall h | h in c.inputs1 :: h in next && Overlaps(h, UserRange(c.smallest, c.largest))
    requires g.Largest().user < c.smallest.user && e in Inputs(c)
    ensures Less(g.Largest(), e.ikey)
  {
    if e in EntriesOf(c.inputs0) {
      var f :| f in c.inputs0 && e in f.run;
      FileRange(f, e);
    } else {
      var h :| h in c.inputs1 && e in h.run;
      FileRange(h, e);
      FileRange(g, g.run[0]);
      SortedSeparated(next, g, h);
    }
  }

  lemma InputBelow(next: Level, c: Compaction, g: File, e: Entry)
    requires SortedLevel(next) && g in next && IsLargestOf(c.inputs0, c.largest)
    requires forall h | h in c.inputs1 :: h in next && Overlaps(h, UserRange(c.smallest, c.largest))
    requires c.largest.user < g.Smallest().user && e in Inputs(c)
    ensures Less(e.ikey, g.Smallest())
  {
    if e in EntriesOf(c.inputs0) {
      var f :| f in c.inputs0 && e in f.run;
      FileRange(f, e);
    } else {
      var h :| h in c.inputs1 && e in h.run;
      FileRange(h, e);
      FileRange(g, g.run[0]);
      SortedSeparated(next, g, h);
    }
  }

  lemma OutputApart(v: Version, c: Compaction, outs: Level, f: File, g: File)
    requires Closed(v, c) && SortedLevel(v[c.level + 1]) && SetOf(Flatten(outs)) <= Inputs(c)
    requires f in outs && g in v[c.level + 1] && g !in c.inputs1
    ensures Separated(f, g) && Separated(g, f)
  {
    UnselectedApart(v, c, g);
    EndsAreInputs(outs, c, f);
  }

  lemma CompactionSeparated(v: Version, c: Compaction, outs: Level, f: File, g: File)
    requires Closed(v, c) && SortedLevel(v[c.level + 1])
    requires Sorted(Flatten(outs)) && SetOf(Flatten(outs)) <= Inputs(c)
    requires (f in v[c.level + 1] && f !in c.inputs1) || f in outs
    requires (g in v[c.level + 1] && g !in c.inputs1) || g in outs
    requires f != g
    ensures Separated(f, g)
  {
    if f in outs && g in outs {
      FlattenSorted(outs);
      SortedSeparated(outs, f, g);
    } else if f in outs {
      OutputApart(v, c, outs, f, g);
    } else if g in outs {
      OutputApart(v, c, outs, g, f);
    } else {
      SortedSeparated(v[c.level + 1], f, g);
    }
  }

  lemma EndsAreInputs(outs: Level, c: Compaction, f: File)
    requires f in outs && SetOf(Flatten(outs)) <= Inputs(c)
    ensures f.run[0] in Inputs(c) && f.run[|f.run|-1] in Inputs(c)
  {
    FlattenMembers(outs);
    InLevel(outs, f, f.run[0]);
    InLevel(outs, f, f.run[|f.run|-1]);
  }

  /** Where the entries of the new version come from. */
  lemma CompactionOrigins(v: Version, c: Compaction, outs: Level, v': Version)
    requires Closed(v, c) && CompactionInstalled(v, c, outs, v')
    requires SetOf(Flatten(outs)) <= Inputs(c)
    ensures forall l | 0 <= l < NUM_LEVELS && l != c.level + 1 :: EntriesOf(v'[l]) <= EntriesOf(v[l])
    ensures EntriesOf(v'[c.level + 1]) <= EntriesOf(v[c.level + 1]) + EntriesOf(c.inputs0)
    ensures EntriesOf(c.inputs0) <= EntriesOf(v[c.level])
    ensures EntriesOf(c.inputs1) <= EntriesOf(v[c.level + 1])
  {
    FlattenMembers(outs);
    InFilesIn(v[c.level + 1], UserRange(c.smallest, c.largest));
    ReplacedOrigins(v[c.level], c.inputs0, [], v'[c.level]);
    ReplacedOrigins(v[c.level + 1], c.inputs1, outs, v'[c.level + 1]);
    SubsetOfLevel(c.inputs0, v[c.level]);
    SubsetOfLevel(c.inputs1, v[c.level + 1]);
  }

  lemma ReplacedOrigins(files: Level, removed: Level, added: Level, files': Level)
    requires Replaced(files, removed, added, files')
    ensures EntriesOf(files') <= EntriesOf(files) + EntriesOf(added)
  {
    forall e | e in EntriesOf(files')
      ensures e in EntriesOf(files) + EntriesOf(added)
    {
      var f :| f in files' && e in f.run;
      if f in added {
        InLevel(added, f, e);
      }
    }
  }

  lemma SubsetOfLevel(part: Level, files: Level)
    requires forall f | f in part :: f in files
    ensures EntriesOf(part) <= EntriesOf(files)
  {
  }

  lemma NewerParts(a: set<Entry>, b: set<Entry>, a': set<Entry>, b': set<Entry>)
    requires Newer(a, b) && a' <= a && b' <= b
    ensures Newer(a', b')
  {
  }

  lemma NewerUnion(a: set<Entry>, b: set<Entry>, c: set<Entry>)
    ensures Newer(a, c) && Newer(b, c) ==> Newer(a + b, c)
    ensures Newer(c, a) && Newer(c, b) ==> Newer(c, a + b)
  {
  }

  lemma CompactionOrdersLevels(v: Version, c: Compaction, outs: Level, v': Version)
    requires LevelsOrdered(v) && Closed(v, c) && CompactionInstalled(v, c, outs, v')
    requires SetOf(Flatten(outs)) <= Inputs(c)
    ensures LevelsOrdered(v')
  {
    CompactionOrigins(v, c, outs, v');
    forall i, j | 0 <= i < j < NUM_LEVELS
      ensures Newer(EntriesOf(v'[i]), EntriesOf(v'[j]))
    {
      CompactionOrdersPair(v, c, v', i, j);
    }
  }

  lemma CompactionOrdersPair(v: Version, c: Compaction, v': Version, i: nat, j: nat)
    requires LevelsOrdered(v) && c.level + 1 < NUM_LEVELS && i < j < NUM_LEVELS
    requires NothingOlderLeft(v[c.level], c.inputs0) && Replaced(v[c.level], c.inputs0, [], v'[c.level])
    requires forall l | 0 <= l < NUM_LEVELS && l != c.level + 1 :: EntriesOf(v'[l]) <= EntriesOf(v[l])
    requires EntriesOf(v'[c.level + 1]) <= EntriesOf(v[c.level + 1]) + EntriesOf(c.inputs0)
    requires EntriesOf(c.inputs0) <= EntriesOf(v[c.level])
    ensures Newer(EntriesOf(v'[i]), EntriesOf(v'[j]))
  {
    var a, b, first := EntriesOf(v[i]), EntriesOf(v[j]), EntriesOf(c.inputs0);
    assert Newer(a, b);
    if i == c.level && j == c.level + 1 {
      LevelLeftIsNewer(v[i], b, c.inputs0, v'[i], EntriesOf(v'[j]));
    } else if i == c.level + 1 {
      NewerParts(EntriesOf(v[c.level]), b, first, b);
      NewerUnion(a, first, b);
      NewerParts(a + first, b, EntriesOf(v'[i]), EntriesOf(v'[j]));
    } else if j == c.level + 1 {
      NewerParts(a, EntriesOf(v[c.level]), a, first);
      NewerUnion(b, first, a);
      NewerParts(a, b + first, EntriesOf(v'[i]), EntriesOf(v'[j]));
    } else {
      NewerParts(a, b, EntriesOf(v'[i]), EntriesOf(v'[j]));
    }
  }

  lemma LevelLeftIsNewer(files: Level, next: set<Entry>, sel: Level, left: Level, below: set<Entry>)
    requires Newer(EntriesOf(files), next) && NothingOlderLeft(files, sel)
    requires forall f | f in left :: f in files && f !in sel
    requires below <= next + EntriesOf(sel)
    ensures Newer(EntriesOf(left), below)
  {
    forall x, y | x in EntriesOf(left) && y in below && x.ikey.user == y.ikey.user
      ensures x.ikey.seqno > y.ikey.seqno
    {
      var f :| f in left && x in f.run;
      if y in next {
        assert x in EntriesOf(files);
      } else {
        assert y in EntriesOf(sel);
        var g :| g in sel && y in g.run;
        assert Newer(SetOf(f.run), SetOf(g.run));
        assert x in SetOf(f.run) && y in SetOf(g.run);
      }
    }
  }

  /** A compaction keeps every version well formed, wherever its outputs are cut. */
  lemma CompactionKeepsValid(v: Version, c: Compaction, outs: Level, v': Version)
    requires Valid(v) && Closed(v, c) && CompactionInstalled(v, c, outs, v')
    requires Sorted(Flatten(outs)) && SetOf(Flatten(outs)) <= Inputs(c)
    ensures Valid(v')
    ensures Contents(v') <= Contents(v)
  {
    CompactionOrdersLevels(v, c, outs, v');
    CompactionSortsLevels(v, c, outs, v');
    CompactionLevelZero(v, c, outs, v');
    CompactionShrinks(v, c, outs, v');
    DistinctSubset(Contents(v), Contents(v'));
  }

  lemma CompactionLevelZero(v: Version, c: Compaction, outs: Level, v': Version)
    requires CompactionInstalled(v, c, outs, v')
    requires DistinctNumbers(v[0]) && NewestByNumber(v[0])
    ensures DistinctNumbers(v'[0]) && NewestByNumber(v'[0])
  {
    if c.level == 0 {
      NumbersStayDistinct(v[0], v'[0]);
      assert forall f | f in v'[0] :: f in v[0];
    }
  }

  lemma CompactionShrinks(v: Version, c: Compaction, outs: Level, v': Version)
    requires Closed(v, c) && CompactionInstalled(v, c, outs, v')
    requires SetOf(Flatten(outs)) <= Inputs(c)
    ensures Contents(v') <= Contents(v)
  {
    CompactionOrigins(v, c, outs, v');
    forall e | e in Contents(v')
      ensures e in Contents(v)
    {
      var l := ContentsLevel(v', e);
      ComesFromVersion(v, c, v', l, e);
    }
  }

  lemma ComesFromVersion(v: Version, c: Compaction, v': Version, l: nat, e: Entry)
    requires c.level + 1 < NUM_LEVELS && l < NUM_LEVELS && e in EntriesOf(v'[l])
    requires l != c.level + 1 ==> EntriesOf(v'[l]) <= EntriesOf(v[l])
    requires EntriesOf(v'[c.level + 1]) <= EntriesOf(v[c.level + 1]) + EntriesOf(c.inputs0)
    requires EntriesOf(c.inputs0) <= EntriesOf(v[c.level])
    ensures e in Contents(v)
  {
    if l == c.level + 1 && e in EntriesOf(c.inputs0) {
      InContents(v, c.level, e);
    } else {
      InContents(v, l, e);
    }
  }

  lemma CompactionSortsLevels(v: Version, c: Compaction, outs: Level, v': Version)
    requires Valid(v) && Closed(v, c) && CompactionInstalled(v, c, outs, v')
    requires Sorted(Flatten(outs)) && SetOf(Flatten(outs)) <= Inputs(c)
    ensures forall l | 1 <= l < NUM_LEVELS :: SortedLevel(v'[l])
  {
    forall f, g | f in v'[c.level + 1] && g in v'[c.level + 1] && f != g
      ensures Separated(f, g)
    {
      CompactionSeparated(v, c, outs, f, g);
    }
    SeparatedIsSorted(v'[c.level + 1]);
    if c.level > 0 {
      forall f, g | f in v'[c.level] && g in v'[c.level] && f != g
        ensures Separated(f, g)
      {
        SortedSeparated(v[c.level], f, g);
      }
      SeparatedIsSorted(v'[c.level]);
    }
  }

  /** The entries of files that were not chosen are not inputs. */
  lemma UnselectedNotInputs(v: Version, c: Compaction, l: nat, f: File, e: Entry)
    requires Valid(v) && Closed(v, c)
    requires l < NUM_LEVELS && f in v[l] && e in f.run
    requires l == c.level ==> f !in c.inputs0
    requires l == c.level + 1 ==> f !in c.inputs1
    ensures e !in Inputs(c)
  {
    InLevel(v[l], f, e);
    if e in EntriesOf(c.inputs0) {
      UnselectedNotFirst(v[c.level], c.inputs0, f, e);
      NotInTwoLevels(v, l, c.level, e);
    }
    if e in EntriesOf(c.inputs1) {
      InFilesIn(v[c.level + 1], UserRange(c.smallest, c.largest));
      assert e in EntriesOf(v[c.level + 1]);
      NotInTwoLevels(v, l, c.level + 1, e);
      UnselectedApart(v, c, f);
      FileRange(f, e);
    }
  }

  lemma UnselectedNotFirst(files: Level, sel: Level, f: File, e: Entry)
    requires NothingOlderLeft(files, sel) && forall g | g in sel :: g in files
    requires e in f.run && e in EntriesOf(sel)
    ensures f in files ==> f in sel
    ensures e in EntriesOf(files)
  {
    var g :| g in sel && e in g.run;
    InLevel(files, g, e);
    var newer := Newer(SetOf(f.run), SetOf(g.run));
    assert e in SetOf(f.run) && e in SetOf(g.run);
  }

  lemma NotInTwoLevels(v: Version, i: nat, j: nat, e: Entry)
    requires LevelsOrdered(v) && i < NUM_LEVELS && j < NUM_LEVELS
    requires e in EntriesOf(v[i]) && e in EntriesOf(v[j])
    ensures i == j
  {
    var above, below := Newer(EntriesOf(v[i]), EntriesOf(v[j])), Newer(EntriesOf(v[j]), EntriesOf(v[i]));
  }

  /** Installing a compaction changes the contents by exactly what the loop dropped. */
  lemma CompactionContents(v: Version, c: Compaction, outs: Level, v': Version)
    requires Valid(v) && Closed(v, c) && CompactionInstalled(v, c, outs, v')
    requires SetOf(Flatten(outs)) <= Inputs(c)
    ensures Contents(v') == (Contents(v) - Inputs(c)) + SetOf(Flatten(outs))
  {
    FlattenMembers(outs);
    forall e
      ensures e in Contents(v') <==> e in (Contents(v) - Inputs(c)) + EntriesOf(outs)
    {
      if e in Contents(v') {
        CompactionContentsForward(v, c, outs, v', e);
      }
      if e in EntriesOf(outs) {
        assert e in EntriesOf(v'[c.level + 1]);
        InContents(v', c.level + 1, e);
      } else if e in Contents(v) - Inputs(c) {
        CompactionContentsBackward(v, c, outs, v', e);
      }
    }
  }

  lemma CompactionContentsForward(v: Version, c: Compaction, outs: Level, v': Version, e: Entry)
    requires Valid(v) && Closed(v, c) && CompactionInstalled(v, c, outs, v')
    requires e in Contents(v')
    ensures e in EntriesOf(outs) || (e in Contents(v) && e !in Inputs(c))
  {
    var l := ContentsLevel(v', e);
    var f :| f in v'[l] && e in f.run;
    if e !in EntriesOf(outs) {
      assert f !in outs;
      StaysInLevel(v, c, outs, v', l, f);
      UnselectedNotInputs(v, c, l, f, e);
      InLevel(v[l], f, e);
      InContents(v, l, e);
    }
  }

  lemma StaysInLevel(v: Version, c: Compaction, outs: Level, v': Version, l: nat, f: File)
    requires CompactionInstalled(v, c, outs, v') && l < NUM_LEVELS
    requires f in v'[l] && f !in outs
    ensures f in v[l]
    ensures l == c.level ==> f !in c.inputs0
    ensures l == c.level + 1 ==> f !in c.inputs1
  {
  }

  lemma CompactionContentsBackward(v: Version, c: Compaction, outs: Level, v': Version, e: Entry)
    requires CompactionInstalled(v, c, outs, v')
    requires e in Contents(v) && e !in Inputs(c)
    ensures e in Contents(v')
  {
    var l := ContentsLevel(v, e);
    var f :| f in v[l] && e in f.run;
    assert f in v'[l] by {
      assert e in EntriesOf(c.inputs0) || f !in c.inputs0;
      assert e in EntriesOf(c.inputs1) || f !in c.inputs1;
    }
    InContents(v', l, e);
  }
}
