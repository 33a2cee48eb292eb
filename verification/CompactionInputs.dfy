/**
 MakeInputIterator: the input files of a compaction as children of a merging
 iterator, one child per file of level 0 and one per deeper level.
 */
module CompactionInputs {
  import opened Wrappers
  import opened Entries
  import opened Versions
  import opened Selection
  import opened Installs
  import opened Preservation
  import opened Mergers
  import opened Recovery

  function RunsOf(files: Level): (runs: seq<seq<Entry>>)
    ensures |runs| == |files| && forall i | 0 <= i < |files| :: runs[i] == files[i].run
  {
    seq(|files|, i requires 0 <= i < |files| => files[i].run)
  }

  /** The children of the input iterator. */
  function InputRuns(c: Compaction): seq<seq<Entry>> {
    (if c.level == 0 then RunsOf(c.inputs0) else [Flatten(c.inputs0)])
    + if c.inputs1 == [] then [] else [Flatten(c.inputs1)]
  }

  lemma {:induction false} SortedLevelFlattens(files: Level)
    requires SortedLevel(files)
    ensures Sorted(Flatten(files))
  {
    if files != [] {
      var n := |files| - 1;
      var front := Flatten(files[..n]);
      SortedLevelFlattens(files[..n]);
      FlattenMembers(files[..n]);
      forall i | 0 <= i < |front|
        ensures Less(front[i].ikey, files[n].run[0].ikey)
      {
        assert front[i] in SetOf(front);
        var f :| f in files[..n] && front[i] in f.run;
        FileRange(f, front[i]);
      }
      assert forall j | 0 < j < |files[n].run| :: Less(files[n].run[0].ikey, files[n].run[j].ikey);
    }
  }

  lemma {:induction false} FilesInOrdered(files: Level, r: Range)
    ensures SortedLevel(files) ==> SortedLevel(FilesIn(files, r))
    ensures DistinctNumbers(files) ==> DistinctNumbers(FilesIn(files, r))
  {
    if files != [] {
      var front := files[..|files|-1];
      FilesInOrdered(front, r);
      InFilesIn(front, r);
      var sel := FilesIn(front, r);
      forall i | 0 <= i < |sel|
        ensures SortedLevel(files) ==> Less(sel[i].Largest(), files[|files|-1].Smallest())
        ensures DistinctNumbers(files) ==> sel[i].number != files[|files|-1].number
      {
        assert sel[i] in sel;
        var k :| 0 <= k < |front| && front[k] == sel[i];
        assert files[k] == sel[i];
      }
    }
  }

  lemma OrderlySelection(files: Level, level: nat, sel: Level)
    requires Orderly(files, level, sel)
    ensures level == 0 && DistinctNumbers(files) ==> DistinctNumbers(sel)
    ensures level > 0 && SortedLevel(files) ==> SortedLevel(sel)
  {
    if level == 0 {
      var r :| sel == FilesIn(files, r);
      FilesInOrdered(files, r);
    }
  }

  lemma InputLevelsNewer(v: Version, c: Compaction, x: Entry, y: Entry)
    requires LevelsOrdered(v) && Closed(v, c)
    requires x in EntriesOf(c.inputs0) && y in EntriesOf(c.inputs1)
    ensures x.ikey != y.ikey
  {
    InFilesIn(v[c.level + 1], UserRange(c.smallest, c.largest));
    assert x in EntriesOf(v[c.level]) && y in EntriesOf(v[c.level + 1]);
    assert Newer(EntriesOf(v[c.level]), EntriesOf(v[c.level + 1]));
  }

  lemma FirstChildrenApart(v: Version, c: Compaction, i: nat, j: nat, x: Entry, y: Entry)
    requires Closed(v, c) && c.level == 0 && NewestByNumber(v[0]) && DistinctNumbers(c.inputs0)
    requires i < j < |c.inputs0| && x in c.inputs0[i].run && y in c.inputs0[j].run
    ensures x.ikey != y.ikey
  {
    var f, g := c.inputs0[i], c.inputs0[j];
    assert f in v[0] && g in v[0];
    assert Newer(SetOf(f.run), SetOf(g.run)) || Newer(SetOf(g.run), SetOf(f.run));
    assert x in SetOf(f.run) && y in SetOf(g.run);
  }

  /** Which input set an entry of a child comes from. */
  lemma ChildEntries(c: Compaction, i: nat, x: Entry)
    requires i < |InputRuns(c)| && x in InputRuns(c)[i]
    ensures var n := if c.level == 0 then |c.inputs0| else 1;
            if i < n then x in EntriesOf(c.inputs0) else x in EntriesOf(c.inputs1)
    ensures c.level == 0 && i < |c.inputs0| ==> x in c.inputs0[i].run
    ensures c.level > 0 && i < 1 ==> x in EntriesOf(c.inputs0)
  {
    FlattenMembers(c.inputs0);
    FlattenMembers(c.inputs1);
    assert x in SetOf(InputRuns(c)[i]);
    if c.level == 0 && i < |c.inputs0| {
      InLevel(c.inputs0, c.inputs0[i], x);
    }
  }

  lemma ChildrenApart(v: Version, c: Compaction)
    requires Valid(v) && Closed(v, c) && Orderly(v[c.level], c.level, c.inputs0)
    ensures KeysApart(InputRuns(c))
  {
    var runs := InputRuns(c);
    OrderlySelection(v[c.level], c.level, c.inputs0);
    forall i, j, x: Entry, y: Entry | 0 <= i < j < |runs| && x in runs[i] && y in runs[j]
      ensures x.ikey != y.ikey
    {
      ChildEntries(c, i, x);
      ChildEntries(c, j, y);
      if c.level == 0 && j < |c.inputs0| {
        FirstChildrenApart(v, c, i, j, x, y);
      } else {
        InputLevelsNewer(v, c, x, y);
      }
    }
  }

  lemma SortedInputsSorted(c: Compaction)
    requires SortedLevel(c.inputs1) && (c.level > 0 ==> SortedLevel(c.inputs0))
    ensures forall i | 0 <= i < |InputRuns(c)| :: Sorted(InputRuns(c)[i])
  {
    SortedLevelFlattens(c.inputs1);
    if c.level > 0 {
      SortedLevelFlattens(c.inputs0);
    }
  }

  lemma ChildrenSorted(v: Version, c: Compaction)
    requires Valid(v) && Closed(v, c) && Orderly(v[c.level], c.level, c.inputs0)
    ensures forall i | 0 <= i < |InputRuns(c)| :: Sorted(InputRuns(c)[i])
  {
    OrderlySelection(v[c.level], c.level, c.inputs0);
    FilesInOrdered(v[c.level + 1], UserRange(c.smallest, c.largest));
    SortedInputsSorted(c);
  }

  lemma ChildrenHold(c: Compaction, e: Entry)
    ensures e in Inputs(c) <==> exists i :: 0 <= i < |InputRuns(c)| && e in InputRuns(c)[i]
  {
    var runs := InputRuns(c);
    FlattenMembers(c.inputs0);
    FlattenMembers(c.inputs1);
    if e in Inputs(c) {
      if e in EntriesOf(c.inputs0) {
        if c.level == 0 {
          var f :| f in c.inputs0 && e in f.run;
          var i :| 0 <= i < |c.inputs0| && c.inputs0[i] == f;
          assert e in runs[i];
        } else {
          assert e in SetOf(Flatten(c.inputs0));
          assert e in runs[0];
        }
      } else {
        assert e in SetOf(Flatten(c.inputs1));
        assert e in runs[|runs|-1];
      }
    }
    if i :| 0 <= i < |runs| && e in runs[i] {
      ChildEntries(c, i, e);
    }
  }

  /** Any finite set of entries with different keys can be listed in order. */
  lemma {:induction false} CanBeSorted(s: set<Entry>) returns (all: seq<Entry>)
    requires forall a, b | a in s && b in s && a.ikey == b.ikey :: a == b
    ensures Sorted(all) && SetOf(all) == s
    decreases s
  {
    if s == {} {
      all := [];
    } else {
      var e :| e in s;
      var rest := CanBeSorted(s - {e});
      assert forall o | o in rest :: o in SetOf(rest);
      all := InsertEntry(rest, e);
      assert s == (s - {e}) + {e};
    }
  }

  lemma InputUnion(v: Version, c: Compaction) returns (all: seq<Entry>)
    requires Valid(v) && Closed(v, c) && Orderly(v[c.level], c.level, c.inputs0)
    ensures IsUnion(InputRuns(c), all) && KeysApart(InputRuns(c)) && Merged(all, c)
  {
    ChildrenApart(v, c);
    ChildrenSorted(v, c);
    InputsDistinct(v, c);
    all := CanBeSorted(Inputs(c));
    forall e
      ensures e in all <==> exists i :: 0 <= i < |InputRuns(c)| && e in InputRuns(c)[i]
    {
      ChildrenHold(c, e);
      assert e in all <==> e in SetOf(all);
    }
  }

  lemma InputsDistinct(v: Version, c: Compaction)
    requires Distinct(Contents(v)) && Closed(v, c)
    ensures Distinct(Inputs(c))
  {
    forall e | e in Inputs(c)
      ensures e in Contents(v)
    {
      InputsInContents(v, c, e);
    }
  }

  /** The merged inputs, as the compaction loop sees them through the input iterator. */
  method MergeInputs(v: Version, c: Compaction) returns (m: seq<Entry>)
    requires Valid(v) && Closed(v, c) && Orderly(v[c.level], c.level, c.inputs0)
    ensures Merged(m, c)
  {
    ghost var all := InputUnion(v, c);
    m := Drain(InputRuns(c), all);
  }

  /** Everything a merging iterator yields from its first entry on. */
  method Drain(runs: seq<seq<Entry>>, ghost all: seq<Entry>) returns (m: seq<Entry>)
    requires IsUnion(runs, all) && KeysApart(runs)
    ensures m == all
  {
    var input := new MergingIterator(runs, all);
    input.SeekToFirst();
    m := [];
    while input.current.Some?
      invariant input.Valid() && input.all == all && m == all[..input.at]
      invariant fresh(input) && fresh(input.positions) && fresh(input.cached)
      decreases |all| - input.at
    {
      var e := input.Entry();
      m := m + [e];
      input.Next();
    }
    assert all[..|all|] == all;
  }
}
