/**
 NewInternalIterator: one child for each memtable, one per file of level 0 and one
 per deeper level, merged; and the iterator over live keys on top of it.
 */
module InternalIterators {
  import opened Wrappers
  import opened Comparator
  import opened Entries
  import opened Versions
  import opened Installs
  import opened Mergers
  import opened DbIters
  import opened CompactionInputs

  function LevelRuns(v: Version, from: nat): seq<seq<Entry>>
    decreases NUM_LEVELS - from
  {
    if from >= NUM_LEVELS then []
    else (if v[from] == [] then [] else [Flatten(v[from])]) + LevelRuns(v, from + 1)
  }

  /** The children that AddIterators and NewInternalIterator collect. */
  function InternalRuns(mem: seq<Entry>, imm: Option<seq<Entry>>, v: Version): seq<seq<Entry>> {
    ([mem] + if imm.Some? then [imm.value] else []) + (RunsOf(v[0]) + LevelRuns(v, 1))
  }

  function UnionOf(runs: seq<seq<Entry>>): set<Entry> {
    set i, e | 0 <= i < |runs| && e in runs[i] :: e
  }

  ghost predicate ApartSets(a: set<Entry>, b: set<Entry>) {
    forall x, y | x in a && y in b :: x.ikey != y.ikey
  }

  lemma NewerIsApart(a: set<Entry>, b: set<Entry>)
    requires Newer(a, b)
    ensures ApartSets(a, b)
  {
  }

  lemma UnionOfAppend(a: seq<seq<Entry>>, b: seq<seq<Entry>>)
    ensures UnionOf(a + b) == UnionOf(a) + UnionOf(b)
  {
    forall e
      ensures e in UnionOf(a) + UnionOf(b) ==> e in UnionOf(a + b)
    {
      if i :| 0 <= i < |a| && e in a[i] {
        assert e in (a + b)[i];
      }
      if i :| 0 <= i < |b| && e in b[i] {
        assert e in (a + b)[|a| + i];
      }
    }
  }

  lemma ApartAppend(a: seq<seq<Entry>>, b: seq<seq<Entry>>)
    requires KeysApart(a) && KeysApart(b) && ApartSets(UnionOf(a), UnionOf(b))
    ensures KeysApart(a + b)
  {
    var runs := a + b;
    forall i, j, x: Entry, y: Entry | 0 <= i < j < |runs| && x in runs[i] && y in runs[j]
      ensures x.ikey != y.ikey
    {
      if j < |a| {
        assert x in a[i] && y in a[j];
      } else if i >= |a| {
        assert x in b[i - |a|] && y in b[j - |a|];
      } else {
        assert x in UnionOf(a) && y in UnionOf(b);
      }
    }
  }

  /** The entries of the levels from `from` on. */
  function ContentsFrom(v: Version, from: nat): set<Entry> {
    set l, f, e | from <= l < NUM_LEVELS && f in v[l] && e in f.run :: e
  }

  lemma ContentsSplit(v: Version, from: nat)
    requires from < NUM_LEVELS
    ensures ContentsFrom(v, from) == EntriesOf(v[from]) + ContentsFrom(v, from + 1)
  {
  }

  lemma NewerThanDeeper(v: Version, from: nat)
    requires LevelsOrdered(v) && from < NUM_LEVELS
    ensures ApartSets(EntriesOf(v[from]), ContentsFrom(v, from + 1))
  {
    forall x: Entry, y: Entry | x in EntriesOf(v[from]) && y in ContentsFrom(v, from + 1)
      ensures x.ikey != y.ikey
    {
      var l, f :| from + 1 <= l < NUM_LEVELS && f in v[l] && y in f.run;
      assert y in EntriesOf(v[l]);
      assert Newer(EntriesOf(v[from]), EntriesOf(v[l]));
    }
  }

  lemma OneRun(run: seq<Entry>)
    ensures UnionOf([run]) == SetOf(run) && KeysApart([run])
  {
    assert [run][0] == run;
  }

  lemma {:induction false} LevelRunsOk(v: Version, from: nat)
    requires LevelsOrdered(v) && 1 <= from && forall l | 1 <= l < NUM_LEVELS :: SortedLevel(v[l])
    ensures KeysApart(LevelRuns(v, from)) && UnionOf(LevelRuns(v, from)) == ContentsFrom(v, from)
    ensures forall i | 0 <= i < |LevelRuns(v, from)| :: Sorted(LevelRuns(v, from)[i])
    decreases NUM_LEVELS - from
  {
    if from < NUM_LEVELS {
      LevelRunsOk(v, from + 1);
      ContentsSplit(v, from);
      var rest := LevelRuns(v, from + 1);
      if v[from] == [] {
        assert [] + rest == rest;
      } else {
        LevelRunOk(v, from, rest);
      }
    }
  }

  lemma LevelRunOk(v: Version, from: nat, rest: seq<seq<Entry>>)
    requires LevelsOrdered(v) && from < NUM_LEVELS && SortedLevel(v[from])
    requires KeysApart(rest) && UnionOf(rest) == ContentsFrom(v, from + 1)
    ensures KeysApart([Flatten(v[from])] + rest) && Sorted(Flatten(v[from]))
    ensures UnionOf([Flatten(v[from])] + rest) == EntriesOf(v[from]) + ContentsFrom(v, from + 1)
  {
    SortedLevelFlattens(v[from]);
    FlattenMembers(v[from]);
    OneRun(Flatten(v[from]));
    NewerThanDeeper(v, from);
    UnionOfAppend([Flatten(v[from])], rest);
    ApartAppend([Flatten(v[from])], rest);
  }

  lemma FileRunsOk(files: Level)
    requires NewestByNumber(files) && DistinctNumbers(files)
    ensures KeysApart(RunsOf(files)) && UnionOf(RunsOf(files)) == EntriesOf(files)
  {
    var runs := RunsOf(files);
    forall i, j, x: Entry, y: Entry | 0 <= i < j < |runs| && x in runs[i] && y in runs[j]
      ensures x.ikey != y.ikey
    {
      var f, g := files[i], files[j];
      assert f in files && g in files;
      assert Newer(SetOf(f.run), SetOf(g.run)) || Newer(SetOf(g.run), SetOf(f.run));
    }
    forall e | e in EntriesOf(files)
      ensures e in UnionOf(runs)
    {
      var f :| f in files && e in f.run;
      var i :| 0 <= i < |files| && files[i] == f;
      assert e in runs[i];
    }
  }

  lemma VersionRunsOk(v: Version)
    requires Valid(v)
    ensures var runs := RunsOf(v[0]) + LevelRuns(v, 1);
            KeysApart(runs) && UnionOf(runs) == Contents(v) && forall i | 0 <= i < |runs| :: Sorted(runs[i])
  {
    FileRunsOk(v[0]);
    LevelRunsOk(v, 1);
    NewerThanDeeper(v, 0);
    ContentsSplit(v, 0);
    assert ContentsFrom(v, 0) == Contents(v);
    UnionOfAppend(RunsOf(v[0]), LevelRuns(v, 1));
    ApartAppend(RunsOf(v[0]), LevelRuns(v, 1));
  }

  lemma MemoryRunsOk(mem: seq<Entry>, imm: Option<seq<Entry>>)
    requires imm.Some? ==> Newer(SetOf(mem), SetOf(imm.value))
    ensures var runs := [mem] + if imm.Some? then [imm.value] else [];
            KeysApart(runs) && UnionOf(runs) == SetOf(mem) + if imm.Some? then SetOf(imm.value) else {}
  {
    OneRun(mem);
    if imm.Some? {
      OneRun(imm.value);
      ApartAppend([mem], [imm.value]);
      UnionOfAppend([mem], [imm.value]);
    } else {
      assert [mem] + [] == [mem];
    }
  }

  lemma MemoryApart(m: Memory, v: Version)
    requires ValidStore(m, v)
    ensures ApartSets(SetOf(m.mem) + SetOf(m.imm), Contents(v))
  {
    NewerIsApart(SetOf(m.mem), Contents(v));
    NewerIsApart(SetOf(m.imm), Contents(v));
  }

  function ImmOr(imm: Option<seq<Entry>>): seq<Entry> {
    if imm.Some? then imm.value else []
  }

  /** The children list every entry of the store, each once. */
  lemma InternalRunsOk(mem: seq<Entry>, imm: Option<seq<Entry>>, v: Version)
    requires ValidStore(Memory(mem, ImmOr(imm)), v)
    ensures var runs := InternalRuns(mem, imm, v);
            KeysApart(runs) && UnionOf(runs) == Everything(Memory(mem, ImmOr(imm)), v) && forall i | 0 <= i < |runs| ::
                Sorted(runs[i])
  {
    var front := [mem] + if imm.Some? then [imm.value] else [];
    var back := RunsOf(v[0]) + LevelRuns(v, 1);
    MemoryRunsOk(mem, imm);
    VersionRunsOk(v);
    MemoryApart(Memory(mem, ImmOr(imm)), v);
    UnionOfAppend(front, back);
    ApartAppend(front, back);
  }

  lemma UnionIsListed(runs: seq<seq<Entry>>) returns (all: seq<Entry>)
    requires Distinct(UnionOf(runs)) && forall i | 0 <= i < |runs| :: Sorted(runs[i])
    ensures IsUnion(runs, all) && SetOf(all) == UnionOf(runs)
  {
    all := CanBeSorted(UnionOf(runs));
    forall e
      ensures e in all <==> exists i :: 0 <= i < |runs| && e in runs[i]
    {
      assert e in all <==> e in SetOf(all);
    }
  }

  /** An iterator over everything the store holds, showing the live keys at s. */
  method NewIterator(mem: seq<Entry>, imm: Option<seq<Entry>>, v: Version, s: SeqNo) returns (it: DBIter)
    requires ValidStore(Memory(mem, ImmOr(imm)), v)
    ensures fresh(it) && fresh(it.iter) && fresh(it.iter.positions) && fresh(it.iter.cached)
    ensures it.Valid() && it.sequence == s
    ensures SetOf(it.All()) == Everything(Memory(mem, ImmOr(imm)), v)
  {
    InternalRunsOk(mem, imm, v);
    ghost var all := UnionIsListed(InternalRuns(mem, imm, v));
    var iter := new MergingIterator(InternalRuns(mem, imm, v), all);
    it := new DBIter(iter, s);
  }
}
