/**
 Table files, versions (seven levels of files) and point lookup: the memtable,
 the immutable memtable, level 0 newest file first, then one binary-searched
 file in each deeper level.
 */
module Versions {
  import opened Comparator
  import opened Entries

  const NUM_LEVELS: nat := 7

  /** A table file: its number, its size in bytes and its sorted entries. */
  datatype FileRep = FileRep(number: nat, size: nat, run: seq<Entry>) {
    function Smallest(): IKey
      requires run != []
    {
      run[0].ikey
    }

    function Largest(): IKey
      requires run != []
    {
      run[|run|-1].ikey
    }
  }

  const ANY_FILE := FileRep(0, 0, [Entry(IKey(0.0, 0, Value), [])])

  type File = f: FileRep | f.run != [] && Sorted(f.run) witness ANY_FILE

  type Level = seq<File>

  type Version = v: seq<Level> | |v| == NUM_LEVELS witness seq(NUM_LEVELS, _ => [])

  function EntriesOf(files: Level): set<Entry> {
    set f, e | f in files && e in f.run :: e
  }

  function Contents(v: seq<Level>): set<Entry> {
    set l, f, e | 0 <= l < |v| && f in v[l] && e in f.run :: e
  }

  lemma InContents(v: seq<Level>, l: int, e: Entry)
    requires 0 <= l < |v| && e in EntriesOf(v[l])
    ensures e in Contents(v)
  {
  }

  lemma ContentsLevel(v: seq<Level>, e: Entry) returns (l: int)
    requires e in Contents(v)
    ensures 0 <= l < |v| && e in EntriesOf(v[l])
  {
    var m, f :| 0 <= m < |v| && f in v[m] && e in f.run;
    l := m;
  }

  // ----- What every installed version satisfies -----

  /** Files in key order, no two of them overlapping. */
  predicate SortedLevel(files: Level) {
    forall i, j | 0 <= i < j < |files| :: Less(files[i].Largest(), files[j].Smallest())
  }

  predicate DistinctNumbers(files: Level) {
    forall i, j | 0 <= i < j < |files| :: files[i].number != files[j].number
  }

  /** Among overlapping files of level 0 the one with the larger number is newer. */
  ghost predicate NewestByNumber(files: Level) {
    forall f, g {:trigger Newer(SetOf(f.run), SetOf(g.run))} | f in files && g in files && f.number > g.number ::
      Newer(SetOf(f.run), SetOf(g.run))
  }

  /** Entries never hop over one another between levels. */
  ghost predicate LevelsOrdered(v: seq<Level>) {
    forall i, j {:trigger Newer(EntriesOf(v[i]), EntriesOf(v[j]))} | 0 <= i < j < |v| ::
      Newer(EntriesOf(v[i]), EntriesOf(v[j]))
  }

  ghost predicate Valid(v: Version) {
    && DistinctNumbers(v[0])
    && NewestByNumber(v[0])
    && (forall l | 1 <= l < NUM_LEVELS :: SortedLevel(v[l]))
    && LevelsOrdered(v)
    && Distinct(Contents(v))
  }

  // ----- Facts about one file -----

  lemma FileRange(f: File, e: Entry)
    requires e in f.run
    ensures !Less(e.ikey, f.Smallest()) && !Less(f.Largest(), e.ikey)
    ensures f.Smallest().user <= e.ikey.user <= f.Largest().user
  {
    var i :| 0 <= i < |f.run| && f.run[i] == e;
    assert i > 0 ==> Less(f.run[0].ikey, f.run[i].ikey);
    assert i < |f.run| - 1 ==> Less(f.run[i].ikey, f.run[|f.run|-1].ikey);
  }

  lemma DistinctSubset(s: set<Entry>, t: set<Entry>)
    requires Distinct(s) && t <= s
    ensures Distinct(t)
  {
  }

  lemma DistinctParts(v: Version, l: int, f: File)
    requires Distinct(Contents(v)) && 0 <= l < NUM_LEVELS
    ensures Distinct(EntriesOf(v[l]))
    ensures f in v[l] ==> DistinctRun(f.run)
  {
    assert EntriesOf(v[l]) <= Contents(v);
    if f in v[l] {
      assert SetOf(f.run) <= EntriesOf(v[l]);
    }
  }

  /** Position of the first entry of a sorted run that is not before target. */
  function SeekIndex(run: seq<Entry>, target: IKey): (i: nat)
    requires Sorted(run)
    ensures IsSeek(run, target, i)
  {
    if run == [] || !Less(run[0].ikey, target) then 0
    else
      assert forall j | 1 <= j < |run| :: run[j] == run[1..][j-1];
      1 + SeekIndex(run[1..], target)
  }

  /** Seek in a sorted run and report the entry found if it has the user key. */
  function GetFromRun(run: seq<Entry>, k: UserKey, snap: SeqNo): (o: Outcome)
    requires Sorted(run)
    ensures DistinctRun(run) ==> o == Lookup(SetOf(run), k, snap)
  {
    var i := SeekIndex(run, SeekKey(k, snap));
    assert DistinctRun(run) ==>
      Lookup(SetOf(run), k, snap) == if i < |run| && run[i].ikey.user == k then OutcomeOf(run[i]) else Miss
    by {
      if DistinctRun(run) {
        SeekFindsLatest(run, k, snap, i);
      }
    }
    if i < |run| && run[i].ikey.user == k then OutcomeOf(run[i]) else Miss
  }

  // ----- Levels 1 to 6 -----

  /** Binary search for the first file whose largest key is not before target. */
  method FindFile(files: Level, target: IKey) returns (right: nat)
    requires SortedLevel(files)
    ensures right <= |files|
    ensures forall j | 0 <= j < right :: Less(files[j].Largest(), target)
    ensures forall j | right <= j < |files| :: !Less(files[j].Largest(), target)
  {
    var left := 0;
    right := |files|;
    while left < right
      invariant 0 <= left <= right <= |files|
      invariant forall j | 0 <= j < left :: Less(files[j].Largest(), target)
      invariant forall j | right <= j < |files| :: !Less(files[j].Largest(), target)
    {
      var mid := (left + right) / 2;
      LargestMonotone(files);
      if Less(files[mid].Largest(), target) {
        left := mid + 1;
      } else {
        right := mid;
      }
    }
  }

  lemma LargestMonotone(files: Level)
    requires SortedLevel(files)
    ensures forall i, j | 0 <= i < j < |files| :: Less(files[i].Largest(), files[j].Largest())
  {
    forall i, j | 0 <= i < j < |files|
      ensures Less(files[i].Largest(), files[j].Largest())
    {
      FileRange(files[j], files[j].run[0]);
    }
  }

  lemma CandidatesFrom(files: Level, k: UserKey, snap: SeqNo, index: nat)
    requires index <= |files|
    requires forall j | 0 <= j < index :: Less(files[j].Largest(), SeekKey(k, snap))
    ensures forall e | Candidate(EntriesOf(files), k, snap, e) :: exists j :: index <= j < |files| && e in files[j].run
  {
    forall e | Candidate(EntriesOf(files), k, snap, e)
      ensures exists j :: index <= j < |files| && e in files[j].run
    {
      var j :| 0 <= j < |files| && e in files[j].run;
      FileRange(files[j], e);
    }
  }

  /** A candidate in the level gives a candidate in the file found by FindFile. */
  lemma CandidateMoves(files: Level, k: UserKey, snap: SeqNo, index: nat, c: Entry) returns (d: Entry)
    requires SortedLevel(files) && index < |files|
    requires !Less(files[index].Largest(), SeekKey(k, snap))
    requires exists j :: index <= j < |files| && c in files[j].run
    requires c.ikey.user == k && c.ikey.seqno <= snap
    ensures Candidate(SetOf(files[index].run), k, snap, d)
  {
    var run := files[index].run;
    var j :| index <= j < |files| && c in files[j].run;
    if j == index {
      d := c;
    } else {
      FileRange(files[j], c);
      d := run[|run|-1];
      assert d.ikey == files[index].Largest();
      assert Less(files[index].Largest(), files[j].Smallest());
    }
  }

  /** In a sorted level only the file found by FindFile can answer. */
  lemma OneFileAnswers(files: Level, k: UserKey, snap: SeqNo, index: nat)
    requires SortedLevel(files) && Distinct(EntriesOf(files)) && index <= |files|
    requires forall j | 0 <= j < index :: Less(files[j].Largest(), SeekKey(k, snap))
    requires index < |files| ==> !Less(files[index].Largest(), SeekKey(k, snap))
    ensures Lookup(EntriesOf(files), k, snap) ==
            if index < |files| then Lookup(SetOf(files[index].run), k, snap) else Miss
  {
    var s := EntriesOf(files);
    CandidatesFrom(files, k, snap, index);
    if c :| Candidate(s, k, snap, c) {
      var t := SetOf(files[index].run);
      assert files[index] in files && t <= s;
      var d := CandidateMoves(files, k, snap, index, c);
      var e := LatestExists(t, k, snap, d);
      LatestBeatsLaterFiles(files, k, snap, index, e);
      LookupLatest(s, k, snap, e);
      DistinctSubset(s, t);
      LookupLatest(t, k, snap, e);
    } else {
      LookupMiss(s, k, snap);
      if index < |files| {
        assert forall e | e in files[index].run :: e in s;
        assert forall e | Candidate(SetOf(files[index].run), k, snap, e) :: Candidate(s, k, snap, e);
        LookupMiss(SetOf(files[index].run), k, snap);
      }
    }
  }

  lemma LatestBeatsLaterFiles(files: Level, k: UserKey, snap: SeqNo, index: nat, e: Entry)
    requires SortedLevel(files) && index < |files|
    requires forall c | Candidate(EntriesOf(files), k, snap, c) :: exists j :: index <= j < |files| && c in files[j].run
    requires IsLatest(SetOf(files[index].run), k, snap, e)
    ensures IsLatest(EntriesOf(files), k, snap, e)
  {
    assert files[index] in files && e in files[index].run;
    forall o | o in EntriesOf(files) && o.ikey.user == k && o.ikey.seqno <= snap
      ensures o.ikey.seqno <= e.ikey.seqno
    {
      assert Candidate(EntriesOf(files), k, snap, o);
      var j :| index <= j < |files| && o in files[j].run;
      if j > index {
        FileRange(files[j], o);
        FileRange(files[index], e);
        assert Less(files[index].Largest(), files[j].Smallest());
      } else {
        assert o in SetOf(files[index].run);
      }
    }
  }

  method SearchSortedLevel(files: Level, k: UserKey, snap: SeqNo) returns (o: Outcome)
    requires SortedLevel(files) && Distinct(EntriesOf(files))
    ensures o == Lookup(EntriesOf(files), k, snap)
  {
    var index := FindFile(files, SeekKey(k, snap));
    OneFileAnswers(files, k, snap, index);
    if index < |files| {
      var f := files[index];
      DistinctFile(files, f);
      if k < f.Smallest().user {
        forall e | e in SetOf(f.run)
          ensures !Candidate(SetOf(f.run), k, snap, e)
        {
          FileRange(f, e);
        }
        LookupMiss(SetOf(f.run), k, snap);
        o := Miss;
      } else {
        o := GetFromRun(f.run, k, snap);
      }
    } else {
      o := Miss;
    }
  }

  // ----- Level 0 -----

  /** Insertion into a list kept in decreasing order of file number. */
  function InsertNewest(f: File, files: Level): (r: Level)
    requires NumbersDecrease(files) && forall g | g in files :: g.number != f.number
    ensures NumbersDecrease(r)
    ensures forall g :: g in r <==> g == f || g in files
  {
    if files == [] || f.number > files[0].number then [f] + files
    else
      var rest := InsertNewest(f, files[1..]);
      assert files == [files[0]] + files[1..];
      assert forall g | g in rest :: g.number < files[0].number;
      [files[0]] + rest
  }

  predicate NumbersDecrease(files: Level) {
    forall i, j | 0 <= i < j < |files| :: files[i].number > files[j].number
  }

  /** The files in decreasing order of number, as std::sort leaves them. */
  function NewestFirst(files: Level): (r: Level)
    requires DistinctNumbers(files)
    ensures NumbersDecrease(r)
    ensures forall g :: g in r <==> g in files
  {
    if files == [] then []
    else
      var rest := NewestFirst(files[1..]);
      assert forall g | g in files[1..] :: g.number != files[0].number;
      assert files == [files[0]] + files[1..];
      InsertNewest(files[0], rest)
  }

  /** The files of level 0 whose user-key range contains k, newest first. */
  method FilesHolding(files: Level, k: UserKey) returns (sorted: Level)
    requires DistinctNumbers(files)
    ensures NumbersDecrease(sorted)
    ensures forall g :: g in sorted <==> g in files && g.Smallest().user <= k <= g.Largest().user
  {
    var tmp: Level := [];
    for i := 0 to |files|
      invariant DistinctNumbers(tmp)
      invariant forall g :: g in tmp <==> g in files[..i] && g.Smallest().user <= k <= g.Largest().user
    {
      var f := files[i];
      assert files[..i+1] == files[..i] + [f];
      assert forall g | g in files[..i] :: g.number != f.number;
      if f.Smallest().user <= k && k <= f.Largest().user {
        tmp := tmp + [f];
      }
    }
    assert files[..|files|] == files;
    sorted := NewestFirst(tmp);
  }

  method SearchLevelZero(files: Level, k: UserKey, snap: SeqNo) returns (o: Outcome)
    requires DistinctNumbers(files) && NewestByNumber(files) && Distinct(EntriesOf(files))
    ensures o == Lookup(EntriesOf(files), k, snap)
  {
    var sorted := FilesHolding(files, k);
    CandidateFiles(files, k, snap, sorted);
    for i := 0 to |sorted|
      invariant forall j | 0 <= j < i :: Lookup(SetOf(sorted[j].run), k, snap) == Miss
    {
      DistinctFile(files, sorted[i]);
      o := GetFromRun(sorted[i].run, k, snap);
      if !o.Miss? {
        NewestHitWins(files, k, snap, sorted, i);
        return;
      }
    }
    o := Miss;
    NoHitAnywhere(files, k, snap, sorted);
  }

  lemma DistinctFile(files: Level, f: File)
    requires Distinct(EntriesOf(files)) && f in files
    ensures DistinctRun(f.run)
  {
    assert SetOf(f.run) <= EntriesOf(files);
    DistinctSubset(EntriesOf(files), SetOf(f.run));
  }

  lemma NoHitAnywhere(files: Level, k: UserKey, snap: SeqNo, sorted: Level)
    requires forall e | Candidate(EntriesOf(files), k, snap, e) :: exists j :: 0 <= j < |sorted| && e in sorted[j].run
    requires forall j | 0 <= j < |sorted| :: Lookup(SetOf(sorted[j].run), k, snap) == Miss
    ensures Lookup(EntriesOf(files), k, snap) == Miss
  {
    if e :| Candidate(EntriesOf(files), k, snap, e) {
      var j :| 0 <= j < |sorted| && e in sorted[j].run;
      LookupMiss(SetOf(sorted[j].run), k, snap);
      assert Candidate(SetOf(sorted[j].run), k, snap, e);
      assert false;
    }
    LookupMiss(EntriesOf(files), k, snap);
  }

  lemma CandidateFiles(files: Level, k: UserKey, snap: SeqNo, sorted: Level)
    requires forall g | g in files && g.Smallest().user <= k <= g.Largest().user :: g in sorted
    ensures forall e | Candidate(EntriesOf(files), k, snap, e) :: exists j :: 0 <= j < |sorted| && e in sorted[j].run
  {
    forall e | Candidate(EntriesOf(files), k, snap, e)
      ensures exists j :: 0 <= j < |sorted| && e in sorted[j].run
    {
      var f :| f in files && e in f.run;
      FileRange(f, e);
      assert f in sorted;
      var j :| 0 <= j < |sorted| && sorted[j] == f;
    }
  }

  lemma NewestHitWins(files: Level, k: UserKey, snap: SeqNo, sorted: Level, i: nat)
    requires NewestByNumber(files) && Distinct(EntriesOf(files))
    requires NumbersDecrease(sorted) && i < |sorted|
    requires forall g | g in sorted :: g in files
    requires forall e | Candidate(EntriesOf(files), k, snap, e) :: exists j :: 0 <= j < |sorted| && e in sorted[j].run
    requires forall j | 0 <= j < i :: Lookup(SetOf(sorted[j].run), k, snap) == Miss
    requires Lookup(SetOf(sorted[i].run), k, snap) != Miss
    ensures Lookup(EntriesOf(files), k, snap) == Lookup(SetOf(sorted[i].run), k, snap)
  {
    var s, t := EntriesOf(files), SetOf(sorted[i].run);
    assert sorted[i] in files && t <= s;
    LookupMiss(t, k, snap);
    var c :| Candidate(t, k, snap, c);
    var e := LatestExists(t, k, snap, c);
    forall o | o in s && o.ikey.user == k && o.ikey.seqno <= snap
      ensures o.ikey.seqno <= e.ikey.seqno
    {
      assert Candidate(s, k, snap, o);
      var j :| 0 <= j < |sorted| && o in sorted[j].run;
      assert Candidate(SetOf(sorted[j].run), k, snap, o);
      LookupMiss(SetOf(sorted[j].run), k, snap);
      assert j >= i;
      if j > i {
        assert sorted[j] in files && Newer(t, SetOf(sorted[j].run));
      }
    }
    assert IsLatest(s, k, snap, e);
    LookupLatest(s, k, snap, e);
    DistinctSubset(s, t);
    LookupLatest(t, k, snap, e);
  }

  // ----- The whole version, and the whole store -----

  /** Contents of the levels before n. */
  function Above(v: Version, n: nat): set<Entry>
    requires n <= NUM_LEVELS
  {
    if n == 0 then {} else Above(v, n - 1) + EntriesOf(v[n-1])
  }

  lemma {:induction false} AboveMembers(v: Version, n: nat)
    requires n <= NUM_LEVELS
    ensures forall e :: e in Above(v, n) <==> exists l :: 0 <= l < n && e in EntriesOf(v[l])
  {
    if n > 0 {
      AboveMembers(v, n - 1);
    }
  }

  lemma AboveIsContents(v: Version)
    ensures Above(v, NUM_LEVELS) == Contents(v)
  {
    AboveMembers(v, NUM_LEVELS);
    forall e
      ensures e in Above(v, NUM_LEVELS) <==> e in Contents(v)
    {
      if e in Contents(v) {
        var l := ContentsLevel(v, e);
      }
      if l :| 0 <= l < NUM_LEVELS && e in EntriesOf(v[l]) {
        InContents(v, l, e);
      }
    }
  }

  lemma AboveSplits(v: Version, n: nat, k: UserKey, snap: SeqNo)
    requires Valid(v) && n < NUM_LEVELS
    ensures Distinct(Above(v, n + 1))
    ensures Lookup(Above(v, n + 1), k, snap) ==
            if Lookup(Above(v, n), k, snap).Miss? then Lookup(EntriesOf(v[n]), k, snap)
                else Lookup(Above(v, n), k, snap)
  {
    AboveMembers(v, n);
    AboveMembers(v, n + 1);
    assert Above(v, n + 1) <= Contents(v) by {
      forall e | e in Above(v, n + 1)
        ensures e in Contents(v)
      {
        var l :| 0 <= l < n + 1 && e in EntriesOf(v[l]);
        InContents(v, l, e);
      }
    }
    DistinctSubset(Contents(v), Above(v, n + 1));
    DistinctSubset(Above(v, n + 1), Above(v, n));
    DistinctSubset(Above(v, n + 1), EntriesOf(v[n]));
    assert Newer(Above(v, n), EntriesOf(v[n])) by {
      forall x, y | x in Above(v, n) && y in EntriesOf(v[n]) && x.ikey.user == y.ikey.user
        ensures x.ikey.seqno > y.ikey.seqno
      {
        var l :| 0 <= l < n && x in EntriesOf(v[l]);
        assert Newer(EntriesOf(v[l]), EntriesOf(v[n]));
      }
    }
    LookupLayered(Above(v, n), EntriesOf(v[n]), k, snap);
  }

  lemma {:induction false} HitStands(v: Version, n: nat, k: UserKey, snap: SeqNo)
    requires Valid(v) && n <= NUM_LEVELS && !Lookup(Above(v, n), k, snap).Miss?
    ensures Lookup(Contents(v), k, snap) == Lookup(Above(v, n), k, snap)
    decreases NUM_LEVELS - n
  {
    if n == NUM_LEVELS {
      AboveIsContents(v);
    } else {
      AboveSplits(v, n, k, snap);
      HitStands(v, n + 1, k, snap);
    }
  }

  /** Version::Get, reporting also whether a deletion was met. */
  method GetFromVersion(v: Version, k: UserKey, snap: SeqNo) returns (o: Outcome)
    requires Valid(v)
    ensures o == Lookup(Contents(v), k, snap)
  {
    LookupMiss(Above(v, 0), k, snap);
    for level := 0 to NUM_LEVELS
      invariant Lookup(Above(v, level), k, snap) == Miss
    {
      DistinctParts(v, level, ANY_FILE);
      if level == 0 {
        o := SearchLevelZero(v[0], k, snap);
      } else {
        o := SearchSortedLevel(v[level], k, snap);
      }
      AboveSplits(v, level, k, snap);
      if !o.Miss? {
        HitStands(v, level + 1, k, snap);
        return;
      }
    }
    o := Miss;
    AboveIsContents(v);
  }

  datatype Memory = Memory(mem: seq<Entry>, imm: seq<Entry>)

  /** Everything the store holds; an absent immutable memtable is an empty run. */
  function Everything(m: Memory, v: Version): set<Entry> {
    SetOf(m.mem) + SetOf(m.imm) + Contents(v)
  }

  ghost predicate ValidStore(m: Memory, v: Version) {
    && Valid(v)
    && Sorted(m.mem) && Sorted(m.imm)
    && Newer(SetOf(m.mem), SetOf(m.imm))
    && Newer(SetOf(m.mem), Contents(v))
    && Newer(SetOf(m.imm), Contents(v))
    && Distinct(Everything(m, v))
  }

  /** DBImpl::Get: the caller learns a value, or that there is none. */
  method Get(m: Memory, v: Version, k: UserKey, snap: SeqNo) returns (o: Outcome)
    requires ValidStore(m, v)
    ensures o == Lookup(Everything(m, v), k, snap).Visible()
  {
    var mem, imm, deep := SetOf(m.mem), SetOf(m.imm), Contents(v);
    DistinctSubset(Everything(m, v), mem);
    DistinctSubset(Everything(m, v), imm);
    LookupLayered(mem, imm, k, snap);
    assert Newer(mem + imm, deep);
    LookupLayered(mem + imm, deep, k, snap);
    o := GetFromRun(m.mem, k, snap);
    if o.Miss? {
      o := GetFromRun(m.imm, k, snap);
      if o.Miss? {
        o := GetFromVersion(v, k, snap);
      }
    }
    o := o.Visible();
  }
}
