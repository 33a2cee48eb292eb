/**
 Version edits and the builder that applies them: a whole history of edits can be
 accumulated and saved once, and saving merges the added files into the base.
 */
module Builders {
  import opened Entries
  import opened Versions
  import opened Selection
  import opened Compactions
  import opened Installs

  type LevelNumber = l: nat | l < NUM_LEVELS

  /** The file changes of a version edit. */
  datatype Edit = Edit(deleted: set<(LevelNumber, nat)>, added: seq<(LevelNumber, File)>)

  function NumbersOf(files: Level): set<nat> {
    set f | f in files :: f.number
  }

  function DeletedAt(e: Edit, l: LevelNumber): set<nat> {
    set d | d in e.deleted && d.0 == l :: d.1
  }

  function AddedAt(added: seq<(LevelNumber, File)>, l: LevelNumber): Level {
    if added == [] then []
    else AddedAt(added[..|added|-1], l) + if added[|added|-1].0 == l then [added[|added|-1].1] else []
  }

  lemma {:induction false} InAddedAt(added: seq<(LevelNumber, File)>, l: LevelNumber)
    ensures forall f :: f in AddedAt(added, l) <==> (l, f) in added
  {
    if added != [] {
      var n := |added| - 1;
      InAddedAt(added[..n], l);
      assert added == added[..n] + [added[n]];
    }
  }

  // ----- The set of added files, ordered as std::set orders it -----

  /** Neither comes before the other: to the set they are equal. */
  predicate SamePlace(f: File, g: File) {
    !FileBefore(f, g) && !FileBefore(g, f)
  }

  lemma SamePlaceMeans(f: File, g: File)
    ensures SamePlace(f, g) <==> f.Smallest() == g.Smallest() && f.number == g.number
  {
    LessIsStrictTotalOrder(f.Smallest(), g.Smallest(), f.Smallest());
  }

  lemma SamePlaceTransitive(f: File, g: File, h: File)
    requires SamePlace(f, g) && SamePlace(g, h)
    ensures SamePlace(f, h)
  {
    SamePlaceMeans(f, g);
    SamePlaceMeans(g, h);
    SamePlaceMeans(f, h);
  }

  /** f is the first file of the list in its place. */
  ghost predicate Placed(files: Level, f: File) {
    exists i :: 0 <= i < |files| && files[i] == f && forall j | 0 <= j < i :: !SamePlace(files[j], f)
  }

  /** Every file of a list has one in its place that is the first there. */
  lemma {:induction false} FirstThere(files: Level, f: File) returns (g: File)
    requires f in files
    ensures Placed(files, g) && SamePlace(g, f)
  {
    var i := 0;
    while !SamePlace(files[i], f)
      invariant 0 <= i < |files| && forall j | 0 <= j < i :: !SamePlace(files[j], f)
      invariant f in files[i..]
      decreases |files| - i
    {
      assert files[i] != f;
      i := i + 1;
    }
    g := files[i];
    forall j | 0 <= j < i
      ensures !SamePlace(files[j], g)
    {
      if SamePlace(files[j], g) {
        SamePlaceTransitive(files[j], g, f);
      }
    }
  }

  /** What is first in a place of two lists is first in the first list, or in the second with its place free. */
  lemma PlacedInBoth(a: Level, b: Level, f: File)
    ensures Placed(a + b, f) <==> Placed(a, f) || (Placed(b, f) && forall g | g in a :: !SamePlace(g, f))
  {
    if i :| 0 <= i < |a + b| && (a + b)[i] == f && forall j | 0 <= j < i :: !SamePlace((a + b)[j], f) {
      if i < |a| {
        assert forall j | 0 <= j < i :: a[j] == (a + b)[j];
        assert a[i] == f;
      } else {
        assert b[i-|a|] == f;
        assert forall j | 0 <= j < |a| :: a[j] == (a + b)[j];
        assert forall j | 0 <= j < i - |a| :: b[j] == (a + b)[|a| + j];
      }
    }
    if i :| 0 <= i < |a| && a[i] == f && forall j | 0 <= j < i :: !SamePlace(a[j], f) {
      assert (a + b)[i] == f;
      assert forall j | 0 <= j < i :: a[j] == (a + b)[j];
    }
    if Placed(b, f) && forall g | g in a :: !SamePlace(g, f) {
      var i :| 0 <= i < |b| && b[i] == f && forall j | 0 <= j < i :: !SamePlace(b[j], f);
      PlacedAfter(a, b, f, i);
    }
  }

  lemma PlacedAfter(a: Level, b: Level, f: File, i: nat)
    requires i < |b| && b[i] == f && (forall j | 0 <= j < i :: !SamePlace(b[j], f))
    requires forall g | g in a :: !SamePlace(g, f)
    ensures Placed(a + b, f)
  {
    var n := |a| + i;
    assert (a + b)[n] == f;
    forall j | 0 <= j < n
      ensures !SamePlace((a + b)[j], f)
    {
      if j < |a| {
        assert (a + b)[j] in a;
      } else {
        assert (a + b)[j] == b[j-|a|];
      }
    }
  }

  /** With a number for each file, every file is the first in its place. */
  lemma AllPlaced(files: Level)
    requires NumbersName(files)
    ensures forall f :: Placed(files, f) <==> f in files
  {
    forall f | f in files
      ensures Placed(files, f)
    {
      var g := FirstThere(files, f);
      SamePlaceMeans(g, f);
    }
  }

  /** Insertion into an ordered list; a file in the same place is kept. */
  function InsertFile(files: Level, f: File): (r: Level)
    requires Ordered(files)
    ensures Ordered(r)
    ensures forall g :: g in r ==> g == f || g in files
    ensures forall g :: g in files ==> g in r
    ensures (forall g | g in files :: !SamePlace(g, f)) ==> f in r
    ensures (exists g :: g in files && SamePlace(g, f)) ==> r == files
  {
    if files == [] || FileBefore(f, files[0]) then
      var r := [f] + files;
      assert forall j | 1 <= j < |r| :: r[j] == files[j-1];
      r
    else if SamePlace(f, files[0]) then
      assert files[0] in files;
      files
    else
      var rest := InsertFile(files[1..], f);
      assert files == [files[0]] + files[1..];
      assert forall g | g in files[1..] :: FileBefore(files[0], g);
      assert forall g | g in rest :: FileBefore(files[0], g);
      [files[0]] + rest
  }

  /** In order, but possibly with more than one file in a place. */
  predicate InOrder(files: Level) {
    forall i, j | 0 <= i < j < |files| :: !FileBefore(files[j], files[i])
  }

  lemma OrderedInOrder(files: Level)
    requires Ordered(files)
    ensures InOrder(files)
  {
  }

  /** Position of the first file that comes after f. */
  function UpperBound(files: Level, f: File): (i: nat)
    requires InOrder(files)
    ensures i <= |files|
    ensures forall j | 0 <= j < i :: !FileBefore(f, files[j])
    ensures forall j | i <= j < |files| :: FileBefore(f, files[j])
  {
    if files == [] then 0
    else if FileBefore(f, files[|files|-1]) then
      var i := UpperBound(files[..|files|-1], f);
      assert forall j | i <= j < |files| - 1 :: files[..|files|-1][j] == files[j];
      i
    else
      assert forall j | 0 <= j < |files| - 1 :: FileBefore(f, files[j]) ==> FileBefore(f, files[|files|-1]) by {
        NotBeforeLast(files, f);
      }
      |files|
  }

  lemma NotBeforeLast(files: Level, f: File)
    requires InOrder(files) && files != []
    ensures forall j | 0 <= j < |files| - 1 :: FileBefore(f, files[j]) ==> FileBefore(f, files[|files|-1])
  {
    var n := |files| - 1;
    forall j | 0 <= j < n && FileBefore(f, files[j])
      ensures FileBefore(f, files[n])
    {
      assert !FileBefore(files[n], files[j]);
      BeforeNotAfter(f, files[j], files[n]);
    }
  }

  lemma BeforeNotAfter(f: File, g: File, h: File)
    requires FileBefore(f, g) && !FileBefore(h, g)
    ensures FileBefore(f, h)
  {
    LessIsStrictTotalOrder(g.Smallest(), h.Smallest(), g.Smallest());
  }

  // ----- The builder -----

  datatype LevelState = LevelState(deleted: set<nat>, added: Level)

  /** The files of the base and the added files, less the deleted numbers. */
  predicate Survives(base: Level, s: LevelState, f: File) {
    (f in base || f in s.added) && f.number !in s.deleted
  }

  function ApplyAdd(s: LevelState, f: File): (r: LevelState)
    requires Ordered(s.added)
    ensures Ordered(r.added)
  {
    LevelState(s.deleted - {f.number}, InsertFile(s.added, f))
  }

  function ApplyAdds(s: LevelState, files: Level): (r: LevelState)
    requires Ordered(s.added)
    ensures Ordered(r.added)
  {
    if files == [] then s else ApplyAdd(ApplyAdds(s, files[..|files|-1]), files[|files|-1])
  }

  function AfterDeletions(s: LevelState, e: Edit, l: LevelNumber): LevelState {
    s.(deleted := s.deleted + DeletedAt(e, l))
  }

  /** What one edit does to the state of one level: deletions first, then additions. */
  function ApplyLevel(s: LevelState, e: Edit, l: LevelNumber): (r: LevelState)
    requires Ordered(s.added)
    ensures Ordered(r.added)
  {
    ApplyAdds(AfterDeletions(s, e, l), AddedAt(e.added, l))
  }

  lemma {:induction false} AddsDeleted(s: LevelState, files: Level)
    requires Ordered(s.added)
    ensures ApplyAdds(s, files).deleted == s.deleted - NumbersOf(files)
  {
    if files != [] {
      var n := |files| - 1;
      AddsDeleted(s, files[..n]);
      NumbersOfLast(files);
    }
  }

  lemma NumbersOfLast(files: Level)
    requires files != []
    ensures NumbersOf(files) == NumbersOf(files[..|files|-1]) + {files[|files|-1].number}
  {
    var n := |files| - 1;
    assert files == files[..n] + [files[n]];
    forall m
      ensures m in NumbersOf(files) <==> m in NumbersOf(files[..n]) || m == files[n].number
    {
    }
  }

  /** Every number names one file of the list. */
  ghost predicate NumbersName(files: Level) {
    forall f, g | f in files && g in files && f.number == g.number :: f == g
  }

  /** A file is added exactly if no file added before it has its place. */
  lemma {:induction false} AddsMembers(s: LevelState, files: Level)
    requires Ordered(s.added)
    ensures forall f :: f in ApplyAdds(s, files).added <==>
            f in s.added || (Placed(files, f) && forall g | g in s.added :: !SamePlace(g, f))
  {
    if files != [] {
      var n := |files| - 1;
      assert files == files[..n] + [files[n]];
      AddsMembers(s, files[..n]);
      forall f
        ensures f in ApplyAdds(s, files).added <==>
                f in s.added || (Placed(files, f) && forall g | g in s.added :: !SamePlace(g, f))
      {
        PlacedInBoth(files[..n], [files[n]], f);
        PlacedAlone(files[n], f);
        OneMoreAdded(s, files[..n], files[n], f);
      }
    } else {
      assert forall f :: !Placed(files, f);
    }
  }

  lemma PlacedAlone(g: File, f: File)
    ensures Placed([g], f) <==> f == g
  {
    assert [g][0] == g;
  }

  lemma OneMoreAdded(s: LevelState, front: Level, last: File, f: File)
    requires Ordered(s.added)
    requires forall g :: g in ApplyAdds(s, front).added <==>
             g in s.added || (Placed(front, g) && forall h | h in s.added :: !SamePlace(h, g))
    ensures f in InsertFile(ApplyAdds(s, front).added, last) <==>
            || f in s.added
            || ((Placed(front, f) || (f == last && forall g | g in front :: !SamePlace(g, f)))
                && forall g | g in s.added :: !SamePlace(g, f))
  {
    var before := ApplyAdds(s, front).added;
    if g :| g in before && SamePlace(g, last) {
      PlaceTaken(s, front, last, before, g);
    } else {
      PlaceFree(s, front, last, before);
    }
  }

  lemma PlaceTaken(s: LevelState, front: Level, last: File, before: Level, g: File)
    requires g in before && SamePlace(g, last)
    requires forall h :: h in before ==> h in s.added || Placed(front, h)
    ensures (exists h :: h in s.added && SamePlace(h, last)) || exists h :: h in front && SamePlace(h, last)
  {
    assert g in s.added || g in front;
  }

  lemma PlaceFree(s: LevelState, front: Level, last: File, before: Level)
    requires forall g | g in before :: !SamePlace(g, last)
    requires forall h :: h in before <==>
             h in s.added || (Placed(front, h) && forall g | g in s.added :: !SamePlace(g, h))
    ensures forall g | g in s.added :: !SamePlace(g, last)
    ensures forall g | g in front :: !SamePlace(g, last)
  {
    forall g | g in front
      ensures !SamePlace(g, last)
    {
      if SamePlace(g, last) {
        var h := FirstThere(front, g);
        SamePlaceTransitive(h, g, last);
        if k :| k in s.added && SamePlace(k, h) {
          SamePlaceTransitive(k, h, last);
        }
      }
    }
  }

  class Builder {
    const base: Version
    var levels: seq<LevelState>

    ghost predicate Ok()
      reads this
    {
      && |levels| == NUM_LEVELS
      && forall l | 0 <= l < NUM_LEVELS :: Ordered(levels[l].added)
    }

    constructor (base: Version)
      ensures Ok() && this.base == base
      ensures forall l | 0 <= l < NUM_LEVELS :: levels[l] == LevelState({}, [])
    {
      this.base := base;
      levels := seq(NUM_LEVELS, _ => LevelState({}, []));
    }

    method Apply(e: Edit)
      requires Ok()
      modifies this
      ensures Ok()
      ensures forall l: LevelNumber :: levels[l] == ApplyLevel(old(levels[l]), e, l)
    {
      var start := levels;
      levels := seq(NUM_LEVELS, l requires 0 <= l < NUM_LEVELS => AfterDeletions(start[l], e, l));
      for i := 0 to |e.added|
        invariant |levels| == NUM_LEVELS
        invariant forall l: LevelNumber ::
                  levels[l] == ApplyAdds(AfterDeletions(start[l], e, l), AddedAt(e.added[..i], l))
      {
        var (level, f) := e.added[i];
        ApplyAddsStep(start, e, i);
        levels := levels[level := ApplyAdd(levels[level], f)];
      }
      assert e.added[..|e.added|] == e.added;
    }

    /** Saves the current state: per level, the survivors in order. */
    method SaveTo() returns (v: Version)
      requires Ok()
      requires forall l | 0 <= l < NUM_LEVELS :: InOrder(base[l])
      ensures forall l | 0 <= l < NUM_LEVELS :: IsSaved(base[l], levels[l], v[l])
    {
      var saved: seq<Level> := [];
      for level := 0 to NUM_LEVELS
        invariant |saved| == level
        invariant forall l | 0 <= l < level :: IsSaved(base[l], levels[l], saved[l])
      {
        var files := SaveLevel(base[level], levels[level]);
        saved := saved + [files];
      }
      v := saved;
    }
  }

  lemma ApplyAddsStep(start: seq<LevelState>, e: Edit, i: nat)
    requires |start| == NUM_LEVELS && forall l | 0 <= l < NUM_LEVELS :: Ordered(start[l].added)
    requires i < |e.added|
    ensures forall l: LevelNumber ::
      ApplyAdds(AfterDeletions(start[l], e, l), AddedAt(e.added[..i+1], l)) ==
      if l == e.added[i].0
      then ApplyAdd(ApplyAdds(AfterDeletions(start[l], e, l), AddedAt(e.added[..i], l)), e.added[i].1)
      else ApplyAdds(AfterDeletions(start[l], e, l), AddedAt(e.added[..i], l))
  {
    assert e.added[..i+1][..i] == e.added[..i];
    forall l: LevelNumber
      ensures ApplyAdds(AfterDeletions(start[l], e, l), AddedAt(e.added[..i+1], l)) ==
        if l == e.added[i].0
        then ApplyAdd(ApplyAdds(AfterDeletions(start[l], e, l), AddedAt(e.added[..i], l)), e.added[i].1)
        else ApplyAdds(AfterDeletions(start[l], e, l), AddedAt(e.added[..i], l))
    {
      var files := AddedAt(e.added[..i], l);
      if l == e.added[i].0 {
        assert AddedAt(e.added[..i+1], l) == files + [e.added[i].1];
        assert (files + [e.added[i].1])[..|files|] == files;
      } else {
        assert AddedAt(e.added[..i+1], l) == files + [];
        assert files + [] == files;
      }
    }
  }

  /** How often the survivors list a file: once for the base and once for the added files. */
  function Survivals(base: Level, s: LevelState, f: File): nat {
    if f.number in s.deleted then 0 else multiset(base)[f] + multiset(s.added)[f]
  }

  /** files lists the survivors in order. */
  ghost predicate IsSaved(base: Level, s: LevelState, files: Level) {
    && InOrder(files)
    && forall f :: multiset(files)[f] == Survivals(base, s, f)
  }

  lemma SavedMembers(base: Level, s: LevelState, files: Level)
    requires IsSaved(base, s, files)
    ensures forall f :: f in files <==> Survives(base, s, f)
  {
    forall f
      ensures f in files <==> Survives(base, s, f)
    {
      assert multiset(files)[f] == Survivals(base, s, f);
      assert f in files <==> f in multiset(files);
      assert f in base <==> f in multiset(base);
      assert f in s.added <==> f in multiset(s.added);
    }
  }

  // ----- When no place is listed twice -----

  /** A surviving base file and an added file never have the same smallest key and number. */
  predicate NoClash(base: Level, s: LevelState) {
    forall f, g | f in base && g in s.added && f.number !in s.deleted :: !SamePlace(f, g)
  }

  lemma {:induction false} OrderedListsOnce(files: Level, f: File)
    requires Ordered(files)
    ensures multiset(files)[f] <= 1
  {
    if files != [] {
      var n := |files| - 1;
      OrderedListsOnce(files[..n], f);
      assert files == files[..n] + [files[n]];
      forall i | 0 <= i < n
        ensures files[i] != files[n]
      {
        assert FileBefore(files[i], files[n]);
      }
      assert multiset(files) == multiset(files[..n]) + multiset{files[n]};
      assert f !in files[..n] ==> multiset(files[..n])[f] == 0;
    }
  }

  lemma ListedTwice(files: Level, i: nat, j: nat)
    requires i < j < |files| && files[i] == files[j]
    ensures multiset(files)[files[i]] >= 2
  {
    assert files == files[..j] + files[j..];
    assert files[..j][i] == files[i] && files[j..][0] == files[i];
    assert files[i] in multiset(files[..j]) && files[i] in multiset(files[j..]);
    assert multiset(files) == multiset(files[..j]) + multiset(files[j..]);
  }

  lemma OnePerPlace(files: Level, f: File, g: File)
    requires Ordered(files) && f in files && g in files && SamePlace(f, g)
    ensures f == g
  {
    var i :| 0 <= i < |files| && files[i] == f;
    var j :| 0 <= j < |files| && files[j] == g;
  }

  /** The saved files have a place each exactly if no surviving base file and added file share one. */
  lemma SavedOrderedIff(base: Level, s: LevelState, files: Level)
    requires Ordered(base) && Ordered(s.added) && IsSaved(base, s, files)
    ensures Ordered(files) <==> NoClash(base, s)
  {
    SavedMembers(base, s, files);
    if Ordered(files) {
      forall f, g | f in base && g in s.added && f.number !in s.deleted
        ensures !SamePlace(f, g)
      {
        if SamePlace(f, g) {
          SamePlaceMeans(f, g);
          OnePerPlace(files, f, g);
          OrderedListsOnce(files, f);
          SavedTwiceIff(base, s, files, f);
        }
      }
    }
    if NoClash(base, s) {
      forall i, j | 0 <= i < j < |files|
        ensures FileBefore(files[i], files[j])
      {
        assert !FileBefore(files[j], files[i]);
        if SamePlace(files[i], files[j]) {
          NoneTwice(base, s, files, i, j);
        }
      }
    }
  }

  lemma NoneTwice(base: Level, s: LevelState, files: Level, i: nat, j: nat)
    requires Ordered(base) && Ordered(s.added) && IsSaved(base, s, files) && NoClash(base, s) && i < j < |files|
    ensures !SamePlace(files[i], files[j])
  {
    var f, g := files[i], files[j];
    SavedMembers(base, s, files);
    assert f in files && g in files;
    if SamePlace(f, g) {
      if f in base && g in base {
        OnePerPlace(base, f, g);
      } else if f in s.added && g in s.added {
        OnePerPlace(s.added, f, g);
      }
      ListedTwice(files, i, j);
      SavedTwiceIff(base, s, files, f);
    }
  }

  lemma SavedTwiceIff(base: Level, s: LevelState, files: Level, f: File)
    requires Ordered(base) && Ordered(s.added) && IsSaved(base, s, files)
    ensures multiset(files)[f] >= 2 <==> f in base && f in s.added && f.number !in s.deleted
  {
    OrderedListsOnce(base, f);
    OrderedListsOnce(s.added, f);
    assert multiset(files)[f] == Survivals(base, s, f);
    assert f in base <==> f in multiset(base);
    assert f in s.added <==> f in multiset(s.added);
  }

  // ----- Saving one level -----

  /** Nothing in list from position i on comes before a file of files. */
  predicate Precedes(files: Level, list: Level, i: nat) {
    forall f, m | f in files && i <= m < |list| :: !FileBefore(list[m], f)
  }

  /** The first i base files and the first k added ones have been merged into files. */
  ghost predicate Progress(base: Level, s: LevelState, i: nat, k: nat, files: Level) {
    && i <= |base| && k <= |s.added|
    && InOrder(files)
    && Precedes(files, base, i) && Precedes(files, s.added, k)
    && forall f :: multiset(files)[f] == Survivals(base[..i], s.(added := s.added[..k]), f)
  }

  function MaybeAddFile(s: LevelState, files: Level, f: File): Level {
    if f.number in s.deleted then files else files + [f]
  }

  lemma BeforeTransitive(f: File, g: File, h: File)
    requires FileBefore(f, g) && FileBefore(g, h)
    ensures FileBefore(f, h)
  {
  }

  lemma AppendPrecedes(files: Level, f: File, list: Level, i: nat)
    requires Precedes(files, list, i)
    requires forall m | i <= m < |list| :: !FileBefore(list[m], f)
    ensures Precedes(files + [f], list, i)
  {
  }

  /** Taking the next file of list, which none of the files already taken comes after. */
  lemma TakeNext(s: LevelState, files: Level, list: Level, i: nat)
    requires InOrder(files) && InOrder(list) && Precedes(files, list, i) && i < |list|
    ensures InOrder(MaybeAddFile(s, files, list[i])) && Precedes(MaybeAddFile(s, files, list[i]), list, i + 1)
    ensures forall g :: multiset(MaybeAddFile(s, files, list[i]))[g] ==
              multiset(files)[g] + if g == list[i] && g.number !in s.deleted then 1 else 0
    ensures forall g :: multiset(list[..i+1])[g] == multiset(list[..i])[g] + if g == list[i] then 1 else 0
  {
    var f := list[i];
    assert list[..i+1] == list[..i] + [f];
    if f.number !in s.deleted {
      AppendPrecedes(files, f, list, i + 1);
      assert forall j | 0 <= j < |files| :: files[j] in files;
    }
  }

  lemma TakeBase(base: Level, s: LevelState, i: nat, k: nat, files: Level)
    requires InOrder(base) && Ordered(s.added)
    requires Progress(base, s, i, k, files) && i < |base|
    requires k < |s.added| ==> !FileBefore(s.added[k], base[i])
    ensures Progress(base, s, i + 1, k, MaybeAddFile(s, files, base[i]))
  {
    var f := base[i];
    TakeNext(s, files, base, i);
    if f.number !in s.deleted {
      forall m | k <= m < |s.added|
        ensures !FileBefore(s.added[m], f)
      {
        if m > k && FileBefore(s.added[m], f) {
          BeforeTransitive(s.added[k], s.added[m], f);
        }
      }
      AppendPrecedes(files, f, s.added, k);
    }
  }

  lemma TakeAdded(base: Level, s: LevelState, i: nat, k: nat, files: Level)
    requires InOrder(base) && Ordered(s.added)
    requires Progress(base, s, i, k, files) && k < |s.added|
    requires forall m | i <= m < |base| :: FileBefore(s.added[k], base[m])
    ensures Progress(base, s, i, k + 1, MaybeAddFile(s, files, s.added[k]))
  {
    var f := s.added[k];
    OrderedInOrder(s.added);
    TakeNext(s, files, s.added, k);
    if f.number !in s.deleted {
      AppendPrecedes(files, f, base, i);
    }
  }

  /** Merges the added files of one level into its base files, skipping deleted ones. */
  method SaveLevel(base: Level, s: LevelState) returns (files: Level)
    requires InOrder(base) && Ordered(s.added)
    ensures IsSaved(base, s, files)
  {
    files := [];
    var i := 0;
    NoneTaken(base, s);
    for k := 0 to |s.added|
      invariant Progress(base, s, i, k, files)
    {
      var bpos := UpperBound(base, s.added[k]);
      while i < bpos
        invariant Progress(base, s, i, k, files)
      {
        TakeBase(base, s, i, k, files);
        files := MaybeAddFile(s, files, base[i]);
        i := i + 1;
      }
      TakeAdded(base, s, i, k, files);
      files := MaybeAddFile(s, files, s.added[k]);
    }
    while i < |base|
      invariant Progress(base, s, i, |s.added|, files)
    {
      TakeBase(base, s, i, |s.added|, files);
      files := MaybeAddFile(s, files, base[i]);
      i := i + 1;
    }
    AllTaken(base, s, i, files);
  }

  lemma AllTaken(base: Level, s: LevelState, i: nat, files: Level)
    requires Progress(base, s, i, |s.added|, files) && i >= |base|
    ensures IsSaved(base, s, files)
  {
    assert base[..i] == base && s.added[..|s.added|] == s.added;
    assert s.(added := s.added[..|s.added|]) == s;
  }

  lemma NoneTaken(base: Level, s: LevelState)
    ensures Progress(base, s, 0, 0, [])
  {
  }
}
