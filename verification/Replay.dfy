/**
 Replaying a manifest: one builder that accumulates a whole history of edits and
 saves once selects the same files as a builder per edit, after every edit of the
 history, exactly if no edit revives a deleted file and none adds a file whose place
 another one has taken; and a snapshot edit rebuilds the version it was taken of.
 */
module Replay {
  import opened Entries
  import opened Versions
  import opened Selection
  import opened Installs
  import opened Builders

  const EMPTY_VERSION: Version := [[], [], [], [], [], [], []]

  const FRESH_STATE := LevelState({}, [])

  // ----- The simple reading of a history: edit by edit -----

  /**
   f is in level l after the edits, each applied to the version before it.  Of the files that
   one edit adds in the same place only the first counts.
   */
  ghost predicate HasAfter(base: Level, edits: seq<Edit>, l: LevelNumber, f: File) {
    if edits == [] then f in base
    else
      var e := edits[|edits|-1];
      (HasAfter(base, edits[..|edits|-1], l, f) || Placed(AddedAt(e.added, l), f)) && !Deletes(e, l, f)
  }

  /** The edit deletes the number of f and does not add it again. */
  predicate Deletes(e: Edit, l: LevelNumber, f: File) {
    f.number in DeletedAt(e, l) - NumbersOf(AddedAt(e.added, l))
  }

  /** v lists, level by level and in order, the files there after the edits. */
  ghost predicate IsVersionAfter(base: Version, edits: seq<Edit>, v: Version) {
    forall l: LevelNumber :: Ordered(v[l]) && forall f :: f in v[l] <==> HasAfter(base[l], edits, l, f)
  }

  lemma VersionAfterUnique(base: Version, edits: seq<Edit>, v: Version, w: Version)
    requires IsVersionAfter(base, edits, v) && IsVersionAfter(base, edits, w)
    ensures v == w
  {
    forall l: LevelNumber
      ensures v[l] == w[l]
    {
      OrderedUnique(v[l], w[l]);
    }
  }

  // ----- Histories in which no number comes back -----

  function AddedSoFar(edits: seq<Edit>, l: LevelNumber): Level {
    if edits == [] then [] else AddedSoFar(edits[..|edits|-1], l) + AddedAt(edits[|edits|-1].added, l)
  }

  /** The added files have numbers of their own. */
  ghost predicate FreshAt(base: Level, prior: Level, added: Level) {
    && (forall f, g | (f in base || f in prior) && g in added :: f.number != g.number)
    && NumbersName(added)
  }

  ghost predicate FreshHistory(base: Version, edits: seq<Edit>) {
    edits != [] ==>
      && FreshHistory(base, edits[..|edits|-1])
      && forall l: LevelNumber ::
           FreshAt(base[l], AddedSoFar(edits[..|edits|-1], l), AddedAt(edits[|edits|-1].added, l))
  }

  lemma {:induction false} HasAfterOrigin(base: Level, edits: seq<Edit>, l: LevelNumber, f: File)
    requires HasAfter(base, edits, l, f)
    ensures f in base || f in AddedSoFar(edits, l)
  {
    if edits != [] && f !in AddedAt(edits[|edits|-1].added, l) {
      HasAfterOrigin(base, edits[..|edits|-1], l, f);
    }
  }

  // ----- One builder for the whole history -----

  function ApplyAll(edits: seq<Edit>, l: LevelNumber): (s: LevelState)
    ensures Ordered(s.added)
  {
    if edits == [] then FRESH_STATE else ApplyLevel(ApplyAll(edits[..|edits|-1], l), edits[|edits|-1], l)
  }

  /** The numbers that were deleted and not added since. */
  function DeletedSoFar(edits: seq<Edit>, l: LevelNumber): set<nat> {
    if edits == [] then {}
    else
      var e := edits[|edits|-1];
      (DeletedSoFar(edits[..|edits|-1], l) + DeletedAt(e, l)) - NumbersOf(AddedAt(e.added, l))
  }

  /** One edit on one level, given what the level's builder state held before. */
  lemma ApplyLevelMembers(s: LevelState, e: Edit, l: LevelNumber)
    requires Ordered(s.added)
    ensures ApplyLevel(s, e, l).deleted == (s.deleted + DeletedAt(e, l)) - NumbersOf(AddedAt(e.added, l))
    ensures forall f :: f in ApplyLevel(s, e, l).added <==>
            f in s.added || (Placed(AddedAt(e.added, l), f) && forall g | g in s.added :: !SamePlace(g, f))
  {
    AddsDeleted(AfterDeletions(s, e, l), AddedAt(e.added, l));
    AddsMembers(AfterDeletions(s, e, l), AddedAt(e.added, l));
  }

  /** The builder holds the first file added in each place. */
  lemma {:induction false} AccumulatedMembers(edits: seq<Edit>, l: LevelNumber)
    ensures ApplyAll(edits, l).deleted == DeletedSoFar(edits, l)
    ensures forall f :: f in ApplyAll(edits, l).added <==> Placed(AddedSoFar(edits, l), f)
  {
    if edits != [] {
      var front, e := edits[..|edits|-1], edits[|edits|-1];
      AccumulatedMembers(front, l);
      ApplyLevelMembers(ApplyAll(front, l), e, l);
      forall f
        ensures f in ApplyAll(edits, l).added <==> Placed(AddedSoFar(edits, l), f)
      {
        PlacedInBoth(AddedSoFar(front, l), AddedAt(e.added, l), f);
        SamePlacesFree(AddedSoFar(front, l), ApplyAll(front, l).added, f);
      }
    } else {
      assert forall f :: !Placed(AddedSoFar(edits, l), f);
    }
  }

  lemma SamePlacesFree(files: Level, placed: Level, f: File)
    requires forall g :: g in placed <==> Placed(files, g)
    ensures (forall g | g in placed :: !SamePlace(g, f)) <==> forall g | g in files :: !SamePlace(g, f)
  {
    if g :| g in files && SamePlace(g, f) {
      var h := FirstThere(files, g);
      SamePlaceTransitive(h, g, f);
    }
  }

  // ----- When accumulating agrees with going edit by edit -----

  /** A file that is not there, was once, and whose number this edit adds again with another file. */
  ghost predicate ComesBack(base: Level, s: LevelState, e: Edit, l: LevelNumber, f: File) {
    && (f in base || f in s.added)
    && f.number in s.deleted
    && f.number in NumbersOf(AddedAt(e.added, l))
    && !Placed(AddedAt(e.added, l), f)
  }

  /** A file that this edit adds and whose place another file was given before. */
  ghost predicate ShutOut(base: Level, s: LevelState, e: Edit, l: LevelNumber, f: File) {
    && Placed(AddedAt(e.added, l), f)
    && f !in base && f !in s.added
    && exists g :: g in s.added && SamePlace(g, f)
  }

  /**
   Exactly when accumulating one more edit selects a file as applying it to the version the
   builder stood for does.
   */
  lemma AccumulateAgreesIff(base: Level, s: LevelState, e: Edit, l: LevelNumber, f: File)
    requires Ordered(s.added)
    ensures (Survives(base, ApplyLevel(s, e, l), f) <==>
              (Survives(base, s, f) || Placed(AddedAt(e.added, l), f)) && !Deletes(e, l, f))
            <==> !ComesBack(base, s, e, l, f) && !ShutOut(base, s, e, l, f)
  {
    ApplyLevelMembers(s, e, l);
    assert Placed(AddedAt(e.added, l), f) ==> f.number in NumbersOf(AddedAt(e.added, l));
  }

  /** After these edits the one builder selects what applying them one by one does. */
  ghost predicate AgreesAfter(base: Version, edits: seq<Edit>) {
    forall l: LevelNumber, f :: Survives(base[l], ApplyAll(edits, l), f) <==> HasAfter(base[l], edits, l, f)
  }

  /**
   In terms of the history: the edit adds again, with another file, the number of a file of the
   base or added before, although the number stood deleted.
   */
  ghost predicate Revives(base: Level, prior: seq<Edit>, e: Edit, l: LevelNumber, f: File) {
    && (f in base || Placed(AddedSoFar(prior, l), f))
    && f.number in DeletedSoFar(prior, l)
    && f.number in NumbersOf(AddedAt(e.added, l))
    && !Placed(AddedAt(e.added, l), f)
  }

  /** The edit adds a file in the place, smallest key and number, of a file added before. */
  ghost predicate Crowds(base: Level, prior: seq<Edit>, e: Edit, l: LevelNumber, f: File) {
    && Placed(AddedAt(e.added, l), f)
    && f !in base && !Placed(AddedSoFar(prior, l), f)
    && exists g :: g in AddedSoFar(prior, l) && SamePlace(g, f)
  }

  ghost predicate CleanEdit(base: Version, prior: seq<Edit>, e: Edit) {
    forall l: LevelNumber, f :: !Revives(base[l], prior, e, l, f) && !Crowds(base[l], prior, e, l, f)
  }

  ghost predicate CleanHistory(base: Version, edits: seq<Edit>) {
    edits != [] ==>
      && CleanHistory(base, edits[..|edits|-1])
      && CleanEdit(base, edits[..|edits|-1], edits[|edits|-1])
  }

  /** In the builder's terms. */
  lemma HistoryInBuilder(base: Level, prior: seq<Edit>, e: Edit, l: LevelNumber, f: File)
    ensures Revives(base, prior, e, l, f) <==> ComesBack(base, ApplyAll(prior, l), e, l, f)
    ensures Crowds(base, prior, e, l, f) <==> ShutOut(base, ApplyAll(prior, l), e, l, f)
  {
    AccumulatedMembers(prior, l);
    SamePlacesFree(AddedSoFar(prior, l), ApplyAll(prior, l).added, f);
  }

  lemma NextAgreesIff(base: Version, prior: seq<Edit>, e: Edit)
    requires AgreesAfter(base, prior)
    ensures AgreesAfter(base, prior + [e]) <==> CleanEdit(base, prior, e)
  {
    assert (prior + [e])[..|prior|] == prior;
    forall l: LevelNumber, f
      ensures (Survives(base[l], ApplyAll(prior + [e], l), f) <==> HasAfter(base[l], prior + [e], l, f))
              <==> !Revives(base[l], prior, e, l, f) && !Crowds(base[l], prior, e, l, f)
    {
      HistoryInBuilder(base[l], prior, e, l, f);
      AccumulateAgreesIff(base[l], ApplyAll(prior, l), e, l, f);
    }
  }

  /**
   Exactly when one builder can stand for a builder per edit: after every edit of the history
   they select the same files if and only if the history is clean.
   */
  lemma {:induction false} AgreesThroughoutIff(base: Version, edits: seq<Edit>)
    ensures (forall n | 0 <= n <= |edits| :: AgreesAfter(base, edits[..n])) <==> CleanHistory(base, edits)
  {
    if edits == [] {
      assert edits[..0] == [];
      assert AgreesAfter(base, []);
    } else {
      var front, e := edits[..|edits|-1], edits[|edits|-1];
      AgreesThroughoutIff(base, front);
      assert front + [e] == edits && edits[..|edits|] == edits;
      assert forall n | 0 <= n < |edits| :: front[..n] == edits[..n];
      assert front[..|front|] == front;
      if AgreesAfter(base, front) {
        NextAgreesIff(base, front, e);
      }
      if CleanHistory(base, front) {
        assert AgreesAfter(base, front[..|front|]);
        forall n | 0 <= n <= |edits| && CleanHistory(base, edits)
          ensures AgreesAfter(base, edits[..n])
        {
          assert n < |edits| ==> front[..n] == edits[..n];
        }
      }
      if forall n | 0 <= n <= |edits| :: AgreesAfter(base, edits[..n]) {
        forall n | 0 <= n <= |front|
          ensures AgreesAfter(base, front[..n])
        {
          assert front[..n] == edits[..n];
        }
      }
    }
  }

  lemma CleanAgrees(base: Version, edits: seq<Edit>)
    requires CleanHistory(base, edits)
    ensures AgreesAfter(base, edits)
  {
    AgreesThroughoutIff(base, edits);
    assert edits[..|edits|] == edits;
  }

  /** A history that gives every added file a number of its own is clean. */
  lemma {:induction false} FreshIsClean(base: Version, edits: seq<Edit>)
    requires FreshHistory(base, edits)
    ensures CleanHistory(base, edits)
  {
    if edits != [] {
      var front, e := edits[..|edits|-1], edits[|edits|-1];
      FreshIsClean(base, front);
      forall l: LevelNumber, f
        ensures !Revives(base[l], front, e, l, f) && !Crowds(base[l], front, e, l, f)
      {
        FreshEditIsClean(base[l], front, e, l, f);
      }
    }
  }

  lemma FreshEditIsClean(base: Level, prior: seq<Edit>, e: Edit, l: LevelNumber, f: File)
    requires FreshAt(base, AddedSoFar(prior, l), AddedAt(e.added, l))
    ensures !Revives(base, prior, e, l, f) && !Crowds(base, prior, e, l, f)
  {
    if g :| g in AddedSoFar(prior, l) && SamePlace(g, f) {
      SamePlaceMeans(g, f);
    }
  }

  // ----- Histories that one builder gets wrong -----

  /** A file is added, its number deleted, and the number given to another file. */
  function Reusing(l: LevelNumber, f: File, g: File): seq<Edit> {
    [Edit({}, [(l, f)]), Edit({(l, f.number)}, []), Edit({}, [(l, g)])]
  }

  lemma AddedAlone(e: Edit, l: LevelNumber, f: File)
    requires e.added == [(l, f)]
    ensures AddedAt(e.added, l) == [f] && NumbersOf(AddedAt(e.added, l)) == {f.number}
    ensures forall g :: Placed(AddedAt(e.added, l), g) <==> g == f
  {
    assert e.added[..0] == [];
    assert AddedAt([(l, f)], l) == [] + [f];
    forall g
      ensures Placed([f], g) <==> g == f
    {
      PlacedAlone(f, g);
    }
  }

  /**
   For every level and any two files with one number: edit by edit the second takes the place
   of the first; one builder shows the first again, and the second only if their smallest
   keys differ.
   */
  lemma DeletedFileReturns(l: LevelNumber, f: File, g: File)
    requires f.number == g.number && f != g
    ensures var edits := Reusing(l, f, g);
            && HasAfter([], edits, l, g) && !HasAfter([], edits, l, f)
            && Survives([], ApplyAll(edits, l), f)
            && (Survives([], ApplyAll(edits, l), g) <==> f.Smallest() != g.Smallest())
            && !CleanHistory(EMPTY_VERSION, edits)
  {
    var edits := Reusing(l, f, g);
    ReusingSplit(l, f, g);
    ReusingInBuilder(l, f, g);
    ReusingEditByEdit(l, f, g);
    assert EMPTY_VERSION[l] == [];
    if CleanHistory(EMPTY_VERSION, edits) {
      CleanAgrees(EMPTY_VERSION, edits);
    }
  }

  lemma ReusingSplit(l: LevelNumber, f: File, g: File)
    ensures var edits := Reusing(l, f, g);
            && edits[..2] == [edits[0], edits[1]] && [edits[0], edits[1]][..1] == [edits[0]] && [edits[0]][..0] == []
    ensures AddedAt(Reusing(l, f, g)[1].added, l) == []
    ensures DeletedAt(Reusing(l, f, g)[0], l) == {} && DeletedAt(Reusing(l, f, g)[2], l) == {}
    ensures DeletedAt(Reusing(l, f, g)[1], l) == {f.number}
  {
    assert (l, f.number) in Reusing(l, f, g)[1].deleted;
  }

  lemma ReusingInBuilder(l: LevelNumber, f: File, g: File)
    requires f.number == g.number
    ensures Survives([], ApplyAll(Reusing(l, f, g), l), f)
    ensures Survives([], ApplyAll(Reusing(l, f, g), l), g) <==> f == g || f.Smallest() != g.Smallest()
  {
    var edits := Reusing(l, f, g);
    ReusingSplit(l, f, g);
    AddedAlone(edits[0], l, f);
    AddedAlone(edits[2], l, g);
    var s1 := ApplyLevel(FRESH_STATE, edits[0], l);
    var s2 := ApplyLevel(s1, edits[1], l);
    ApplyLevelMembers(FRESH_STATE, edits[0], l);
    assert forall h :: h in s1.added <==> h == f;
    ApplyLevelMembers(s1, edits[1], l);
    assert forall h :: h in s2.added <==> h == f;
    ApplyLevelMembers(s2, edits[2], l);
    SamePlaceMeans(f, g);
    assert ApplyAll([], l) == FRESH_STATE && ApplyAll([edits[0]], l) == s1;
    assert ApplyAll([edits[0], edits[1]], l) == s2;
  }

  lemma ReusingEditByEdit(l: LevelNumber, f: File, g: File)
    requires f.number == g.number && f != g
    ensures HasAfter([], Reusing(l, f, g), l, g) && !HasAfter([], Reusing(l, f, g), l, f)
  {
    var edits := Reusing(l, f, g);
    ReusingSplit(l, f, g);
    AddedAlone(edits[2], l, g);
    assert !Placed([], f);
    assert !HasAfter([], [edits[0], edits[1]], l, f);
  }

  /** Such files, and so a history from a new database that replaying gets wrong. */
  lemma ReplayDiffers() returns (edits: seq<Edit>, l: LevelNumber, f: File)
    ensures Survives([], ApplyAll(edits, l), f) && !HasAfter([], edits, l, f)
  {
    var x := Entry(IKey(1.0, 1, Value), []);
    f := FileRep(5, 1, [Entry(IKey(0.0, 1, Value), [])]);
    var g: File := FileRep(5, 1, [x]);
    edits, l := Reusing(0, f, g), 0;
    assert f.run[0] != g.run[0];
    DeletedFileReturns(l, f, g);
  }

  // ----- Recovering -----

  lemma NoClashWhenFresh(base: Level, s: LevelState)
    requires forall f, g | f in base && g in s.added :: f.number != g.number
    ensures NoClash(base, s)
  {
    forall f, g | f in base && g in s.added
      ensures !SamePlace(f, g)
    {
      SamePlaceMeans(f, g);
    }
  }

  lemma {:induction false} AddedNeverInBase(base: Version, edits: seq<Edit>, l: LevelNumber)
    requires FreshHistory(base, edits)
    ensures forall f, g | f in base[l] && g in AddedSoFar(edits, l) :: f.number != g.number
  {
    if edits != [] {
      AddedNeverInBase(base, edits[..|edits|-1], l);
      assert FreshAt(base[l], AddedSoFar(edits[..|edits|-1], l), AddedAt(edits[|edits|-1].added, l));
    }
  }

  lemma FreshHistoryNoClash(base: Version, edits: seq<Edit>, l: LevelNumber)
    requires FreshHistory(base, edits)
    ensures NoClash(base[l], ApplyAll(edits, l))
  {
    AccumulatedMembers(edits, l);
    AddedNeverInBase(base, edits, l);
    NoClashWhenFresh(base[l], ApplyAll(edits, l));
  }

  /** The version saved lists the files that the simple reading gives, if the history is clean. */
  lemma SavedAfter(base: Version, edits: seq<Edit>, v: Version)
    requires forall l: LevelNumber :: IsSaved(base[l], ApplyAll(edits, l), v[l])
    ensures AgreesAfter(base, edits) <==> forall l: LevelNumber, f :: f in v[l] <==> HasAfter(base[l], edits, l, f)
    ensures FreshHistory(base, edits) && (forall l: LevelNumber :: Ordered(base[l])) ==> IsVersionAfter(base, edits, v)
  {
    forall l: LevelNumber
      ensures forall f :: f in v[l] <==> Survives(base[l], ApplyAll(edits, l), f)
    {
      SavedMembers(base[l], ApplyAll(edits, l), v[l]);
    }
    if FreshHistory(base, edits) && forall l: LevelNumber :: Ordered(base[l]) {
      FreshIsClean(base, edits);
      CleanAgrees(base, edits);
      forall l: LevelNumber
        ensures Ordered(v[l])
      {
        FreshHistoryNoClash(base, edits, l);
        SavedOrderedIff(base[l], ApplyAll(edits, l), v[l]);
      }
    }
  }

  /** VersionSet::Recover: one builder over all the edits of the manifest. */
  method ReplayOnce(base: Version, edits: seq<Edit>) returns (v: Version)
    requires forall l: LevelNumber :: InOrder(base[l])
    ensures forall l: LevelNumber :: IsSaved(base[l], ApplyAll(edits, l), v[l])
    ensures AgreesAfter(base, edits) <==> forall l: LevelNumber, f :: f in v[l] <==> HasAfter(base[l], edits, l, f)
    ensures CleanHistory(base, edits) ==> AgreesAfter(base, edits)
    ensures FreshHistory(base, edits) && (forall l: LevelNumber :: Ordered(base[l])) ==> IsVersionAfter(base, edits, v)
  {
    var builder := new Builder(base);
    for i := 0 to |edits|
      invariant builder.Ok() && builder.base == base && fresh(builder)
      invariant forall l: LevelNumber :: builder.levels[l] == ApplyAll(edits[..i], l)
    {
      assert edits[..i+1][..i] == edits[..i];
      builder.Apply(edits[i]);
    }
    assert edits[..|edits|] == edits;
    v := builder.SaveTo();
    SavedAfter(base, edits, v);
    if CleanHistory(base, edits) {
      CleanAgrees(base, edits);
    }
  }

  // ----- A builder per edit -----

  /** One edit through a fresh builder. */
  lemma FreshBuilderStep(v: Level, e: Edit, l: LevelNumber, f: File)
    ensures Survives(v, ApplyLevel(FRESH_STATE, e, l), f) <==>
            (f in v || Placed(AddedAt(e.added, l), f)) && !Deletes(e, l, f)
  {
    AccumulateAgreesIff(v, FRESH_STATE, e, l, f);
  }

  lemma OneEdit(base: Version, edits: seq<Edit>, i: nat, v: Version, v': Version, l: LevelNumber)
    requires i < |edits| && forall f :: f in v[l] <==> HasAfter(base[l], edits[..i], l, f)
    requires IsSaved(v[l], ApplyLevel(FRESH_STATE, edits[i], l), v'[l])
    ensures forall f :: f in v'[l] <==> HasAfter(base[l], edits[..i+1], l, f)
    ensures FreshHistory(base, edits[..i+1]) && Ordered(v[l]) ==> Ordered(v'[l])
  {
    var e := edits[i];
    assert edits[..i+1][..i] == edits[..i];
    SavedMembers(v[l], ApplyLevel(FRESH_STATE, e, l), v'[l]);
    forall f
      ensures f in v'[l] <==> HasAfter(base[l], edits[..i+1], l, f)
    {
      FreshBuilderStep(v[l], e, l, f);
    }
    if FreshHistory(base, edits[..i+1]) && Ordered(v[l]) {
      assert FreshAt(base[l], AddedSoFar(edits[..i], l), AddedAt(e.added, l));
      FreshEditNoClash(base[l], edits[..i], e, l, v[l]);
      SavedOrderedIff(v[l], ApplyLevel(FRESH_STATE, e, l), v'[l]);
    }
  }

  lemma FreshEditNoClash(base: Level, prior: seq<Edit>, e: Edit, l: LevelNumber, v: Level)
    requires FreshAt(base, AddedSoFar(prior, l), AddedAt(e.added, l))
    requires forall f :: f in v <==> HasAfter(base, prior, l, f)
    ensures NoClash(v, ApplyLevel(FRESH_STATE, e, l))
  {
    ApplyLevelMembers(FRESH_STATE, e, l);
    forall f, g | f in v && g in ApplyLevel(FRESH_STATE, e, l).added
      ensures f.number != g.number
    {
      HasAfterOrigin(base, prior, l, f);
    }
    NoClashWhenFresh(v, ApplyLevel(FRESH_STATE, e, l));
  }

  lemma {:induction false} FreshPrefix(base: Version, edits: seq<Edit>, i: nat)
    requires FreshHistory(base, edits) && i <= |edits|
    ensures FreshHistory(base, edits[..i])
  {
    if i < |edits| {
      var front := edits[..|edits|-1];
      FreshPrefix(base, front, i);
      assert front[..i] == edits[..i];
    } else {
      assert edits[..i] == edits;
    }
  }

  /** VersionSet::LogAndApply for each edit in turn: a builder on the current version. */
  method ReplayStepwise(base: Version, edits: seq<Edit>) returns (v: Version)
    requires forall l: LevelNumber :: InOrder(base[l])
    ensures forall l: LevelNumber :: InOrder(v[l]) && forall f :: f in v[l] <==> HasAfter(base[l], edits, l, f)
    ensures FreshHistory(base, edits) && (forall l: LevelNumber :: Ordered(base[l])) ==> IsVersionAfter(base, edits, v)
  {
    v := base;
    for i := 0 to |edits|
      invariant forall l: LevelNumber :: InOrder(v[l]) && forall f :: f in v[l] <==> HasAfter(base[l], edits[..i], l, f)
      invariant FreshHistory(base, edits) && (forall l: LevelNumber :: Ordered(base[l])) ==>
                forall l: LevelNumber :: Ordered(v[l])
    {
      var v' := ApplyToVersion(v, edits[i]);
      if FreshHistory(base, edits) {
        FreshPrefix(base, edits, i + 1);
      }
      forall l: LevelNumber
        ensures forall f :: f in v'[l] <==> HasAfter(base[l], edits[..i+1], l, f)
        ensures FreshHistory(base, edits) && Ordered(v[l]) ==> Ordered(v'[l])
      {
        OneEdit(base, edits, i, v, v', l);
      }
      v := v';
    }
    assert edits[..|edits|] == edits;
  }

  /** The version that LogAndApply builds from the current one. */
  method ApplyToVersion(v: Version, e: Edit) returns (v': Version)
    requires forall l: LevelNumber :: InOrder(v[l])
    ensures forall l: LevelNumber :: IsSaved(v[l], ApplyLevel(FRESH_STATE, e, l), v'[l])
  {
    var builder := new Builder(v);
    builder.Apply(e);
    v' := builder.SaveTo();
  }

  // ----- WriteSnapshot -----

  /** No two different files have the same smallest key and number. */
  ghost predicate PlacesApart(files: Level) {
    forall f | f in files :: Placed(files, f)
  }

  predicate IsSnapshot(e: Edit, v: Version) {
    e.deleted == {} && forall l: LevelNumber :: AddedAt(e.added, l) == v[l]
  }

  lemma AddedAtAppend(added: seq<(LevelNumber, File)>, level: LevelNumber, f: File)
    ensures forall l: LevelNumber ::
            AddedAt(added + [(level, f)], l) == AddedAt(added, l) + if l == level then [f] else []
  {
    assert (added + [(level, f)])[..|added|] == added;
  }

  /** The edit that lists every file of the version. */
  method WriteSnapshot(v: Version) returns (e: Edit)
    ensures IsSnapshot(e, v)
  {
    var added: seq<(LevelNumber, File)> := [];
    for level := 0 to NUM_LEVELS
      invariant forall l: LevelNumber :: AddedAt(added, l) == if l < level then v[l] else []
    {
      for i := 0 to |v[level]|
        invariant forall l: LevelNumber ::
          AddedAt(added, l) == if l < level then v[l] else if l == level then v[level][..i] else []
      {
        AddedAtAppend(added, level, v[level][i]);
        added := added + [(level, v[level][i])];
      }
    }
    e := Edit({}, added);
  }

  /** Replaying a snapshot and then further edits starts from the version of the snapshot. */
  lemma {:induction false} SnapshotStandsForVersion(v: Version, snapshot: Edit, edits: seq<Edit>, l: LevelNumber,
                                                    f: File)
    requires IsSnapshot(snapshot, v) && PlacesApart(v[l])
    ensures HasAfter([], [snapshot] + edits, l, f) <==> HasAfter(v[l], edits, l, f)
  {
    var all := [snapshot] + edits;
    if edits == [] {
      assert all == [snapshot] && all[..0] == [];
      assert DeletedAt(snapshot, l) == {};
    } else {
      var front := edits[..|edits|-1];
      assert all[..|all|-1] == [snapshot] + front && all[|all|-1] == edits[|edits|-1];
      SnapshotStandsForVersion(v, snapshot, front, l, f);
    }
  }

  lemma OrderedApart(files: Level)
    requires Ordered(files)
    ensures PlacesApart(files)
  {
    forall f | f in files
      ensures Placed(files, f)
    {
      var i :| 0 <= i < |files| && files[i] == f;
      assert forall j | 0 <= j < i :: FileBefore(files[j], files[i]);
    }
  }

  lemma SnapshotRebuilds(v: Version, snapshot: Edit, edits: seq<Edit>, w: Version)
    requires IsSnapshot(snapshot, v) && forall l: LevelNumber :: PlacesApart(v[l])
    ensures IsVersionAfter(EMPTY_VERSION, [snapshot] + edits, w) <==> IsVersionAfter(v, edits, w)
    ensures (forall l: LevelNumber :: Ordered(v[l])) ==> IsVersionAfter(EMPTY_VERSION, [snapshot], v)
  {
    forall l: LevelNumber, f
      ensures HasAfter([], [snapshot] + edits, l, f) <==> HasAfter(v[l], edits, l, f)
      ensures HasAfter([], [snapshot], l, f) <==> f in v[l]
    {
      SnapshotStandsForVersion(v, snapshot, edits, l, f);
      SnapshotStandsForVersion(v, snapshot, [], l, f);
      assert [snapshot] + [] == [snapshot];
    }
  }
}
