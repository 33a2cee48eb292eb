/**
 MergingIterator: a cursor over the sorted union of its children.  Going forward
 every other child sits strictly after key(), going backward strictly before it, and
 each change of direction re-establishes that.
 */
module Mergers {
  import opened Wrappers
  import opened Entries
  import opened Versions

  datatype Direction = Forward | Reverse

  /** p is the position of the last entry of run that is not after key, and |run| if there is none. */
  predicate IsLastUpTo(run: seq<Entry>, key: IKey, p: nat) {
    if p < |run| then !Less(key, run[p].ikey) && forall j | p < j < |run| :: Less(key, run[j].ikey)
    else p == |run| && forall j | 0 <= j < |run| :: Less(key, run[j].ikey)
  }

  /** No internal key is in two children. */
  ghost predicate KeysApart(runs: seq<seq<Entry>>) {
    forall i, j, x, y {:trigger x in runs[i], y in runs[j]} |
      0 <= i < j < |runs| && x in runs[i] && y in runs[j] :: x.ikey != y.ikey
  }

  /** all is the sorted union of the runs. */
  ghost predicate IsUnion(runs: seq<seq<Entry>>, all: seq<Entry>) {
    && Sorted(all)
    && (forall i | 0 <= i < |runs| :: Sorted(runs[i]))
    && (forall i, e {:trigger e in runs[i]} | 0 <= i < |runs| && e in runs[i] :: e in all)
    && (forall e | e in all :: exists i :: 0 <= i < |runs| && e in runs[i])
  }

  // ----- Children at a cut of the union -----

  /** Every child is at its first entry that is not before entry u of the union. */
  ghost predicate AtCut(runs: seq<seq<Entry>>, positions: seq<nat>, all: seq<Entry>, u: nat)
    requires |runs| == |positions| && u <= |all|
  {
    forall i | 0 <= i < |runs| ::
      if u < |all| then IsSeek(runs[i], all[u].ikey, positions[i]) else positions[i] == |runs[i]|
  }

  /** Every child is at its last entry that is not after entry u of the union. */
  ghost predicate AtTail(runs: seq<seq<Entry>>, positions: seq<nat>, all: seq<Entry>, u: nat)
    requires |runs| == |positions| && u < |all|
  {
    forall i | 0 <= i < |runs| :: IsLastUpTo(runs[i], all[u].ikey, positions[i])
  }

  /** Every child has been moved off its front end. */
  predicate AllSpent(runs: seq<seq<Entry>>, positions: seq<nat>)
    requires |runs| == |positions|
  {
    forall i | 0 <= i < |runs| :: positions[i] == |runs[i]|
  }

  lemma UnionMember(runs: seq<seq<Entry>>, all: seq<Entry>, e: Entry) returns (i: nat, j: nat)
    requires IsUnion(runs, all) && e in all
    ensures i < |runs| && j < |runs[i]| && runs[i][j] == e
  {
    i :| 0 <= i < |runs| && e in runs[i];
    j :| 0 <= j < |runs[i]| && runs[i][j] == e;
  }

  lemma UnionIndex(runs: seq<seq<Entry>>, all: seq<Entry>, i: nat, j: nat) returns (k: nat)
    requires IsUnion(runs, all) && i < |runs| && j < |runs[i]|
    ensures k < |all| && all[k] == runs[i][j]
  {
    assert runs[i][j] in runs[i];
    k :| 0 <= k < |all| && all[k] == runs[i][j];
  }

  lemma SameKeySamePlace(all: seq<Entry>, a: nat, b: nat)
    requires Sorted(all) && a < |all| && b < |all|
    ensures Less(all[a].ikey, all[b].ikey) <==> a < b
    ensures all[a].ikey == all[b].ikey <==> a == b
  {
  }

  /** At a cut inside the union some child shows the entry of the cut, and no child shows an earlier one. */
  lemma SmallestAtCut(runs: seq<seq<Entry>>, positions: seq<nat>, all: seq<Entry>, u: nat) returns (i: nat)
    requires IsUnion(runs, all) && |runs| == |positions| && u < |all| && AtCut(runs, positions, all, u)
    ensures i < |runs| && positions[i] < |runs[i]| && runs[i][positions[i]] == all[u]
  {
    var j;
    i, j := UnionMember(runs, all, all[u]);
    assert IsSeek(runs[i], all[u].ikey, positions[i]);
    SameKeySamePlace(runs[i], positions[i], j);
  }

  lemma LargestAtTail(runs: seq<seq<Entry>>, positions: seq<nat>, all: seq<Entry>, u: nat) returns (i: nat)
    requires IsUnion(runs, all) && |runs| == |positions| && u < |all| && AtTail(runs, positions, all, u)
    ensures i < |runs| && positions[i] < |runs[i]| && runs[i][positions[i]] == all[u]
  {
    var j;
    i, j := UnionMember(runs, all, all[u]);
    assert IsLastUpTo(runs[i], all[u].ikey, positions[i]);
    SameKeySamePlace(runs[i], j, positions[i]);
  }

  /** Of the keys shown at a cut, that of the cut is the smallest, and only one child has it. */
  lemma ShownAfterCut(runs: seq<seq<Entry>>, positions: seq<nat>, all: seq<Entry>, u: nat, i: nat)
    requires IsUnion(runs, all) && |runs| == |positions| && u < |all| && AtCut(runs, positions, all, u)
    requires i < |runs| && positions[i] < |runs[i]|
    ensures runs[i][positions[i]] == all[u] || Less(all[u].ikey, runs[i][positions[i]].ikey)
  {
    var k := UnionIndex(runs, all, i, positions[i]);
    SameKeySamePlace(all, u, k);
    assert IsSeek(runs[i], all[u].ikey, positions[i]);
  }

  lemma ShownBeforeTail(runs: seq<seq<Entry>>, positions: seq<nat>, all: seq<Entry>, u: nat, i: nat)
    requires IsUnion(runs, all) && |runs| == |positions| && u < |all| && AtTail(runs, positions, all, u)
    requires i < |runs| && positions[i] < |runs[i]|
    ensures runs[i][positions[i]] == all[u] || Less(runs[i][positions[i]].ikey, all[u].ikey)
  {
    var k := UnionIndex(runs, all, i, positions[i]);
    SameKeySamePlace(all, u, k);
    assert IsLastUpTo(runs[i], all[u].ikey, positions[i]);
  }

  // ----- Moving the cut by one entry -----

  /** A child that does not hold entry u is at the same place for the cut after it. */
  lemma CutPastOther(run: seq<Entry>, all: seq<Entry>, u: nat, p: nat)
    requires Sorted(run) && Sorted(all) && u < |all| && IsSeek(run, all[u].ikey, p)
    requires forall e | e in run :: e in all && e != all[u]
    ensures if u + 1 < |all| then IsSeek(run, all[u+1].ikey, p) else p == |run|
  {
    forall j | p <= j < |run|
      ensures u + 1 < |all| && !Less(run[j].ikey, all[u+1].ikey)
    {
      assert run[j] in run;
      var k :| 0 <= k < |all| && all[k] == run[j];
      SameKeySamePlace(all, k, u);
      if u + 1 < |all| {
        SameKeySamePlace(all, k, u + 1);
      }
    }
    assert p < |run| ==> run[p] in run;
  }

  /** The child that holds entry u is one further for the cut after it. */
  lemma CutPastOwn(run: seq<Entry>, all: seq<Entry>, u: nat, p: nat)
    requires Sorted(run) && Sorted(all) && u < |all| && p < |run| && run[p] == all[u]
    requires forall e | e in run :: e in all
    ensures if u + 1 < |all| then IsSeek(run, all[u+1].ikey, p + 1) else p + 1 == |run|
  {
    forall j | p < j < |run|
      ensures u + 1 < |all| && !Less(run[j].ikey, all[u+1].ikey)
    {
      assert run[j] in run;
      var k :| 0 <= k < |all| && all[k] == run[j];
      SameKeySamePlace(all, k, u);
      if u + 1 < |all| {
        SameKeySamePlace(all, k, u + 1);
      }
    }
    assert p + 1 < |run| ==> run[p+1] in run;
  }

  lemma TailBeforeOther(run: seq<Entry>, all: seq<Entry>, u: nat, p: nat)
    requires Sorted(run) && Sorted(all) && u < |all| && IsLastUpTo(run, all[u].ikey, p)
    requires forall e | e in run :: e in all && e != all[u]
    ensures if u > 0 then IsLastUpTo(run, all[u-1].ikey, p) else p == |run|
  {
    if p < |run| {
      assert run[p] in run;
      var k :| 0 <= k < |all| && all[k] == run[p];
      SameKeySamePlace(all, u, k);
      assert k < u;
      SameKeySamePlace(all, u - 1, k);
    }
  }

  lemma TailBeforeOwn(run: seq<Entry>, all: seq<Entry>, u: nat, p: nat)
    requires Sorted(run) && Sorted(all) && u < |all| && p < |run| && run[p] == all[u]
    requires forall e | e in run :: e in all
    ensures var q := if p > 0 then p - 1 else |run|;
            if u > 0 then IsLastUpTo(run, all[u-1].ikey, q) else q == |run|
  {
    if p > 0 {
      assert run[p-1] in run;
      var k :| 0 <= k < |all| && all[k] == run[p-1];
      SameKeySamePlace(all, k, u);
      assert k < u;
      SameKeySamePlace(all, u - 1, k);
    }
  }

  /** Children that do not hold entry u hold no entry equal to it. */
  lemma NotInOthers(runs: seq<seq<Entry>>, all: seq<Entry>, u: nat, c: nat, p: nat)
    requires KeysApart(runs) && u < |all| && c < |runs| && p < |runs[c]| && runs[c][p] == all[u]
    ensures forall i | 0 <= i < |runs| && i != c :: all[u] !in runs[i]
  {
    assert all[u] in runs[c];
  }

  lemma NonEmptyUnion(runs: seq<seq<Entry>>, all: seq<Entry>, i: nat)
    requires IsUnion(runs, all) && i < |runs| && runs[i] != []
    ensures all != []
  {
    assert runs[i][0] in runs[i];
  }

  lemma EmptyChildren(runs: seq<seq<Entry>>, all: seq<Entry>)
    requires IsUnion(runs, all) && all == []
    ensures forall i | 0 <= i < |runs| :: runs[i] == []
  {
    forall i | 0 <= i < |runs|
      ensures runs[i] == []
    {
      if runs[i] != [] {
        NonEmptyUnion(runs, all, i);
      }
    }
  }

  lemma FrontIsCut(runs: seq<seq<Entry>>, positions: seq<nat>, all: seq<Entry>)
    requires IsUnion(runs, all) && |runs| == |positions|
    requires forall i | 0 <= i < |runs| :: positions[i] == 0
    ensures AtCut(runs, positions, all, 0)
  {
    if all == [] {
      EmptyChildren(runs, all);
    } else {
      forall i, j | 0 <= i < |runs| && 0 <= j < |runs[i]|
        ensures !Less(runs[i][j].ikey, all[0].ikey)
      {
        var k := UnionIndex(runs, all, i, j);
        SameKeySamePlace(all, k, 0);
      }
    }
  }

  lemma BackIsTail(runs: seq<seq<Entry>>, positions: seq<nat>, all: seq<Entry>)
    requires IsUnion(runs, all) && |runs| == |positions|
    requires forall i | 0 <= i < |runs| :: positions[i] == if |runs[i]| > 0 then |runs[i]| - 1 else 0
    ensures if all != [] then AtTail(runs, positions, all, |all| - 1) else AllSpent(runs, positions)
  {
    if all == [] {
      EmptyChildren(runs, all);
    } else {
      forall i | 0 <= i < |runs|
        ensures IsLastUpTo(runs[i], all[|all|-1].ikey, positions[i])
      {
        if |runs[i]| > 0 {
          var k := UnionIndex(runs, all, i, |runs[i]| - 1);
          SameKeySamePlace(all, |all| - 1, k);
        }
      }
    }
  }

  /** Seeking every child to the target puts them at the cut where the union has the target. */
  lemma SeeksAtCut(runs: seq<seq<Entry>>, positions: seq<nat>, all: seq<Entry>, target: IKey, u: nat)
    requires IsUnion(runs, all) && |runs| == |positions| && IsSeek(all, target, u)
    requires forall i | 0 <= i < |runs| :: IsSeek(runs[i], target, positions[i])
    ensures AtCut(runs, positions, all, u)
  {
    forall i, j | 0 <= i < |runs| && 0 <= j < |runs[i]|
      ensures if j < positions[i] then u < |all| ==> Less(runs[i][j].ikey, all[u].ikey)
              else u < |all| && !Less(runs[i][j].ikey, all[u].ikey)
    {
      var k := UnionIndex(runs, all, i, j);
      if u < |all| {
        SameKeySamePlace(all, k, u);
      }
      assert IsSeek(runs[i], target, positions[i]);
    }
    assert forall i | 0 <= i < |runs| ::
           IsSeek(runs[i], target, positions[i])
               && (positions[i] < |runs[i]| ==> runs[i][positions[i]] == runs[i][positions[i]]);
  }

  /** p is the position of the first entry of run after key. */
  predicate IsFirstAfter(run: seq<Entry>, key: IKey, p: nat) {
    p <= |run| && (forall j | 0 <= j < p :: !Less(key, run[j].ikey)) && forall j | p <= j < |run| ::
        Less(key, run[j].ikey)
  }

  /** p is the position of the last entry of run before key, and |run| if there is none. */
  predicate IsLastBefore(run: seq<Entry>, key: IKey, p: nat) {
    if p < |run| then Less(run[p].ikey, key) && forall j | p < j < |run| :: !Less(run[j].ikey, key)
    else p == |run| && forall j | 0 <= j < |run| :: !Less(run[j].ikey, key)
  }

  lemma OthersDiffer(runs: seq<seq<Entry>>, all: seq<Entry>, u: nat, c: nat, p: nat, i: nat, j: nat)
    requires IsUnion(runs, all) && KeysApart(runs) && u < |all|
    requires c < |runs| && p < |runs[c]| && runs[c][p] == all[u]
    requires i < |runs| && i != c && j < |runs[i]|
    ensures Less(runs[i][j].ikey, all[u].ikey) || Less(all[u].ikey, runs[i][j].ikey)
  {
    assert runs[i][j] in runs[i] && runs[c][p] in runs[c];
    assert i < c || c < i;
  }

  /** With each other child at its first entry after key(), all children are at the cut. */
  lemma OthersAtCut(runs: seq<seq<Entry>>, positions: seq<nat>, all: seq<Entry>, u: nat, c: nat)
    requires IsUnion(runs, all) && KeysApart(runs) && |runs| == |positions| && u < |all|
    requires c < |runs| && positions[c] < |runs[c]| && runs[c][positions[c]] == all[u]
    requires forall i | 0 <= i < |runs| && i != c :: IsFirstAfter(runs[i], all[u].ikey, positions[i])
    ensures AtCut(runs, positions, all, u)
  {
    forall i | 0 <= i < |runs|
      ensures IsSeek(runs[i], all[u].ikey, positions[i])
    {
      if i != c {
        assert IsFirstAfter(runs[i], all[u].ikey, positions[i]);
        forall j | 0 <= j < |runs[i]|
          ensures Less(runs[i][j].ikey, all[u].ikey) || Less(all[u].ikey, runs[i][j].ikey)
        {
          OthersDiffer(runs, all, u, c, positions[c], i, j);
        }
      }
    }
  }

  /** With each other child at its last entry before key(), all children are at the tail. */
  lemma OthersAtTail(runs: seq<seq<Entry>>, positions: seq<nat>, all: seq<Entry>, u: nat, c: nat)
    requires IsUnion(runs, all) && KeysApart(runs) && |runs| == |positions| && u < |all|
    requires c < |runs| && positions[c] < |runs[c]| && runs[c][positions[c]] == all[u]
    requires forall i | 0 <= i < |runs| && i != c :: IsLastBefore(runs[i], all[u].ikey, positions[i])
    ensures AtTail(runs, positions, all, u)
  {
    forall i | 0 <= i < |runs|
      ensures IsLastUpTo(runs[i], all[u].ikey, positions[i])
    {
      if i != c {
        assert IsLastBefore(runs[i], all[u].ikey, positions[i]);
        forall j | 0 <= j < |runs[i]|
          ensures Less(runs[i][j].ikey, all[u].ikey) || Less(all[u].ikey, runs[i][j].ikey)
        {
          OthersDiffer(runs, all, u, c, positions[c], i, j);
        }
      }
    }
  }

  /** The cut and the child at it move one entry on together. */
  lemma CutMoves(runs: seq<seq<Entry>>, positions: seq<nat>, all: seq<Entry>, u: nat, c: nat)
    requires IsUnion(runs, all) && KeysApart(runs) && |runs| == |positions| && u < |all|
    requires AtCut(runs, positions, all, u)
    requires c < |runs| && positions[c] < |runs[c]| && runs[c][positions[c]] == all[u]
    ensures AtCut(runs, positions[c := positions[c] + 1], all, u + 1)
  {
    NotInOthers(runs, all, u, c, positions[c]);
    forall i | 0 <= i < |runs|
      ensures var p := positions[c := positions[c] + 1][i];
              if u + 1 < |all| then IsSeek(runs[i], all[u+1].ikey, p) else p == |runs[i]|
    {
      assert forall e | e in runs[i] :: e in all;
      if i == c {
        CutPastOwn(runs[i], all, u, positions[i]);
      } else {
        assert IsSeek(runs[i], all[u].ikey, positions[i]);
        CutPastOther(runs[i], all, u, positions[i]);
      }
    }
  }

  lemma TailMoves(runs: seq<seq<Entry>>, positions: seq<nat>, all: seq<Entry>, u: nat, c: nat)
    requires IsUnion(runs, all) && KeysApart(runs) && |runs| == |positions| && u < |all|
    requires AtTail(runs, positions, all, u)
    requires c < |runs| && positions[c] < |runs[c]| && runs[c][positions[c]] == all[u]
    ensures var moved := positions[c := if positions[c] > 0 then positions[c] - 1 else |runs[c]|];
            if u > 0 then AtTail(runs, moved, all, u - 1) else AllSpent(runs, moved)
  {
    NotInOthers(runs, all, u, c, positions[c]);
    var moved := positions[c := if positions[c] > 0 then positions[c] - 1 else |runs[c]|];
    forall i | 0 <= i < |runs|
      ensures if u > 0 then IsLastUpTo(runs[i], all[u-1].ikey, moved[i]) else moved[i] == |runs[i]|
    {
      assert forall e | e in runs[i] :: e in all;
      if i == c {
        TailBeforeOwn(runs[i], all, u, positions[i]);
      } else {
        assert IsLastUpTo(runs[i], all[u].ikey, positions[i]);
        TailBeforeOther(runs[i], all, u, positions[i]);
      }
    }
  }

  // ----- The iterator -----

  class MergingIterator {
    const runs: seq<seq<Entry>>
    /** Where each child is; a child past either of its ends is at the length of its run. */
    const positions: array<nat>
    /** The key that the wrapper of each child remembers, if the child is valid. */
    const cached: array<Option<IKey>>
    var current: Option<nat>
    var direction: Direction
    /** The sorted union, and the place in it of the entry shown, |all| if none is. */
    ghost const all: seq<Entry>
    ghost var at: nat

    predicate Shaped()
      reads this, positions, cached
    {
      && positions.Length == |runs| && cached.Length == |runs|
      && forall i | 0 <= i < |runs| :: positions[i] <= |runs[i]| && cached[i] == KeyAt(i, positions[i])
    }

    function KeyAt(i: nat, p: nat): Option<IKey>
      requires i < |runs| && p <= |runs[i]|
    {
      if p < |runs[i]| then Some(runs[i][p].ikey) else None
    }

    /** The child shown is at entry `at` of the union. */
    ghost predicate Shows()
      reads this, positions, cached
      requires Shaped()
    {
      && at <= |all|
      && (current.None? <==> at == |all|)
      && (current.Some? ==>
           var c := current.value; c < |runs| && positions[c] < |runs[c]| && runs[c][positions[c]] == all[at])
    }

    ghost predicate Valid()
      reads this, positions, cached
    {
      && Shaped()
      && IsUnion(runs, all) && KeysApart(runs)
      && Shows()
      && (at < |all| && direction.Forward? ==> AtCut(runs, positions[..], all, at))
      && (at < |all| && direction.Reverse? ==> AtTail(runs, positions[..], all, at))
    }

    constructor (runs: seq<seq<Entry>>, ghost all: seq<Entry>)
      requires IsUnion(runs, all) && KeysApart(runs)
      ensures Valid() && this.runs == runs && this.all == all && at == |all|
      ensures fresh(positions) && fresh(cached)
    {
      this.runs := runs;
      this.all := all;
      positions := new nat[|runs|](i requires 0 <= i < |runs| => |runs[i]|);
      cached := new Option<IKey>[|runs|](_ => None);
      current := None;
      direction := Forward;
      at := |all|;
    }

    // Moves of one child, each followed by the wrapper's Update.

    method MoveChild(i: nat, p: nat)
      requires Shaped() && i < |runs| && p <= |runs[i]|
      modifies positions, cached
      ensures Shaped() && positions[..] == old(positions[..])[i := p]
    {
      positions[i] := p;
      cached[i] := KeyAt(i, p);
    }

    method SeekChild(i: nat, target: IKey)
      requires Shaped() && i < |runs| && Sorted(runs[i])
      modifies positions, cached
      ensures Shaped() && IsSeek(runs[i], target, positions[i])
      ensures positions[..] == old(positions[..])[i := positions[i]]
    {
      MoveChild(i, SeekIndex(runs[i], target));
    }

    method NextChild(i: nat)
      requires Shaped() && i < |runs| && positions[i] < |runs[i]|
      modifies positions, cached
      ensures Shaped() && positions[..] == old(positions[..])[i := old(positions[i]) + 1]
    {
      MoveChild(i, positions[i] + 1);
    }

    method PrevChild(i: nat)
      requires Shaped() && i < |runs| && positions[i] < |runs[i]|
      modifies positions, cached
      ensures Shaped()
      ensures positions[..] ==
              old(positions[..])[i := if old(positions[i]) > 0 then old(positions[i]) - 1 else |runs[i]|]
    {
      MoveChild(i, if positions[i] > 0 then positions[i] - 1 else |runs[i]|);
    }

    method SeekToLastChild(i: nat)
      requires Shaped() && i < |runs|
      modifies positions, cached
      ensures Shaped()
      ensures positions[..] == old(positions[..])[i := if |runs[i]| > 0 then |runs[i]| - 1 else 0]
    {
      MoveChild(i, if |runs[i]| > 0 then |runs[i]| - 1 else 0);
    }

    // Choice of the child shown.

    predicate Shown(i: nat)
      requires Shaped() && i < |runs|
      reads this, positions, cached
    {
      positions[i] < |runs[i]|
    }

    method FindSmallest(ghost u: nat)
      requires Shaped() && IsUnion(runs, all) && u <= |all| && AtCut(runs, positions[..], all, u)
      modifies this`current, this`at
      ensures Shaped() && Shows() && at == u
    {
      var smallest: Option<nat> := None;
      for i := 0 to |runs|
        invariant smallest.None? ==> forall j | 0 <= j < i :: cached[j].None?
        invariant smallest.Some? ==> smallest.value < i && cached[smallest.value].Some?
        invariant smallest.Some? ==>
                  forall j | 0 <= j < i && cached[j].Some? :: !Less(cached[j].value, cached[smallest.value].value)
      {
        if cached[i].Some? {
          if smallest.None? {
            smallest := Some(i);
          } else if Less(cached[i].value, cached[smallest.value].value) {
            smallest := Some(i);
          }
        }
      }
      current, at := smallest, u;
      if u < |all| {
        var i := SmallestAtCut(runs, positions[..], all, u);
        assert cached[i].Some?;
        ShownAfterCut(runs, positions[..], all, u, current.value);
      } else {
        assert forall i | 0 <= i < |runs| :: positions[..][i] == |runs[i]|;
      }
    }

    method FindLargest(ghost u: nat)
      requires Shaped() && IsUnion(runs, all) && u <= |all|
      requires if u < |all| then AtTail(runs, positions[..], all, u) else AllSpent(runs, positions[..])
      modifies this`current, this`at
      ensures Shaped() && Shows() && at == u
    {
      var largest: Option<nat> := None;
      for i := |runs| downto 0
        invariant largest.None? ==> forall j | i <= j < |runs| :: cached[j].None?
        invariant largest.Some? ==> i <= largest.value < |runs| && cached[largest.value].Some?
        invariant largest.Some? ==>
                  forall j | i <= j < |runs| && cached[j].Some? :: !Less(cached[largest.value].value, cached[j].value)
      {
        if cached[i].Some? {
          if largest.None? {
            largest := Some(i);
          } else if Less(cached[largest.value].value, cached[i].value) {
            largest := Some(i);
          }
        }
      }
      current, at := largest, u;
      if u < |all| {
        var i := LargestAtTail(runs, positions[..], all, u);
        assert cached[i].Some?;
        ShownBeforeTail(runs, positions[..], all, u, current.value);
      } else {
        assert forall i | 0 <= i < |runs| :: positions[..][i] == |runs[i]|;
      }
    }

    // The iterator's own operations.

    method SeekToFirst()
      requires Valid()
      modifies this`current, this`at, this`direction, positions, cached
      ensures Valid() && at == 0
    {
      for i := 0 to |runs|
        invariant Shaped() && forall j | 0 <= j < i :: positions[j] == 0
      {
        MoveChild(i, 0);
      }
      FrontIsCut(runs, positions[..], all);
      FindSmallest(0);
      direction := Forward;
    }

    method SeekToLast()
      requires Valid()
      modifies this`current, this`at, this`direction, positions, cached
      ensures Valid() && at == if |all| > 0 then |all| - 1 else 0
    {
      for i := 0 to |runs|
        invariant Shaped() && forall j | 0 <= j < i :: positions[j] == if |runs[j]| > 0 then |runs[j]| - 1 else 0
      {
        SeekToLastChild(i);
      }
      BackIsTail(runs, positions[..], all);
      FindLargest(if |all| > 0 then |all| - 1 else 0);
      direction := Reverse;
    }

    method Seek(target: IKey)
      requires Valid()
      modifies this`current, this`at, this`direction, positions, cached
      ensures Valid() && IsSeek(all, target, at)
    {
      for i := 0 to |runs|
        invariant Shaped() && forall j | 0 <= j < i :: IsSeek(runs[j], target, positions[j])
      {
        SeekChild(i, target);
      }
      ghost var u := SeekIndex(all, target);
      SeeksAtCut(runs, positions[..], all, target, u);
      FindSmallest(u);
      direction := Forward;
    }

    /** Steps to the next entry of the union. */
    method Next()
      requires Valid() && at < |all|
      modifies this`current, this`at, this`direction, positions, cached
      ensures Valid() && at == old(at) + 1
    {
      var c := current.value;
      if direction != Forward {
        TurnForward(c);
        direction := Forward;
      }
      StepForward(c);
    }

    method StepForward(c: nat)
      requires Valid() && at < |all| && direction.Forward? && current == Some(c)
      modifies this`current, this`at, positions, cached
      ensures Valid() && at == old(at) + 1
    {
      ghost var before := positions[..];
      NextChild(c);
      CutMoves(runs, before, all, at, c);
      FindSmallest(at + 1);
    }

    /** Puts every other child at its first entry after the key shown. */
    method TurnForward(c: nat)
      requires Valid() && current == Some(c) && direction.Reverse?
      modifies positions, cached
      ensures Shaped() && Shows() && AtCut(runs, positions[..], all, at)
    {
      var key := runs[c][positions[c]].ikey;
      for i := 0 to |runs|
        invariant Shaped() && positions[c] == old(positions[c])
        invariant forall j | 0 <= j < i && j != c :: IsFirstAfter(runs[j], key, positions[j])
      {
        if i != c {
          SeekChild(i, key);
          if positions[i] < |runs[i]| && runs[i][positions[i]].ikey == key {
            NextChild(i);
          }
        }
      }
      OthersAtCut(runs, positions[..], all, at, c);
    }

    /** Steps to the entry before in the union, and past the front to no entry. */
    method Prev()
      requires Valid() && at < |all|
      modifies this`current, this`at, this`direction, positions, cached
      ensures Valid() && at == if old(at) > 0 then old(at) - 1 else |all|
    {
      var c := current.value;
      if direction != Reverse {
        TurnBack(c);
        direction := Reverse;
      }
      StepBack(c);
    }

    method StepBack(c: nat)
      requires Valid() && at < |all| && direction.Reverse? && current == Some(c)
      modifies this`current, this`at, positions, cached
      ensures Valid() && at == if old(at) > 0 then old(at) - 1 else |all|
    {
      ghost var before := positions[..];
      PrevChild(c);
      TailMoves(runs, before, all, at, c);
      FindLargest(if at > 0 then at - 1 else |all|);
    }

    /** Puts every other child at its last entry before the key shown. */
    method TurnBack(c: nat)
      requires Valid() && current == Some(c) && direction.Forward?
      modifies positions, cached
      ensures Shaped() && Shows() && AtTail(runs, positions[..], all, at)
    {
      var key := runs[c][positions[c]].ikey;
      for i := 0 to |runs|
        invariant Shaped() && positions[c] == old(positions[c])
        invariant forall j | 0 <= j < i && j != c :: IsLastBefore(runs[j], key, positions[j])
      {
        if i != c {
          SeekChild(i, key);
          if positions[i] < |runs[i]| {
            PrevChild(i);
          } else {
            SeekToLastChild(i);
          }
        }
      }
      OthersAtTail(runs, positions[..], all, at, c);
    }

    method Entry() returns (e: Entries.Entry)
      requires Valid() && at < |all|
      ensures e == all[at]
    {
      e := runs[current.value][positions[current.value]];
    }
  }
}
