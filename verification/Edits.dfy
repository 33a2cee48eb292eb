/**
 The edits that a flush, a compaction and a trivial move log, and the versions that
 applying them installs.
 */
module Edits {
  import opened Entries
  import opened Versions
  import opened Selection
  import opened Installs
  import opened Builders
  import opened Replay

  function TagFiles(level: LevelNumber, files: Level): (added: seq<(LevelNumber, File)>)
    ensures |added| == |files|
    ensures forall i | 0 <= i < |files| :: added[i] == (level, files[i])
  {
    seq(|files|, i requires 0 <= i < |files| => (level, files[i]))
  }

  function NumbersAt(level: LevelNumber, files: Level): set<(LevelNumber, nat)> {
    set f | f in files :: (level, f.number)
  }

  /** One file added to a level. */
  function FlushEdit(level: LevelNumber, f: File): Edit {
    Edit({}, [(level, f)])
  }

  /** Several files added to level 0, as recovery does. */
  function LevelZeroEdit(files: Level): Edit {
    Edit({}, TagFiles(0, files))
  }

  /** AddInputDeletions followed by the outputs; a trivial move outputs its one input. */
  function CompactionEdit(c: Compaction, outs: Level): Edit
    requires c.level + 1 < NUM_LEVELS
  {
    Edit(NumbersAt(c.level, c.inputs0) + NumbersAt(c.level + 1, c.inputs1), TagFiles(c.level + 1, outs))
  }

  lemma TagFilesMembers(level: LevelNumber, files: Level, l: LevelNumber)
    ensures forall f :: f in AddedAt(TagFiles(level, files), l) <==> l == level && f in files
  {
    InAddedAt(TagFiles(level, files), l);
    forall f
      ensures (l, f) in TagFiles(level, files) <==> l == level && f in files
    {
      if l == level && f in files {
        var i :| 0 <= i < |files| && files[i] == f;
        assert TagFiles(level, files)[i] == (l, f);
      }
    }
  }

  /** Reading one edit off the definition of HasAfter. */
  lemma AfterOneEdit(base: Level, e: Edit, l: LevelNumber, f: File)
    requires NumbersName(AddedAt(e.added, l))
    ensures HasAfter(base, [e], l, f) <==> (f in base || f in AddedAt(e.added, l)) && !Deletes(e, l, f)
  {
    assert [e][..0] == [];
    AllPlaced(AddedAt(e.added, l));
  }

  lemma AddedFilesOnly(v: Version, level: LevelNumber, files: Level, l: LevelNumber, f: File)
    requires NumbersName(files)
    ensures HasAfter(v[l], [Edit({}, TagFiles(level, files))], l, f) <==> f in v[l] || (l == level && f in files)
  {
    var e := Edit({}, TagFiles(level, files));
    TagFilesMembers(level, files, l);
    AfterOneEdit(v[l], e, l, f);
    assert DeletedAt(e, l) == {};
  }

  /** The version after a flush edit is the old one with the file in its place. */
  lemma FlushEditInstalls(v: Version, level: LevelNumber, f: File, v': Version)
    requires IsVersionAfter(v, [FlushEdit(level, f)], v')
    requires forall l: LevelNumber :: Ordered(v[l])
    ensures FlushInstalled(v, level, f, v')
  {
    assert TagFiles(level, [f]) == [(level, f)];
    forall l: LevelNumber
      ensures forall g :: g in v'[l] <==> g in v[l] || (l == level && g == f)
      ensures l != level ==> v'[l] == v[l]
    {
      forall g
        ensures g in v'[l] <==> g in v[l] || (l == level && g == f)
      {
        AddedFilesOnly(v, level, [f], l, g);
      }
      if l != level {
        OrderedUnique(v'[l], v[l]);
      }
    }
  }

  lemma DeletedNumbers(c: Compaction, outs: Level, l: LevelNumber)
    requires c.level + 1 < NUM_LEVELS
    ensures DeletedAt(CompactionEdit(c, outs), l) ==
            if l == c.level then NumbersOf(c.inputs0) else if l == c.level + 1 then NumbersOf(c.inputs1) else {}
  {
    var e := CompactionEdit(c, outs);
    forall n
      ensures n in DeletedAt(e, l) <==>
              (l == c.level && n in NumbersOf(c.inputs0)) || (l == c.level + 1 && n in NumbersOf(c.inputs1))
    {
      if n in DeletedAt(e, l) {
        var d :| d in e.deleted && d.0 == l && d.1 == n;
      }
      if l == c.level && n in NumbersOf(c.inputs0) {
        assert (l, n) in e.deleted;
      }
      if l == c.level + 1 && n in NumbersOf(c.inputs1) {
        assert (l, n) in e.deleted;
      }
    }
  }

  /** Deleting by number removes exactly the chosen files, and no output is deleted. */
  lemma CompactionEditLevel(v: Version, c: Compaction, outs: Level, l: LevelNumber, f: File)
    requires c.level + 1 < NUM_LEVELS && NumbersName(v[l]) && NumbersName(outs)
    requires forall g | g in c.inputs0 :: g in v[c.level]
    requires forall g | g in c.inputs1 :: g in v[c.level + 1]
    requires forall g, h | g in v[c.level + 1] && h in outs :: g.number != h.number
    ensures HasAfter(v[l], [CompactionEdit(c, outs)], l, f) <==>
            if l == c.level then f in v[l] && f !in c.inputs0
            else if l == c.level + 1 then (f in v[l] && f !in c.inputs1) || f in outs
            else f in v[l]
  {
    var e := CompactionEdit(c, outs);
    TagFilesMembers(c.level + 1, outs, l);
    AfterOneEdit(v[l], e, l, f);
    DeletedNumbers(c, outs, l);
    assert f in AddedAt(e.added, l) ==> f.number in NumbersOf(AddedAt(e.added, l));
    if l == c.level {
      NumberInSelection(v[l], c.inputs0, f);
      assert NumbersOf(AddedAt(e.added, l)) == {};
    } else if l == c.level + 1 {
      NumberInSelection(v[l], c.inputs1, f);
      assert forall g | g in AddedAt(e.added, l) :: g in outs;
      if f in v[l] {
        assert f.number !in NumbersOf(AddedAt(e.added, l));
      }
    }
  }

  lemma NumberInSelection(files: Level, sel: Level, f: File)
    requires NumbersName(files) && forall g | g in sel :: g in files
    ensures f in files ==> (f.number in NumbersOf(sel) <==> f in sel)
  {
  }

  lemma CompactionEditInstalls(v: Version, c: Compaction, outs: Level, v': Version)
    requires c.level + 1 < NUM_LEVELS && IsVersionAfter(v, [CompactionEdit(c, outs)], v')
    requires NumbersName(outs) && forall l: LevelNumber :: Ordered(v[l]) && NumbersName(v[l])
    requires forall g | g in c.inputs0 :: g in v[c.level]
    requires forall g | g in c.inputs1 :: g in v[c.level + 1]
    requires forall g, h | g in v[c.level + 1] && h in outs :: g.number != h.number
    ensures CompactionInstalled(v, c, outs, v')
  {
    forall l: LevelNumber, f
      ensures f in v'[l] <==>
        if l == c.level then f in v[l] && f !in c.inputs0
        else if l == c.level + 1 then (f in v[l] && f !in c.inputs1) || f in outs
        else f in v[l]
    {
      CompactionEditLevel(v, c, outs, l, f);
    }
    forall l: LevelNumber | l != c.level && l != c.level + 1
      ensures v'[l] == v[l]
    {
      OrderedUnique(v'[l], v[l]);
    }
  }
}
