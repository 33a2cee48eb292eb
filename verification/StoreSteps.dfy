/**
 Every step of the store keeps its invariant, part of which is that each read at a live
 snapshot is answered as the complete history of writes answers it.  Installing a
 compaction does so exactly if ReadChanges does not hold of it; all other steps always do.
 */
module StoreSteps {
  import opened Wrappers
  import opened Entries
  import opened Versions
  import opened Selection
  import opened Compactions
  import opened Installs
  import opened Builders
  import opened Replay
  import opened Edits
  import opened Preservation
  import opened Stores

  // ----- Manifests -----

  lemma AppendVersion(edits: seq<Edit>, v: Version, e: Edit, v': Version)
    requires IsVersionAfter(EMPTY_VERSION, edits, v) && IsVersionAfter(v, [e], v')
    ensures IsVersionAfter(EMPTY_VERSION, edits + [e], v')
  {
    assert (edits + [e])[..|edits|] == edits && [e][..0] == [];
    forall l: LevelNumber, f
      ensures f in v'[l] <==> HasAfter(EMPTY_VERSION[l], edits + [e], l, f)
    {
      assert f in v'[l] <==> HasAfter(v[l], [e], l, f);
      assert HasAfter(v[l], [], l, f) <==> f in v[l];
    }
  }

  lemma AppendFresh(edits: seq<Edit>, e: Edit)
    requires FreshHistory(EMPTY_VERSION, edits)
    requires forall l: LevelNumber :: FreshAt([], AddedSoFar(edits, l), AddedAt(e.added, l))
    ensures FreshHistory(EMPTY_VERSION, edits + [e])
    ensures forall l: LevelNumber :: AddedSoFar(edits + [e], l) == AddedSoFar(edits, l) + AddedAt(e.added, l)
  {
    assert (edits + [e])[..|edits|] == edits;
    forall l: LevelNumber
      ensures FreshAt(EMPTY_VERSION[l], AddedSoFar(edits, l), AddedAt(e.added, l))
    {
      assert FreshAt([], AddedSoFar(edits, l), AddedAt(e.added, l));
    }
  }

  lemma VersionFilesWereAdded(edits: seq<Edit>, v: Version, l: LevelNumber, f: File)
    requires IsVersionAfter(EMPTY_VERSION, edits, v) && f in v[l]
    ensures f in AddedSoFar(edits, l)
  {
    HasAfterOrigin(EMPTY_VERSION[l], edits, l, f);
  }

  /** The edit adds files to level t only. */
  ghost predicate AddsAt(e: Edit, t: LevelNumber, outs: Level) {
    forall l: LevelNumber, f :: f in AddedAt(e.added, l) <==> l == t && f in outs
  }

  /** The numbers of the added files are free, except in levels that the files leave. */
  ghost predicate FreeNumbers(v': Version, edits: seq<Edit>, t: LevelNumber, outs: Level, bound: nat) {
    && NumbersName(outs)
    && (forall o | o in outs :: o.number < bound)
    && (forall m: LevelNumber, o, g {:trigger o in outs, g in AddedSoFar(edits, m)} |
         t <= m && o in outs && g in AddedSoFar(edits, m) :: o.number != g.number)
    && (forall l: LevelNumber, o, f {:trigger o in outs, f in v'[l]} |
         l < t && o in outs && f in v'[l] :: o.number != f.number)
  }

  lemma FreshAddition(edits: seq<Edit>, e: Edit, t: LevelNumber, outs: Level, v': Version, bound: nat)
    requires FreshHistory(EMPTY_VERSION, edits) && AddsAt(e, t, outs) && FreeNumbers(v', edits, t, outs, bound)
    ensures FreshHistory(EMPTY_VERSION, edits + [e])
    ensures forall l: LevelNumber, f :: f in AddedSoFar(edits + [e], l) <==>
            f in AddedSoFar(edits, l) || (l == t && f in outs)
  {
    forall l: LevelNumber
      ensures FreshAt([], AddedSoFar(edits, l), AddedAt(e.added, l))
    {
      forall f, g | f in AddedSoFar(edits, l) && g in AddedAt(e.added, l)
        ensures f.number != g.number
      {
        assert g in outs && l == t;
      }
      forall f, g | f in AddedAt(e.added, l) && g in AddedAt(e.added, l) && f.number == g.number
        ensures f == g
      {
        assert f in outs && g in outs;
      }
    }
    AppendFresh(edits, e);
  }

  lemma NumberingAppend(v: Version, edits: seq<Edit>, bound: nat, e: Edit, t: LevelNumber, outs: Level, v': Version,
                        bound': nat)
    requires Numbering(v, edits, bound) && bound <= bound' && IsVersionAfter(EMPTY_VERSION, edits, v)
    requires FreeNumbers(v', edits, t, outs, bound')
    requires forall l: LevelNumber, f | f in v'[l] :: f in v[l] || (l == t && f in outs)
    requires forall l: LevelNumber, f :: f in AddedSoFar(edits + [e], l) <==>
             f in AddedSoFar(edits, l) || (l == t && f in outs)
    ensures Numbering(v', edits + [e], bound')
  {
    forall l: LevelNumber
      ensures NumbersName(v'[l])
    {
      NumbersNameAppend(v, edits, t, outs, v', bound', l);
    }
    forall l: LevelNumber, m: LevelNumber, f, g | l < m && f in v'[l] && g in AddedSoFar(edits + [e], m)
      ensures f.number != g.number
    {
      if g in AddedSoFar(edits, m) {
        assert f in v[l] || f in outs;
      } else {
        assert g in outs && m == t;
      }
    }
  }

  lemma NumbersNameAppend(v: Version, edits: seq<Edit>, t: LevelNumber, outs: Level, v': Version, bound: nat,
                          l: LevelNumber)
    requires NumbersName(v[l]) && IsVersionAfter(EMPTY_VERSION, edits, v)
    requires FreeNumbers(v', edits, t, outs, bound)
    requires forall f | f in v'[l] :: f in v[l] || (l == t && f in outs)
    ensures NumbersName(v'[l])
  {
    forall f, g | f in v'[l] && g in v'[l] && f.number == g.number
      ensures f == g
    {
      if f in v[l] {
        VersionFilesWereAdded(edits, v, l, f);
      }
      if g in v[l] {
        VersionFilesWereAdded(edits, v, l, g);
      }
    }
  }

  /** One more record in the manifest describes the version it leads to. */
  lemma DescribesAppend(m: Manifest, v: Version, e: Edit, t: LevelNumber, outs: Level, v': Version, m': Manifest)
    requires Describes(m, v) && IsVersionAfter(v, [e], v') && AddsAt(e, t, outs)
    requires m'.edits == m.edits + [e] && m.nextFile <= m'.nextFile
    requires FreeNumbers(v', m.edits, t, outs, m'.nextFile)
    requires forall l: LevelNumber, f | f in v'[l] :: f in v[l] || (l == t && f in outs)
    requires SeqnosUpTo(Contents(v'), m'.lastSequence)
    ensures Describes(m', v')
    ensures forall l: LevelNumber, f :: f in AddedSoFar(m'.edits, l) <==>
            f in AddedSoFar(m.edits, l) || (l == t && f in outs)
  {
    var edits := m.edits + [e];
    AppendVersion(m.edits, v, e, v');
    FreshAddition(m.edits, e, t, outs, v', m'.nextFile);
    NumberingAppend(v, m.edits, m.nextFile, e, t, outs, v', m'.nextFile);
    assert m'.edits == edits && forall l: LevelNumber :: AddedSoFar(m'.edits, l) == AddedSoFar(edits, l);
  }

  lemma DescribedIsOrdered(m: Manifest, v: Version)
    requires Describes(m, v)
    ensures forall l: LevelNumber :: Ordered(v[l]) && NumbersName(v[l])
  {
  }

  // ----- Agreement of reads -----

  /** Entries past hi do not change reads up to hi. */
  lemma ReadBelow(s: set<Entry>, r: set<Entry>, k: UserKey, snap: SeqNo)
    requires Distinct(s + r) && SeqnosAfter(r, snap)
    ensures Lookup(s + r, k, snap) == Lookup(s, k, snap)
  {
    DistinctSubset(s + r, s);
    LookupCongruent(s + r, s, k, snap);
  }

  /** With every entry at or below hi, reading later is reading at hi. */
  lemma ReadAbove(s: set<Entry>, k: UserKey, hi: SeqNo, snap: SeqNo)
    requires Distinct(s) && SeqnosUpTo(s, hi) && hi <= snap
    ensures Lookup(s, k, snap) == Lookup(s, k, hi)
  {
    SameCandidates(s, k, snap, hi);
  }

  lemma NewRecordIsNewer(s: set<Entry>, r: set<Entry>, hi: SeqNo)
    requires SeqnosUpTo(s, hi) && SeqnosAfter(r, hi)
    ensures Newer(r, s)
  {
  }

  /** Adding the same newer entries to both sides keeps agreement, and extends it past them. */
  lemma AgreesExtend(a: set<Entry>, b: set<Entry>, r: set<Entry>, lo: SeqNo, hi: SeqNo, hi': SeqNo)
    requires Agrees(a, b, lo, hi) && lo <= hi <= hi'
    requires SeqnosUpTo(a, hi) && SeqnosUpTo(b, hi) && SeqnosAfter(r, hi)
    requires Distinct(a + r) && Distinct(b + r)
    ensures Agrees(a + r, b + r, lo, hi')
  {
    forall k: UserKey, snap: SeqNo | lo <= snap <= hi'
      ensures Lookup(a + r, k, snap).Visible() == Lookup(b + r, k, snap).Visible()
    {
      if snap <= hi {
        assert SeqnosAfter(r, snap);
        ReadBelow(a, r, k, snap);
        ReadBelow(b, r, k, snap);
      } else {
        ExtendedRead(a, r, k, hi, snap);
        ExtendedRead(b, r, k, hi, snap);
        assert Lookup(a, k, hi).Visible() == Lookup(b, k, hi).Visible();
      }
    }
  }

  lemma ExtendedRead(s: set<Entry>, r: set<Entry>, k: UserKey, hi: SeqNo, snap: SeqNo)
    requires SeqnosUpTo(s, hi) && SeqnosAfter(r, hi) && Distinct(s + r) && hi <= snap
    ensures Lookup(s + r, k, snap) == if Lookup(r, k, snap).Miss? then Lookup(s, k, hi) else Lookup(r, k, snap)
  {
    DistinctSubset(s + r, s);
    DistinctSubset(s + r, r);
    NewRecordIsNewer(s, r, hi);
    LookupLayered(r, s, k, snap);
    ReadAbove(s, k, hi, snap);
    assert r + s == s + r;
  }

  lemma AgreesLater(a: set<Entry>, b: set<Entry>, lo: SeqNo, lo': SeqNo, hi: SeqNo)
    requires Agrees(a, b, lo, hi) && lo <= lo'
    ensures Agrees(a, b, lo', hi)
  {
  }

  lemma AgreesThroughCompaction(a: set<Entry>, a': set<Entry>, b: set<Entry>, ss: SeqNo, lo: SeqNo, hi: SeqNo)
    requires Agrees(a, b, lo, hi) && ReadsKept(a, a', ss) && ss <= lo
    ensures Agrees(a', b, lo, hi)
  {
    forall k: UserKey, snap: SeqNo | lo <= snap <= hi
      ensures Lookup(a', k, snap).Visible() == Lookup(b, k, snap).Visible()
    {
      assert Lookup(a, k, snap).Visible() == Lookup(a', k, snap).Visible();
    }
  }

  // ----- A record joins the store -----

  /** A record continues the sequence numbers in use, so no two of its entries or of older ones clash. */
  lemma RecordDistinct(s: set<Entry>, r: seq<Entry>, last: SeqNo)
    requires Distinct(s) && SeqnosUpTo(s, last) && Consecutive(r, last)
    ensures SeqnosAfter(SetOf(r), last) && Distinct(s + SetOf(r))
    ensures Increasing(r)
  {
    forall a, b | a in s + SetOf(r) && b in s + SetOf(r) && a.ikey.user == b.ikey.user && a.ikey.seqno == b.ikey.seqno
      ensures a == b
    {
      if a in r && b in r {
        var i :| 0 <= i < |r| && r[i] == a;
        var j :| 0 <= j < |r| && r[j] == b;
      }
    }
  }

  lemma {:induction false} ReplayAll(logs: map<nat, seq<Entry>>, first: nat, upTo: nat)
    requires first <= upTo && upTo in logs
    ensures ReplayLogs(logs, first, upTo + 1) == ReplayLogs(logs, first, upTo) + logs[upTo]
  {
  }

  /** The entries of all the logs still needed are the memtables and the record in flight. */
  lemma NeededLogEntries(s: Store)
    requires LogsOk(s)
    ensures ReplayLogs(s.disk.logs, s.logNumber, s.logfile + 1) ==
            ReplayLogs(s.disk.logs, s.logNumber, s.logfile) + s.disk.logs[s.logfile]
    ensures SetOf(ReplayLogs(s.disk.logs, s.logNumber, s.logfile + 1)) ==
            SetOf(ImmRun(s)) + SetOf(s.mem) + SetOf(s.logged)
  {
    ReplayAll(s.disk.logs, s.logNumber, s.logfile);
    SetOfConcat(ReplayLogs(s.disk.logs, s.logNumber, s.logfile), s.disk.logs[s.logfile]);
  }

  lemma SetOfConcat(a: seq<Entry>, b: seq<Entry>)
    ensures SetOf(a + b) == SetOf(a) + SetOf(b)
  {
  }

  lemma IncreasingConcat(a: seq<Entry>, b: seq<Entry>, last: SeqNo)
    requires Increasing(a) && Increasing(b) && SeqnosUpTo(SetOf(a), last) && SeqnosAfter(SetOf(b), last)
    ensures Increasing(a + b)
  {
    assert forall i | 0 <= i < |a| :: a[i] in SetOf(a);
    assert forall i | 0 <= i < |b| :: b[i] in SetOf(b);
  }

  lemma IncreasingSuffix(a: seq<Entry>, b: seq<Entry>)
    requires Increasing(a + b)
    ensures Increasing(b)
  {
    forall i, j | 0 <= i < j < |b|
      ensures b[i].ikey.seqno < b[j].ikey.seqno
    {
      assert (a + b)[|a| + i] == b[i] && (a + b)[|a| + j] == b[j];
    }
  }

  // ----- Writers -----

  lemma LogRecordKeepsLogs(s: Store, r: seq<Entry>, s': Store)
    requires LogsOk(s) && SequencesOk(s) && LogRecord(s, r, s')
    requires SeqnosAfter(SetOf(r), s.lastSequence) && Increasing(r)
    ensures LogsOk(s')
  {
    ReplayCongruent(s.disk.logs, s'.disk.logs, s.logNumber, s.logfile);
    NeededLogEntries(s);
    ReplayAll(s'.disk.logs, s.logNumber, s.logfile);
    SetOfConcat(s.disk.logs[s.logfile], r);
    var before := ReplayLogs(s.disk.logs, s.logNumber, s.logfile + 1);
    assert SeqnosUpTo(SetOf(before), s.lastSequence);
    IncreasingConcat(before, r, s.lastSequence);
    assert ReplayLogs(s'.disk.logs, s.logNumber, s.logfile + 1) == before + r;
  }

  lemma LogRecordKeepsInv(s: Store, r: seq<Entry>, s': Store)
    requires Inv(s) && LogRecord(s, r, s')
    ensures Inv(s')
  {
    assert s.history - SetOf(s.logged) == s.history;
    RecordDistinct(s.history, r, s.lastSequence);
    LogRecordKeepsLogs(s, r, s');
    assert Held(s') == Held(s);
    forall k: UserKey, snap: SeqNo | SmallestSnapshot(s) <= snap <= s.lastSequence
      ensures Lookup(Held(s'), k, snap).Visible() == Lookup(s'.history, k, snap).Visible()
    {
      ReadBelow(s.history, SetOf(r), k, snap);
    }
    assert SmallestSnapshot(s') == SmallestSnapshot(s);
  }

  lemma InsertHeld(s: Store, mem': seq<Entry>, s': Store)
    requires InsertRecord(s, mem', s')
    ensures Held(s') == Held(s) + SetOf(s.logged)
  {
  }

  lemma InsertKeepsValid(s: Store, mem': seq<Entry>, s': Store)
    requires ValidStore(MemoryOf(s), s.current) && InsertRecord(s, mem', s')
    requires SeqnosUpTo(Held(s), s.lastSequence) && SeqnosAfter(SetOf(s.logged), s.lastSequence)
    requires Distinct(Held(s) + SetOf(s.logged))
    ensures ValidStore(MemoryOf(s'), s'.current)
  {
    InsertHeld(s, mem', s');
    var imm, deep := SetOf(ImmRun(s)), Contents(s.current);
    NewRecordIsNewer(imm, SetOf(s.logged), s.lastSequence);
    NewRecordIsNewer(deep, SetOf(s.logged), s.lastSequence);
    NewerUnion(SetOf(s.mem), SetOf(s.logged), imm);
    NewerUnion(SetOf(s.mem), SetOf(s.logged), deep);
  }

  lemma InsertKeepsHistory(s: Store, mem': seq<Entry>, s': Store)
    requires HistoryOk(s) && SequencesOk(s) && InsertRecord(s, mem', s')
    requires SeqnosAfter(SetOf(s.logged), s.lastSequence) && Distinct(Held(s) + SetOf(s.logged))
    ensures HistoryOk(s')
  {
    InsertHeld(s, mem', s');
    var r := SetOf(s.logged);
    var b := s.history - r;
    var lo := SmallestSnapshot(s);
    assert b + r == s.history;
    forall k: UserKey, snap: SeqNo | lo <= snap <= s.lastSequence
      ensures Lookup(Held(s), k, snap).Visible() == Lookup(b, k, snap).Visible()
    {
      ReadBelow(b, r, k, snap);
    }
    AgreesExtend(Held(s), b, r, lo, s.lastSequence, s'.lastSequence);
    AgreesLater(Held(s'), s.history, lo, SmallestSnapshot(s'), s'.lastSequence);
    forall e | e in s'.history - SetOf(s'.logged)
      ensures e.ikey.seqno <= s'.lastSequence
    {
      if e in r {
        var i :| 0 <= i < |s.logged| && s.logged[i] == e;
      }
    }
  }

  lemma InsertKeepsSequences(s: Store, mem': seq<Entry>, s': Store)
    requires SequencesOk(s) && InsertRecord(s, mem', s')
    ensures SequencesOk(s')
  {
    InsertHeld(s, mem', s');
    forall e | e in Held(s')
      ensures e.ikey.seqno <= s'.lastSequence
    {
      if e in SetOf(s.logged) {
        var i :| 0 <= i < |s.logged| && s.logged[i] == e;
      }
    }
    if s.logged != [] {
      var e := s.logged[|s.logged|-1];
      assert e in SetOf(s.logged) && e in SetOf(s'.mem);
    } else if e :| e in SetOf(s.mem) + SetOf(ImmRun(s)) && e.ikey.seqno == s.lastSequence {
      assert e in SetOf(s'.mem) + SetOf(ImmRun(s'));
    }
  }

  lemma InsertRecordKeepsInv(s: Store, mem': seq<Entry>, s': Store)
    requires Inv(s) && InsertRecord(s, mem', s')
    ensures Inv(s')
  {
    RecordDistinct(Held(s), s.logged, s.lastSequence);
    InsertKeepsValid(s, mem', s');
    InsertKeepsHistory(s, mem', s');
    InsertKeepsSequences(s, mem', s');
  }

  lemma SwitchKeepsLogs(s: Store, s': Store)
    requires LogsOk(s) && SwitchMemtable(s, s')
    ensures LogsOk(s')
  {
    NeededLogEntries(s);
    ReplayCongruent(s.disk.logs, s'.disk.logs, s.logNumber, s.nextFile);
    ReplayNothing(s.disk.logs, s.logNumber, s.logfile + 1, s.nextFile);
    ReplayAll(s'.disk.logs, s.logNumber, s.nextFile);
  }

  lemma SwitchMemtableKeepsInv(s: Store, s': Store)
    requires Inv(s) && SwitchMemtable(s, s')
    ensures Inv(s')
  {
    SwitchKeepsLogs(s, s');
    assert Held(s') == Held(s);
    assert SetOf(s'.mem) + SetOf(ImmRun(s')) == SetOf(s.mem) + SetOf(ImmRun(s));
    assert SmallestSnapshot(s') == SmallestSnapshot(s);
  }

  // ----- Flushes -----

  lemma CurrentBelow(s: Store)
    requires FilesOk(s)
    ensures NumbersBelow(s.current, s.nextFile)
  {
    forall l, f | 0 <= l < NUM_LEVELS && f in s.current[l]
      ensures f.number < s.nextFile
    {
      VersionFilesWereAdded(s.disk.manifest.edits, s.current, l, f);
    }
  }

  /** A new number is free at every level. */
  lemma NewNumberFree(m: Manifest, v: Version, v': Version, t: LevelNumber, f: File, bound: nat)
    requires Describes(m, v) && m.nextFile <= f.number < bound
    requires forall l: LevelNumber, g | g in v'[l] && l < t :: g in v[l]
    ensures FreeNumbers(v', m.edits, t, [f], bound)
  {
    forall l: LevelNumber, g | l < t && g in v'[l]
      ensures f.number != g.number
    {
      VersionFilesWereAdded(m.edits, v, l, g);
    }
  }

  lemma FlushAddsAt(level: LevelNumber, f: File)
    ensures AddsAt(FlushEdit(level, f), level, [f])
  {
    assert TagFiles(level, [f]) == [(level, f)];
    forall l: LevelNumber
      ensures forall g :: g in AddedAt(FlushEdit(level, f).added, l) <==> l == level && g in [f]
    {
      TagFilesMembers(level, [f], l);
    }
  }

  lemma FlushFacts(s: Store, level: LevelNumber, f: File, v': Version, s': Store)
    requires Inv(s) && FlushMemtable(s, level, f, v', s')
    ensures FlushInstalled(s.current, level, f, v')
    ensures Valid(v') && Contents(v') == Contents(s.current) + SetOf(f.run)
    ensures Held(s') == Held(s)
  {
    DescribedIsOrdered(s.disk.manifest, s.current);
    FlushEditInstalls(s.current, level, f, v');
    FlushContents(s.current, level, f, v');
    CurrentBelow(s);
    DistinctSubset(Held(s), SetOf(f.run) + Contents(s.current));
    FlushKeepsValid(s.current, level, f, v');
  }

  lemma HistoryUnchanged(s: Store, s': Store)
    requires HistoryOk(s) && Held(s') == Held(s)
    requires s'.history == s.history && s'.logged == s.logged
    requires s'.lastSequence == s.lastSequence && s'.snapshots == s.snapshots
    ensures HistoryOk(s')
  {
    assert SmallestSnapshot(s') == SmallestSnapshot(s);
  }

  lemma FlushKeepsPending(s: Store, level: LevelNumber, f: File, s': Store)
    requires PendingOk(s) && f.number == s.nextFile
    requires s'.pending == s.pending && s'.nextFile == s.nextFile + 1 && s'.disk.tables == s.disk.tables[f.number := f]
    requires forall l: LevelNumber, g :: g in AddedSoFar(s'.disk.manifest.edits, l) <==>
               g in AddedSoFar(s.disk.manifest.edits, l) || (l == level && g in [f])
    ensures PendingOk(s')
  {
    forall n, l: LevelNumber, g | n in s'.pending && g in AddedSoFar(s'.disk.manifest.edits, l)
      ensures g.number != n
    {
      if g !in AddedSoFar(s.disk.manifest.edits, l) {
        assert g in [f];
      }
    }
  }

  lemma FlushKeepsFiles(s: Store, level: LevelNumber, f: File, v': Version, s': Store)
    requires FilesOk(s) && s.logfile < s.nextFile && FlushMemtable(s, level, f, v', s')
    requires FlushInstalled(s.current, level, f, v') && SeqnosUpTo(Contents(v'), s.lastSequence)
    ensures FilesOk(s')
    ensures forall l: LevelNumber, g :: g in AddedSoFar(s'.disk.manifest.edits, l) <==>
              g in AddedSoFar(s.disk.manifest.edits, l) || (l == level && g in [f])
  {
    CurrentBelow(s);
    FlushDescribed(s.disk.manifest, s.current, level, f, v', s'.disk.manifest);
    FlushTablesPresent(s.disk.tables, s.current, level, f, v');
    PinnedStayPresent(s.disk.tables, s.pinned, f);
  }

  lemma FlushDescribed(m: Manifest, v: Version, level: LevelNumber, f: File, v': Version, m': Manifest)
    requires Describes(m, v) && m.nextFile <= f.number < m'.nextFile && m'.edits == m.edits + [FlushEdit(level, f)]
    requires IsVersionAfter(v, [FlushEdit(level, f)], v') && FlushInstalled(v, level, f, v')
    requires SeqnosUpTo(Contents(v'), m'.lastSequence)
    ensures Describes(m', v')
    ensures forall l: LevelNumber, g :: g in AddedSoFar(m'.edits, l) <==>
              g in AddedSoFar(m.edits, l) || (l == level && g in [f])
  {
    NewNumberFree(m, v, v', level, f, m'.nextFile);
    FlushAddsAt(level, f);
    DescribesAppend(m, v, FlushEdit(level, f), level, [f], v', m');
  }

  lemma FlushTablesPresent(tables: map<nat, File>, v: Version, level: LevelNumber, f: File, v': Version)
    requires TablesPresent(tables, v) && NumbersBelow(v, f.number) && FlushInstalled(v, level, f, v')
    ensures TablesPresent(tables[f.number := f], v')
  {
    NewTableKeepsOthers(tables, f, v);
    TablesStayPresent(tables[f.number := f], v, level, [f], v');
  }

  lemma PinnedStayPresent(tables: map<nat, File>, pinned: multiset<Version>, f: File)
    requires forall v | v in pinned :: TablesPresent(tables, v) && NumbersBelow(v, f.number)
    ensures forall v | v in pinned :: TablesPresent(tables[f.number := f], v) && NumbersBelow(v, f.number + 1)
  {
    forall v | v in pinned
      ensures TablesPresent(tables[f.number := f], v)
    {
      NewTableKeepsOthers(tables, f, v);
    }
  }

  lemma NewTableKeepsOthers(tables: map<nat, File>, f: File, v: Version)
    requires TablesPresent(tables, v) && NumbersBelow(v, f.number)
    ensures TablesPresent(tables[f.number := f], v)
  {
  }

  lemma FlushKeepsLogs(s: Store, s': Store)
    requires LogsOk(s) && s'.disk.logs == s.disk.logs
    requires s'.logNumber == s.logfile == s'.logfile && s'.imm.None? && s'.mem == s.mem && s'.logged == s.logged
    requires s.nextFile <= s'.nextFile
    ensures LogsOk(s')
  {
    CurrentLogAlone(s.disk.logs, s.logNumber, s.logfile);
  }

  /** What remains to be replayed once only the current log is needed. */
  lemma CurrentLogAlone(logs: map<nat, seq<Entry>>, first: nat, current: nat)
    requires first <= current && current in logs && Increasing(ReplayLogs(logs, first, current + 1))
    ensures ReplayLogs(logs, current, current) == []
    ensures Increasing(ReplayLogs(logs, current, current + 1))
  {
    ReplayAll(logs, first, current);
    ReplayAll(logs, current, current);
    IncreasingSuffix(ReplayLogs(logs, first, current), logs[current]);
    assert [] + logs[current] == logs[current];
  }

  lemma FlushKeepsNumbers(s: Store, level: LevelNumber, f: File, v': Version, s': Store)
    requires FilesOk(s) && PendingOk(s) && s.logfile < s.nextFile && FlushMemtable(s, level, f, v', s')
    requires FlushInstalled(s.current, level, f, v') && SeqnosUpTo(Contents(v'), s.lastSequence)
    ensures FilesOk(s') && PendingOk(s')
  {
    FlushKeepsFiles(s, level, f, v', s');
    FlushKeepsPending(s, level, f, s');
  }

  lemma FlushMemtableKeepsInv(s: Store, level: LevelNumber, f: File, v': Version, s': Store)
    requires Inv(s) && FlushMemtable(s, level, f, v', s')
    ensures Inv(s')
  {
    FlushFacts(s, level, f, v', s');
    assert Contents(v') <= Held(s');
    FlushKeepsNumbers(s, level, f, v', s');
    FlushKeepsLogs(s, s');
    FlushKeepsStore(s, f, v', s');
    HistoryUnchanged(s, s');
  }

  lemma FlushKeepsStore(s: Store, f: File, v': Version, s': Store)
    requires ValidStore(MemoryOf(s), s.current) && s.imm == Some(f.run)
    requires s'.mem == s.mem && s'.imm.None? && s'.current == v'
    requires Valid(v') && Contents(v') == Contents(s.current) + SetOf(f.run)
    ensures ValidStore(MemoryOf(s'), s'.current)
  {
    NewerUnion(Contents(s.current), SetOf(f.run), SetOf(s.mem));
    assert Held(s') == Held(s);
  }

  lemma FlushNothingKeepsInv(s: Store, s': Store)
    requires Inv(s) && FlushNothing(s, s')
    ensures Inv(s')
  {
    FlushKeepsLogs(s, s');
    assert Held(s') == Held(s);
    assert SmallestSnapshot(s') == SmallestSnapshot(s);
    EmptyEditDescribes(s.disk.manifest, s.current, s'.disk.manifest);
    assert forall l: LevelNumber :: AddedSoFar(s'.disk.manifest.edits, l) == AddedSoFar(s.disk.manifest.edits, l);
  }

  lemma EmptyEditDescribes(m: Manifest, v: Version, m': Manifest)
    requires Describes(m, v) && m'.edits == m.edits + [Edit({}, [])]
    requires m.nextFile <= m'.nextFile && m.lastSequence <= m'.lastSequence
    ensures Describes(m', v)
    ensures forall l: LevelNumber :: AddedSoFar(m'.edits, l) == AddedSoFar(m.edits, l)
  {
    var e := Edit({}, []);
    assert m'.edits[..|m.edits|] == m.edits;
    forall l: LevelNumber
      ensures forall f :: f in v[l] <==> HasAfter(v[l], [e], l, f)
      ensures AddedSoFar(m'.edits, l) == AddedSoFar(m.edits, l)
    {
      assert AddedAt(e.added, l) == [] && DeletedAt(e, l) == {};
      forall f
        ensures f in v[l] <==> HasAfter(v[l], [e], l, f)
      {
        AfterOneEdit(v[l], e, l, f);
      }
      assert AddedSoFar(m.edits, l) + [] == AddedSoFar(m.edits, l);
    }
    assert IsVersionAfter(v, [e], v);
    assert AddsAt(e, 0, []);
    DescribesAppend(m, v, e, 0, [], v, m');
  }

  // ----- Compactions -----

  lemma WriteTableKeepsInv(s: Store, f: File, s': Store)
    requires Inv(s) && WriteTable(s, f, s')
    ensures Inv(s')
  {
    WriteTableKeepsFiles(s, f, s');
    WriteTableKeepsPending(s, f, s');
    assert Held(s') == Held(s);
    HistoryUnchanged(s, s');
  }

  lemma WriteTableKeepsFiles(s: Store, f: File, s': Store)
    requires FilesOk(s) && WriteTable(s, f, s')
    ensures FilesOk(s')
  {
    CurrentBelow(s);
    NewTableKeepsOthers(s.disk.tables, f, s.current);
    PinnedStayPresent(s.disk.tables, s.pinned, f);
  }

  lemma WriteTableKeepsPending(s: Store, f: File, s': Store)
    requires FilesOk(s) && PendingOk(s) && WriteTable(s, f, s')
    ensures PendingOk(s')
  {
    forall n, l: LevelNumber, g | n in s'.pending && g in AddedSoFar(s.disk.manifest.edits, l)
      ensures g.number != n
    {
      assert g.number < s.nextFile;
    }
  }

  lemma CompactionAddsAt(c: Compaction, outs: Level)
    requires c.level + 1 < NUM_LEVELS
    ensures AddsAt(CompactionEdit(c, outs), c.level + 1, outs)
  {
    forall l: LevelNumber
      ensures forall g :: g in AddedAt(CompactionEdit(c, outs).added, l) <==> l == c.level + 1 && g in outs
    {
      TagFilesMembers(c.level + 1, outs, l);
    }
  }

  lemma CompactionIsInstalled(v: Version, c: Compaction, outs: Level, v': Version)
    requires Closed(v, c) && IsVersionAfter(v, [CompactionEdit(c, outs)], v') && NumbersName(outs)
    requires forall l: LevelNumber :: Ordered(v[l]) && NumbersName(v[l])
    requires forall g, h | g in v[c.level + 1] && h in outs :: g.number != h.number
    ensures CompactionInstalled(v, c, outs, v')
  {
    InFilesIn(v[c.level + 1], UserRange(c.smallest, c.largest));
    CompactionEditInstalls(v, c, outs, v');
  }

  /** The manifest and the tables after a compaction whose outputs have free numbers. */
  lemma CompactionKeepsFiles(s: Store, c: Compaction, outs: Level, written: set<nat>, v': Version, s': Store)
    requires FilesOk(s) && CommitCompaction(s, c, outs, written, v', s')
    requires CompactionInstalled(s.current, c, outs, v')
    requires FreeNumbers(v', s.disk.manifest.edits, c.level + 1, outs, s.nextFile)
    requires SeqnosUpTo(Contents(v'), s.lastSequence)
    requires forall f | f in outs :: f.number in s.disk.tables && s.disk.tables[f.number] == f
    ensures FilesOk(s')
    ensures forall l: LevelNumber, f :: f in AddedSoFar(s'.disk.manifest.edits, l) <==>
              f in AddedSoFar(s.disk.manifest.edits, l) || (l == c.level + 1 && f in outs)
  {
    CompactionDescribed(s.disk.manifest, s.current, c, outs, v', s'.disk.manifest);
    CompactionFilesFrom(s.current, c, outs, v');
    TablesStayPresent(s.disk.tables, s.current, c.level + 1, outs, v');
  }

  lemma CompactionDescribed(m: Manifest, v: Version, c: Compaction, outs: Level, v': Version, m': Manifest)
    requires Describes(m, v) && CompactionInstalled(v, c, outs, v') && IsVersionAfter(v, [CompactionEdit(c, outs)], v')
    requires m'.edits == m.edits + [CompactionEdit(c, outs)] && m.nextFile <= m'.nextFile
    requires FreeNumbers(v', m.edits, c.level + 1, outs, m'.nextFile) && SeqnosUpTo(Contents(v'), m'.lastSequence)
    ensures Describes(m', v')
    ensures forall l: LevelNumber, f :: f in AddedSoFar(m'.edits, l) <==>
              f in AddedSoFar(m.edits, l) || (l == c.level + 1 && f in outs)
  {
    CompactionAddsAt(c, outs);
    CompactionFilesFrom(v, c, outs, v');
    DescribesAppend(m, v, CompactionEdit(c, outs), c.level + 1, outs, v', m');
  }

  lemma CompactionFilesFrom(v: Version, c: Compaction, outs: Level, v': Version)
    requires CompactionInstalled(v, c, outs, v')
    ensures forall l: LevelNumber, f | f in v'[l] :: f in v[l] || (l == c.level + 1 && f in outs)
  {
    forall l: LevelNumber, f | f in v'[l]
      ensures f in v[l] || (l == c.level + 1 && f in outs)
    {
      if l == c.level || l == c.level + 1 {
      } else {
        assert v'[l] == v[l];
      }
    }
  }

  lemma TablesStayPresent(tables: map<nat, File>, v: Version, t: LevelNumber, outs: Level, v': Version)
    requires TablesPresent(tables, v)
    requires forall f | f in outs :: f.number in tables && tables[f.number] == f
    requires forall l: LevelNumber, f | f in v'[l] :: f in v[l] || (l == t && f in outs)
    ensures TablesPresent(tables, v')
  {
  }

  /** Numbers of tables being written are free. */
  lemma PendingNumbersFree(s: Store, t: LevelNumber, outs: Level, v': Version)
    requires FilesOk(s) && PendingOk(s) && NumbersName(outs)
    requires AreWritten(s, outs)
    requires forall l: LevelNumber, f | f in v'[l] && l < t :: f in s.current[l]
    ensures FreeNumbers(v', s.disk.manifest.edits, t, outs, s.nextFile)
  {
    forall l: LevelNumber, o, f | l < t && o in outs && f in v'[l]
      ensures o.number != f.number
    {
      VersionFilesWereAdded(s.disk.manifest.edits, s.current, l, f);
    }
  }

  lemma OutputsDifferFromLevel(s: Store, l: LevelNumber, outs: Level)
    requires FilesOk(s) && PendingOk(s)
    requires forall f | f in outs :: f.number in s.pending
    ensures forall g, h | g in s.current[l] && h in outs :: g.number != h.number
  {
    forall g, h | g in s.current[l] && h in outs
      ensures g.number != h.number
    {
      VersionFilesWereAdded(s.disk.manifest.edits, s.current, l, g);
    }
  }

  lemma InstallFacts(s: Store, c: Compaction, m: seq<Entry>, ss: SeqNo, outs: Level, v': Version, s': Store)
    requires Inv(s) && InstallCompaction(s, c, m, ss, outs, v', s')
    ensures CompactionInstalled(s.current, c, outs, v')
    ensures ValidStore(MemoryOf(s), v') && Contents(v') <= Contents(s.current)
    ensures ReadsKept(Held(s), Everything(MemoryOf(s), v'), SmallestSnapshot(s)) <==>
            !ReadChanges(Held(s), s.current, c, m, ss, SmallestSnapshot(s))
  {
    DescribedIsOrdered(s.disk.manifest, s.current);
    OutputsDifferFromLevel(s, c.level + 1, outs);
    CompactionIsInstalled(s.current, c, outs, v');
    CompactionKeepsReadsIff(MemoryOf(s), s.current, c, m, ss, SmallestSnapshot(s), outs, v');
  }

  lemma ShrunkSequences(s: Store, s': Store)
    requires SequencesOk(s) && Held(s') <= Held(s)
    requires s'.logged == s.logged && s'.snapshots == s.snapshots
    requires s'.lastSequence == s.lastSequence == s'.disk.manifest.lastSequence
    ensures SequencesOk(s')
  {
  }

  lemma InstallKeepsFiles(s: Store, c: Compaction, outs: Level, v': Version, s': Store)
    requires FilesOk(s) && PendingOk(s) && CommitCompaction(s, c, outs, NumbersOf(outs), v', s')
    requires NumbersName(outs) && AreWritten(s, outs)
    requires CompactionInstalled(s.current, c, outs, v') && SeqnosUpTo(Contents(v'), s.lastSequence)
    ensures FilesOk(s') && PendingOk(s')
  {
    CompactionFilesFrom(s.current, c, outs, v');
    PendingNumbersFree(s, c.level + 1, outs, v');
    CompactionKeepsFiles(s, c, outs, NumbersOf(outs), v', s');
    InstallKeepsPending(s, c, outs, s');
  }

  lemma LogsUnchanged(s: Store, s': Store)
    requires LogsOk(s) && s'.disk.logs == s.disk.logs && s'.logNumber == s.logNumber && s'.logfile == s.logfile
    requires s'.nextFile == s.nextFile && s'.mem == s.mem && s'.imm == s.imm && s'.logged == s.logged
    ensures LogsOk(s')
  {
  }

  lemma InstallKeepsPending(s: Store, c: Compaction, outs: Level, s': Store)
    requires PendingOk(s) && s'.pending == s.pending - NumbersOf(outs)
    requires s'.nextFile == s.nextFile && s'.disk.tables == s.disk.tables
    requires forall l: LevelNumber, f :: f in AddedSoFar(s'.disk.manifest.edits, l) <==>
               f in AddedSoFar(s.disk.manifest.edits, l) || (l == c.level + 1 && f in outs)
    ensures PendingOk(s')
  {
    forall n, l: LevelNumber, g | n in s'.pending && g in AddedSoFar(s'.disk.manifest.edits, l)
      ensures g.number != n
    {
      if g in outs {
        assert g.number in NumbersOf(outs);
      }
    }
  }

  /** Shrinking what is held keeps the agreement exactly if it keeps the reads. */
  lemma AgreesAfterShrinking(a: set<Entry>, a': set<Entry>, b: set<Entry>, lo: SeqNo, hi: SeqNo)
    requires Agrees(a, b, lo, hi) && lo <= hi && Distinct(a) && SeqnosUpTo(a, hi) && a' <= a
    ensures Agrees(a', b, lo, hi) <==> ReadsKept(a, a', lo)
  {
    if ReadsKept(a, a', lo) {
      AgreesThroughCompaction(a, a', b, lo, lo, hi);
    }
    if Agrees(a', b, lo, hi) {
      DistinctSubset(a, a');
      forall k: UserKey, snap: SeqNo | lo <= snap
        ensures Lookup(a, k, snap).Visible() == Lookup(a', k, snap).Visible()
      {
        AgreeingRead(a, a', b, lo, hi, k, snap);
      }
    }
  }

  lemma AgreeingRead(a: set<Entry>, a': set<Entry>, b: set<Entry>, lo: SeqNo, hi: SeqNo, k: UserKey, snap: SeqNo)
    requires Agrees(a, b, lo, hi) && Agrees(a', b, lo, hi) && lo <= hi && lo <= snap
    requires Distinct(a) && Distinct(a') && SeqnosUpTo(a, hi) && SeqnosUpTo(a', hi)
    ensures Lookup(a, k, snap).Visible() == Lookup(a', k, snap).Visible()
  {
    var now := if snap <= hi then snap else hi;
    if snap > hi {
      ReadAbove(a, k, hi, snap);
      ReadAbove(a', k, hi, snap);
    }
    assert Lookup(a, k, now).Visible() == Lookup(b, k, now).Visible();
    assert Lookup(a', k, now).Visible() == Lookup(b, k, now).Visible();
  }

  lemma InstallKeepsHistory(s: Store, s': Store)
    requires HistoryOk(s) && SequencesOk(s) && Distinct(Held(s)) && Held(s') <= Held(s)
    requires s'.history == s.history && s'.logged == s.logged
    requires s'.lastSequence == s.lastSequence && s'.snapshots == s.snapshots
    ensures ReadsKept(Held(s), Held(s'), SmallestSnapshot(s)) <==> AnswersHistory(s')
    ensures AnswersHistory(s') ==> HistoryOk(s')
  {
    AgreesAfterShrinking(Held(s), Held(s'), s.history, SmallestSnapshot(s), s.lastSequence);
  }

  /** What a compaction record does not touch, given that the contents do not grow. */
  lemma CommitKeepsRest(s: Store, c: Compaction, outs: Level, written: set<nat>, v': Version, s': Store)
    requires LogsOk(s) && SequencesOk(s) && CommitCompaction(s, c, outs, written, v', s')
    requires Contents(v') <= Contents(s.current)
    ensures LogsOk(s') && SequencesOk(s')
    ensures SeqnosUpTo(Contents(v'), s.lastSequence)
    ensures MemoryOf(s') == MemoryOf(s) && SmallestSnapshot(s') == SmallestSnapshot(s)
  {
    LogsUnchanged(s, s');
    ShrunkSequences(s, s');
    assert Contents(v') <= Held(s);
  }

  /** Installing a compaction keeps the invariant exactly if it changes no read that can still be asked for. */
  lemma InstallKeepsInvIff(s: Store, c: Compaction, m: seq<Entry>, ss: SeqNo, outs: Level, v': Version, s': Store)
    requires Inv(s) && InstallCompaction(s, c, m, ss, outs, v', s')
    ensures AnswersHistory(s') <==> !ReadChanges(Held(s), s.current, c, m, ss, SmallestSnapshot(s))
    ensures AnswersHistory(s') <==> Inv(s')
  {
    InstallFacts(s, c, m, ss, outs, v', s');
    CommitKeepsRest(s, c, outs, NumbersOf(outs), v', s');
    InstallKeepsFiles(s, c, outs, v', s');
    InstallKeepsHistory(s, s');
  }

  /** So it does if the second inputs are boundary closed and some sequence number is larger than ss. */
  lemma InstallCompactionKeepsInv(s: Store, c: Compaction, m: seq<Entry>, ss: SeqNo, outs: Level, v': Version,
                                  s': Store)
    requires Inv(s) && InstallCompaction(s, c, m, ss, outs, v', s')
    requires BoundaryClosed(s.current, c) && ss < MAX_SEQUENCE
    ensures Inv(s')
  {
    ClosedChangesNothing(Held(s), s.current, c, m, ss, SmallestSnapshot(s));
    InstallKeepsInvIff(s, c, m, ss, outs, v', s');
  }

  lemma NextLevelNumbersDiffer(m: Manifest, v: Version, level: nat, f: File)
    requires Describes(m, v) && level + 1 < NUM_LEVELS && f in v[level]
    ensures forall g | g in v[level + 1] :: g.number != f.number
  {
    forall g | g in v[level + 1]
      ensures g.number != f.number
    {
      VersionFilesWereAdded(m.edits, v, level + 1, g);
    }
  }

  lemma MoveIsInstalled(m: Manifest, v: Version, c: Compaction, f: File, v': Version)
    requires Describes(m, v) && Closed(v, c) && c.inputs0 == [f]
    requires IsVersionAfter(v, [CompactionEdit(c, c.inputs0)], v')
    ensures f in v[c.level] && CompactionInstalled(v, c, c.inputs0, v')
  {
    DescribedIsOrdered(m, v);
    assert f in c.inputs0;
    NextLevelNumbersDiffer(m, v, c.level, f);
    assert forall h | h in c.inputs0 :: h == f;
    CompactionIsInstalled(v, c, c.inputs0, v');
  }

  /** A trivial move moves the contents unchanged. */
  lemma MoveKeepsContents(v: Version, c: Compaction, f: File, v': Version)
    requires Valid(v) && Closed(v, c) && c.inputs0 == [f] && c.inputs1 == []
    requires CompactionInstalled(v, c, c.inputs0, v')
    ensures Valid(v') && Contents(v') == Contents(v)
  {
    OneFileInputs(c, f);
    CompactionKeepsValid(v, c, c.inputs0, v');
    CompactionContents(v, c, c.inputs0, v');
    forall e | e in Inputs(c)
      ensures e in Contents(v)
    {
      InputsInContents(v, c, e);
    }
  }

  lemma MoveLeavesLevel(v: Version, c: Compaction, f: File, v': Version)
    requires CompactionInstalled(v, c, c.inputs0, v') && c.inputs0 == [f]
    ensures forall l: LevelNumber, g | l <= c.level && g in v'[l] :: g in v[l] && (l == c.level ==> g != f)
  {
    assert f in c.inputs0;
    CompactionFilesFrom(v, c, c.inputs0, v');
  }

  lemma OneFileInputs(c: Compaction, f: File)
    requires c.inputs0 == [f] && c.inputs1 == []
    ensures Flatten(c.inputs0) == f.run && Inputs(c) == SetOf(f.run)
  {
    assert [f][..0] == [];
    assert Flatten([f]) == [] + f.run;
    EntriesOfOne(f);
    assert EntriesOf(c.inputs1) == {};
  }

  lemma MovedNumberFree(m: Manifest, v: Version, c: Compaction, f: File, v': Version)
    requires Describes(m, v) && c.level + 1 < NUM_LEVELS && f in v[c.level]
    requires forall l: LevelNumber, g | l <= c.level && g in v'[l] :: g in v[l] && (l == c.level ==> g != f)
    ensures FreeNumbers(v', m.edits, c.level + 1, [f], m.nextFile)
  {
    VersionFilesWereAdded(m.edits, v, c.level, f);
    forall l: LevelNumber, g | l < c.level + 1 && g in v'[l]
      ensures f.number != g.number
    {
      if l == c.level {
        assert NumbersName(v[l]);
      } else {
        assert g in v[l];
      }
    }
  }

  lemma FreeNumbersLater(v: Version, edits: seq<Edit>, t: LevelNumber, outs: Level, bound: nat, bound': nat)
    requires FreeNumbers(v, edits, t, outs, bound) && bound <= bound'
    ensures FreeNumbers(v, edits, t, outs, bound')
  {
  }

  lemma MoveKeepsPending(s: Store, c: Compaction, s': Store)
    requires PendingOk(s) && IsVersionAfter(EMPTY_VERSION, s.disk.manifest.edits, s.current)
    requires c.level + 1 < NUM_LEVELS && forall f | f in c.inputs0 :: f in s.current[c.level]
    requires s'.pending == s.pending && s'.nextFile == s.nextFile && s'.disk.tables == s.disk.tables
    requires forall l: LevelNumber, f :: f in AddedSoFar(s'.disk.manifest.edits, l) <==>
               f in AddedSoFar(s.disk.manifest.edits, l) || (l == c.level + 1 && f in c.inputs0)
    ensures PendingOk(s')
  {
    forall n, l: LevelNumber, g | n in s'.pending && g in AddedSoFar(s'.disk.manifest.edits, l)
      ensures g.number != n
    {
      if g in c.inputs0 {
        VersionFilesWereAdded(s.disk.manifest.edits, s.current, c.level, g);
      }
    }
  }

  lemma SameContentsValid(s: Store, s': Store)
    requires ValidStore(MemoryOf(s), s.current) && MemoryOf(s') == MemoryOf(s)
    requires Valid(s'.current) && Contents(s'.current) == Contents(s.current)
    ensures ValidStore(MemoryOf(s'), s'.current) && Held(s') == Held(s)
  {
  }

  lemma MovedNumberFreeNow(m: Manifest, v: Version, c: Compaction, f: File, v': Version, bound: nat)
    requires Describes(m, v) && c.level + 1 < NUM_LEVELS && f in v[c.level] && c.inputs0 == [f]
    requires CompactionInstalled(v, c, c.inputs0, v') && m.nextFile <= bound
    ensures FreeNumbers(v', m.edits, c.level + 1, c.inputs0, bound)
    ensures IsVersionAfter(EMPTY_VERSION, m.edits, v)
  {
    MoveLeavesLevel(v, c, f, v');
    MovedNumberFree(m, v, c, f, v');
    FreeNumbersLater(v', m.edits, c.level + 1, [f], m.nextFile, bound);
  }

  lemma MovedTablePresent(tables: map<nat, File>, v: Version, c: Compaction, f: File)
    requires TablesPresent(tables, v) && c.level < NUM_LEVELS && f in v[c.level] && c.inputs0 == [f]
    ensures forall g | g in c.inputs0 :: g.number in tables && tables[g.number] == g
    ensures forall g | g in c.inputs0 :: g in v[c.level]
  {
  }

  lemma MoveKeepsNumbers(s: Store, c: Compaction, v': Version, s': Store)
    requires FilesOk(s) && PendingOk(s) && MoveFile(s, c, v', s')
    requires Valid(s.current) && SeqnosUpTo(Contents(s.current), s.lastSequence)
    ensures FilesOk(s') && PendingOk(s')
    ensures Valid(v') && Contents(v') == Contents(s.current)
  {
    var f := c.inputs0[0];
    MoveIsInstalled(s.disk.manifest, s.current, c, f, v');
    MoveKeepsContents(s.current, c, f, v');
    MovedFileKept(s, c, f, v', s');
  }

  lemma MovedFileKept(s: Store, c: Compaction, f: File, v': Version, s': Store)
    requires FilesOk(s) && PendingOk(s) && CommitCompaction(s, c, c.inputs0, {}, v', s')
    requires CompactionInstalled(s.current, c, c.inputs0, v') && f in s.current[c.level] && c.inputs0 == [f]
    requires SeqnosUpTo(Contents(v'), s.lastSequence)
    ensures FilesOk(s') && PendingOk(s')
  {
    FilesParts(s);
    MoveKeepsFiles(s, c, f, v', s');
    OtherFilesKept(s, s');
    DescribedVersion(s.disk.manifest, s.current);
    MoveKeepsPending(s, c, s');
  }

  lemma FilesParts(s: Store)
    requires FilesOk(s)
    ensures Describes(s.disk.manifest, s.current) && TablesPresent(s.disk.tables, s.current)
    ensures s.disk.manifest.nextFile <= s.nextFile
  {
  }

  lemma DescribedVersion(m: Manifest, v: Version)
    requires Describes(m, v)
    ensures IsVersionAfter(EMPTY_VERSION, m.edits, v)
  {
  }

  lemma MoveKeepsFiles(s: Store, c: Compaction, f: File, v': Version, s': Store)
    requires Describes(s.disk.manifest, s.current) && TablesPresent(s.disk.tables, s.current)
    requires s.disk.manifest.nextFile <= s.nextFile && CommitCompaction(s, c, c.inputs0, {}, v', s')
    requires CompactionInstalled(s.current, c, c.inputs0, v') && f in s.current[c.level] && c.inputs0 == [f]
    requires SeqnosUpTo(Contents(v'), s.lastSequence)
    ensures Describes(s'.disk.manifest, s'.current) && TablesPresent(s'.disk.tables, s'.current)
    ensures forall l: LevelNumber, g :: g in AddedSoFar(s'.disk.manifest.edits, l) <==>
              g in AddedSoFar(s.disk.manifest.edits, l) || (l == c.level + 1 && g in c.inputs0)
    ensures forall g | g in c.inputs0 :: g in s.current[c.level]
  {
    MoveDescribed(s.disk.manifest, s.current, c, f, v', s'.disk.manifest);
    MovedTablesPresent(s.disk.tables, s.current, c, f, v');
  }

  /** What FilesOk says of pinned versions and counters survives a new manifest record. */
  lemma OtherFilesKept(s: Store, s': Store)
    requires FilesOk(s) && s'.disk.tables == s.disk.tables && s'.pinned == s.pinned
    requires s'.nextFile == s.nextFile == s'.disk.manifest.nextFile && s'.logNumber == s.logNumber
    requires s'.lastSequence == s.lastSequence == s'.disk.manifest.lastSequence
    requires s'.disk.manifest.logNumber == s.logNumber
    requires Describes(s'.disk.manifest, s'.current) && TablesPresent(s'.disk.tables, s'.current)
    ensures FilesOk(s')
  {
  }

  lemma MoveDescribed(m: Manifest, v: Version, c: Compaction, f: File, v': Version, m': Manifest)
    requires Describes(m, v) && CompactionInstalled(v, c, c.inputs0, v') && f in v[c.level] && c.inputs0 == [f]
    requires IsVersionAfter(v, [CompactionEdit(c, c.inputs0)], v')
    requires m'.edits == m.edits + [CompactionEdit(c, c.inputs0)] && m.nextFile <= m'.nextFile
    requires SeqnosUpTo(Contents(v'), m'.lastSequence)
    ensures Describes(m', v')
    ensures forall l: LevelNumber, g :: g in AddedSoFar(m'.edits, l) <==>
              g in AddedSoFar(m.edits, l) || (l == c.level + 1 && g in c.inputs0)
  {
    MovedNumberFreeNow(m, v, c, f, v', m'.nextFile);
    CompactionDescribed(m, v, c, c.inputs0, v', m');
  }

  lemma MovedTablesPresent(tables: map<nat, File>, v: Version, c: Compaction, f: File, v': Version)
    requires TablesPresent(tables, v) && CompactionInstalled(v, c, c.inputs0, v') && f in v[c.level] && c.inputs0 == [f]
    ensures TablesPresent(tables, v')
    ensures forall g | g in c.inputs0 :: g in v[c.level]
  {
    MovedTablePresent(tables, v, c, f);
    CompactionFilesFrom(v, c, c.inputs0, v');
    TablesStayPresent(tables, v, c.level + 1, c.inputs0, v');
  }

  lemma MoveFileKeepsInv(s: Store, c: Compaction, v': Version, s': Store)
    requires Inv(s) && MoveFile(s, c, v', s')
    ensures Inv(s')
  {
    assert Contents(s.current) <= Held(s);
    MoveKeepsNumbers(s, c, v', s');
    CommitKeepsRest(s, c, c.inputs0, {}, v', s');
    SameContentsValid(s, s');
    HistoryUnchanged(s, s');
  }

  lemma AbandonTablesKeepsInv(s: Store, numbers: set<nat>, s': Store)
    requires Inv(s) && AbandonTables(s, numbers, s')
    ensures Inv(s')
  {
    assert Held(s') == Held(s) && SmallestSnapshot(s') == SmallestSnapshot(s);
  }

  lemma ListedIsLive(s: Store, v: Version)
    requires v == s.current || v in s.pinned
    requires TablesPresent(s.disk.tables, v)
    ensures TablesPresent(LiveTables(s), v)
  {
    forall l, f | 0 <= l < NUM_LEVELS && f in v[l]
      ensures f.number in LiveTables(s) && LiveTables(s)[f.number] == f
    {
      assert Lists(v, f.number);
    }
  }

  /** Nothing that a version, a running compaction or recovery still needs is deleted. */
  lemma DeleteObsoleteFilesKeepsInv(s: Store, s': Store)
    requires Inv(s) && DeleteObsoleteFiles(s, s')
    ensures Inv(s')
  {
    ListedIsLive(s, s.current);
    forall v | v in s.pinned
      ensures TablesPresent(s'.disk.tables, v)
    {
      ListedIsLive(s, v);
    }
    ReplayCongruent(s.disk.logs, s'.disk.logs, s.logNumber, s.logfile);
    ReplayCongruent(s.disk.logs, s'.disk.logs, s.logNumber, s.logfile + 1);
    assert Held(s') == Held(s) && SmallestSnapshot(s') == SmallestSnapshot(s);
  }

  // ----- Readers -----

  lemma TakeSnapshotKeepsInv(s: Store, s': Store)
    requires Inv(s) && TakeSnapshot(s, s')
    ensures Inv(s')
  {
    TakenSnapshots(s, s');
    RaisedSnapshotKeepsHistory(s, s');
  }

  lemma TakenSnapshots(s: Store, s': Store)
    requires SequencesOk(s) && TakeSnapshot(s, s')
    ensures SequencesOk(s') && SmallestSnapshot(s') == SmallestSnapshot(s) && Held(s') == Held(s)
  {
    assert Held(s') == Held(s);
  }

  /** Releasing takes the one named out of the list, and leaves the others in their order. */
  lemma ReleasedOne(snapshots: seq<SeqNo>, i: nat)
    requires i < |snapshots|
    ensures var left := snapshots[..i] + snapshots[i+1..];
            && multiset(left) == multiset(snapshots) - multiset{snapshots[i]} && |left| == |snapshots| - 1
            && forall j | 0 <= j < |left| :: left[j] == snapshots[if j < i then j else j + 1]
  {
    assert snapshots == snapshots[..i] + [snapshots[i]] + snapshots[i+1..];
  }

  /** Releasing a snapshot can only raise the smallest one. */
  lemma ReleasedSnapshots(s: Store, i: nat, s': Store)
    requires SequencesOk(s) && ReleaseSnapshot(s, i, s')
    ensures SequencesOk(s') && SmallestSnapshot(s) <= SmallestSnapshot(s')
  {
    assert Held(s') == Held(s);
  }

  lemma RaisedSnapshotKeepsHistory(s: Store, s': Store)
    requires HistoryOk(s) && Held(s') == Held(s) && SmallestSnapshot(s) <= SmallestSnapshot(s')
    requires s'.history == s.history && s'.logged == s.logged && s'.lastSequence == s.lastSequence
    ensures HistoryOk(s')
  {
    AgreesLater(Held(s), s.history, SmallestSnapshot(s), SmallestSnapshot(s'), s.lastSequence);
  }

  lemma ReleaseSnapshotKeepsInv(s: Store, i: nat, s': Store)
    requires Inv(s) && ReleaseSnapshot(s, i, s')
    ensures Inv(s')
  {
    ReleasedSnapshots(s, i, s');
    RaisedSnapshotKeepsHistory(s, s');
  }

  lemma PinVersionKeepsInv(s: Store, s': Store)
    requires Inv(s) && PinVersion(s, s')
    ensures Inv(s')
  {
    CurrentBelow(s);
    assert Held(s') == Held(s) && SmallestSnapshot(s') == SmallestSnapshot(s);
  }

  lemma UnpinVersionKeepsInv(s: Store, v: Version, s': Store)
    requires Inv(s) && UnpinVersion(s, v, s')
    ensures Inv(s')
  {
    assert Held(s') == Held(s) && SmallestSnapshot(s') == SmallestSnapshot(s);
  }
}
