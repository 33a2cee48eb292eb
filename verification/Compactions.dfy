/**
 What a compaction does to the data: the loop that drops entries, the moving cursor
 that decides whether deeper levels can hold a key, and the effect on reads.
 */
module Compactions {
  import opened Wrappers
  import opened Comparator
  import opened Entries
  import opened Versions
  import opened Selection

  // ----- IsBaseLevelForKey -----

  predicate Spans(f: File, k: UserKey) {
    f.Smallest().user <= k <= f.Largest().user
  }

  /** No file of the levels past the output level has k in its range. */
  predicate BaseLevel(v: Version, level: nat, k: UserKey) {
    forall l, f | level + 2 <= l < NUM_LEVELS && f in v[l] :: !Spans(f, k)
  }

  /** The part of a running compaction that remembers, per level, how far keys have got. */
  class BaseLevelCursor {
    const version: Version
    const level: nat
    var levelPtrs: array<nat>

    constructor (v: Version, level: nat)
      ensures version == v && this.level == level
      ensures fresh(levelPtrs) && Sized()
      ensures forall k :: Behind(k)
    {
      version := v;
      this.level := level;
      levelPtrs := new nat[NUM_LEVELS](_ => 0);
    }

    predicate Sized()
      reads this, levelPtrs
    {
      levelPtrs.Length == NUM_LEVELS
    }

    /** Every file of level l already passed ends before k. */
    predicate Passed(l: nat, k: UserKey)
      requires l < NUM_LEVELS
      reads this, levelPtrs
    {
      && Sized()
      && levelPtrs[l] <= |version[l]|
      && forall j | 0 <= j < levelPtrs[l] :: version[l][j].Largest().user < k
    }

    predicate Behind(k: UserKey)
      reads this, levelPtrs
    {
      Sized() && forall l | 0 <= l < NUM_LEVELS :: Passed(l, k)
    }

    lemma BehindMonotone(k: UserKey, k': UserKey)
      requires Behind(k) && k <= k'
      ensures Behind(k')
    {
      forall l | 0 <= l < NUM_LEVELS
        ensures Passed(l, k')
      {
        assert Passed(l, k);
      }
    }

    /** Equals a full scan of the deeper levels, for keys asked in non-decreasing order. */
    method IsBaseLevelForKey(k: UserKey) returns (b: bool)
      requires Behind(k)
      requires forall l | 1 <= l < NUM_LEVELS :: SortedLevel(version[l])
      modifies levelPtrs
      ensures Behind(k)
      ensures b <==> BaseLevel(version, level, k)
    {
      for lvl := level + 2 to if level + 2 < NUM_LEVELS then NUM_LEVELS else level + 2
        invariant Behind(k)
        invariant forall l, f | level + 2 <= l < lvl && l < NUM_LEVELS && f in version[l] :: !Spans(f, k)
      {
        var spanned := AdvanceLevel(lvl, k);
        if spanned {
          return false;
        }
      }
      return true;
    }

    /** One level of the scan: moves past the files that end before k. */
    method AdvanceLevel(lvl: nat, k: UserKey) returns (spanned: bool)
      requires Behind(k) && 1 <= lvl < NUM_LEVELS && SortedLevel(version[lvl])
      modifies levelPtrs
      ensures Behind(k)
      ensures spanned <==> exists f :: f in version[lvl] && Spans(f, k)
    {
      var files := version[lvl];
      assert Passed(lvl, k);
      spanned := false;
      while levelPtrs[lvl] < |files|
        invariant Sized() && Passed(lvl, k)
        invariant forall l | 0 <= l < NUM_LEVELS && l != lvl :: levelPtrs[l] == old(levelPtrs[l])
        decreases |files| - levelPtrs[lvl]
      {
        var f := files[levelPtrs[lvl]];
        if k <= f.Largest().user {
          if k >= f.Smallest().user {
            assert f in version[lvl] && Spans(f, k);
            spanned := true;
          }
          break;
        }
        levelPtrs[lvl] := levelPtrs[lvl] + 1;
      }
      if !spanned {
        NoFileSpans(files, levelPtrs[lvl], k);
      }
      forall l | 0 <= l < NUM_LEVELS
        ensures Passed(l, k)
      {
        assert old(Passed(l, k));
      }
    }
  }

  lemma NoFileSpans(files: Level, ptr: nat, k: UserKey)
    requires SortedLevel(files) && ptr <= |files|
    requires forall j | 0 <= j < ptr :: files[j].Largest().user < k
    requires ptr < |files| ==> k < files[ptr].Smallest().user
    ensures forall f | f in files :: !Spans(f, k)
  {
    forall f | f in files
      ensures !Spans(f, k)
    {
      var j :| 0 <= j < |files| && files[j] == f;
      if j > ptr {
        FileRange(files[ptr], files[ptr].run[0]);
        assert Less(files[ptr].Largest(), files[j].Smallest());
      }
    }
  }

  // ----- Which entries are dropped -----

  /** Rule (A): the entry before it has the same user key and is old enough for every snapshot. */
  predicate Hidden(m: seq<Entry>, i: int, ss: SeqNo)
    requires 0 <= i < |m|
  {
    i > 0 && m[i-1].ikey.user == m[i].ikey.user && m[i-1].ikey.seqno <= ss
  }

  /** The deletion-marker rule. */
  predicate Obsolete(v: Version, level: nat, m: seq<Entry>, i: int, ss: SeqNo)
    requires 0 <= i < |m|
  {
    m[i].ikey.kind.Deletion? && m[i].ikey.seqno <= ss && BaseLevel(v, level, m[i].ikey.user)
  }

  predicate Dropped(v: Version, level: nat, m: seq<Entry>, i: int, ss: SeqNo)
    requires 0 <= i < |m|
  {
    Hidden(m, i, ss) || Obsolete(v, level, m, i, ss)
  }

  /** The entries that survive among the first n. */
  function Kept(v: Version, level: nat, m: seq<Entry>, n: nat, ss: SeqNo): seq<Entry>
    requires n <= |m|
  {
    if n == 0 then []
    else Kept(v, level, m, n - 1, ss) + if Dropped(v, level, m, n - 1, ss) then [] else [m[n-1]]
  }

  lemma {:induction false} KeptMembers(v: Version, level: nat, m: seq<Entry>, n: nat, ss: SeqNo)
    requires n <= |m|
    ensures forall e :: e in Kept(v, level, m, n, ss) <==>
            exists i :: 0 <= i < n && m[i] == e && !Dropped(v, level, m, i, ss)
  {
    if n > 0 {
      KeptMembers(v, level, m, n - 1, ss);
    }
  }

  lemma {:induction false} KeptSorted(v: Version, level: nat, m: seq<Entry>, n: nat, ss: SeqNo)
    requires n <= |m| && Sorted(m)
    ensures Sorted(Kept(v, level, m, n, ss))
  {
    if n > 0 {
      KeptSorted(v, level, m, n - 1, ss);
      KeptMembers(v, level, m, n - 1, ss);
      var front := Kept(v, level, m, n - 1, ss);
      forall j | 0 <= j < |front|
        ensures Less(front[j].ikey, m[n-1].ikey)
      {
        assert front[j] in front;
      }
    }
  }

  // ----- DoCompactionWork -----

  function Concat(runs: seq<seq<Entry>>): seq<Entry> {
    if runs == [] then [] else Concat(runs[..|runs|-1]) + runs[|runs|-1]
  }

  /**
   The compaction loop over the merged inputs.  Where output files are cut is left
   to chance: stopBefore stands for the grandparent-overlap test and bigEnough for
   the size test of the file being written.  The loop marks the first entry of a user key
   by the largest sequence number, so a smallest snapshot of that number drops everything.
   */
  method DoCompactionWork(c: BaseLevelCursor, m: seq<Entry>, ss: SeqNo, stopBefore: seq<bool>, bigEnough: seq<bool>)
    returns (outputs: seq<seq<Entry>>)
    requires Sorted(m)
    requires |stopBefore| == |bigEnough| == |m|
    requires forall l | 1 <= l < NUM_LEVELS :: SortedLevel(c.version[l])
    requires m != [] ==> c.Behind(m[0].ikey.user)
    modifies c.levelPtrs
    ensures Concat(outputs) == Written(c.version, c.level, m, |m|, ss) && Sorted(Concat(outputs))
    ensures forall r | r in outputs :: r != [] && forall e | e in r :: e in m
    ensures forall i | 0 <= i < |m| :: (exists r :: r in outputs && m[i] in r) <==>
              && ss < MAX_SEQUENCE
              && (forall j | 0 <= j < i && m[j].ikey.user == m[i].ikey.user :: ss < m[j].ikey.seqno)
              && (m[i].ikey.kind.Deletion? && m[i].ikey.seqno <= ss ==>
                   exists l, f :: c.level + 2 <= l < NUM_LEVELS && f in c.version[l]
                     && f.run[0].ikey.user <= m[i].ikey.user <= f.run[|f.run|-1].ikey.user)
  {
    outputs := [];
    var builder: seq<Entry> := [];
    var currentUserKey: Option<UserKey> := None;
    var lastSequenceForKey: SeqNo := MAX_SEQUENCE;
    for i := 0 to |m|
      invariant Concat(outputs) + builder == Written(c.version, c.level, m, i, ss)
      invariant forall r | r in outputs :: r != []
      invariant i == 0 ==> currentUserKey.None?
      invariant i > 0 ==> currentUserKey == Some(m[i-1].ikey.user) && lastSequenceForKey == m[i-1].ikey.seqno
      invariant i < |m| ==> c.Behind(m[i].ikey.user)
    {
      outputs, builder := Cut(outputs, builder, stopBefore[i]);
      var drop;
      drop, currentUserKey, lastSequenceForKey := HandleKey(c, m, i, ss, currentUserKey, lastSequenceForKey);
      NextWritten(c.version, c.level, m, i, ss, Concat(outputs), builder);
      if !drop {
        outputs, builder := Cut(outputs, builder + [m[i]], bigEnough[i]);
      }
    }
    outputs, builder := Cut(outputs, builder, true);
    OutputsMembers(c.version, c.level, m, ss, outputs);
  }

  /** What the loop keeps, entry by entry. */
  lemma OutputsMembers(v: Version, level: nat, m: seq<Entry>, ss: SeqNo, outputs: seq<seq<Entry>>)
    requires Sorted(m) && Concat(outputs) == Written(v, level, m, |m|, ss)
    ensures Sorted(Concat(outputs)) && forall r | r in outputs :: forall e | e in r :: e in m
    ensures forall i | 0 <= i < |m| :: (exists r :: r in outputs && m[i] in r) <==>
              && ss < MAX_SEQUENCE
              && (forall j | 0 <= j < i && m[j].ikey.user == m[i].ikey.user :: ss < m[j].ikey.seqno)
              && (m[i].ikey.kind.Deletion? && m[i].ikey.seqno <= ss ==>
                   exists l, f :: level + 2 <= l < NUM_LEVELS && f in v[l]
                     && f.run[0].ikey.user <= m[i].ikey.user <= f.run[|f.run|-1].ikey.user)
  {
    KeptSorted(v, level, m, |m|, ss);
    forall r | r in outputs
      ensures forall e | e in r :: e in m
    {
      OutputFromInput(v, level, m, ss, outputs, r);
    }
    forall i | 0 <= i < |m|
      ensures (exists r :: r in outputs && m[i] in r) <==>
              && ss < MAX_SEQUENCE
              && (forall j | 0 <= j < i && m[j].ikey.user == m[i].ikey.user :: ss < m[j].ikey.seqno)
              && (m[i].ikey.kind.Deletion? && m[i].ikey.seqno <= ss ==>
                   exists l, f :: level + 2 <= l < NUM_LEVELS && f in v[l]
                     && f.run[0].ikey.user <= m[i].ikey.user <= f.run[|f.run|-1].ikey.user)
    {
      OutputMember(v, level, m, ss, outputs, i);
      HiddenByAny(m, i, ss);
      BaseLevelMeans(v, level, m[i].ikey.user);
    }
  }

  lemma OutputFromInput(v: Version, level: nat, m: seq<Entry>, ss: SeqNo, outputs: seq<seq<Entry>>, r: seq<Entry>)
    requires Concat(outputs) == Written(v, level, m, |m|, ss) && r in outputs
    ensures forall e | e in r :: e in m
  {
    KeptMembers(v, level, m, |m|, ss);
    forall e | e in r
      ensures e in m
    {
      ConcatMembers(outputs, e);
    }
  }

  lemma OutputMember(v: Version, level: nat, m: seq<Entry>, ss: SeqNo, outputs: seq<seq<Entry>>, i: nat)
    requires Sorted(m) && Concat(outputs) == Written(v, level, m, |m|, ss) && i < |m|
    ensures (exists r :: r in outputs && m[i] in r) <==> ss < MAX_SEQUENCE && !Dropped(v, level, m, i, ss)
  {
    ConcatMembers(outputs, m[i]);
    KeptMembers(v, level, m, |m|, ss);
    ListedOnce(m, i);
  }

  lemma BaseLevelMeans(v: Version, level: nat, k: UserKey)
    ensures !BaseLevel(v, level, k) <==>
            exists l, f :: level + 2 <= l < NUM_LEVELS && f in v[l]
                           && f.run[0].ikey.user <= k <= f.run[|f.run|-1].ikey.user
  {
    if l, f :| level + 2 <= l < NUM_LEVELS && f in v[l] && f.run[0].ikey.user <= k <= f.run[|f.run|-1].ikey.user {
      assert Spans(f, k);
    }
    if !BaseLevel(v, level, k) {
      var l, f :| level + 2 <= l < NUM_LEVELS && f in v[l] && Spans(f, k);
      assert f.run[0].ikey.user <= k <= f.run[|f.run|-1].ikey.user;
    }
  }

  lemma {:induction false} ConcatMembers(runs: seq<seq<Entry>>, e: Entry)
    ensures e in Concat(runs) <==> exists r :: r in runs && e in r
  {
    if runs != [] {
      var n := |runs| - 1;
      ConcatMembers(runs[..n], e);
      assert runs == runs[..n] + [runs[n]];
    }
  }

  lemma ListedOnce(m: seq<Entry>, i: nat)
    requires Sorted(m) && i < |m|
    ensures forall j | 0 <= j < |m| && m[j] == m[i] :: j == i
  {
  }

  /** The entry before it is the least old of those of its user key, so it decides for all of them. */
  lemma HiddenByAny(m: seq<Entry>, i: nat, ss: SeqNo)
    requires Sorted(m) && i < |m|
    ensures Hidden(m, i, ss) <==> exists j :: 0 <= j < i && m[j].ikey.user == m[i].ikey.user && m[j].ikey.seqno <= ss
  {
    if j :| 0 <= j < i && m[j].ikey.user == m[i].ikey.user && m[j].ikey.seqno <= ss {
      assert Less(m[i-1].ikey, m[i].ikey);
      assert j < i - 1 ==> Less(m[j].ikey, m[i-1].ikey);
    }
  }

  /** Of a key whose newest entry is an obsolete marker nothing is written. */
  lemma ObsoleteKeyGoes(v: Version, level: nat, m: seq<Entry>, ss: SeqNo, outputs: seq<seq<Entry>>, i: nat)
    requires Sorted(m) && Concat(outputs) == Written(v, level, m, |m|, ss) && i < |m|
    requires m[i].ikey.kind.Deletion? && m[i].ikey.seqno <= ss
    requires forall l, f | level + 2 <= l < NUM_LEVELS && f in v[l] ::
               !(f.run[0].ikey.user <= m[i].ikey.user <= f.run[|f.run|-1].ikey.user)
    requires forall j | 0 <= j < i :: m[j].ikey.user != m[i].ikey.user
    ensures forall r, e | r in outputs && e in r :: e.ikey.user != m[i].ikey.user
  {
    forall r, e | r in outputs && e in r
      ensures e.ikey.user != m[i].ikey.user
    {
      OutputFromInput(v, level, m, ss, outputs, r);
      var j :| 0 <= j < |m| && m[j] == e;
      OutputMember(v, level, m, ss, outputs, j);
      HiddenByAny(m, j, ss);
      BaseLevelMeans(v, level, m[j].ikey.user);
    }
  }

  /** Closes the file being written, if there is one, at a place where it may be cut. */
  method Cut(outputs: seq<seq<Entry>>, builder: seq<Entry>, here: bool)
    returns (outputs': seq<seq<Entry>>, builder': seq<Entry>)
    requires forall r | r in outputs :: r != []
    ensures forall r | r in outputs' :: r != []
    ensures Concat(outputs') + builder' == Concat(outputs) + builder
    ensures here ==> builder' == [] && Concat(outputs') == Concat(outputs) + builder
  {
    outputs', builder' := outputs, builder;
    if here && builder != [] {
      outputs', builder' := FinishOutput(outputs, builder);
      assert Concat(outputs') + [] == Concat(outputs');
    } else {
      assert here ==> Concat(outputs) + [] == Concat(outputs);
    }
  }

  /** What the loop keeps of the first n entries. */
  function Written(v: Version, level: nat, m: seq<Entry>, n: nat, ss: SeqNo): seq<Entry>
    requires n <= |m|
  {
    if ss == MAX_SEQUENCE then [] else Kept(v, level, m, n, ss)
  }

  lemma {:induction false} NextWritten(v: Version, level: nat, m: seq<Entry>, i: nat, ss: SeqNo, a: seq<Entry>,
                                       b: seq<Entry>)
    requires i < |m| && a + b == Written(v, level, m, i, ss)
    ensures var drop := ss == MAX_SEQUENCE || Dropped(v, level, m, i, ss);
            Written(v, level, m, i + 1, ss) == if drop then a + b else a + (b + [m[i]])
  {
    assert a + b + [m[i]] == a + (b + [m[i]]);
  }

  /** Decides the fate of entry i and remembers its user key and sequence number. */
  method HandleKey(c: BaseLevelCursor, m: seq<Entry>, i: nat, ss: SeqNo, currentUserKey: Option<UserKey>,
                   lastSequenceForKey: SeqNo)
    returns (drop: bool, current: Option<UserKey>, last: SeqNo)
    requires Sorted(m) && i < |m|
    requires forall l | 1 <= l < NUM_LEVELS :: SortedLevel(c.version[l])
    requires c.Behind(m[i].ikey.user)
    requires i == 0 ==> currentUserKey.None?
    requires i > 0 ==> currentUserKey == Some(m[i-1].ikey.user) && lastSequenceForKey == m[i-1].ikey.seqno
    modifies c.levelPtrs
    ensures drop == (ss == MAX_SEQUENCE || Dropped(c.version, c.level, m, i, ss))
    ensures current == Some(m[i].ikey.user) && last == m[i].ikey.seqno
    ensures i + 1 < |m| ==> c.Behind(m[i+1].ikey.user)
  {
    var ikey := m[i].ikey;
    current, last := currentUserKey, lastSequenceForKey;
    if current.None? || ikey.user != current.value {
      current := Some(ikey.user);
      last := MAX_SEQUENCE;
    }
    drop := false;
    if last <= ss {
      drop := true;
    } else if ikey.kind.Deletion? && ikey.seqno <= ss {
      drop := c.IsBaseLevelForKey(ikey.user);
    }
    last := ikey.seqno;
    if i + 1 < |m| {
      assert Less(m[i].ikey, m[i+1].ikey);
      c.BehindMonotone(m[i].ikey.user, m[i+1].ikey.user);
    }
  }

  /** Closes the file being written. */
  method FinishOutput(outputs: seq<seq<Entry>>, builder: seq<Entry>)
    returns (outputs': seq<seq<Entry>>, builder': seq<Entry>)
    requires builder != []
    ensures outputs' == outputs + [builder] && builder' == []
    ensures Concat(outputs') + builder' == Concat(outputs) + builder
  {
    outputs', builder' := outputs + [builder], [];
    assert outputs'[..|outputs'|-1] == outputs;
  }

  // ----- The effect on reads -----

  /** The store's entries after the inputs are replaced by what was written. */
  function After(s: set<Entry>, v: Version, level: nat, m: seq<Entry>, ss: SeqNo): set<Entry> {
    (s - SetOf(m)) + SetOf(Written(v, level, m, |m|, ss))
  }

  lemma AfterMembers(s: set<Entry>, v: Version, level: nat, m: seq<Entry>, ss: SeqNo, e: Entry)
    requires SetOf(m) <= s && ss < MAX_SEQUENCE
    ensures e in After(s, v, level, m, ss) <==>
            e in s && (e !in m || exists i :: 0 <= i < |m| && m[i] == e && !Dropped(v, level, m, i, ss))
    ensures e in After(s, v, level, m, ss) ==> e in s
  {
    KeptMembers(v, level, m, |m|, ss);
    if i :| 0 <= i < |m| && m[i] == e {
      assert e in SetOf(m);
    }
  }

  lemma AfterIsSubset(s: set<Entry>, v: Version, level: nat, m: seq<Entry>, ss: SeqNo)
    requires SetOf(m) <= s
    ensures After(s, v, level, m, ss) <= s
  {
    KeptMembers(v, level, m, |m|, ss);
    forall e | e in After(s, v, level, m, ss)
      ensures e in s
    {
      if e in Written(v, level, m, |m|, ss) {
        assert e in SetOf(m);
      }
    }
  }

  /** Everything in the inputs older than an entry no snapshot can see past is dropped. */
  lemma OlderInputsHidden(m: seq<Entry>, ss: SeqNo, i: nat, j: nat)
    requires Sorted(m) && i < j < |m|
    requires m[i].ikey.user == m[j].ikey.user && m[i].ikey.seqno <= ss
    ensures Hidden(m, j, ss)
  {
    if i < j - 1 {
      assert Less(m[i].ikey, m[j-1].ikey) && Less(m[j-1].ikey, m[j].ikey);
    }
  }

  /** A dropped entry that answered a read was a deletion marker, and answered at ss too. */
  lemma DroppedAnswerIsMarker(s: set<Entry>, v: Version, level: nat, m: seq<Entry>, ss: SeqNo, snap: SeqNo, i: nat)
    requires Distinct(s) && Sorted(m) && SetOf(m) <= s && ss <= snap && i < |m|
    requires Dropped(v, level, m, i, ss) && IsLatest(s, m[i].ikey.user, snap, m[i])
    ensures Obsolete(v, level, m, i, ss) && !Hidden(m, i, ss)
    ensures IsLatest(s, m[i].ikey.user, ss, m[i])
  {
    if i > 0 {
      assert m[i-1] in SetOf(m) && m[i] in SetOf(m);
      assert Less(m[i-1].ikey, m[i].ikey);
    }
  }

  /**
   Reading a key whose newest entry is a dropped deletion marker: the answer comes
   from outside the inputs, from what the marker used to cover.
   */
  lemma ReadPastMarker(s: set<Entry>, v: Version, level: nat, m: seq<Entry>, ss: SeqNo, snap: SeqNo, i: nat)
    requires Distinct(s) && Sorted(m) && SetOf(m) <= s && i < |m| && ss < MAX_SEQUENCE
    requires Obsolete(v, level, m, i, ss) && IsLatest(s, m[i].ikey.user, snap, m[i])
    ensures Lookup(After(s, v, level, m, ss), m[i].ikey.user, snap) ==
            Lookup(s - SetOf(m), m[i].ikey.user, m[i].ikey.seqno)
  {
    var k, after, outside := m[i].ikey.user, After(s, v, level, m, ss), s - SetOf(m);
    AfterIsSubset(s, v, level, m, ss);
    DistinctSubset(s, after);
    DistinctSubset(s, outside);
    forall e
      ensures Candidate(after, k, snap, e) <==> Candidate(outside, k, snap, e)
    {
      AfterMembers(s, v, level, m, ss, e);
      if Candidate(after, k, snap, e) && e in m {
        var j :| 0 <= j < |m| && m[j] == e && !Dropped(v, level, m, j, ss);
        assert m[i] in SetOf(m);
        MarkerComesFirst(s, m, snap, i, j);
        if j > i {
          OlderInputsHidden(m, ss, i, j);
        }
        assert false;
      }
    }
    LookupCongruent(after, outside, k, snap);
    forall e
      ensures Candidate(outside, k, snap, e) <==> Candidate(outside, k, m[i].ikey.seqno, e)
    {
      if Candidate(outside, k, snap, e) {
        assert Candidate(s, k, snap, e);
      }
    }
    SameCandidates(outside, k, snap, m[i].ikey.seqno);
  }

  lemma MarkerComesFirst(s: set<Entry>, m: seq<Entry>, snap: SeqNo, i: nat, j: nat)
    requires Distinct(s) && Sorted(m) && SetOf(m) <= s && i < |m| && j < |m|
    requires IsLatest(s, m[i].ikey.user, snap, m[i]) && Candidate(s, m[i].ikey.user, snap, m[j])
    ensures i <= j
  {
    assert m[i] in SetOf(m) && m[j] in SetOf(m);
  }

  lemma SameCandidates(s: set<Entry>, k: UserKey, snap: SeqNo, snap': SeqNo)
    requires Distinct(s)
    requires forall e :: Candidate(s, k, snap, e) <==> Candidate(s, k, snap', e)
    ensures Lookup(s, k, snap) == Lookup(s, k, snap')
  {
    if c :| Candidate(s, k, snap, c) {
      var e := LatestExists(s, k, snap, c);
      LookupLatest(s, k, snap, e);
      assert Candidate(s, k, snap', e);
      forall o | o in s && o.ikey.user == k && o.ikey.seqno <= snap'
        ensures o.ikey.seqno <= e.ikey.seqno
      {
        assert Candidate(s, k, snap', o);
        assert Candidate(s, k, snap, o);
      }
      assert IsLatest(s, k, snap', e);
      LookupLatest(s, k, snap', e);
    } else {
      LookupMiss(s, k, snap);
      LookupMiss(s, k, snap');
    }
  }

  /** An answer that is kept still answers. */
  lemma KeptAnswerStands(s: set<Entry>, v: Version, level: nat, m: seq<Entry>, ss: SeqNo, k: UserKey, snap: SeqNo,
                         e: Entry)
    requires Distinct(s) && SetOf(m) <= s
    requires IsLatest(s, k, snap, e) && e in After(s, v, level, m, ss)
    ensures Lookup(After(s, v, level, m, ss), k, snap) == Lookup(s, k, snap)
  {
    var after := After(s, v, level, m, ss);
    AfterIsSubset(s, v, level, m, ss);
    DistinctSubset(s, after);
    assert IsLatest(after, k, snap, e);
    LookupLatest(after, k, snap, e);
    LookupLatest(s, k, snap, e);
  }

  /**
   m[i] is a deletion marker that the loop drops although it is what reads from `from` on
   report, and what it covers outside the inputs is a value.
   */
  ghost predicate Resurrects(s: set<Entry>, v: Version, level: nat, m: seq<Entry>, ss: SeqNo, from: SeqNo, i: nat)
    requires i < |m|
  {
    && Obsolete(v, level, m, i, ss)
    && IsLatest(s, m[i].ikey.user, from, m[i])
    && Lookup(s - SetOf(m), m[i].ikey.user, m[i].ikey.seqno).Found?
  }

  /** m[i] is what reads at a sequence number report, and without the inputs they report something else. */
  ghost predicate Answers(s: set<Entry>, m: seq<Entry>, snap: SeqNo, i: nat)
    requires i < |m|
  {
    && IsLatest(s, m[i].ikey.user, snap, m[i])
    && Lookup(s - SetOf(m), m[i].ikey.user, snap).Visible() != OutcomeOf(m[i]).Visible()
  }

  ghost predicate ReadsKept(s: set<Entry>, t: set<Entry>, from: SeqNo) {
    forall k: UserKey, snap: SeqNo | from <= snap :: Lookup(s, k, snap).Visible() == Lookup(t, k, snap).Visible()
  }

  /** Without a resurrected key, no read from `from` on changes. */
  lemma NoResurrectionKeepsRead(s: set<Entry>, v: Version, level: nat, m: seq<Entry>, ss: SeqNo, from: SeqNo,
                                k: UserKey, snap: SeqNo)
    requires Distinct(s) && Sorted(m) && SetOf(m) <= s && ss <= from <= snap && ss < MAX_SEQUENCE
    requires forall i | 0 <= i < |m| :: !Resurrects(s, v, level, m, ss, from, i)
    ensures Lookup(s, k, snap).Visible() == Lookup(After(s, v, level, m, ss), k, snap).Visible()
  {
    var after := After(s, v, level, m, ss);
    if c :| Candidate(s, k, snap, c) {
      var e := LatestExists(s, k, snap, c);
      LookupLatest(s, k, snap, e);
      AfterMembers(s, v, level, m, ss, e);
      if e in after {
        KeptAnswerStands(s, v, level, m, ss, k, snap, e);
      } else {
        var i :| 0 <= i < |m| && m[i] == e;
        DroppedAnswerIsMarker(s, v, level, m, ss, snap, i);
        assert IsLatest(s, k, from, e);
        assert !Resurrects(s, v, level, m, ss, from, i);
        ReadPastMarker(s, v, level, m, ss, snap, i);
      }
    } else {
      NothingToRead(s, after, v, level, m, ss, k, snap);
    }
  }

  lemma NothingToRead(s: set<Entry>, after: set<Entry>, v: Version, level: nat, m: seq<Entry>, ss: SeqNo, k: UserKey,
                      snap: SeqNo)
    requires SetOf(m) <= s && after == After(s, v, level, m, ss) && forall c :: !Candidate(s, k, snap, c)
    ensures Lookup(s, k, snap) == Miss == Lookup(after, k, snap)
  {
    LookupMiss(s, k, snap);
    AfterIsSubset(s, v, level, m, ss);
    forall e
      ensures !Candidate(after, k, snap, e)
    {
      assert !Candidate(s, k, snap, e);
    }
    LookupMiss(after, k, snap);
  }

  /** With everything dropped, a read changes if an input answered it and nothing else gives that answer. */
  lemma NothingWrittenRead(s: set<Entry>, v: Version, level: nat, m: seq<Entry>, k: UserKey)
    requires Distinct(s) && SetOf(m) <= s && forall i | 0 <= i < |m| :: !Answers(s, m, MAX_SEQUENCE, i)
    ensures Lookup(s, k, MAX_SEQUENCE).Visible() ==
            Lookup(After(s, v, level, m, MAX_SEQUENCE), k, MAX_SEQUENCE).Visible()
  {
    var after := After(s, v, level, m, MAX_SEQUENCE);
    assert after == s - SetOf(m);
    if c :| Candidate(s, k, MAX_SEQUENCE, c) {
      var e := LatestExists(s, k, MAX_SEQUENCE, c);
      LookupLatest(s, k, MAX_SEQUENCE, e);
      if e in m {
        var i :| 0 <= i < |m| && m[i] == e;
        assert !Answers(s, m, MAX_SEQUENCE, i);
      } else {
        KeptAnswerStands(s, v, level, m, MAX_SEQUENCE, k, MAX_SEQUENCE, e);
      }
    } else {
      NothingToRead(s, after, v, level, m, MAX_SEQUENCE, k, MAX_SEQUENCE);
    }
  }

  /** m[i] is dropped, and reads from `from` on miss it. */
  ghost predicate Missed(s: set<Entry>, v: Version, level: nat, m: seq<Entry>, ss: SeqNo, from: SeqNo, i: nat)
    requires i < |m|
  {
    if ss == MAX_SEQUENCE then Answers(s, m, from, i) else Resurrects(s, v, level, m, ss, from, i)
  }

  lemma NoneMissed(s: set<Entry>, v: Version, level: nat, m: seq<Entry>, ss: SeqNo, from: SeqNo, k: UserKey,
                   snap: SeqNo)
    requires Distinct(s) && Sorted(m) && SetOf(m) <= s && ss <= from <= snap
    requires forall i | 0 <= i < |m| :: !Missed(s, v, level, m, ss, from, i)
    ensures Lookup(s, k, snap).Visible() == Lookup(After(s, v, level, m, ss), k, snap).Visible()
  {
    if ss == MAX_SEQUENCE {
      forall i | 0 <= i < |m|
        ensures !Answers(s, m, MAX_SEQUENCE, i)
      {
        assert !Missed(s, v, level, m, ss, from, i);
      }
      NothingWrittenRead(s, v, level, m, k);
    } else {
      forall i | 0 <= i < |m|
        ensures !Resurrects(s, v, level, m, ss, from, i)
      {
        assert !Missed(s, v, level, m, ss, from, i);
      }
      NoResurrectionKeepsRead(s, v, level, m, ss, from, k, snap);
    }
  }

  lemma OneMissed(s: set<Entry>, v: Version, level: nat, m: seq<Entry>, ss: SeqNo, from: SeqNo, i: nat)
    requires Distinct(s) && Sorted(m) && SetOf(m) <= s && ss <= from && i < |m| && Missed(s, v, level, m, ss, from, i)
    ensures Lookup(s, m[i].ikey.user, from).Visible() !=
            Lookup(After(s, v, level, m, ss), m[i].ikey.user, from).Visible()
  {
    LookupLatest(s, m[i].ikey.user, from, m[i]);
    if ss < MAX_SEQUENCE {
      ReadPastMarker(s, v, level, m, ss, from, i);
    } else {
      assert After(s, v, level, m, ss) == s - SetOf(m);
    }
  }

  /** Exactly when a compaction changes no read from a sequence number at or after its smallest snapshot on. */
  lemma ReadsKeptIff(s: set<Entry>, v: Version, level: nat, m: seq<Entry>, ss: SeqNo, from: SeqNo)
    requires Distinct(s) && Sorted(m) && SetOf(m) <= s && ss <= from
    ensures ReadsKept(s, After(s, v, level, m, ss), from) <==>
            forall i | 0 <= i < |m| :: !Missed(s, v, level, m, ss, from, i)
  {
    if forall i | 0 <= i < |m| :: !Missed(s, v, level, m, ss, from, i) {
      forall k: UserKey, snap: SeqNo | from <= snap
        ensures Lookup(s, k, snap).Visible() == Lookup(After(s, v, level, m, ss), k, snap).Visible()
      {
        NoneMissed(s, v, level, m, ss, from, k, snap);
      }
    } else {
      var i :| 0 <= i < |m| && Missed(s, v, level, m, ss, from, i);
      OneMissed(s, v, level, m, ss, from, i);
    }
  }
}
