/**
 Entries, the internal-key order on them, and the simple specification of the
 store: a set of entries, read at a user key and a sequence number.

 A user key is a `real`.  Only the comparator's order of keys is ever used, any
 order on byte strings is an order on rationals, and Comparator.RankEmbedsOrder
 gives the embedding for the default comparator.
 */
module Entries {
  import opened Comparator

  type UserKey = real

  datatype Kind = Deletion | Value

  const MAX_SEQUENCE: nat := 0xff_ffff_ffff_ffff

  /** Sequence numbers leave eight bits of a 64-bit word for the type. */
  type SeqNo = n: nat | n <= MAX_SEQUENCE

  datatype IKey = IKey(user: UserKey, seqno: SeqNo, kind: Kind) {
    /** Sequence number and type packed in one number, the type in the low 8 bits. */
    function Tag(): nat {
      seqno * 256 + if kind.Value? then 1 else 0
    }
  }

  datatype Entry = Entry(ikey: IKey, value: Bytes)

  /** User key ascending, then sequence descending, then type descending. */
  predicate Less(a: IKey, b: IKey) {
    a.user < b.user || (a.user == b.user && a.Tag() > b.Tag())
  }

  lemma LessIsStrictTotalOrder(a: IKey, b: IKey, c: IKey)
    ensures !Less(a, a)
    ensures Less(a, b) && Less(b, c) ==> Less(a, c)
    ensures Less(a, b) || a == b || Less(b, a)
  {
  }

  /** The internal key that a lookup of user key k at sequence number snap seeks. */
  function SeekKey(k: UserKey, snap: SeqNo): IKey {
    IKey(k, snap, Value)
  }

  // ----- Sorted runs: the contents of a table or of a memtable -----

  predicate Sorted(run: seq<Entry>) {
    forall i, j | 0 <= i < j < |run| :: Less(run[i].ikey, run[j].ikey)
  }

  /** i is the position of the first entry of run that is not before target. */
  predicate IsSeek(run: seq<Entry>, target: IKey, i: int) {
    && 0 <= i <= |run|
    && (forall j | 0 <= j < i :: Less(run[j].ikey, target))
    && (forall j | i <= j < |run| :: !Less(run[j].ikey, target))
  }

  /** The set of the entries in a run. */
  function SetOf(run: seq<Entry>): set<Entry> {
    set e | e in run
  }

  // ----- The specification: reading a set of entries -----

  predicate Candidate(s: set<Entry>, k: UserKey, snap: SeqNo, e: Entry) {
    e in s && e.ikey.user == k && e.ikey.seqno <= snap
  }

  /** e is the entry that a read of k at snap must report. */
  predicate IsLatest(s: set<Entry>, k: UserKey, snap: SeqNo, e: Entry) {
    && Candidate(s, k, snap, e)
    && forall o | o in s && o.ikey.user == k && o.ikey.seqno <= snap :: o.ikey.seqno <= e.ikey.seqno
  }

  /** A user key has at most one entry with a given sequence number. */
  ghost predicate Distinct(s: set<Entry>) {
    forall a, b | a in s && b in s && a.ikey.user == b.ikey.user && a.ikey.seqno == b.ikey.seqno :: a == b
  }

  datatype Outcome = Miss | Deleted | Found(value: Bytes) {
    /** What the caller of a read is told: a deletion and an absent key look the same. */
    function Visible(): Outcome {
      if Found? then this else Miss
    }
  }

  function OutcomeOf(e: Entry): Outcome {
    if e.ikey.kind.Value? then Found(e.value) else Deleted
  }

  /** Reading k at snap: the outcome of its latest entry, or a miss. */
  ghost function Lookup(s: set<Entry>, k: UserKey, snap: SeqNo): Outcome {
    if exists e :: IsLatest(s, k, snap, e)
    then var e :| IsLatest(s, k, snap, e); OutcomeOf(e)
    else Miss
  }

  lemma LookupLatest(s: set<Entry>, k: UserKey, snap: SeqNo, e: Entry)
    requires Distinct(s) && IsLatest(s, k, snap, e)
    ensures Lookup(s, k, snap) == OutcomeOf(e)
  {
  }

  lemma LookupMiss(s: set<Entry>, k: UserKey, snap: SeqNo)
    ensures (forall e :: !Candidate(s, k, snap, e)) <==> Lookup(s, k, snap) == Miss
  {
    if c :| Candidate(s, k, snap, c) {
      var e := LatestExists(s, k, snap, c);
    }
  }

  /** A key with any candidate entry has a latest one. */
  lemma {:induction false} LatestExists(s: set<Entry>, k: UserKey, snap: SeqNo, c: Entry) returns (e: Entry)
    requires Candidate(s, k, snap, c)
    ensures IsLatest(s, k, snap, e)
    decreases s
  {
    if o :| o in s && o.ikey.user == k && o.ikey.seqno <= snap && o.ikey.seqno > c.ikey.seqno {
      e := LatestExists(s - {c}, k, snap, o);
    } else {
      e := c;
    }
  }

  /** Every read answers from the candidates alone: same candidates, same answer. */
  lemma LookupCongruent(s: set<Entry>, t: set<Entry>, k: UserKey, snap: SeqNo)
    requires Distinct(s) && Distinct(t)
    requires forall e :: Candidate(s, k, snap, e) <==> Candidate(t, k, snap, e)
    ensures Lookup(s, k, snap) == Lookup(t, k, snap)
  {
    if c :| Candidate(s, k, snap, c) {
      var e := LatestExists(s, k, snap, c);
      LookupLatest(s, k, snap, e);
      assert IsLatest(t, k, snap, e) by {
        forall o | o in t && o.ikey.user == k && o.ikey.seqno <= snap
          ensures o.ikey.seqno <= e.ikey.seqno
        {
          assert Candidate(t, k, snap, o);
        }
      }
      LookupLatest(t, k, snap, e);
    } else {
      LookupMiss(s, k, snap);
      LookupMiss(t, k, snap);
    }
  }

  // ----- Layers: every entry of an upper layer is newer than those below -----

  /** Each entry of a is newer than every entry of b with the same user key. */
  ghost predicate Newer(a: set<Entry>, b: set<Entry>) {
    forall x, y | x in a && y in b && x.ikey.user == y.ikey.user :: x.ikey.seqno > y.ikey.seqno
  }

  /** Why a search may stop at the first layer that knows the key. */
  lemma LookupLayered(a: set<Entry>, b: set<Entry>, k: UserKey, snap: SeqNo)
    requires Newer(a, b) && Distinct(a) && Distinct(b)
    ensures Distinct(a + b)
    ensures Lookup(a + b, k, snap) == if Lookup(a, k, snap).Miss? then Lookup(b, k, snap) else Lookup(a, k, snap)
  {
    if c :| Candidate(a, k, snap, c) {
      var e := LatestExists(a, k, snap, c);
      LookupLatest(a, k, snap, e);
      assert IsLatest(a + b, k, snap, e);
      LookupLatest(a + b, k, snap, e);
    } else {
      LookupMiss(a, k, snap);
      forall e
        ensures Candidate(a + b, k, snap, e) <==> Candidate(b, k, snap, e)
      {
        assert !Candidate(a, k, snap, e);
      }
      LookupCongruent(a + b, b, k, snap);
    }
  }

  // ----- Searching one sorted run -----

  /** No two entries of a sorted run share user key and sequence number. */
  ghost predicate DistinctRun(run: seq<Entry>) {
    Distinct(SetOf(run))
  }

  /** The entry a seek lands on, if it has the user key, is the latest in the run. */
  lemma SeekFindsLatest(run: seq<Entry>, k: UserKey, snap: SeqNo, i: int)
    requires Sorted(run) && DistinctRun(run) && IsSeek(run, SeekKey(k, snap), i)
    ensures Lookup(SetOf(run), k, snap) ==
            if i < |run| && run[i].ikey.user == k then OutcomeOf(run[i]) else Miss
  {
    var s := SetOf(run);
    if i < |run| && run[i].ikey.user == k {
      forall o | o in s && o.ikey.user == k && o.ikey.seqno <= snap
        ensures o.ikey.seqno <= run[i].ikey.seqno
      {
        var j :| 0 <= j < |run| && run[j] == o;
        assert j >= i;
      }
      assert IsLatest(s, k, snap, run[i]);
      LookupLatest(s, k, snap, run[i]);
    } else {
      forall e | e in s
        ensures !Candidate(s, k, snap, e)
      {
        var j :| 0 <= j < |run| && run[j] == e;
        if j > i {
          assert Less(run[i].ikey, run[j].ikey);
        }
      }
      LookupMiss(s, k, snap);
    }
  }

  /** Sorted runs are determined by their sets of entries. */
  lemma {:induction false} SortedUnique(a: seq<Entry>, b: seq<Entry>)
    requires Sorted(a) && Sorted(b)
    requires forall e :: e in a <==> e in b
    ensures a == b
  {
    assert b != [] ==> b[0] in a;
    if a != [] {
      assert a[0] in b;
      var i :| 0 <= i < |b| && b[i] == a[0];
      var j :| 0 <= j < |a| && a[j] == b[0];
      assert a[0] == b[0];
      forall e
        ensures e in a[1..] <==> e in b[1..]
      {
        SortedTail(a, e);
        SortedTail(b, e);
      }
      SortedUnique(a[1..], b[1..]);
      assert a == [a[0]] + a[1..] && b == [b[0]] + b[1..];
    }
  }

  lemma SortedTail(a: seq<Entry>, e: Entry)
    requires Sorted(a) && a != []
    ensures e in a[1..] <==> e in a && e != a[0]
  {
    if e in a && e != a[0] {
      var i :| 0 <= i < |a| && a[i] == e;
      assert a[1..][i-1] == e;
    }
  }
}
