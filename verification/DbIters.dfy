/**
 DBIter: the iterator over the live user keys at a sequence number.  The internal
 iterator below it yields every entry; entries that are too new, deleted or hidden
 by a newer one are skipped in both directions and across changes of direction.
 */
module DbIters {
  import opened Wrappers
  import opened Comparator
  import opened Entries
  import opened Versions
  import opened Mergers

  // ----- What the iterator shows -----

  predicate Readable(all: seq<Entry>, s: SeqNo, i: nat)
    requires i < |all|
  {
    all[i].ikey.seqno <= s
  }

  /** Entry i is the value that a read of its user key at s reports. */
  predicate Shown(all: seq<Entry>, s: SeqNo, i: nat) {
    && i < |all| && Readable(all, s, i) && all[i].ikey.kind.Value?
    && forall j | 0 <= j < i && all[j].ikey.user == all[i].ikey.user :: !Readable(all, s, j)
  }

  /** Nothing is shown from position lo up to but not including hi. */
  predicate NoneShown(all: seq<Entry>, s: SeqNo, lo: int, hi: int) {
    forall j {:trigger Shown(all, s, j)} | 0 <= j < |all| && lo <= j < hi :: !Shown(all, s, j)
  }

  /** i is the first position at or after lo that is shown, |all| if there is none. */
  predicate IsFirstShown(all: seq<Entry>, s: SeqNo, lo: int, i: nat) {
    && (i == |all| || (lo <= i && Shown(all, s, i)))
    && NoneShown(all, s, lo, i)
  }

  /** i is the last position before hi that is shown, |all| if there is none. */
  predicate IsLastShown(all: seq<Entry>, s: SeqNo, hi: int, i: nat) {
    if i < |all| then i < hi && Shown(all, s, i) && NoneShown(all, s, i + 1, hi)
    else i == |all| && NoneShown(all, s, 0, hi)
  }

  /** i is the first position shown with a user key of at least k, |all| if there is none. */
  predicate IsSeekShown(all: seq<Entry>, s: SeqNo, k: UserKey, i: nat) {
    && (i == |all| || (Shown(all, s, i) && k <= all[i].ikey.user))
    && forall j | 0 <= j < i && j < |all| && k <= all[j].ikey.user :: !Shown(all, s, j)
  }

  lemma SortedUsers(all: seq<Entry>, i: nat, j: nat)
    requires Sorted(all) && i <= j < |all|
    ensures all[i].ikey.user <= all[j].ikey.user
    ensures i < j && all[i].ikey.user == all[j].ikey.user ==> all[j].ikey.seqno <= all[i].ikey.seqno
  {
    assert i < j ==> Less(all[i].ikey, all[j].ikey);
  }

  /** The entries shown are exactly the answers of reads at s. */
  lemma ShownAnswersReads(all: seq<Entry>, s: SeqNo, k: UserKey, v: Bytes)
    requires Sorted(all) && Distinct(SetOf(all))
    ensures Lookup(SetOf(all), k, s).Visible() == Found(v) <==>
            exists i :: 0 <= i < |all| && Shown(all, s, i) && all[i].ikey.user == k && all[i].value == v
  {
    if Lookup(SetOf(all), k, s).Visible() == Found(v) {
      var e :| IsLatest(SetOf(all), k, s, e);
      LookupLatest(SetOf(all), k, s, e);
      var i :| 0 <= i < |all| && all[i] == e;
      LatestIsShown(all, s, i);
    }
    if i :| 0 <= i < |all| && Shown(all, s, i) && all[i].ikey.user == k && all[i].value == v {
      ShownIsLatest(all, s, i);
      LookupLatest(SetOf(all), k, s, all[i]);
    }
  }

  lemma LatestIsShown(all: seq<Entry>, s: SeqNo, i: nat)
    requires Sorted(all) && Distinct(SetOf(all)) && i < |all| && all[i].ikey.kind.Value?
    requires IsLatest(SetOf(all), all[i].ikey.user, s, all[i])
    ensures Shown(all, s, i)
  {
    forall j | 0 <= j < i && all[j].ikey.user == all[i].ikey.user
      ensures !Readable(all, s, j)
    {
      SortedUsers(all, j, i);
      assert all[j] in SetOf(all) && all[i] in SetOf(all);
      assert Less(all[j].ikey, all[i].ikey);
    }
  }

  lemma ShownIsLatest(all: seq<Entry>, s: SeqNo, i: nat)
    requires Sorted(all) && Shown(all, s, i)
    ensures IsLatest(SetOf(all), all[i].ikey.user, s, all[i])
  {
    forall o | o in SetOf(all) && o.ikey.user == all[i].ikey.user && o.ikey.seqno <= s
      ensures o.ikey.seqno <= all[i].ikey.seqno
    {
      var j :| 0 <= j < |all| && all[j] == o;
      var readable := Readable(all, s, j);
      SortedUsers(all, i, j);
    }
  }

  /** Each user key is shown once, and in increasing order. */
  lemma ShownKeysIncrease(all: seq<Entry>, s: SeqNo, i: nat, j: nat)
    requires Sorted(all) && i < j && Shown(all, s, i) && Shown(all, s, j)
    ensures all[i].ikey.user < all[j].ikey.user
  {
    SortedUsers(all, i, j);
    assert Readable(all, s, i);
  }

  // ----- Going forward -----

  /**
   FindNextUserEntry at position i: nothing from `from` on has been missed, the key to
   skip hides only what is not shown, and it hides every entry whose user key
   was already seen.
   */
  predicate SkipOk(all: seq<Entry>, s: SeqNo, from: nat, i: nat, skipping: bool, skip: UserKey) {
    && NoneShown(all, s, from, i)
    && (forall j | i <= j < |all| && from <= j && skipping && all[j].ikey.user <= skip :: !Shown(all, s, j))
    && (forall j, k | 0 <= j < i <= k < |all| && all[j].ikey.user == all[k].ikey.user && Readable(all, s, j) ::
          skipping && all[k].ikey.user <= skip)
    && (forall j | i <= j < from && j < |all| ::
          skipping && all[j].ikey.user <= skip && !(Readable(all, s, j) && all[j].ikey.kind.Deletion?))
  }

  lemma SkipPastMarker(all: seq<Entry>, s: SeqNo, from: nat, i: nat, skipping: bool, skip: UserKey)
    requires Sorted(all) && i < |all| && SkipOk(all, s, from, i, skipping, skip)
    requires Readable(all, s, i) && all[i].ikey.kind.Deletion?
    ensures SkipOk(all, s, from, i + 1, true, all[i].ikey.user)
  {
    forall k | i < k < |all|
      ensures all[i].ikey.user <= all[k].ikey.user
      ensures all[i].ikey.user == all[k].ikey.user ==> !Shown(all, s, k)
    {
      SortedUsers(all, i, k);
    }
    forall j, k | 0 <= j < i + 1 <= k < |all| && all[j].ikey.user == all[k].ikey.user && Readable(all, s, j)
      ensures all[k].ikey.user <= all[i].ikey.user
    {
      SortedUsers(all, j, i);
    }
  }

  lemma SkipPastHidden(all: seq<Entry>, s: SeqNo, from: nat, i: nat, skipping: bool, skip: UserKey)
    requires Sorted(all) && i < |all| && SkipOk(all, s, from, i, skipping, skip)
    requires !Readable(all, s, i) || (all[i].ikey.kind.Value? && skipping && all[i].ikey.user <= skip)
    ensures SkipOk(all, s, from, i + 1, skipping, skip)
  {
    forall j, k | 0 <= j < i + 1 <= k < |all| && all[j].ikey.user == all[k].ikey.user && Readable(all, s, j)
      ensures skipping && all[k].ikey.user <= skip
    {
      if j == i {
        assert all[k].ikey.user == all[i].ikey.user;
      }
    }
  }

  lemma NotHiddenIsShown(all: seq<Entry>, s: SeqNo, from: nat, i: nat, skipping: bool, skip: UserKey)
    requires Sorted(all) && i < |all| && SkipOk(all, s, from, i, skipping, skip)
    requires Readable(all, s, i) && all[i].ikey.kind.Value? && !(skipping && all[i].ikey.user <= skip)
    ensures from <= i && Shown(all, s, i)
  {
  }

  /** Entries before the position of a seek are of smaller user keys or too new. */
  lemma SeekSkipsNothing(all: seq<Entry>, s: SeqNo, k: UserKey, start: nat)
    requires Sorted(all) && IsSeek(all, SeekKey(k, s), start)
    ensures SkipOk(all, s, start, start, false, 0.0)
    ensures forall j | 0 <= j < start && k <= all[j].ikey.user :: !Shown(all, s, j)
  {
    forall j, i | 0 <= j < start <= i < |all| && all[j].ikey.user == all[i].ikey.user
      ensures !Readable(all, s, j)
    {
      assert Less(all[j].ikey, SeekKey(k, s)) && !Less(all[i].ikey, SeekKey(k, s));
    }
  }

  lemma FirstFromSeek(all: seq<Entry>, s: SeqNo, k: UserKey, start: nat, i: nat)
    requires Sorted(all) && IsSeek(all, SeekKey(k, s), start) && IsFirstShown(all, s, start, i)
    requires forall j | 0 <= j < start && k <= all[j].ikey.user :: !Shown(all, s, j)
    ensures IsSeekShown(all, s, k, i)
  {
    if i < |all| {
      assert !Less(all[i].ikey, SeekKey(k, s));
    }
  }

  /** Next, going forward: the entry shown and the rest of its user key are to be skipped. */
  lemma NextStartsForward(all: seq<Entry>, s: SeqNo, at: nat)
    requires Sorted(all) && Shown(all, s, at)
    ensures SkipOk(all, s, at + 1, at, true, all[at].ikey.user)
  {
    forall j, k | 0 <= j < at <= k < |all| && all[j].ikey.user == all[k].ikey.user
      ensures !Readable(all, s, j)
    {
      SortedUsers(all, j, at);
      SortedUsers(all, at, k);
    }
    RestIsHidden(all, s, at);
  }

  lemma RestIsHidden(all: seq<Entry>, s: SeqNo, at: nat)
    requires Sorted(all) && Shown(all, s, at)
    ensures forall j | at < j < |all| && all[j].ikey.user <= all[at].ikey.user :: !Shown(all, s, j)
  {
    forall j | at < j < |all| && all[j].ikey.user <= all[at].ikey.user
      ensures !Shown(all, s, j)
    {
      SortedUsers(all, at, j);
      assert Readable(all, s, at);
    }
  }

  /** Next after going backward: the scan resumes just after q, in or before the entries of the key shown. */
  lemma NextStartsBackward(all: seq<Entry>, s: SeqNo, at: nat, q: int)
    requires Sorted(all) && Shown(all, s, at) && -1 <= q < at
    requires 0 <= q ==> all[q].ikey.user < all[at].ikey.user
    requires forall j | 0 <= j && q < j < at :: !Readable(all, s, j)
    ensures SkipOk(all, s, at + 1, q + 1, true, all[at].ikey.user)
  {
    forall j, k | 0 <= j < q + 1 <= k < |all| && all[j].ikey.user == all[k].ikey.user && Readable(all, s, j)
      ensures all[k].ikey.user <= all[at].ikey.user
    {
      SortedUsers(all, j, q);
    }
    forall j | q + 1 <= j <= at
      ensures all[j].ikey.user <= all[at].ikey.user
    {
      SortedUsers(all, j, at);
    }
    RestIsHidden(all, s, at);
  }

  // ----- Going backward -----

  /** The place of an internal iterator that is past the front is -1. */
  function Behind(all: seq<Entry>, p: nat): int {
    if p < |all| then p else -1
  }

  /** An entry of the same user key before the one shown is not shown. */
  lemma SameUserHidden(all: seq<Entry>, s: SeqNo, p: nat, at: nat)
    requires Sorted(all) && Shown(all, s, at) && p <= at && all[at].ikey.user <= all[p].ikey.user
    ensures p < at ==> !Shown(all, s, p)
  {
    SortedUsers(all, p, at);
    var readable := Readable(all, s, p);
  }

  lemma BackedOut(all: seq<Entry>, s: SeqNo, p: nat, at: nat)
    requires Sorted(all) && Shown(all, s, at) && p <= at && all[at].ikey.user <= all[p].ikey.user
    requires NoneShown(all, s, p + 1, at)
    ensures NoneShown(all, s, p, at)
  {
    SameUserHidden(all, s, p, at);
  }

  /** While FindPrevUserEntry has no value saved: nothing shown after q and before hi. */
  predicate NothingSaved(all: seq<Entry>, s: SeqNo, q: int, hi: int) {
    NoneShown(all, s, q + 1, hi)
  }

  /** While it has saved entry c: c is readable, nothing readable is between q and c, nothing shown after c. */
  predicate SavedAt(all: seq<Entry>, s: SeqNo, q: int, hi: int, c: nat) {
    && q < c < |all| && c < hi
    && Readable(all, s, c) && all[c].ikey.kind.Value?
    && (forall j | 0 <= j && q < j < c :: !Readable(all, s, j))
    && NoneShown(all, s, c + 1, hi)
  }

  /** A readable entry before c with the same user key hides c. */
  lemma SavedIsHidden(all: seq<Entry>, s: SeqNo, q: int, hi: int, c: nat)
    requires Sorted(all) && SavedAt(all, s, q, hi, c) && 0 <= q && Readable(all, s, q)
    requires !(all[q].ikey.user < all[c].ikey.user)
    ensures NoneShown(all, s, q + 1, hi)
  {
    SortedUsers(all, q, c);
  }

  /** With no readable entry of its user key before it, the saved entry is shown. */
  lemma SavedIsShown(all: seq<Entry>, s: SeqNo, q: int, hi: int, c: nat)
    requires Sorted(all) && SavedAt(all, s, q, hi, c)
    requires q < 0 || all[q].ikey.user < all[c].ikey.user
    ensures IsLastShown(all, s, hi, c)
  {
    forall j | 0 <= j < c && all[j].ikey.user == all[c].ikey.user
      ensures !Readable(all, s, j)
    {
      if j <= q {
        SortedUsers(all, j, q);
      }
    }
  }

  // ----- The iterator -----

  class DBIter {
    const iter: MergingIterator
    const sequence: SeqNo
    var direction: Direction
    var valid: bool
    var savedKey: Option<UserKey>
    var savedValue: Bytes
    /** The position of the entry shown among all entries, their number if none is. */
    ghost var at: nat

    ghost function All(): seq<Entry> {
      iter.all
    }

    ghost predicate IterOk()
      reads iter, iter.positions, iter.cached
    {
      iter.Valid() && Sorted(All())
    }

    /** The internal iterator is on the entry shown, going forward; going backward it has passed it. */
    ghost predicate Placed()
      reads this, iter
    {
      && (valid <==> at < |All()|)
      && (!valid ==> at == |All()|)
      && (valid ==> Shown(All(), sequence, at))
      && (valid && direction.Forward? ==> iter.at == at)
      && (valid && direction.Reverse? ==> PassedBackward(iter.at))
    }

    ghost predicate PassedBackward(p: nat)
      reads this
      requires at < |All()|
    {
      var q := Behind(All(), p);
      && savedKey == Some(All()[at].ikey.user) && savedValue == All()[at].value
      && q < at && (0 <= q ==> All()[q].ikey.user < All()[at].ikey.user)
      && forall j | 0 <= j && q < j < at :: !Readable(All(), sequence, j)
    }

    ghost predicate Valid()
      reads this, iter, iter.positions, iter.cached
    {
      IterOk() && Placed()
    }

    constructor (iter: MergingIterator, sequence: SeqNo)
      requires iter.Valid()
      ensures Valid() && this.iter == iter && this.sequence == sequence && at == |All()|
    {
      this.iter := iter;
      this.sequence := sequence;
      direction := Forward;
      valid := false;
      savedKey := None;
      savedValue := [];
      at := |iter.all|;
    }

    method Key() returns (k: UserKey)
      requires Valid() && at < |All()|
      ensures k == All()[at].ikey.user
    {
      if direction.Forward? {
        var e := iter.Entry();
        k := e.ikey.user;
      } else {
        k := savedKey.value;
      }
    }

    method Value() returns (v: Bytes)
      requires Valid() && at < |All()|
      ensures v == All()[at].value
    {
      if direction.Forward? {
        var e := iter.Entry();
        v := e.value;
      } else {
        v := savedValue;
      }
    }

    /** What FindNextUserEntry makes of the entry the internal iterator is on. */
    method Judge(hiding: bool, hidden: UserKey, ghost from: nat) returns (show: bool, hiding': bool, hidden': UserKey)
      requires IterOk() && iter.at < |All()|
      requires SkipOk(All(), sequence, from, iter.at, hiding, hidden)
      ensures show ==> from <= iter.at && Shown(All(), sequence, iter.at)
      ensures !show ==> SkipOk(All(), sequence, from, iter.at + 1, hiding', hidden')
    {
      var e := iter.Entry();
      show, hiding', hidden' := false, hiding, hidden;
      if e.ikey.seqno <= sequence && e.ikey.kind.Deletion? {
        SkipPastMarker(All(), sequence, from, iter.at, hiding, hidden);
        hiding', hidden' := true, e.ikey.user;
      } else if e.ikey.seqno <= sequence && !(hiding && e.ikey.user <= hidden) {
        NotHiddenIsShown(All(), sequence, from, iter.at, hiding, hidden);
        show := true;
      } else {
        SkipPastHidden(All(), sequence, from, iter.at, hiding, hidden);
      }
    }

    /** Moves the internal iterator to the first entry shown at or after `from`. */
    method FindNextUserEntry(skipping: bool, skip: UserKey, ghost from: nat)
      requires IterOk() && direction.Forward?
      requires SkipOk(All(), sequence, from, iter.at, skipping, skip)
      modifies this`valid, this`at, this`savedKey, iter, iter.positions, iter.cached
      ensures Valid() && IsFirstShown(All(), sequence, from, at)
    {
      var hiding, hidden := skipping, skip;
      while iter.current.Some?
        invariant IterOk() && SkipOk(All(), sequence, from, iter.at, hiding, hidden)
        decreases |All()| - iter.at
      {
        var show;
        show, hiding, hidden := Judge(hiding, hidden, from);
        if show {
          valid := true;
          savedKey := None;
          at := iter.at;
          return;
        }
        iter.Next();
      }
      savedKey := None;
      valid := false;
      at := |All()|;
    }

    method SeekToFirst()
      requires Valid()
      modifies this, iter, iter.positions, iter.cached
      ensures Valid() && IsFirstShown(All(), sequence, 0, at)
    {
      direction := Forward;
      savedValue := [];
      iter.SeekToFirst();
      FindNextUserEntry(false, 0.0, 0);
    }

    method Seek(target: UserKey)
      requires Valid()
      modifies this, iter, iter.positions, iter.cached
      ensures Valid() && IsSeekShown(All(), sequence, target, at)
    {
      direction := Forward;
      savedValue := [];
      savedKey := None;
      iter.Seek(SeekKey(target, sequence));
      ghost var start := iter.at;
      SeekSkipsNothing(All(), sequence, target, start);
      FindNextUserEntry(false, 0.0, start);
      FirstFromSeek(All(), sequence, target, start, at);
    }

    method Next()
      requires Valid() && at < |All()|
      modifies this, iter, iter.positions, iter.cached
      ensures Valid() && IsFirstShown(All(), sequence, old(at) + 1, at)
    {
      ghost var from := at + 1;
      if direction.Reverse? {
        direction := Forward;
        NextStartsBackward(All(), sequence, at, Behind(All(), iter.at));
        if iter.current.None? {
          iter.SeekToFirst();
        } else {
          iter.Next();
        }
        assert iter.at <= at;
      } else {
        var e := iter.Entry();
        savedKey := Some(e.ikey.user);
        NextStartsForward(All(), sequence, at);
      }
      FindNextUserEntry(true, savedKey.value, from);
    }

    method SeekToLast()
      requires Valid()
      modifies this, iter, iter.positions, iter.cached
      ensures Valid() && IsLastShown(All(), sequence, |All()|, at)
    {
      direction := Reverse;
      savedValue := [];
      iter.SeekToLast();
      FindPrevUserEntry(|All()|);
    }

    method Prev()
      requires Valid() && at < |All()|
      modifies this, iter, iter.positions, iter.cached
      ensures Valid() && IsLastShown(All(), sequence, old(at), at)
    {
      ghost var hi := at;
      if direction.Forward? {
        TurnBack();
        if iter.current.None? {
          valid := false;
          savedKey := None;
          savedValue := [];
          at := |All()|;
          return;
        }
        direction := Reverse;
      }
      FindPrevUserEntry(hi);
    }

    /** Backs the internal iterator out of the entries of the user key shown. */
    method TurnBack()
      requires Valid() && at < |All()| && direction.Forward?
      modifies this`savedKey, iter, iter.positions, iter.cached
      ensures IterOk() && Behind(All(), iter.at) < at
      ensures NoneShown(All(), sequence, Behind(All(), iter.at) + 1, at)
    {
      var e := iter.Entry();
      savedKey := Some(e.ikey.user);
      var key := e.ikey.user;
      var going := true;
      while going
        invariant IterOk() && iter.at <= |All()|
        invariant going ==> iter.at <= at
        invariant !going ==> Behind(All(), iter.at) < at
        invariant NoneShown(All(), sequence, Behind(All(), iter.at) + 1, at)
        invariant going ==> key <= All()[iter.at].ikey.user
        decreases going, iter.at
      {
        BackedOut(All(), sequence, iter.at, at);
        iter.Prev();
        if iter.current.None? {
          going := false;
        } else {
          var p := iter.Entry();
          going := !(p.ikey.user < key);
        }
      }
    }

    /** What has been gathered while going back from hi to q. */
    ghost predicate Saving(saved: bool, q: int, hi: nat, c: nat)
      reads this
    {
      if saved then SavedAt(All(), sequence, q, hi, c) && savedKey == Some(All()[c].ikey.user)
          && savedValue == All()[c].value
      else NothingSaved(All(), sequence, q, hi)
    }

    /** What FindPrevUserEntry makes of the entry the internal iterator is on. */
    method Collect(saved: bool, ghost hi: nat, ghost c: nat) returns (stop: bool, saved': bool, ghost c': nat)
      requires IterOk() && iter.at < |All()| && iter.at < hi && Saving(saved, iter.at, hi, c)
      modifies this`savedKey, this`savedValue
      ensures stop ==> saved' && Saving(true, iter.at, hi, c') && All()[iter.at].ikey.user < All()[c'].ikey.user
      ensures !stop ==> Saving(saved', iter.at - 1, hi, c')
    {
      var e := iter.Entry();
      stop, saved', c' := false, saved, c;
      if e.ikey.seqno <= sequence {
        if saved && e.ikey.user < savedKey.value {
          stop := true;
        } else {
          if saved {
            SavedIsHidden(All(), sequence, iter.at, hi, c);
          }
          saved' := e.ikey.kind.Value?;
          if saved' {
            savedKey, savedValue, c' := Some(e.ikey.user), e.value, iter.at;
          } else {
            savedKey, savedValue := None, [];
          }
        }
      }
    }

    /** Finds the last entry shown before hi, moving the internal iterator back past it. */
    method FindPrevUserEntry(ghost hi: nat)
      requires IterOk() && direction.Reverse? && hi <= |All()|
      requires Behind(All(), iter.at) < hi && NoneShown(All(), sequence, Behind(All(), iter.at) + 1, hi)
      modifies this, iter, iter.positions, iter.cached
      ensures Valid() && IsLastShown(All(), sequence, hi, at)
    {
      var saved := false;
      ghost var c := 0;
      while iter.current.Some?
        invariant IterOk() && direction.Reverse? && Behind(All(), iter.at) < hi
        invariant Saving(saved, Behind(All(), iter.at), hi, c)
        decreases Behind(All(), iter.at)
      {
        var stop;
        stop, saved, c := Collect(saved, hi, c);
        if stop {
          break;
        }
        iter.Prev();
      }
      if saved {
        SavedIsShown(All(), sequence, Behind(All(), iter.at), hi, c);
      }
      if !saved {
        valid := false;
        savedKey := None;
        savedValue := [];
        direction := Forward;
        at := |All()|;
      } else {
        valid := true;
        at := c;
      }
    }
  }
}
