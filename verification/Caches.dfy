/**
 The LRU cache: the hash table knows exactly the cached entries, each of them is on
 one of two lists by whether a client holds it, and the charges add up.  What each
 operation does is given by functions on what can be seen of the cache; CacheRuns says
 what these come to in a run of operations.
 */
module Caches {
  import opened Wrappers
  import opened Comparator
  import opened Codings
  import opened HandleTables
  import opened Rings

  // ----- Charges -----

  ghost function TotalCharge(s: set<Handle>): nat
    decreases s
  {
    if s == {} then 0 else var h :| h in s; h.charge + TotalCharge(s - {h})
  }

  lemma {:induction false} ChargeWithout(s: set<Handle>, h: Handle)
    requires h in s
    ensures TotalCharge(s) == h.charge + TotalCharge(s - {h})
    decreases s
  {
    var g :| g in s && TotalCharge(s) == g.charge + TotalCharge(s - {g});
    if g != h {
      ChargeWithout(s - {g}, h);
      ChargeWithout(s - {h}, g);
      assert (s - {g}) - {h} == (s - {h}) - {g};
    }
  }

  lemma ChargeWith(s: set<Handle>, h: Handle)
    requires h !in s
    ensures TotalCharge(s + {h}) == TotalCharge(s) + h.charge
  {
    ChargeWithout(s + {h}, h);
    assert (s + {h}) - {h} == s;
  }

  // ----- The state of the cache, as values -----

  /** The lists and their links. */
  datatype Lists = Lists(next: map<Node, Node>, prev: map<Node, Node>, lru: seq<Handle>, inUse: seq<Handle>)

  ghost predicate ListsOk(l: Lists) {
    && Ring(l.next, l.prev, LruHead, l.lru)
    && Ring(l.next, l.prev, InUseHead, l.inUse)
    && forall h | h in l.lru :: h !in l.inUse
  }

  function PlaceIn(list: seq<Handle>, h: Handle): (k: nat)
    requires h in list
    ensures k < |list| && list[k] == h
  {
    if list[0] == h then 0 else 1 + PlaceIn(list[1..], h)
  }

  function Dropped(list: seq<Handle>, h: Handle): seq<Handle> {
    if h in list then Without(list, PlaceIn(list, h)) else list
  }

  /** The links after LRU_Remove(h). */
  function RemoveLinks(l: Lists, h: Handle): Lists
    requires Entry(h) in l.next && Entry(h) in l.prev
  {
    l.(prev := l.prev[l.next[Entry(h)] := l.prev[Entry(h)]],
       next := l.next[l.prev[Entry(h)] := l.next[Entry(h)]],
       lru := Dropped(l.lru, h), inUse := Dropped(l.inUse, h))
  }

  lemma DroppedMembers(list: seq<Handle>, h: Handle)
    requires forall i, j | 0 <= i < j < |list| :: list[i] != list[j]
    ensures forall o :: o in Dropped(list, h) <==> o in list && o != h
  {
    if h in list {
      WithoutMembers(list, PlaceIn(list, h));
    }
  }

  lemma RemoveFromRing(next: map<Node, Node>, prev: map<Node, Node>, head: Node, list: seq<Handle>, other: Node,
                       others: seq<Handle>, h: Handle)
    requires Ring(next, prev, head, list) && Ring(next, prev, other, others) && head != other
    requires h in list && forall o | o in list :: o !in others
    ensures Entry(h) in next && Entry(h) in prev
    ensures Ring(next[prev[Entry(h)] := next[Entry(h)]], prev[next[Entry(h)] := prev[Entry(h)]], head, Dropped(list, h))
    ensures Ring(next[prev[Entry(h)] := next[Entry(h)]], prev[next[Entry(h)] := prev[Entry(h)]], other, others)
  {
    var k := PlaceIn(list, h);
    Neighbours(next, prev, head, list, k);
    RingRemove(next, prev, head, list, k);
    RingElsewhere(next, prev, other, others, NodeAt(head, list, k), next[Entry(h)]);
    RingElsewhere(next[NodeAt(head, list, k) := next[Entry(h)]], prev, other, others, NodeAt(head, list, k + 2),
        prev[Entry(h)]);
  }

  lemma Removed(l: Lists, h: Handle)
    requires ListsOk(l) && (h in l.lru || h in l.inUse)
    ensures Entry(h) in l.next && Entry(h) in l.prev
    ensures ListsOk(RemoveLinks(l, h))
    ensures forall o :: o in RemoveLinks(l, h).lru <==> o in l.lru && o != h
    ensures forall o :: o in RemoveLinks(l, h).inUse <==> o in l.inUse && o != h
  {
    if h in l.lru {
      RemoveFromRing(l.next, l.prev, LruHead, l.lru, InUseHead, l.inUse, h);
    } else {
      RemoveFromRing(l.next, l.prev, InUseHead, l.inUse, LruHead, l.lru, h);
    }
    DroppedMembers(l.lru, h);
    DroppedMembers(l.inUse, h);
  }

  /** The links after LRU_Append(&lru_, h) or LRU_Append(&in_use_, h). */
  function AppendLinks(l: Lists, toLru: bool, h: Handle): Lists
    requires LruHead in l.prev && InUseHead in l.prev
  {
    var head := if toLru then LruHead else InUseHead;
    var last := l.prev[head];
    l.(next := l.next[Entry(h) := head][last := Entry(h)],
       prev := l.prev[Entry(h) := last][head := Entry(h)],
       lru := if toLru then l.lru + [h] else l.lru,
       inUse := if toLru then l.inUse else l.inUse + [h])
  }

  lemma AppendToRing(next: map<Node, Node>, prev: map<Node, Node>, head: Node, list: seq<Handle>, other: Node,
                     others: seq<Handle>, h: Handle)
    requires Ring(next, prev, head, list) && Ring(next, prev, other, others) && head != other
    requires h !in list && h !in others && forall o | o in list :: o !in others
    ensures head in prev
    ensures Ring(next[Entry(h) := head][prev[head] := Entry(h)], prev[Entry(h) := prev[head]][head := Entry(h)], head,
            list + [h])
    ensures Ring(next[Entry(h) := head][prev[head] := Entry(h)], prev[Entry(h) := prev[head]][head := Entry(h)], other,
            others)
  {
    RingAppend(next, prev, head, list, h);
    var last := prev[head];
    RingElsewhere(next, prev, other, others, Entry(h), head);
    RingElsewhere(next[Entry(h) := head], prev, other, others, last, Entry(h));
    RingElsewhere(next[Entry(h) := head][last := Entry(h)], prev, other, others, Entry(h), last);
    RingElsewhere(next[Entry(h) := head][last := Entry(h)], prev[Entry(h) := last], other, others, head, Entry(h));
  }

  lemma Appended(l: Lists, toLru: bool, h: Handle)
    requires ListsOk(l) && h !in l.lru && h !in l.inUse
    ensures LruHead in l.prev && InUseHead in l.prev && ListsOk(AppendLinks(l, toLru, h))
  {
    if toLru {
      AppendToRing(l.next, l.prev, LruHead, l.lru, InUseHead, l.inUse, h);
    } else {
      AppendToRing(l.next, l.prev, InUseHead, l.inUse, LruHead, l.lru, h);
    }
  }

  // ----- References -----

  /** Each live entry is referenced by its clients, by the cache if it is cached, and once more if it is `extra`. */
  ghost predicate Accounts(refs: map<Handle, nat>, clients: map<Handle, nat>, cached: set<Handle>,
                           extra: Option<Handle>) {
    && refs.Keys == clients.Keys && cached <= refs.Keys && (extra.Some? ==> extra.value in refs)
    && forall h {:trigger refs[h]} | h in refs ::
         refs[h] >= 1
         && refs[h] == clients[h] + (if h in cached then 1 else 0) + if extra == Some(h) then 1 else 0
  }

  /** Cached entries that only the cache holds are on the LRU list, the other cached ones on the in-use list. */
  ghost predicate Placed(l: Lists, refs: map<Handle, nat>, cached: set<Handle>) {
    && (forall h {:trigger h in l.lru} :: h in l.lru <==> h in cached && h in refs && refs[h] == 1)
    && (forall h {:trigger h in l.inUse} :: h in l.inUse <==> h in cached && h in refs && refs[h] >= 2)
  }

  /** Every entry ever allocated is live, or was handed to its deleter exactly once. */
  ghost predicate Disposed(refs: map<Handle, nat>, deleted: seq<Handle>, issued: set<Handle>, nextId: nat) {
    && (forall h {:trigger h in issued} :: h in issued <==> h in refs || h in deleted)
    && (forall h | h in refs :: h !in deleted)
    && (forall i, j | 0 <= i < j < |deleted| :: deleted[i] != deleted[j])
    && (forall h | h in issued :: h.id < nextId)
  }

  /** Everything about the cache but its hash table. */
  datatype State = State(lists: Lists, refs: map<Handle, nat>, cached: set<Handle>, usage: nat, nextId: nat,
                         clients: map<Handle, nat>, deleted: seq<Handle>, issued: set<Handle>)

  ghost predicate StateOk(s: State, extra: Option<Handle>) {
    && Placed(s.lists, s.refs, s.cached)
    && Accounts(s.refs, s.clients, s.cached, extra)
    && s.usage == TotalCharge(s.cached)
    && Disposed(s.refs, s.deleted, s.issued, s.nextId)
  }

  /** An entry that was only on the LRU list is now in use. */
  ghost predicate Moved(l: Lists, l': Lists, toLru: bool, e: Handle) {
    if toLru then
      (forall h :: h in l'.lru <==> h in l.lru || h == e) && forall h :: h in l'.inUse <==> h in l.inUse && h != e
    else
      (forall h :: h in l'.lru <==> h in l.lru && h != e) && forall h :: h in l'.inUse <==> h in l.inUse || h == e
  }

  /** A reference more: an entry only the cache held goes to the in-use list. */
  lemma AfterRef(s: State, e: Handle, lists': Lists)
    requires StateOk(s, None) && e in s.refs
    requires if e in s.lists.lru then Moved(s.lists, lists', false, e) else lists' == s.lists
    ensures StateOk(s.(lists := lists', refs := s.refs[e := s.refs[e] + 1],
            clients := s.clients[e := s.clients[e] + 1]), None)
  {
    KeysKept(s.refs, e);
    PlacedAfterRef(s.lists, lists', s.refs, s.cached, e);
  }

  /** One reference less, of an entry counted once too often. */
  lemma AfterUnref(s: State, e: Handle, lists': Lists)
    requires StateOk(s, Some(e)) && s.refs[e] > 1
    requires if e in s.cached && s.refs[e] == 2 then Moved(s.lists, lists', true, e) && e !in s.lists.lru
             else lists' == s.lists
    ensures StateOk(s.(lists := lists', refs := s.refs[e := s.refs[e] - 1]), None)
  {
    assert s.refs[e := s.refs[e] - 1].Keys == s.refs.Keys;
    assert forall h :: h in s.refs[e := s.refs[e] - 1] <==> h in s.refs;
  }

  /** The last reference of an entry that is not cached: it goes to its deleter. */
  lemma AfterLastUnref(s: State, e: Handle)
    requires StateOk(s, Some(e)) && s.refs[e] == 1
    ensures e !in s.cached && s.clients[e] == 0
    ensures StateOk(s.(refs := s.refs - {e}, clients := s.clients - {e}, deleted := s.deleted + [e]), None)
  {
    var s' := s.(refs := s.refs - {e}, clients := s.clients - {e}, deleted := s.deleted + [e]);
    assert forall h :: h in s'.refs <==> h in s.refs && h != e;
    assert forall h :: h in s'.deleted <==> h in s.deleted || h == e;
    assert forall h | h in s'.refs :: s'.refs[h] == s.refs[h] && s'.clients[h] == s.clients[h];
  }

  /** Taking an entry out of the cache leaves the cache's reference to be given up. */
  lemma AfterUncaching(s: State, e: Handle, lists': Lists)
    requires StateOk(s, None) && e in s.cached
    requires forall h :: h in lists'.lru <==> h in s.lists.lru && h != e
    requires forall h :: h in lists'.inUse <==> h in s.lists.inUse && h != e
    ensures e in s.refs && s.usage >= e.charge && (e in s.lists.lru || e in s.lists.inUse)
    ensures StateOk(s.(lists := lists', cached := s.cached - {e}, usage := s.usage - e.charge), Some(e))
  {
    ChargeWithout(s.cached, e);
    assert e in s.refs && s.refs[e] >= 1;
    assert e in s.lists.lru || e in s.lists.inUse;
  }

  lemma CachedIsListed(s: State, e: Handle)
    requires StateOk(s, None) && e in s.cached
    ensures e in s.refs && (e in s.lists.lru || e in s.lists.inUse)
  {
    assert s.refs[e] >= 1;
    assert e in s.lists.lru || e in s.lists.inUse;
  }

  lemma GivenBack(s: State, e: Handle)
    requires StateOk(s, None) && e in s.clients && s.clients[e] > 0
    ensures StateOk(s.(clients := s.clients[e := s.clients[e] - 1]), Some(e))
  {
  }

  lemma AfterNew(s: State, e: Handle)
    requires StateOk(s, None) && e.id == s.nextId
    ensures e !in s.issued && e !in s.refs && e !in s.clients && e !in s.cached && e !in s.deleted
    ensures StateOk(s.(nextId := s.nextId + 1, refs := s.refs[e := 1], clients := s.clients[e := 1],
            issued := s.issued + {e}), None)
  {
    assert e !in s.issued;
    var s' := s.(nextId := s.nextId + 1, refs := s.refs[e := 1], clients := s.clients[e := 1],
        issued := s.issued + {e});
    assert forall h :: h in s'.refs <==> h in s.refs || h == e;
    assert e in s.refs ==> e in s.issued;
    assert e in s.deleted ==> e in s.issued;
  }

  lemma AfterEnter(s: State, e: Handle, lists': Lists)
    requires StateOk(s, None) && e in s.refs && s.refs[e] == 1 && e !in s.cached && s.clients[e] == 1
    requires lists'.lru == s.lists.lru && forall h :: h in lists'.inUse <==> h in s.lists.inUse || h == e
    ensures StateOk(s.(lists := lists', refs := s.refs[e := 2], cached := s.cached + {e}, usage := s.usage + e.charge),
            None)
  {
    ChargeWith(s.cached, e);
    KeysKept2(s.refs, e);
  }

  lemma KeysKept2(refs: map<Handle, nat>, e: Handle)
    requires e in refs
    ensures refs[e := 2].Keys == refs.Keys
    ensures forall h :: h in refs[e := 2] <==> h in refs
  {
  }

  lemma NotListed(s: State, e: Handle)
    requires StateOk(s, None) && e !in s.cached
    ensures e !in s.lists.lru && e !in s.lists.inUse
  {
  }

  /** The oldest entry is where the head of the LRU list points. */
  lemma FirstOnRing(l: Lists)
    requires ListsOk(l)
    ensures LruHead in l.next && (l.next[LruHead] != LruHead <==> l.lru != [])
    ensures l.lru != [] ==> l.next[LruHead] == Entry(l.lru[0])
  {
    assert NodeAt(LruHead, l.lru, 0) == LruHead;
    assert l.next[NodeAt(LruHead, l.lru, 0)] == NodeAt(LruHead, l.lru, 1);
  }

  lemma OldestUnheld(s: State, e: Handle)
    requires StateOk(s, None) && e in s.lists.lru
    ensures e in s.cached && e in s.clients && s.clients[e] == 0
  {
    assert e in s.refs && s.refs[e] == 1;
  }

  // ----- What the operations do -----

  /**
   The cached entries, how many references to each live entry clients hold, the cached entries
   that no client holds with the oldest first, and the entries handed to their deleters.
   */
  datatype View = View(cached: set<Handle>, clients: map<Handle, nat>, lru: seq<Handle>, deleted: seq<Handle>,
                       issued: set<Handle>)

  function ViewOf(s: State): View {
    View(s.cached, s.clients, s.lists.lru, s.deleted, s.issued)
  }

  /** A client gets a reference to h, which can no longer be evicted. */
  function Reference(v: View, h: Handle): View
    requires h in v.clients
  {
    v.(clients := v.clients[h := v.clients[h] + 1], lru := Dropped(v.lru, h))
  }

  /**
   A client gave back a reference to h: the last reference of an uncached entry sends it to its
   deleter, and the last client's reference of a cached one makes it the newest that may be
   evicted.
   */
  function GiveBack(v: View, h: Handle): View
    requires h in v.clients && v.clients[h] > 0
  {
    if v.clients[h] > 1 then v.(clients := v.clients[h := v.clients[h] - 1])
    else if h in v.cached then v.(clients := v.clients[h := 0], lru := v.lru + [h])
    else v.(clients := v.clients - {h}, deleted := v.deleted + [h])
  }

  /** h leaves the cache, and goes to its deleter unless a client holds it. */
  function TakeOut(v: View, h: Handle): View
    requires h in v.clients
  {
    var rest := v.(cached := v.cached - {h}, lru := Dropped(v.lru, h));
    if v.clients[h] > 0 then rest else rest.(clients := v.clients - {h}, deleted := v.deleted + [h])
  }

  /** A new entry, held by the client that inserts it, and cached unless caching is turned off. */
  function Allocate(v: View, e: Handle, caching: bool): View {
    v.(cached := if caching then v.cached + {e} else v.cached, clients := v.clients[e := 1], issued := v.issued + {e})
  }

  function Gone(v: View, k: nat): set<Handle>
    requires k <= |v.lru|
  {
    set h | h in v.lru[..k]
  }

  /** The k oldest entries that no client holds go to their deleters, oldest first. */
  function Evict(v: View, k: nat): View
    requires k <= |v.lru|
  {
    var gone := Gone(v, k);
    v.(cached := v.cached - gone, clients := v.clients - gone, lru := v.lru[k..], deleted := v.deleted + v.lru[..k])
  }

  /** An operation, with what it was given and what it found. */
  datatype Operation =
    | Looking(key: Bytes, hash: uint32, found: Option<Handle>)
    | Releasing(handle: Handle)
    | Inserting(entry: Handle, caching: bool, replaced: Option<Handle>, evicted: nat)
    | Erasing(key: Bytes, hash: uint32, found: Option<Handle>)
    | Pruning

  ghost predicate Performs(v: View, op: Operation, v': View) {
    match op
    case Looking(key, hash, r) =>
      IsLookup(v.cached, key, hash, r)
      && (r.Some? ==> r.value in v.clients)
      && v' == if r.Some? then Reference(v, r.value) else v
    case Releasing(h) =>
      h in v.clients && v.clients[h] > 0 && v' == GiveBack(v, h)
    case Inserting(e, caching, r, k) =>
      e !in v.issued && e !in v.clients
      && Admits(v, e, caching, r)
      && k <= |Admitted(v, e, caching, r).lru| && v' == Evict(Admitted(v, e, caching, r), k)
    case Erasing(key, hash, r) =>
      IsLookup(v.cached, key, hash, r)
      && (r.Some? ==> r.value in v.clients)
      && v' == if r.Some? then TakeOut(v, r.value) else v
    case Pruning =>
      v' == Evict(v, |v.lru|)
  }

  /** With caching on, r is the entry that had the key. */
  ghost predicate Admits(v: View, e: Handle, caching: bool, r: Option<Handle>) {
    if caching then IsLookup(v.cached, e.key, e.hash, r) && (r.Some? ==> r.value in v.clients && r.value != e)
    else r == None
  }

  ghost function Admitted(v: View, e: Handle, caching: bool, r: Option<Handle>): View
    requires Admits(v, e, caching, r)
  {
    var v1 := Allocate(v, e, caching);
    if r.Some? then TakeOut(v1, r.value) else v1
  }

  /** The last entry evicted had to go: with it the charges did not fit. */
  predicate NoneTooMany(v: View, k: nat, usage: int, capacity: nat) {
    0 < k <= |v.lru| ==> usage + v.lru[k-1].charge > capacity
  }

  lemma EvictNone(v: View)
    ensures Evict(v, 0) == v
  {
    var gone := Gone(v, 0);
    assert gone == {} && v.lru[..0] == [] && v.lru[0..] == v.lru;
    assert v.cached - gone == v.cached && v.clients - gone == v.clients && v.deleted + [] == v.deleted;
  }

  function WithoutOldest(v: View): View
    requires v.lru != []
  {
    var h := v.lru[0];
    v.(cached := v.cached - {h}, clients := v.clients - {h}, lru := v.lru[1..], deleted := v.deleted + [h])
  }

  /** Evicting one more is taking the oldest one left out of the cache. */
  lemma EvictOneMoreView(v: View, k: nat)
    requires k < |v.lru| && v.lru[k] in v.clients && v.clients[v.lru[k]] == 0 && v.lru[k] !in v.lru[..k]
    ensures var v1 := Evict(v, k);
            v1.lru != [] && v1.lru[0] == v.lru[k] && v1.lru[0] in v1.clients
            && Evict(v, k + 1) == WithoutOldest(v1)
  {
    var h := v.lru[k];
    assert v.lru[..k+1] == v.lru[..k] + [h] && v.lru[k..][1..] == v.lru[k+1..];
    var gone := Gone(v, k);
    var more := Gone(v, k + 1);
    assert more == gone + {h};
    assert (v.cached - gone) - {h} == v.cached - more && (v.clients - gone) - {h} == v.clients - more;
    assert (v.deleted + v.lru[..k]) + [h] == v.deleted + v.lru[..k+1];
  }

  lemma OneMoreEvicted(s: State, v: View, k: nat, capacity: nat)
    requires StateOk(s, None) && s.lists.lru != [] && k <= |v.lru| && ViewOf(s) == Evict(v, k)
    ensures k < |v.lru| && v.lru[k] == s.lists.lru[0] && s.lists.lru[0] in s.clients
    ensures var h := s.lists.lru[0];
            && Evict(v, k + 1) == WithoutOldest(ViewOf(s))
            && (s.usage > capacity ==> NoneTooMany(v, k + 1, s.usage - h.charge, capacity))
  {
    OldestUnheld(s, s.lists.lru[0]);
    EvictOneMoreView(v, k);
  }

  /** The entry e, cached just now, is known, and an entry r that had its key is out. */
  ghost predicate IsReplaced(v: View, e: Handle, r: Option<Handle>, v': View) {
    && IsLookup(v.cached, e.key, e.hash, r) && (r.Some? ==> r.value in v.clients && r.value != e)
    && var v1 := v.(cached := v.cached + {e});
       v' == if r.Some? then TakeOut(v1, r.value) else v1
  }

  lemma AdmittedIs(v: View, e: Handle, caching: bool, r: Option<Handle>, v': View)
    requires e !in v.clients && e !in v.cached
    requires var v1 := Allocate(v, e, false);
             if caching then IsReplaced(v1, e, r, v') else r == None && v' == v1
    ensures Admits(v, e, caching, r) && v' == Admitted(v, e, caching, r)
    ensures e in v'.clients && v'.clients[e] == 1 && (e in v'.cached <==> caching)
  {
  }

  lemma EvictKeeps(v: View, k: nat, e: Handle)
    requires k <= |v.lru| && e !in v.lru && e in v.clients
    ensures e in Evict(v, k).clients && Evict(v, k).clients[e] == v.clients[e]
    ensures e in Evict(v, k).cached <==> e in v.cached
  {
    assert forall h | h in v.lru[..k] :: h in v.lru;
  }

  /** An entry that a client holds is not on the LRU list. */
  lemma HeldStays(s: State, e: Handle)
    requires StateOk(s, None) && e in s.clients && s.clients[e] > 0
    ensures e !in s.lists.lru
  {
    if e in s.lists.lru {
      OldestUnheld(s, e);
    }
  }

  lemma InsertedMembers(cached: set<Handle>, members: set<Handle>, e: Handle, r: Option<Handle>)
    requires e in cached && members == cached - {e} && (r.Some? ==> r.value in members)
    ensures (if r.Some? then members - {r.value} else members) + {e} == if r.Some? then cached - {r.value} else cached
    ensures r.Some? ==> r.value in cached && r.value != e
    ensures forall h | h in cached && h != e :: h in members
  {
  }

  /** Dropping the count of a client and then the reference is giving the reference back. */
  lemma AfterGivingBack(v: View, e: Handle, v': View)
    requires e in v.clients && v.clients[e] > 0
    requires var clients := v.clients[e := v.clients[e] - 1];
             && v'.cached == v.cached && v'.issued == v.issued
             && (if clients[e] == 0 && e !in v.cached then
                   v'.clients == clients - {e} && v'.deleted == v.deleted + [e]
                 else v'.clients == clients && v'.deleted == v.deleted)
             && v'.lru == if e in v.cached && clients[e] == 0 then v.lru + [e] else v.lru
    ensures v' == GiveBack(v, e)
  {
    assert v.clients[e := v.clients[e] - 1] - {e} == v.clients - {e};
  }

  lemma PlacedAfterRef(l: Lists, l': Lists, refs: map<Handle, nat>, cached: set<Handle>, e: Handle)
    requires Placed(l, refs, cached) && e in refs && refs[e] >= 1
    requires if e in l.lru then Moved(l, l', false, e) else l' == l
    ensures Placed(l', refs[e := refs[e] + 1], cached)
  {
  }

  lemma KeysKept(refs: map<Handle, nat>, e: Handle)
    requires e in refs
    ensures refs[e := refs[e] + 1].Keys == refs.Keys
    ensures forall h :: h in refs[e := refs[e] + 1] <==> h in refs
  {
  }

  class LRUCache {
    const capacity: nat
    const table: HandleTable
    var usage: nat
    var next: map<Node, Node>
    var prev: map<Node, Node>
    var refs: map<Handle, nat>
    var cached: set<Handle>
    var nextId: nat
    ghost var lru: seq<Handle>
    ghost var inUse: seq<Handle>
    /** How many references to each live entry clients hold. */
    ghost var clients: map<Handle, nat>
    ghost var deleted: seq<Handle>
    ghost var issued: set<Handle>

    ghost function AllLists(): Lists
      reads this
    {
      Lists(next, prev, lru, inUse)
    }

    ghost function Now(): State
      reads this
    {
      State(AllLists(), refs, cached, usage, nextId, clients, deleted, issued)
    }

    ghost function Seen(): View
      reads this
    {
      ViewOf(Now())
    }

    ghost predicate Sound(members: set<Handle>, extra: Option<Handle>)
      reads this, table
    {
      table.Valid() && table.members == members && ListsOk(AllLists()) && StateOk(Now(), extra)
    }

    ghost predicate Valid()
      reads this, table
    {
      Sound(cached, None)
    }

    constructor (capacity: nat)
      ensures Valid() && this.capacity == capacity && Seen() == View({}, map[], [], [], {}) && fresh(table)
    {
      this.capacity := capacity;
      table := new HandleTable();
      usage := 0;
      next := map[LruHead := LruHead, InUseHead := InUseHead];
      prev := map[LruHead := LruHead, InUseHead := InUseHead];
      refs, cached, nextId := map[], {}, 0;
      lru, inUse, clients, deleted, issued := [], [], map[], [], {};
    }

    method LRU_Remove(e: Handle)
      requires ListsOk(AllLists()) && (e in lru || e in inUse)
      modifies this`next, this`prev, this`lru, this`inUse
      ensures ListsOk(AllLists()) && lru == Dropped(old(lru), e) && inUse == Dropped(old(inUse), e)
      ensures forall o :: o in lru <==> o in old(lru) && o != e
      ensures forall o :: o in inUse <==> o in old(inUse) && o != e
    {
      Removed(AllLists(), e);
      ghost var after := RemoveLinks(AllLists(), e);
      var n, p := next[Entry(e)], prev[Entry(e)];
      prev := prev[n := p];
      next := next[p := n];
      lru, inUse := after.lru, after.inUse;
    }

    method LRU_Append(toLru: bool, e: Handle)
      requires ListsOk(AllLists()) && e !in lru && e !in inUse
      modifies this`next, this`prev, this`lru, this`inUse
      ensures ListsOk(AllLists())
      ensures lru == if toLru then old(lru) + [e] else old(lru)
      ensures inUse == if toLru then old(inUse) else old(inUse) + [e]
    {
      Appended(AllLists(), toLru, e);
      var list := if toLru then LruHead else InUseHead;
      var last := prev[list];
      next := next[Entry(e) := list];
      prev := prev[Entry(e) := last];
      next := next[last := Entry(e)];
      prev := prev[list := Entry(e)];
      if toLru {
        lru := lru + [e];
      } else {
        inUse := inUse + [e];
      }
    }

    /** Takes an entry from the list it is on and makes it the newest of the other. */
    method MoveTo(toLru: bool, e: Handle)
      requires ListsOk(AllLists()) && e in if toLru then inUse else lru
      modifies this`next, this`prev, this`lru, this`inUse
      ensures ListsOk(AllLists())
      ensures lru == if toLru then old(lru) + [e] else Dropped(old(lru), e)
      ensures inUse == if toLru then Dropped(old(inUse), e) else old(inUse) + [e]
      ensures forall h :: h in lru <==> if toLru then h in old(lru) || h == e else h in old(lru) && h != e
      ensures forall h :: h in inUse <==> if toLru then h in old(inUse) && h != e else h in old(inUse) || h == e
    {
      LRU_Remove(e);
      LRU_Append(toLru, e);
    }

    /** A client gets a reference. */
    method Ref(e: Handle)
      requires ListsOk(AllLists()) && StateOk(Now(), None) && e in refs
      modifies this`next, this`prev, this`lru, this`inUse, this`refs, this`clients
      ensures ListsOk(AllLists()) && StateOk(Now(), None)
      ensures e in old(clients) && Seen() == Reference(old(Seen()), e)
    {
      ghost var s := Now();
      TakeIntoUse(e);
      Count(s, e);
    }

    /** An entry that no client held yet leaves the LRU list. */
    method TakeIntoUse(e: Handle)
      requires ListsOk(AllLists()) && Placed(AllLists(), refs, cached) && e in refs
      modifies this`next, this`prev, this`lru, this`inUse
      ensures ListsOk(AllLists())
      ensures if e in old(lru) then Moved(old(AllLists()), AllLists(), false, e) else AllLists() == old(AllLists())
      ensures lru == Dropped(old(lru), e)
    {
      assert refs[e] == 1 && e in cached <==> e in lru;
      if refs[e] == 1 && e in cached {
        MoveTo(false, e);
      }
    }

    method Count(ghost s: State, e: Handle)
      requires StateOk(s, None) && e in refs
      requires if e in s.lists.lru then Moved(s.lists, AllLists(), false, e) else AllLists() == s.lists
      requires Now() == s.(lists := AllLists())
      modifies this`refs, this`clients
      ensures StateOk(Now(), None)
      ensures e in old(clients) && clients == old(clients)[e := old(clients)[e] + 1]
    {
      AfterRef(s, e, AllLists());
      refs := refs[e := refs[e] + 1];
      clients := clients[e := clients[e] + 1];
    }

    /** Gives up one reference: to an entry that is counted once too often. */
    method Unref(e: Handle)
      requires ListsOk(AllLists()) && StateOk(Now(), Some(e))
      modifies this`next, this`prev, this`lru, this`inUse, this`refs, this`clients, this`deleted
      ensures ListsOk(AllLists()) && StateOk(Now(), None)
      ensures if old(clients)[e] == 0 && e !in cached then
                clients == old(clients) - {e} && deleted == old(deleted) + [e]
              else clients == old(clients) && deleted == old(deleted)
      ensures lru == if e in cached && old(clients)[e] == 0 then old(lru) + [e] else old(lru)
    {
      if refs[e] == 1 {
        Dispose(e);
      } else {
        ghost var s := Now();
        PutBack(e);
        Uncount(s, e);
      }
    }

    /** A cached entry that only one client still holds becomes the newest of the LRU list. */
    method PutBack(e: Handle)
      requires ListsOk(AllLists()) && StateOk(Now(), Some(e)) && refs[e] > 1
      modifies this`next, this`prev, this`lru, this`inUse
      ensures ListsOk(AllLists())
      ensures if e in cached && refs[e] == 2 then Moved(old(AllLists()), AllLists(), true, e) && e !in old(lru)
              else AllLists() == old(AllLists())
      ensures lru == if e in cached && clients[e] == 0 then old(lru) + [e] else old(lru)
    {
      if e in cached && refs[e] == 2 {
        MoveTo(true, e);
      }
    }

    method Dispose(e: Handle)
      requires StateOk(Now(), Some(e)) && refs[e] == 1
      modifies this`refs, this`clients, this`deleted
      ensures StateOk(Now(), None)
      ensures e in old(clients) && old(clients)[e] == 0 && e !in cached
      ensures clients == old(clients) - {e} && deleted == old(deleted) + [e]
    {
      AfterLastUnref(Now(), e);
      refs := refs - {e};
      clients := clients - {e};
      deleted := deleted + [e];
    }

    method Uncount(ghost s: State, e: Handle)
      requires StateOk(s, Some(e)) && s.refs[e] > 1
      requires if e in s.cached && s.refs[e] == 2 then Moved(s.lists, AllLists(), true, e) && e !in s.lists.lru
               else AllLists() == s.lists
      requires Now() == s.(lists := AllLists())
      modifies this`refs
      ensures StateOk(Now(), None)
    {
      AfterUnref(s, e, AllLists());
      refs := refs[e := refs[e] - 1];
    }

    /** Takes an entry off its list and out of the sum of charges. */
    method Uncache(e: Handle)
      requires ListsOk(AllLists()) && StateOk(Now(), None) && e in cached
      modifies this`next, this`prev, this`lru, this`inUse, this`cached, this`usage
      ensures ListsOk(AllLists()) && StateOk(Now(), Some(e))
      ensures cached == old(cached) - {e} && lru == Dropped(old(lru), e)
    {
      ghost var s := Now();
      CachedIsListed(s, e);
      LRU_Remove(e);
      AfterUncaching(s, e, AllLists());
      cached := cached - {e};
      usage := usage - e.charge;
    }

    /** Finishes taking an entry out of the cache; the table no longer knows it. */
    method FinishErase(e: Handle)
      requires Sound(cached - {e}, None) && e in cached
      modifies this`next, this`prev, this`lru, this`inUse, this`cached, this`usage, this`refs, this`clients,
               this`deleted
      ensures Valid() && e in old(clients) && Seen() == TakeOut(old(Seen()), e)
    {
      Uncache(e);
      Unref(e);
    }

    /** Looks an entry up and, if it is there, takes a reference to it. */
    method Lookup(key: Bytes, hash: uint32) returns (r: Option<Handle>)
      requires Valid()
      modifies this`next, this`prev, this`lru, this`inUse, this`refs, this`clients
      ensures Valid() && Performs(old(Seen()), Looking(key, hash, r), Seen())
    {
      r := table.Lookup(key, hash);
      if r.Some? {
        CachedIsListed(Now(), r.value);
        Ref(r.value);
      }
    }

    /** A client gives back a reference. */
    method Release(e: Handle)
      requires Valid() && e in clients && clients[e] > 0
      modifies this`next, this`prev, this`lru, this`inUse, this`refs, this`clients, this`deleted
      ensures Valid() && Performs(old(Seen()), Releasing(e), Seen())
    {
      DropReference(e);
    }

    method DropReference(e: Handle)
      requires ListsOk(AllLists()) && StateOk(Now(), None) && e in clients && clients[e] > 0
      modifies this`next, this`prev, this`lru, this`inUse, this`refs, this`clients, this`deleted
      ensures ListsOk(AllLists()) && StateOk(Now(), None) && Seen() == GiveBack(old(Seen()), e)
    {
      ghost var v := Seen();
      DropClient(e);
      Unref(e);
      AfterGivingBack(v, e, Seen());
    }

    ghost method DropClient(e: Handle)
      requires StateOk(Now(), None) && e in clients && clients[e] > 0
      modifies this`clients
      ensures StateOk(Now(), Some(e)) && clients == old(clients)[e := old(clients)[e] - 1]
    {
      GivenBack(Now(), e);
      clients := clients[e := clients[e] - 1];
    }

    /** Takes the entry with the key out of the cache, if there is one. */
    method Erase(key: Bytes, hash: uint32) returns (ghost r: Option<Handle>)
      requires Valid()
      modifies this`next, this`prev, this`lru, this`inUse, this`cached, this`usage, this`refs, this`clients,
               this`deleted, table
      ensures Valid() && Performs(old(Seen()), Erasing(key, hash, r), Seen())
      ensures forall h | h in old(cached) :: h in cached <==> !Matches(h, key, hash)
    {
      var e := table.Remove(key, hash);
      r := e;
      if e.Some? {
        FinishErase(e.value);
      }
    }

    /** Allocates an entry, with the reference of the client that inserts it. */
    method NewEntry(key: Bytes, hash: uint32, value: nat, charge: nat) returns (e: Handle)
      requires StateOk(Now(), None)
      modifies this`nextId, this`refs, this`clients, this`issued
      ensures StateOk(Now(), None)
      ensures e == Handle(old(nextId), key, hash, value, charge) && e !in old(issued) && e !in old(clients)
      ensures refs == old(refs)[e := 1] && e !in cached && Seen() == Allocate(old(Seen()), e, false)
    {
      e := Handle(nextId, key, hash, value, charge);
      AfterNew(Now(), e);
      nextId := nextId + 1;
      refs := refs[e := 1];
      clients := clients[e := 1];
      issued := issued + {e};
    }

    /** Gives the cache its own reference to a new entry. */
    method Enter(e: Handle)
      requires ListsOk(AllLists()) && StateOk(Now(), None)
      requires e in refs && refs[e] == 1 && e !in cached && e in clients && clients[e] == 1
      modifies this`next, this`prev, this`lru, this`inUse, this`refs, this`cached, this`usage
      ensures ListsOk(AllLists()) && StateOk(Now(), None)
      ensures Seen() == old(Seen()).(cached := old(cached) + {e}) && cached - {e} == old(cached)
    {
      ghost var s := Now();
      NotListed(s, e);
      LRU_Append(false, e);
      CountCached(s, e);
    }

    method CountCached(ghost s: State, e: Handle)
      requires StateOk(s, None)
      requires e in s.refs && s.refs[e] == 1 && e !in s.cached && e in s.clients && s.clients[e] == 1
      requires Now() == s.(lists := AllLists()) && lru == s.lists.lru && inUse == s.lists.inUse + [e]
      modifies this`refs, this`cached, this`usage
      ensures StateOk(Now(), None)
      ensures cached == old(cached) + {e} && cached - {e} == old(cached)
    {
      AfterEnter(s, e, AllLists());
      refs := refs[e := 2];
      cached := cached + {e};
      usage := usage + e.charge;
    }

    /** Takes the oldest entry that no client holds out of the cache. */
    method EvictOldest()
      requires Valid() && lru != []
      modifies this`next, this`prev, this`lru, this`inUse, this`cached, this`usage, this`refs, this`clients,
               this`deleted, table
      ensures Valid() && Seen() == WithoutOldest(old(Seen())) && usage == old(usage) - old(lru)[0].charge
    {
      FirstOnRing(AllLists());
      OldestUnheld(Now(), lru[0]);
      var oldest := next[LruHead].handle;
      ghost var cached0 := cached;
      ChargeWithout(cached, oldest);
      assert lru[0] == oldest && Dropped(lru, oldest) == lru[1..];
      var r := table.Remove(oldest.key, oldest.hash);
      assert r == Some(oldest);
      FinishErase(oldest);
    }

    /** There is an entry that no client holds. */
    method AnyUnheld() returns (b: bool)
      requires ListsOk(AllLists())
      ensures b <==> lru != []
    {
      FirstOnRing(AllLists());
      b := next[LruHead] != LruHead;
    }

    /** Evicts until the charges fit, or nothing is left that could go. */
    method EvictOverflow() returns (ghost k: nat)
      requires Valid()
      modifies this`next, this`prev, this`lru, this`inUse, this`cached, this`usage, this`refs, this`clients,
               this`deleted, table
      ensures Valid() && (usage <= capacity || lru == [])
      ensures k <= |old(lru)| && Seen() == Evict(old(Seen()), k) && NoneTooMany(old(Seen()), k, usage, capacity)
    {
      ghost var v := Seen();
      k := 0;
      EvictNone(v);
      var unheld := AnyUnheld();
      while usage > capacity && unheld
        invariant Valid() && (unheld <==> lru != [])
        invariant k <= |v.lru| && Seen() == Evict(v, k) && NoneTooMany(v, k, usage, capacity)
        decreases |lru|
      {
        k := EvictOneMore(v, k);
        unheld := AnyUnheld();
      }
    }

    method EvictOneMore(ghost v: View, ghost k: nat) returns (ghost k': nat)
      requires Valid() && lru != [] && k <= |v.lru| && Seen() == Evict(v, k)
      modifies this`next, this`prev, this`lru, this`inUse, this`cached, this`usage, this`refs, this`clients,
               this`deleted, table
      ensures Valid() && k' == k + 1 && k' <= |v.lru| && Seen() == Evict(v, k')
      ensures |lru| < |old(lru)| && (old(usage) > capacity ==> NoneTooMany(v, k', usage, capacity))
    {
      k' := k + 1;
      OneMoreEvicted(Now(), v, k, capacity);
      EvictOldest();
    }

    /** Adds an entry for the key; the entry that had the key before leaves the cache, and then as many as must. */
    method Insert(key: Bytes, hash: uint32, value: nat, charge: nat)
      returns (e: Handle, ghost r: Option<Handle>, ghost k: nat)
      requires Valid()
      modifies this, table
      ensures Valid() && (usage <= capacity || lru == [])
      ensures e == Handle(old(nextId), key, hash, value, charge)
      ensures Performs(old(Seen()), Inserting(e, capacity > 0, r, k), Seen())
      ensures NoneTooMany(Admitted(old(Seen()), e, capacity > 0, r), k, usage, capacity)
      ensures e in clients && clients[e] == 1 && (e in cached <==> capacity > 0)
    {
      e, r := Add(key, hash, value, charge);
      ghost var v := Seen();
      k := EvictOverflow();
      EvictKeeps(v, k, e);
    }

    /** Adds an entry; the charges may no longer fit. */
    method Add(key: Bytes, hash: uint32, value: nat, charge: nat) returns (e: Handle, ghost r: Option<Handle>)
      requires Valid()
      modifies this, table
      ensures Valid() && e == Handle(old(nextId), key, hash, value, charge)
      ensures e !in old(issued) && e !in old(clients) && Admits(old(Seen()), e, capacity > 0, r)
      ensures Seen() == Admitted(old(Seen()), e, capacity > 0, r)
      ensures e in clients && clients[e] == 1 && e !in lru && (e in cached <==> capacity > 0)
    {
      ghost var v := Seen();
      e := NewEntry(key, hash, value, charge);
      ghost var v1 := Seen();
      r := Admit(e);
      AdmittedIs(v, e, capacity > 0, r, Seen());
      HeldStays(Now(), e);
    }

    /** Caches a new entry, unless caching is turned off. */
    method Admit(e: Handle) returns (ghost r: Option<Handle>)
      requires table.Valid() && table.members == cached && ListsOk(AllLists()) && StateOk(Now(), None)
      requires e in refs && refs[e] == 1 && e !in cached && e in clients && clients[e] == 1
      modifies this`next, this`prev, this`lru, this`inUse, this`cached, this`usage, this`refs, this`clients,
               this`deleted, table
      ensures Valid()
      ensures if capacity > 0 then IsReplaced(old(Seen()), e, r, Seen()) else r == None && Seen() == old(Seen())
    {
      r := None;
      if capacity > 0 {
        Enter(e);
        r := Replace(e);
      }
    }

    /** Makes the table know the entry; an entry with its key is erased. */
    method Replace(e: Handle) returns (ghost r: Option<Handle>)
      requires Sound(cached - {e}, None) && e in cached
      modifies this`next, this`prev, this`lru, this`inUse, this`cached, this`usage, this`refs, this`clients,
               this`deleted, table
      ensures Valid() && IsLookup(old(cached) - {e}, e.key, e.hash, r)
      ensures r.Some? ==> r.value in old(clients)
      ensures Seen() == if r.Some? then TakeOut(old(Seen()), r.value) else old(Seen())
    {
      var replaced := InsertInTable(e);
      r := replaced;
      if replaced.Some? {
        FinishErase(replaced.value);
      }
    }

    method InsertInTable(e: Handle) returns (r: Option<Handle>)
      requires table.Valid() && table.members == cached - {e} && e in cached
      modifies table
      ensures table.Valid() && table.members == if r.Some? then cached - {r.value} else cached
      ensures IsLookup(cached - {e}, e.key, e.hash, r)
      ensures Now() == old(Now())
    {
      ghost var members := table.members;
      r := table.Insert(e);
      InsertedMembers(cached, members, e, r);
    }

    /** Drops every entry that no client holds. */
    method Prune()
      requires Valid()
      modifies this`next, this`prev, this`lru, this`inUse, this`cached, this`usage, this`refs, this`clients,
               this`deleted, table
      ensures Valid() && lru == [] && Performs(old(Seen()), Pruning, Seen())
    {
      ghost var v := Seen();
      ghost var k := 0;
      EvictNone(v);
      var unheld := AnyUnheld();
      while unheld
        invariant Valid() && (unheld <==> lru != [])
        invariant k <= |v.lru| && Seen() == Evict(v, k)
        decreases |lru|
      {
        k := EvictOneMore(v, k);
        unheld := AnyUnheld();
      }
      assert k == |v.lru|;
    }
  }
}
