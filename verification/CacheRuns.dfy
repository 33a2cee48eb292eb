/**
 Any run of the operations of the LRU cache, each of which does what its contract says.
 An entry's deleter runs once, when the last reference of the cache and of clients to it
 goes, and never before; and what may be evicted is kept in the order in which clients
 last let go of it.
 */
module CacheRuns {
  import opened Wrappers
  import opened Comparator
  import opened Codings
  import opened HandleTables
  import opened Rings
  import opened Caches

  ghost predicate NoneTwice(list: seq<Handle>) {
    forall i, j | 0 <= i < j < |list| :: list[i] != list[j]
  }

  predicate Held(v: View, h: Handle) {
    h in v.clients && v.clients[h] > 0
  }

  /** The entries that are counted are those that the cache or a client holds; all others went to their deleters. */
  ghost predicate Counted(v: View) {
    && v.cached <= v.clients.Keys
    && (forall h | h in v.clients :: h in v.cached || v.clients[h] > 0)
    && (forall h {:trigger h in v.issued} :: h in v.issued <==> h in v.clients || h in v.deleted)
    && (forall h | h in v.clients :: h !in v.deleted)
    && NoneTwice(v.deleted)
  }

  /** The LRU list has the cached entries that no client holds. */
  ghost predicate Listed(v: View) {
    && NoneTwice(v.lru)
    && forall h {:trigger h in v.lru} :: h in v.lru <==> h in v.cached && h in v.clients && v.clients[h] == 0
  }

  ghost predicate Accounted(v: View) {
    Counted(v) && Listed(v)
  }

  /** Every state of the class satisfies it. */
  lemma CacheIsAccounted(s: State)
    requires ListsOk(s.lists) && StateOk(s, None)
    ensures Accounted(ViewOf(s))
  {
    RingHasNoneTwice(s.lists);
    assert Listed(ViewOf(s)) by {
      forall h
        ensures h in s.lists.lru <==> h in s.cached && h in s.clients && s.clients[h] == 0
      {
        assert h in s.refs ==> s.refs[h] >= 1;
      }
    }
  }

  lemma RingHasNoneTwice(l: Lists)
    requires ListsOk(l)
    ensures NoneTwice(l.lru)
  {
    forall i, j | 0 <= i < j < |l.lru|
      ensures l.lru[i] != l.lru[j]
    {
      NodesDiffer(l.next, l.prev, LruHead, l.lru, i + 1, j + 1);
      assert NodeAt(LruHead, l.lru, i + 1) == Entry(l.lru[i]) && NodeAt(LruHead, l.lru, j + 1) == Entry(l.lru[j]);
    }
  }

  // ----- One operation -----

  /** Where an element of a list without its element k was before. */
  function Back(k: nat, i: nat): nat {
    if i < k then i else i + 1
  }

  /** Taking an element out keeps the others. */
  lemma DroppedKeeps(list: seq<Handle>, h: Handle)
    requires NoneTwice(list)
    ensures NoneTwice(Dropped(list, h)) && forall o :: o in Dropped(list, h) <==> o in list && o != h
  {
    DroppedMembers(list, h);
    if h in list {
      var k := PlaceIn(list, h);
      assert forall i | 0 <= i < |Without(list, k)| :: Without(list, k)[i] == list[Back(k, i)];
    }
  }

  lemma OneMoreOnce(list: seq<Handle>, h: Handle)
    requires NoneTwice(list) && h !in list
    ensures NoneTwice(list + [h]) && forall o :: o in list + [h] <==> o in list || o == h
  {
  }

  lemma ReferenceKeeps(v: View, h: Handle)
    requires Accounted(v) && h in v.cached
    ensures h in v.clients && Accounted(Reference(v, h))
  {
    DroppedKeeps(v.lru, h);
    assert v.clients[h := v.clients[h] + 1].Keys == v.clients.Keys;
  }

  lemma GiveBackKeeps(v: View, h: Handle)
    requires Accounted(v) && h in v.clients && v.clients[h] > 0
    ensures Accounted(GiveBack(v, h)) && v.deleted <= GiveBack(v, h).deleted
  {
    if v.clients[h] > 1 {
      OthersHoldIt(v, h);
    } else if h in v.cached {
      OnlyTheCacheHoldsIt(v, h);
    } else {
      NobodyHoldsIt(v, h);
    }
  }

  lemma OthersHoldIt(v: View, h: Handle)
    requires Accounted(v) && h in v.clients && v.clients[h] > 1
    ensures Accounted(v.(clients := v.clients[h := v.clients[h] - 1]))
  {
    assert v.clients[h := v.clients[h] - 1].Keys == v.clients.Keys;
  }

  lemma OnlyTheCacheHoldsIt(v: View, h: Handle)
    requires Accounted(v) && h in v.clients && v.clients[h] == 1 && h in v.cached
    ensures Accounted(v.(clients := v.clients[h := 0], lru := v.lru + [h]))
  {
    assert v.clients[h := 0].Keys == v.clients.Keys;
    OneMoreOnce(v.lru, h);
  }

  lemma NobodyHoldsIt(v: View, h: Handle)
    requires Accounted(v) && h in v.clients && v.clients[h] == 1 && h !in v.cached
    ensures Accounted(v.(clients := v.clients - {h}, deleted := v.deleted + [h]))
  {
    OneMoreOnce(v.deleted, h);
  }

  lemma TakeOutKeeps(v: View, h: Handle)
    requires Accounted(v) && h in v.cached
    ensures h in v.clients && Accounted(TakeOut(v, h)) && v.deleted <= TakeOut(v, h).deleted
  {
    DroppedKeeps(v.lru, h);
    OneMoreOnce(v.deleted, h);
  }

  lemma AllocateKeeps(v: View, e: Handle, caching: bool)
    requires Accounted(v) && e !in v.issued
    ensures Accounted(Allocate(v, e, caching)) && e !in v.clients
  {
    assert e in v.clients ==> e in v.issued;
    assert e in v.deleted ==> e in v.issued;
    assert v.clients[e := 1].Keys == v.clients.Keys + {e};
  }

  lemma {:induction false} EvictKeepsAccounts(v: View, k: nat)
    requires Accounted(v) && k <= |v.lru|
    ensures Accounted(Evict(v, k)) && v.deleted <= Evict(v, k).deleted
  {
    if k == 0 {
      EvictNone(v);
    } else {
      EvictKeepsAccounts(v, k - 1);
      var h := v.lru[k-1];
      assert h in v.lru && forall i | 0 <= i < k - 1 :: v.lru[i] != h;
      EvictOneMoreView(v, k - 1);
      WithoutOldestKeeps(Evict(v, k - 1));
    }
  }

  lemma WithoutOldestKeeps(v: View)
    requires Accounted(v) && v.lru != []
    ensures Accounted(WithoutOldest(v)) && v.deleted <= WithoutOldest(v).deleted
  {
    var h := v.lru[0];
    assert h in v.lru;
    OneMoreOnce(v.deleted, h);
    assert forall o :: o in v.lru[1..] <==> o in v.lru && o != h by {
      assert v.lru == [h] + v.lru[1..];
      assert forall i | 1 <= i < |v.lru| :: v.lru[i] != h && v.lru[1..][i-1] == v.lru[i];
    }
  }

  lemma OperationKeeps(v: View, op: Operation, v': View)
    requires Accounted(v) && Performs(v, op, v')
    ensures Accounted(v') && v.deleted <= v'.deleted && v.issued <= v'.issued
  {
    match op
    case Looking(key, hash, r) =>
      if r.Some? {
        ReferenceKeeps(v, r.value);
      }
    case Releasing(h) => GiveBackKeeps(v, h);
    case Inserting(e, caching, r, k) =>
      AllocateKeeps(v, e, caching);
      if r.Some? {
        TakeOutKeeps(Allocate(v, e, caching), r.value);
      }
      EvictKeepsAccounts(Admitted(v, e, caching, r), k);
    case Erasing(key, hash, r) =>
      if r.Some? {
        TakeOutKeeps(v, r.value);
      }
    case Pruning => EvictKeepsAccounts(v, |v.lru|);
  }

  // ----- Runs -----

  const NEW_CACHE := View({}, map[], [], [], {})

  ghost predicate IsRun(views: seq<View>, ops: seq<Operation>) {
    && |views| == |ops| + 1 && views[0] == NEW_CACHE
    && forall i {:trigger ops[i]} | 0 <= i < |ops| :: Performs(views[i], ops[i], views[i+1])
  }

  lemma {:induction false} RunAccounts(views: seq<View>, ops: seq<Operation>, i: nat)
    requires IsRun(views, ops) && i < |views|
    ensures Accounted(views[i])
  {
    if i > 0 {
      RunAccounts(views, ops, i - 1);
      assert Performs(views[i-1], ops[i-1], views[i]);
      OperationKeeps(views[i-1], ops[i-1], views[i]);
    }
  }

  /**
   In every state of a run, an entry ever inserted has gone to its deleter exactly if neither the
   cache nor a client holds it, and no entry has gone there twice.
   */
  lemma DeleterRunsOnce(views: seq<View>, ops: seq<Operation>, i: nat)
    requires IsRun(views, ops) && i < |views|
    ensures NoneTwice(views[i].deleted)
    ensures forall h | h in views[i].issued :: h in views[i].deleted <==> h !in views[i].cached && !Held(views[i], h)
  {
    RunAccounts(views, ops, i);
  }

  /** What went to its deleter stays gone, in the order in which it went. */
  lemma {:induction false} DeletedGrows(views: seq<View>, ops: seq<Operation>, i: nat, j: nat)
    requires IsRun(views, ops) && i <= j < |views|
    ensures views[i].deleted <= views[j].deleted && views[i].issued <= views[j].issued
    decreases j
  {
    if i < j {
      DeletedGrows(views, ops, i, j - 1);
      RunAccounts(views, ops, j - 1);
      assert Performs(views[j-1], ops[j-1], views[j]);
      OperationKeeps(views[j-1], ops[j-1], views[j]);
    }
  }

  // ----- The order of the LRU list -----

  /** The last operation before state n that put h on the LRU list. */
  function LastLetGo(views: seq<View>, n: nat, h: Handle): int
    requires n < |views|
  {
    if n == 0 then -1
    else if h in views[n].lru && h !in views[n-1].lru then n - 1
    else LastLetGo(views, n - 1, h)
  }

  lemma {:induction false} LetGoBefore(views: seq<View>, n: nat, h: Handle)
    requires n < |views|
    ensures LastLetGo(views, n, h) < n
  {
    if n > 0 {
      LetGoBefore(views, n - 1, h);
    }
  }

  ghost predicate Comes(list: seq<Handle>, x: Handle, y: Handle) {
    exists i, j :: 0 <= i < j < |list| && list[i] == x && list[j] == y
  }

  /** Elements of the list keep their order, and at most one is new, at the end. */
  ghost predicate OrderKept(list: seq<Handle>, list': seq<Handle>) {
    forall a, b | 0 <= a < b < |list'| ::
      list'[a] in list && (list'[b] in list ==> Comes(list, list'[a], list'[b]))
  }

  lemma DropKeepsOrder(list: seq<Handle>, h: Handle)
    ensures OrderKept(list, Dropped(list, h))
  {
    var list' := Dropped(list, h);
    if h in list {
      var k := PlaceIn(list, h);
      forall a, b | 0 <= a < b < |list'|
        ensures list'[a] in list
        ensures Comes(list, list'[a], list'[b])
      {
        assert list[Back(k, a)] == list'[a] && list[Back(k, b)] == list'[b];
      }
    } else {
      SuffixKeepsOrder(list, 0);
    }
  }

  lemma SuffixKeepsOrder(list: seq<Handle>, k: nat)
    requires k <= |list|
    ensures OrderKept(list, list[k..])
  {
    forall a, b | 0 <= a < b < |list[k..]|
      ensures list[k..][a] in list
      ensures Comes(list, list[k..][a], list[k..][b])
    {
      assert list[k + a] == list[k..][a] && list[k + b] == list[k..][b];
    }
  }

  lemma AppendKeepsOrder(list: seq<Handle>, h: Handle)
    requires h !in list
    ensures OrderKept(list, list + [h])
  {
    var list' := list + [h];
    forall a, b | 0 <= a < b < |list'|
      ensures list'[a] in list
      ensures list'[b] in list ==> Comes(list, list'[a], list'[b])
    {
      assert list'[a] == list[a];
      if b < |list| {
        assert list'[b] == list[b];
      }
    }
  }

  /** Dropping an element and then a prefix. */
  lemma DropSuffixKeepsOrder(list: seq<Handle>, mid: seq<Handle>, k: nat)
    requires k <= |mid| && OrderKept(list, mid) && forall h | h in mid :: h in list
    ensures OrderKept(list, mid[k..])
  {
    forall a, b | 0 <= a < b < |mid[k..]|
      ensures mid[k..][a] in list
      ensures Comes(list, mid[k..][a], mid[k..][b])
    {
      assert mid[k + a] == mid[k..][a] && mid[k + b] == mid[k..][b];
      assert mid[k + b] in list;
    }
  }

  lemma OperationKeepsOrder(v: View, op: Operation, v': View)
    requires Accounted(v) && Performs(v, op, v')
    ensures OrderKept(v.lru, v'.lru)
  {
    SuffixKeepsOrder(v.lru, 0);
    assert v.lru[0..] == v.lru;
    match op
    case Looking(key, hash, r) =>
      if r.Some? {
        DropKeepsOrder(v.lru, r.value);
      }
    case Releasing(h) =>
      AppendKeepsOrder(v.lru, h);
    case Inserting(e, caching, r, k) =>
      if r.Some? {
        DropKeepsOrder(v.lru, r.value);
        DroppedKeeps(v.lru, r.value);
      }
      DropSuffixKeepsOrder(v.lru, Admitted(v, e, caching, r).lru, k);
    case Erasing(key, hash, r) =>
      if r.Some? {
        DropKeepsOrder(v.lru, r.value);
      }
    case Pruning =>
      SuffixKeepsOrder(v.lru, |v.lru|);
  }

  lemma PairBefore(list: seq<Handle>, list': seq<Handle>, a: nat, b: nat) returns (i: nat, j: nat)
    requires OrderKept(list, list') && a < b < |list'| && list'[b] in list
    ensures i < j < |list| && list[i] == list'[a] && list[j] == list'[b]
  {
    assert Comes(list, list'[a], list'[b]);
    i, j :| 0 <= i < j < |list| && list[i] == list'[a] && list[j] == list'[b];
  }

  lemma StepKeepsOrder(views: seq<View>, ops: seq<Operation>, n: nat)
    requires IsRun(views, ops) && n < |ops|
    ensures OrderKept(views[n].lru, views[n+1].lru)
  {
    RunAccounts(views, ops, n);
    assert Performs(views[n], ops[n], views[n+1]);
    OperationKeepsOrder(views[n], ops[n], views[n+1]);
  }

  /**
   In every state of a run the LRU list, which is evicted from the front, has its entries in the
   order in which clients last let go of them.
   */
  lemma {:induction false} LruOrder(views: seq<View>, ops: seq<Operation>, n: nat, a: nat, b: nat)
    requires IsRun(views, ops) && n < |views| && a < b < |views[n].lru|
    ensures 0 <= LastLetGo(views, n, views[n].lru[a]) < LastLetGo(views, n, views[n].lru[b])
  {
    assert n > 0;
    StepKeepsOrder(views, ops, n - 1);
    var list, list' := views[n-1].lru, views[n].lru;
    assert list'[a] in list && list'[a] in list' && list'[b] in list';
    if list'[b] in list {
      var i, j := PairBefore(list, list', a, b);
      LruOrder(views, ops, n - 1, i, j);
    } else {
      LetGoBefore(views, n - 1, list'[a]);
      ListedWasLetGo(views, ops, n - 1, list'[a]);
    }
  }

  lemma {:induction false} ListedWasLetGo(views: seq<View>, ops: seq<Operation>, n: nat, h: Handle)
    requires IsRun(views, ops) && n < |views| && h in views[n].lru
    ensures LastLetGo(views, n, h) >= 0
  {
    if n > 0 && h in views[n-1].lru {
      ListedWasLetGo(views, ops, n - 1, h);
    }
  }

  // ----- How many are evicted -----

  lemma {:induction false} ChargeMonotone(s: set<Handle>, t: set<Handle>)
    requires s <= t
    ensures TotalCharge(s) <= TotalCharge(t)
    decreases t
  {
    if h :| h in t - s {
      ChargeWithout(t, h);
      ChargeMonotone(s, t - {h});
    } else {
      forall h | h in t
        ensures h in s
      {
        assert h !in t - s;
      }
      assert s == t;
    }
  }

  lemma EvictAnother(v: View, k: nat)
    requires Accounted(v) && k < |v.lru|
    ensures TotalCharge(Evict(v, k).cached) == TotalCharge(Evict(v, k + 1).cached) + v.lru[k].charge
  {
    EvictKeepsAccounts(v, k);
    var h := v.lru[k];
    assert h in v.lru && h in v.cached && forall i | 0 <= i < k :: v.lru[i] != h;
    EvictOneMoreView(v, k);
    assert h in Evict(v, k).lru;
    ChargeWithout(Evict(v, k).cached, h);
  }

  /** Insert evicts no more than it must: with fewer gone the charges would not fit. */
  lemma EvictsLeast(v: View, k: nat, capacity: nat, j: nat)
    requires Accounted(v) && j < k <= |v.lru| && NoneTooMany(v, k, TotalCharge(Evict(v, k).cached), capacity)
    ensures TotalCharge(Evict(v, j).cached) > capacity
  {
    EvictAnother(v, k - 1);
    assert Gone(v, j) <= Gone(v, k - 1) by {
      forall h | h in Gone(v, j)
        ensures h in Gone(v, k - 1)
      {
        var i :| 0 <= i < j && v.lru[..j][i] == h;
        assert v.lru[..k-1][i] == h;
      }
    }
    ChargeMonotone(Evict(v, k - 1).cached, Evict(v, j).cached);
  }

  // ----- References -----

  function HeldTimes(v: View, h: Handle): nat {
    if h in v.clients then v.clients[h] else 0
  }

  /** The operation returns a reference to h to its caller. */
  predicate Gives(op: Operation, h: Handle) {
    (op.Looking? && op.found == Some(h)) || (op.Inserting? && op.entry == h)
  }

  function Given(ops: seq<Operation>, h: Handle): nat {
    if ops == [] then 0 else Given(ops[..|ops|-1], h) + if Gives(ops[|ops|-1], h) then 1 else 0
  }

  function Returned(ops: seq<Operation>, h: Handle): nat {
    if ops == [] then 0 else Returned(ops[..|ops|-1], h) + if ops[|ops|-1] == Releasing(h) then 1 else 0
  }

  lemma OperationBalances(v: View, op: Operation, v': View, h: Handle)
    requires Accounted(v) && Performs(v, op, v')
    ensures HeldTimes(v', h) + (if op == Releasing(h) then 1 else 0) == HeldTimes(v, h) + if Gives(op, h) then 1 else 0
  {
    match op
    case Looking(key, hash, r) =>
    case Releasing(g) =>
    case Inserting(e, caching, r, k) =>
      AdmittedBalances(v, e, caching, r, h);
      AllocateKeeps(v, e, caching);
      if r.Some? {
        TakeOutKeeps(Allocate(v, e, caching), r.value);
      }
      EvictBalances(Admitted(v, e, caching, r), k, h);
    case Erasing(key, hash, r) =>
    case Pruning => EvictBalances(v, |v.lru|, h);
  }

  lemma AdmittedBalances(v: View, e: Handle, caching: bool, r: Option<Handle>, h: Handle)
    requires Accounted(v) && Admits(v, e, caching, r) && e !in v.clients
    ensures HeldTimes(Admitted(v, e, caching, r), h) == HeldTimes(v, h) + if h == e then 1 else 0
  {
  }

  /** Only entries that no client holds are evicted. */
  lemma EvictBalances(v: View, k: nat, h: Handle)
    requires Accounted(v) && k <= |v.lru|
    ensures HeldTimes(Evict(v, k), h) == HeldTimes(v, h)
  {
    if h in Gone(v, k) {
      assert h in v.lru;
    }
  }

  /** In every state of a run clients hold an entry as often as they were given it and have not given it back. */
  lemma {:induction false} ReferencesBalance(views: seq<View>, ops: seq<Operation>, n: nat, h: Handle)
    requires IsRun(views, ops) && n < |views|
    ensures HeldTimes(views[n], h) + Returned(ops[..n], h) == Given(ops[..n], h)
  {
    if n > 0 {
      ReferencesBalance(views, ops, n - 1, h);
      RunAccounts(views, ops, n - 1);
      assert Performs(views[n-1], ops[n-1], views[n]);
      OperationBalances(views[n-1], ops[n-1], views[n], h);
      assert ops[..n][..n-1] == ops[..n-1];
    }
  }

  // ----- What is found -----

  /** After an insertion, with caching on, a lookup of the key finds the new entry and no other. */
  lemma FoundAfterInsert(v: View, e: Handle, r: Option<Handle>, k: nat, v': View, found: Option<Handle>)
    requires Accounted(v) && KeysUnique(v.cached) && Performs(v, Inserting(e, true, r, k), v')
    requires IsLookup(v'.cached, e.key, e.hash, found)
    ensures found == Some(e)
  {
    var v1 := Admitted(v, e, true, r);
    AllocateKeeps(v, e, true);
    if r.Some? {
      TakeOutKeeps(Allocate(v, e, true), r.value);
    }
    assert v1.clients[e] == 1 && e !in v1.lru;
    EvictKeeps(v1, k, e);
    assert forall g | g in v1.cached && Matches(g, e.key, e.hash) :: g == e;
  }

  /** After an erasure it finds none. */
  lemma GoneAfterErase(v: View, key: Bytes, hash: uint32, r: Option<Handle>, v': View, found: Option<Handle>)
    requires KeysUnique(v.cached) && Performs(v, Erasing(key, hash, r), v') && IsLookup(v'.cached, key, hash, found)
    ensures found == None
  {
  }

  /** The cached entries have keys of their own in every state of a run. */
  lemma {:induction false} KeysStayUnique(views: seq<View>, ops: seq<Operation>, n: nat)
    requires IsRun(views, ops) && n < |views|
    ensures KeysUnique(views[n].cached)
  {
    if n > 0 {
      KeysStayUnique(views, ops, n - 1);
      assert Performs(views[n-1], ops[n-1], views[n]);
      OperationKeepsKeys(views[n-1], ops[n-1], views[n]);
    }
  }

  lemma OperationKeepsKeys(v: View, op: Operation, v': View)
    requires KeysUnique(v.cached) && Performs(v, op, v')
    ensures KeysUnique(v'.cached)
  {
  }
}
