/**
 The hash table of the block cache: buckets of handles chained through the handles
 themselves, doubled when the chains get long.
 */
module HandleTables {
  import opened Wrappers
  import opened Comparator
  import opened Codings

  /** A cache entry: what is fixed when it is allocated.  The id stands for its address. */
  datatype Handle = Handle(id: nat, key: Bytes, hash: uint32, value: nat, charge: nat)

  predicate Matches(h: Handle, key: Bytes, hash: uint32) {
    h.hash == hash && h.key == key
  }

  // ----- Chains -----

  function HeadOf(chain: seq<Handle>): Option<Handle> {
    if chain == [] then None else Some(chain[0])
  }

  function NextIn(chain: seq<Handle>, i: nat): Option<Handle> {
    if i + 1 < |chain| then Some(chain[i+1]) else None
  }

  /** The handles of chain follow one another through their next_hash fields. */
  ghost predicate Chained(nextHash: map<Handle, Option<Handle>>, chain: seq<Handle>) {
    && (forall i | 0 <= i < |chain| :: chain[i] in nextHash)
    && (forall i {:trigger NextIn(chain, i)} | 0 <= i < |chain| :: nextHash[chain[i]] == NextIn(chain, i))
    && (forall i, j | 0 <= i < j < |chain| :: chain[i] != chain[j])
  }

  lemma NextIsHead(nextHash: map<Handle, Option<Handle>>, chain: seq<Handle>, i: nat)
    requires Chained(nextHash, chain) && i < |chain|
    ensures nextHash[chain[i]] == HeadOf(chain[i+1..])
  {
    assert nextHash[chain[i]] == NextIn(chain, i);
  }

  /** A change at a handle outside a chain leaves the chain. */
  lemma ChainedElsewhere(nextHash: map<Handle, Option<Handle>>, chain: seq<Handle>, h: Handle, target: Option<Handle>)
    requires Chained(nextHash, chain) && h !in chain
    ensures Chained(nextHash[h := target], chain)
  {
    forall i | 0 <= i < |chain|
      ensures nextHash[h := target][chain[i]] == NextIn(chain, i)
    {
      assert chain[i] in chain && nextHash[chain[i]] == NextIn(chain, i);
    }
  }

  lemma ChainedTail(nextHash: map<Handle, Option<Handle>>, chain: seq<Handle>, n: nat)
    requires Chained(nextHash, chain) && n <= |chain|
    ensures Chained(nextHash, chain[n..])
  {
    forall i | 0 <= i < |chain| - n
      ensures nextHash[chain[n..][i]] == NextIn(chain[n..], i)
    {
      assert nextHash[chain[n+i]] == NextIn(chain, n + i);
    }
  }

  lemma ChainedFront(nextHash: map<Handle, Option<Handle>>, chain: seq<Handle>, h: Handle)
    requires Chained(nextHash, chain) && h !in chain
    ensures Chained(nextHash[h := HeadOf(chain)], [h] + chain)
  {
    var longer := [h] + chain;
    ChainedElsewhere(nextHash, chain, h, HeadOf(chain));
    forall i | 0 <= i < |longer|
      ensures nextHash[h := HeadOf(chain)][longer[i]] == NextIn(longer, i)
    {
      if i > 0 {
        assert longer[i] == chain[i-1] && longer[i] in chain;
        assert nextHash[chain[i-1]] == NextIn(chain, i - 1);
      }
    }
  }

  /** Making position i of a chain point to another chain. */
  lemma ChainedSplice(nextHash: map<Handle, Option<Handle>>, chain: seq<Handle>, i: nat, rest: seq<Handle>)
    requires Chained(nextHash, chain) && i < |chain| && Chained(nextHash, rest)
    requires forall j | 0 <= j <= i :: chain[j] !in rest
    ensures Chained(nextHash[chain[i] := HeadOf(rest)], chain[..i+1] + rest)
  {
    var spliced := chain[..i+1] + rest;
    var next' := nextHash[chain[i] := HeadOf(rest)];
    ChainedElsewhere(nextHash, rest, chain[i], HeadOf(rest));
    assert forall j | 0 <= j <= i :: spliced[j] == chain[j];
    assert forall j | i < j < |spliced| :: spliced[j] == rest[j - i - 1];
    forall j | 0 <= j < |spliced|
      ensures spliced[j] in next' && next'[spliced[j]] == NextIn(spliced, j)
    {
      if j < i {
        assert chain[j] != chain[i] && nextHash[chain[j]] == NextIn(chain, j);
      } else if j > i {
        assert next'[rest[j - i - 1]] == NextIn(rest, j - i - 1);
      }
    }
    forall j, k | 0 <= j < k < |spliced|
      ensures spliced[j] != spliced[k]
    {
      if j <= i < k {
        assert spliced[k] in rest;
      }
    }
  }

  // ----- Buckets -----

  /** The bucket of a hash among a power of two of them: its low bits, which LowBits below says are its remainder. */
  function BucketOf(hash: uint32, length: nat): (b: nat)
    requires length > 0
    ensures b < length
  {
    hash % length
  }

  predicate PowerOfTwo(n: nat) {
    n == 1 || (n > 1 && n % 2 == 0 && PowerOfTwo(n / 2))
  }

  /** Bitwise and. */
  function BitAnd(a: nat, b: nat): nat {
    if a == 0 || b == 0 then 0 else 2 * BitAnd(a / 2, b / 2) + if a % 2 == 1 && b % 2 == 1 then 1 else 0
  }

  lemma {:induction false} LowBits(hash: nat, length: nat)
    requires PowerOfTwo(length)
    ensures BitAnd(hash, length - 1) == hash % length
  {
    if length > 1 && hash > 0 {
      var half := length / 2;
      LowBits(hash / 2, half);
      assert (length - 1) / 2 == half - 1 && (length - 1) % 2 == 1;
      HalfRemainder(hash, half);
    } else if length > 1 {
      assert 0 % length == 0;
    }
  }

  lemma HalfRemainder(x: nat, n: nat)
    requires n > 0
    ensures x % (2 * n) == 2 * (x / 2 % n) + if x % 2 == 1 then 1 else 0
  {
    var q, r := x / 2 / n, x / 2 % n;
    RemainderIs(x, 2 * n, q, 2 * r + x % 2);
  }

  lemma RemainderIs(x: nat, n: nat, q: nat, r: nat)
    requires n > 0 && x == n * q + r && r < n
    ensures x % n == r
  {
    assert n * (q - x / n) == x % n - r;
    ZeroMultiple(n, q - x / n);
  }

  lemma ZeroMultiple(n: int, d: int)
    requires -n < n * d < n
    ensures d == 0
  {
  }

  function ChainAt(chains: seq<seq<Handle>>, i: nat): seq<Handle> {
    if i < |chains| then chains[i] else []
  }

  ghost predicate Linked(list: seq<Option<Handle>>, nextHash: map<Handle, Option<Handle>>, chains: seq<seq<Handle>>) {
    && |list| == |chains| > 0
    && forall b | 0 <= b < |chains| :: list[b] == HeadOf(chains[b]) && Chained(nextHash, chains[b])
  }

  /** The chains list exactly the members, each in the bucket of its hash. */
  ghost predicate Filed(chains: seq<seq<Handle>>, members: set<Handle>) {
    && |chains| > 0
    && (forall b, h {:trigger h in chains[b]} | 0 <= b < |chains| && h in chains[b] ::
         h in members && b == BucketOf(h.hash, |chains|))
    && (forall h | h in members :: h in chains[BucketOf(h.hash, |chains|)])
  }

  ghost predicate Buckets(list: seq<Option<Handle>>, nextHash: map<Handle, Option<Handle>>, chains: seq<seq<Handle>>,
                          members: set<Handle>) {
    Linked(list, nextHash, chains) && Filed(chains, members)
  }

  ghost predicate KeysUnique(members: set<Handle>) {
    forall a, b | a in members && b in members && a.key == b.key && a.hash == b.hash :: a == b
  }

  /** The member with a key, if there is one. */
  ghost predicate IsLookup(members: set<Handle>, key: Bytes, hash: uint32, r: Option<Handle>) {
    match r
    case Some(h) => h in members && Matches(h, key, hash)
    case None => forall h | h in members :: !Matches(h, key, hash)
  }

  /** A place where a pointer to a handle is stored: the head of a bucket, or a handle's next_hash. */
  datatype Slot = Bucket(index: nat) | NextOf(handle: Handle)

  class HandleTable {
    var list: seq<Option<Handle>>
    var nextHash: map<Handle, Option<Handle>>
    var elems: nat
    ghost var chains: seq<seq<Handle>>
    ghost var members: set<Handle>

    ghost predicate Valid()
      reads this
    {
      && Buckets(list, nextHash, chains, members) && KeysUnique(members) && elems == |members|
      && PowerOfTwo(|list|)
    }

    constructor ()
      ensures Valid() && members == {}
    {
      list := [None, None, None, None];
      nextHash := map[];
      elems := 0;
      chains := [[], [], [], []];
      members := {};
    }

    /** The slot is the one that leads to position p of bucket b. */
    ghost predicate LeadsTo(slot: Slot, b: nat, p: nat)
      requires b < |chains| && p <= |chains[b]|
      reads this
    {
      if p == 0 then slot == Bucket(b) else slot == NextOf(chains[b][p-1])
    }

    /** The slot that points to the entry with the key, or the trailing slot of its bucket. */
    method FindPointer(key: Bytes, hash: uint32) returns (slot: Slot, r: Option<Handle>, ghost p: nat)
      requires Valid()
      ensures var b := BucketOf(hash, |list|);
              p <= |chains[b]| && LeadsTo(slot, b, p) && r == HeadOf(chains[b][p..])
      ensures IsLookup(members, key, hash, r)
    {
      var b := BucketOf(hash, |list|);
      slot := Bucket(b);
      r := list[b];
      p := 0;
      ghost var chain := chains[b];
      assert chain[0..] == chain;
      while r.Some? && !Matches(r.value, key, hash)
        invariant p <= |chain| && LeadsTo(slot, b, p) && r == HeadOf(chain[p..])
        invariant forall i | 0 <= i < p :: !Matches(chain[i], key, hash)
        decreases |chain| - p
      {
        assert r.value == chain[p] && nextHash[chain[p]] == NextIn(chain, p);
        slot := NextOf(r.value);
        r := nextHash[r.value];
        p := p + 1;
      }
      if r.None? {
        NoMatch(chain, members, key, hash, |chains|);
      } else {
        assert r.value == chain[p] && chain[p] in chain;
      }
    }

    lemma NoMatch(chain: seq<Handle>, members: set<Handle>, key: Bytes, hash: uint32, length: nat)
      requires length > 0 && forall i | 0 <= i < |chain| :: !Matches(chain[i], key, hash)
      requires forall h | h in members && BucketOf(h.hash, length) == BucketOf(hash, length) :: h in chain
      ensures forall h | h in members :: !Matches(h, key, hash)
    {
    }

    method Lookup(key: Bytes, hash: uint32) returns (r: Option<Handle>)
      requires Valid()
      ensures IsLookup(members, key, hash, r)
    {
      var slot;
      ghost var p;
      slot, r, p := FindPointer(key, hash);
    }

    method Store(slot: Slot, h: Option<Handle>)
      requires slot.Bucket? ==> slot.index < |list|
      modifies this`list, this`nextHash
      ensures match slot
              case Bucket(b) => list == old(list)[b := h] && nextHash == old(nextHash)
              case NextOf(g) => list == old(list) && nextHash == old(nextHash)[g := h]
    {
      match slot
      case Bucket(b) => list := list[b := h];
      case NextOf(g) => nextHash := nextHash[g := h];
    }

    /** Puts the entry in its bucket; an entry with the same key makes way and is returned. */
    method Insert(h: Handle) returns (replaced: Option<Handle>)
      requires Valid() && h !in members
      modifies this
      ensures Valid() && IsLookup(old(members), h.key, h.hash, replaced)
      ensures forall g | g in old(members) && replaced != Some(g) :: !Matches(g, h.key, h.hash)
      ensures members == (if replaced.Some? then old(members) - {replaced.value} else old(members)) + {h}
    {
      replaced := LinkHandle(h);
      if replaced.None? && elems > |list| {
        Resize();
      }
    }

    method LinkHandle(h: Handle) returns (replaced: Option<Handle>)
      requires Valid() && h !in members
      modifies this
      ensures Valid() && IsLookup(old(members), h.key, h.hash, replaced)
      ensures forall g | g in old(members) && replaced != Some(g) :: !Matches(g, h.key, h.hash)
      ensures members == (if replaced.Some? then old(members) - {replaced.value} else old(members)) + {h}
    {
      var slot;
      ghost var p;
      slot, replaced, p := FindPointer(h.key, h.hash);
      OneMoreMember(members, h, replaced);
      StoreHandle(slot, h, replaced, p);
      if replaced.None? {
        elems := elems + 1;
      }
    }

    /** Makes the slot point to h, and h to what followed the entry it replaces. */
    method StoreHandle(slot: Slot, h: Handle, replaced: Option<Handle>, ghost p: nat)
      requires Buckets(list, nextHash, chains, members) && h !in members
      requires p <= |chains[BucketOf(h.hash, |list|)]| && LeadsTo(slot, BucketOf(h.hash, |list|), p)
      requires replaced == HeadOf(chains[BucketOf(h.hash, |list|)][p..])
      modifies this`list, this`nextHash, this`chains, this`members
      ensures Buckets(list, nextHash, chains, members) && |list| == old(|list|)
      ensures members == (if replaced.Some? then old(members) - {replaced.value} else old(members)) + {h}
    {
      ghost var b := BucketOf(h.hash, |list|);
      ghost var list', nextHash', chains', members' := Link(list, nextHash, chains, members, b, p, h, replaced);
      nextHash := nextHash[h := if replaced.Some? then nextHash[replaced.value] else None];
      Store(slot, Some(h));
      assert list == list' && nextHash == nextHash';
      chains, members := chains', members';
    }

    /** Spreads the entries over at least as many buckets as there are entries. */
    method Resize()
      requires Valid()
      modifies this`list, this`nextHash, this`chains
      ensures Valid() && elems <= |list|
    {
      var length := 4;
      while length < elems
        invariant length >= 4 && PowerOfTwo(length)
      {
        length := length * 2;
      }
      RehashAll(length);
    }

    method RehashAll(length: nat)
      requires Valid() && PowerOfTwo(length)
      modifies this`list, this`nextHash, this`chains
      ensures Valid() && |list| == length
    {
      var newList: seq<Option<Handle>> := seq(length, _ => None);
      ghost var newChains: seq<seq<Handle>> := seq(length, _ => []);
      ghost var done: set<Handle> := {};
      StartRehash(nextHash, newList, newChains, list, chains, members);
      for i := 0 to |list|
        invariant Rehashing(nextHash, newList, newChains, done, chains, members, i, ChainAt(chains, i))
        invariant |newList| == length && list == old(list) && chains == old(chains)
      {
        newList, newChains, done := RehashBucket(i, newList, newChains, done);
        NextBucket(nextHash, newList, newChains, done, chains, members, i);
      }
      AllRehashed(nextHash, newList, newChains, done, chains, members);
      list, chains := newList, newChains;
    }

    /** Moves the entries of one old bucket to the fronts of their new ones. */
    method RehashBucket(i: nat, newList: seq<Option<Handle>>, ghost newChains: seq<seq<Handle>>,
                        ghost done: set<Handle>)
      returns (newList': seq<Option<Handle>>, ghost newChains': seq<seq<Handle>>, ghost done': set<Handle>)
      requires i < |list| == |chains| && list[i] == HeadOf(chains[i])
      requires Rehashing(nextHash, newList, newChains, done, chains, members, i, chains[i])
      modifies this`nextHash
      ensures |newList'| == |newList| && Rehashing(nextHash, newList', newChains', done', chains, members, i, [])
    {
      var h := list[i];
      ghost var rest := chains[i];
      newList', newChains', done' := newList, newChains, done;
      while h.Some?
        invariant Rehashing(nextHash, newList', newChains', done', chains, members, i, rest)
        invariant |newList'| == |newList| && h == HeadOf(rest)
        decreases |rest|
      {
        var next := nextHash[h.value];
        var b := BucketOf(h.value.hash, |newList'|);
        Rehash(nextHash, newList', newChains', done', chains, members, i, rest);
        nextHash := nextHash[h.value := newList'[b]];
        newList' := newList'[b := h];
        newChains' := newChains'[b := [h.value] + newChains'[b]];
        done' := done' + {h.value};
        rest := rest[1..];
        h := next;
      }
      assert rest == [];
    }

    /** Takes the entry with the key out of its chain. */
    method Remove(key: Bytes, hash: uint32) returns (r: Option<Handle>)
      requires Valid()
      modifies this
      ensures Valid() && IsLookup(old(members), key, hash, r)
      ensures members == if r.Some? then old(members) - {r.value} else old(members)
    {
      var slot;
      ghost var p;
      slot, r, p := FindPointer(key, hash);
      if r.Some? {
        ghost var b := BucketOf(hash, |list|);
        ghost var chain := chains[b];
        Unlink(list, nextHash, chains, members, b, p);
        assert chain[p..][1..] == chain[p+1..];
        Store(slot, nextHash[r.value]);
        chains := chains[b := chain[..p] + chain[p+1..]];
        members := members - {r.value};
        elems := elems - 1;
      }
    }
  }

  lemma RefiledChain(chains: seq<seq<Handle>>, members: set<Handle>, b: nat, chain': seq<Handle>, members': set<Handle>)
    requires Filed(chains, members) && b < |chains|
    requires forall h | h in chain' :: b == BucketOf(h.hash, |chains|)
    requires forall h :: h in members' <==> (h in members && h !in chains[b]) || h in chain'
    ensures Filed(chains[b := chain'], members')
  {
    var chains' := chains[b := chain'];
    forall c, h {:trigger h in chains'[c]} | 0 <= c < |chains'| && h in chains'[c]
      ensures h in members' && c == BucketOf(h.hash, |chains'|)
    {
      if c != b {
        assert h in chains[c];
      }
    }
  }

  /** One bucket gets a new chain, and the members change accordingly. */
  lemma ReplaceChain(list: seq<Option<Handle>>, nextHash: map<Handle, Option<Handle>>, chains: seq<seq<Handle>>,
                     members: set<Handle>, b: nat,
                     list': seq<Option<Handle>>, nextHash': map<Handle, Option<Handle>>, chain': seq<Handle>,
                         members': set<Handle>)
    requires Buckets(list, nextHash, chains, members) && b < |chains|
    requires list' == list[b := HeadOf(chain')] && Chained(nextHash', chain')
    requires forall c | 0 <= c < |chains| && c != b :: Chained(nextHash', chains[c])
    requires forall h | h in chain' :: b == BucketOf(h.hash, |chains|)
    requires forall h :: h in members' <==> (h in members && h !in chains[b]) || h in chain'
    ensures Buckets(list', nextHash', chains[b := chain'], members')
  {
    RefiledChain(chains, members, b, chain', members');
  }

  lemma ShorterFiled(nextHash: map<Handle, Option<Handle>>, chains: seq<seq<Handle>>, members: set<Handle>, b: nat,
                     p: nat)
    requires Filed(chains, members) && b < |chains| && p < |chains[b]| && Chained(nextHash, chains[b])
    ensures var shorter := chains[b][..p] + chains[b][p+1..];
            && (forall h | h in shorter :: b == BucketOf(h.hash, |chains|))
            && forall h :: h in members - {chains[b][p]} <==> (h in members && h !in chains[b]) || h in shorter
  {
    var chain := chains[b];
    var shorter := chain[..p] + chain[p+1..];
    ShorterMembers(chain, p);
    assert chain[p] in chains[b];
    forall h | h in shorter
      ensures h in chains[b] && b == BucketOf(h.hash, |chains|) && h in members && h != chain[p]
    {
    }
  }

  /** Taking out position p of a bucket by storing its successor where it was pointed to. */
  lemma Unlink(list: seq<Option<Handle>>, nextHash: map<Handle, Option<Handle>>, chains: seq<seq<Handle>>,
               members: set<Handle>, b: nat, p: nat)
    requires Buckets(list, nextHash, chains, members) && b < |chains| && p < |chains[b]|
    ensures var chain := chains[b];
            var after := HeadOf(chain[p+1..]);
            && nextHash[chain[p]] == after
            && Buckets(if p == 0 then list[b := after] else list,
                       if p == 0 then nextHash else nextHash[chain[p-1] := after],
                       chains[b := chain[..p] + chain[p+1..]], members - {chain[p]})
  {
    var chain := chains[b];
    var shorter := chain[..p] + chain[p+1..];
    var next' := if p == 0 then nextHash else nextHash[chain[p-1] := HeadOf(chain[p+1..])];
    NextIsHead(nextHash, chain, p);
    ShorterFiled(nextHash, chains, members, b, p);
    ShorterChained(nextHash, chain, p);
    if p > 0 {
      assert chain[p-1] in chain;
      OtherChains(list, nextHash, chains, members, b, chain[p-1], HeadOf(chain[p+1..]));
    }
    ReplaceChain(list, nextHash, chains, members, b, list[b := HeadOf(shorter)], next', shorter, members - {chain[p]});
    ShorterHead(list, chain, b, p);
  }

  lemma ShorterChained(nextHash: map<Handle, Option<Handle>>, chain: seq<Handle>, p: nat)
    requires Chained(nextHash, chain) && p < |chain|
    ensures Chained(if p == 0 then nextHash else nextHash[chain[p-1] := HeadOf(chain[p+1..])],
            chain[..p] + chain[p+1..])
  {
    ChainedTail(nextHash, chain, p + 1);
    if p == 0 {
      assert chain[..p] + chain[p+1..] == chain[1..];
    } else {
      var rest := chain[p+1..];
      assert forall j | 0 <= j < |rest| :: rest[j] == chain[p+1+j];
      ChainedSplice(nextHash, chain, p - 1, rest);
      assert chain[..p-1+1] == chain[..p];
    }
  }

  lemma ShorterHead(list: seq<Option<Handle>>, chain: seq<Handle>, b: nat, p: nat)
    requires b < |list| && p < |chain| && list[b] == HeadOf(chain)
    ensures list[b := HeadOf(chain[..p] + chain[p+1..])] == if p == 0 then list[b := HeadOf(chain[p+1..])] else list
  {
    if p == 0 {
      assert chain[..p] + chain[p+1..] == chain[1..];
    }
  }

  lemma OneMoreMember(members: set<Handle>, h: Handle, replaced: Option<Handle>)
    requires h !in members && KeysUnique(members) && IsLookup(members, h.key, h.hash, replaced)
    ensures forall g | g in members && replaced != Some(g) :: !Matches(g, h.key, h.hash)
    ensures var more := (if replaced.Some? then members - {replaced.value} else members) + {h};
            KeysUnique(more) && |more| == if replaced.Some? then |members| else |members| + 1
  {
  }

  /** A chain with h put at position p, in place of what is there. */
  function Linking(chain: seq<Handle>, p: nat, h: Handle): seq<Handle>
    requires p <= |chain|
  {
    chain[..p] + ([h] + if p < |chain| then chain[p+1..] else [])
  }

  lemma LinkingMembers(chain: seq<Handle>, p: nat, h: Handle)
    requires p <= |chain| && forall i, j | 0 <= i < j < |chain| :: chain[i] != chain[j]
    ensures forall o :: o in Linking(chain, p, h) <==> o == h || (o in chain && (p < |chain| ==> o != chain[p]))
  {
    if p < |chain| {
      ShorterMembers(chain, p);
    } else {
      assert chain[..p] == chain;
    }
  }

  lemma LinkedChain(nextHash: map<Handle, Option<Handle>>, chain: seq<Handle>, p: nat, h: Handle)
    requires Chained(nextHash, chain) && p <= |chain| && h !in chain
    ensures var rest := if p < |chain| then chain[p+1..] else [];
            var next1 := nextHash[h := HeadOf(rest)];
            Chained(if p == 0 then next1 else next1[chain[p-1] := Some(h)], Linking(chain, p, h))
  {
    var rest := if p < |chain| then chain[p+1..] else [];
    assert forall j | 0 <= j < |rest| :: rest[j] == chain[p+1+j];
    if p < |chain| {
      ChainedTail(nextHash, chain, p + 1);
    }
    ChainedFront(nextHash, rest, h);
    if p == 0 {
      assert Linking(chain, p, h) == [h] + rest;
    } else {
      ChainedElsewhere(nextHash, chain, h, HeadOf(rest));
      SpliceLonger(nextHash[h := HeadOf(rest)], chain, p, h, rest);
    }
  }

  lemma SpliceLonger(next1: map<Handle, Option<Handle>>, chain: seq<Handle>, p: nat, h: Handle, rest: seq<Handle>)
    requires Chained(next1, chain) && 0 < p <= |chain| && h !in chain && Chained(next1, [h] + rest)
    requires rest == if p < |chain| then chain[p+1..] else []
    ensures Chained(next1[chain[p-1] := Some(h)], Linking(chain, p, h))
  {
    var longer := [h] + rest;
    forall j | 0 <= j < p
      ensures chain[j] !in longer
    {
      assert chain[j] in chain;
    }
    ChainedSplice(next1, chain, p - 1, longer);
    assert chain[..p-1+1] + longer == Linking(chain, p, h);
  }

  lemma Link(list: seq<Option<Handle>>, nextHash: map<Handle, Option<Handle>>, chains: seq<seq<Handle>>,
             members: set<Handle>,
             b: nat, p: nat, h: Handle, replaced: Option<Handle>)
    returns (list': seq<Option<Handle>>, nextHash': map<Handle, Option<Handle>>, chains': seq<seq<Handle>>,
            members': set<Handle>)
    requires Buckets(list, nextHash, chains, members) && b < |chains| && p <= |chains[b]|
    requires h !in members && b == BucketOf(h.hash, |chains|) && replaced == HeadOf(chains[b][p..])
    ensures replaced.Some? ==> replaced.value in nextHash && replaced.value in members
    ensures Buckets(list', nextHash', chains', members')
    ensures list' == if p == 0 then list[b := Some(h)] else list
    ensures var next1 := nextHash[h := if replaced.Some? then nextHash[replaced.value] else None];
            nextHash' == if p == 0 then next1 else next1[chains[b][p-1] := Some(h)]
    ensures chains' == chains[b := Linking(chains[b], p, h)]
    ensures members' == (if replaced.Some? then members - {replaced.value} else members) + {h}
  {
    var chain := chains[b];
    assert h !in chain;
    LinkingMembers(chain, p, h);
    LinkedChain(nextHash, chain, p, h);
    if p < |chain| {
      NextIsHead(nextHash, chain, p);
      assert chain[p] in chain;
    }
    var next1 := nextHash[h := if replaced.Some? then nextHash[replaced.value] else None];
    list', nextHash' := list[b := HeadOf(Linking(chain, p, h))], if p == 0 then next1 else next1[chain[p-1] := Some(h)];
    chains' := chains[b := Linking(chain, p, h)];
    members' := (if replaced.Some? then members - {replaced.value} else members) + {h};
    forall c | 0 <= c < |chains| && c != b
      ensures Chained(nextHash', chains[c])
    {
      ChainedElsewhere(nextHash, chains[c], h, next1[h]);
      if p > 0 {
        assert chain[p-1] in chain;
        ChainedElsewhere(next1, chains[c], chain[p-1], Some(h));
      }
    }
    assert list' == if p == 0 then list[b := Some(h)] else list;
    ReplaceChain(list, nextHash, chains, members, b, list', nextHash', Linking(chain, p, h), members');
  }

  // ----- Rehashing -----

  /**
   Halfway through Resize: the entries in done are in the new buckets, those in rest
   are what is left of old bucket i, and the old buckets after it are untouched.
   */
  ghost predicate Rehashing(nextHash: map<Handle, Option<Handle>>, newList: seq<Option<Handle>>,
                            newChains: seq<seq<Handle>>, done: set<Handle>,
                            chains: seq<seq<Handle>>, members: set<Handle>, i: nat, rest: seq<Handle>)
  {
    && Buckets(newList, nextHash, newChains, done) && Filed(chains, members) && i <= |chains|
    && Chained(nextHash, rest) && (forall c | i < c < |chains| :: Chained(nextHash, chains[c]))
    && done <= members
    && (forall h | h in members ::
          var c := BucketOf(h.hash, |chains|);
          if c < i then h in done else if c == i then (h in done) != (h in rest) else h !in done)
    && (forall h | h in rest :: h in members && BucketOf(h.hash, |chains|) == i)
  }

  lemma StartRehash(nextHash: map<Handle, Option<Handle>>, newList: seq<Option<Handle>>, newChains: seq<seq<Handle>>,
                    list: seq<Option<Handle>>, chains: seq<seq<Handle>>, members: set<Handle>)
    requires Buckets(list, nextHash, chains, members) && |newList| == |newChains| > 0
    requires forall b | 0 <= b < |newList| :: newList[b] == None && newChains[b] == []
    ensures Rehashing(nextHash, newList, newChains, {}, chains, members, 0, ChainAt(chains, 0))
  {
  }

  lemma Rehash(nextHash: map<Handle, Option<Handle>>, newList: seq<Option<Handle>>, newChains: seq<seq<Handle>>,
               done: set<Handle>,
               chains: seq<seq<Handle>>, members: set<Handle>, i: nat, rest: seq<Handle>)
    requires Rehashing(nextHash, newList, newChains, done, chains, members, i, rest) && rest != []
    ensures var h := rest[0];
            var b := BucketOf(h.hash, |newList|);
            && nextHash[h] == HeadOf(rest[1..])
            && Rehashing(nextHash[h := newList[b]], newList[b := Some(h)], newChains[b := [h] + newChains[b]],
                 done + {h},
                         chains, members, i, rest[1..])
  {
    var h := rest[0];
    var b := BucketOf(h.hash, |newList|);
    var next' := nextHash[h := newList[b]];
    NextIsHead(nextHash, rest, 0);
    assert h in rest && h !in done && h !in newChains[b];
    ChainedFront(nextHash, newChains[b], h);
    forall c | 0 <= c < |newChains| && c != b
      ensures Chained(next', newChains[c])
    {
      assert h !in newChains[c];
      ChainedElsewhere(nextHash, newChains[c], h, newList[b]);
    }
    ReplaceChain(newList, nextHash, newChains, done, b, newList[b := Some(h)], next', [h] + newChains[b], done + {h});
    ChainedTail(nextHash, rest, 1);
    ShorterMembers(rest, 0);
    assert rest[..0] + rest[0+1..] == rest[1..];
    ChainedElsewhere(nextHash, rest[1..], h, newList[b]);
    forall c | i < c < |chains|
      ensures Chained(next', chains[c])
    {
      assert h !in chains[c];
      ChainedElsewhere(nextHash, chains[c], h, newList[b]);
    }
  }

  lemma NextBucket(nextHash: map<Handle, Option<Handle>>, newList: seq<Option<Handle>>, newChains: seq<seq<Handle>>,
                   done: set<Handle>,
                   chains: seq<seq<Handle>>, members: set<Handle>, i: nat)
    requires Rehashing(nextHash, newList, newChains, done, chains, members, i, []) && i < |chains|
    ensures Rehashing(nextHash, newList, newChains, done, chains, members, i + 1, ChainAt(chains, i + 1))
  {
  }

  lemma AllRehashed(nextHash: map<Handle, Option<Handle>>, newList: seq<Option<Handle>>, newChains: seq<seq<Handle>>,
                    done: set<Handle>,
                    chains: seq<seq<Handle>>, members: set<Handle>)
    requires Rehashing(nextHash, newList, newChains, done, chains, members, |chains|, [])
    ensures done == members
  {
  }

  lemma ShorterMembers(chain: seq<Handle>, p: nat)
    requires p < |chain| && forall i, j | 0 <= i < j < |chain| :: chain[i] != chain[j]
    ensures forall h :: h in chain[..p] + chain[p+1..] <==> h in chain && h != chain[p]
  {
    forall h | h in chain && h != chain[p]
      ensures h in chain[..p] + chain[p+1..]
    {
      var i :| 0 <= i < |chain| && chain[i] == h;
      assert h in if i < p then chain[..p] else chain[p+1..];
    }
  }

  /** A change in a handle of one bucket leaves the chains of the others. */
  lemma OtherChains(list: seq<Option<Handle>>, nextHash: map<Handle, Option<Handle>>, chains: seq<seq<Handle>>,
                    members: set<Handle>,
                    b: nat, h: Handle, target: Option<Handle>)
    requires Buckets(list, nextHash, chains, members) && b < |chains| && h in chains[b]
    ensures forall c | 0 <= c < |chains| && c != b :: Chained(nextHash[h := target], chains[c])
  {
    forall c | 0 <= c < |chains| && c != b
      ensures Chained(nextHash[h := target], chains[c])
    {
      ChainedElsewhere(nextHash, chains[c], h, target);
    }
  }
}
