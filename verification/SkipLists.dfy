/**
 The skip list of a memtable.  Insert publishes a node one link at a time; the list is
 well formed after every store, and a search whose loads come between any stores ends at
 the predecessor of its key in the state of its last load.
 */
module SkipLists {
  import opened Wrappers
  import opened Entries
  import opened Versions

  const MAX_HEIGHT: nat := 12

  /** Nodes are numbered as they are allocated; the head is the first. */
  const HEAD: nat := 0
  const NIL: int := -1

  // ----- One level of the list -----

  /** list is the chain of links at this level from the head on, its keys in order. */
  ghost predicate LevelOk(nodes: seq<Entry>, links: seq<seq<int>>, list: seq<nat>, level: nat)
    requires |links| == |nodes|
  {
    && list != [] && list[0] == HEAD
    && (forall i | 0 <= i < |list| :: list[i] < |nodes| && level < |links[list[i]]|)
    && (forall i {:trigger LinkedAt(links, list, level, i)} | 0 <= i < |list| :: LinkedAt(links, list, level, i))
    && (forall i | 1 <= i < |list| :: list[i] != HEAD)
    && (forall i, j | 1 <= i < j < |list| :: Less(nodes[list[i]].ikey, nodes[list[j]].ikey))
  }

  /** Node i of the list links to the next, the last one to none. */
  ghost predicate LinkedAt(links: seq<seq<int>>, list: seq<nat>, level: nat, i: nat)
    requires i < |list| && list[i] < |links| && level < |links[list[i]]|
  {
    links[list[i]][level] == if i + 1 < |list| then list[i+1] else NIL
  }

  /** The node is before the key; the head is before everything. */
  predicate Before(nodes: seq<Entry>, n: nat, key: IKey)
    requires n < |nodes|
  {
    n == HEAD || Less(nodes[n].ikey, key)
  }

  /** p is the place in list of the last node before key. */
  ghost predicate IsPredecessor(nodes: seq<Entry>, list: seq<nat>, key: IKey, p: nat)
    requires forall i | 0 <= i < |list| :: list[i] < |nodes|
  {
    p < |list| && Before(nodes, list[p], key) && (p + 1 < |list| ==> !Before(nodes, list[p+1], key))
  }

  /** Every level of the structure, a level's nodes being on the level below. */
  ghost predicate ListsOk(nodes: seq<Entry>, links: seq<seq<int>>, lists: seq<seq<nat>>)
    requires |links| == |nodes|
  {
    && |lists| == MAX_HEIGHT
    && (forall l | 0 <= l < MAX_HEIGHT :: LevelOk(nodes, links, lists[l], l))
    && (forall l, m, n {:trigger n in lists[l], lists[m]} | 0 <= m < l < MAX_HEIGHT && n in lists[l] :: n in lists[m])
  }

  /** The keys of the lowest level. */
  function KeysOf(nodes: seq<Entry>, list: seq<nat>): (keys: seq<Entry>)
    requires list != [] && forall i | 0 <= i < |list| :: list[i] < |nodes|
    ensures |keys| == |list| - 1
    ensures forall i | 0 <= i < |keys| :: keys[i] == nodes[list[i+1]]
  {
    seq(|list| - 1, i requires 0 <= i < |list| - 1 => nodes[list[i+1]])
  }

  lemma KeysSorted(nodes: seq<Entry>, links: seq<seq<int>>, list: seq<nat>)
    requires |links| == |nodes| && LevelOk(nodes, links, list, 0)
    ensures Sorted(KeysOf(nodes, list))
  {
  }

  /** Where the predecessor of a key is, the key's own place follows. */
  lemma PredecessorIsSeek(nodes: seq<Entry>, links: seq<seq<int>>, list: seq<nat>, key: IKey, p: nat)
    requires |links| == |nodes| && LevelOk(nodes, links, list, 0) && IsPredecessor(nodes, list, key, p)
    ensures IsSeek(KeysOf(nodes, list), key, p)
  {
    var keys := KeysOf(nodes, list);
    forall j | 0 <= j < p
      ensures Less(keys[j].ikey, key)
    {
      assert keys[j] == nodes[list[j+1]] && (j + 1 < p ==> Less(nodes[list[j+1]].ikey, nodes[list[p]].ikey));
    }
    forall j | p <= j < |keys|
      ensures !Less(keys[j].ikey, key)
    {
      assert keys[j] == nodes[list[j+1]] && (p < j ==> Less(nodes[list[p+1]].ikey, nodes[list[j+1]].ikey));
    }
  }

  /** prev[l] is the predecessor of the key at level l, and p[l] its place. */
  ghost predicate FoundAt(nodes: seq<Entry>, lists: seq<seq<nat>>, key: IKey, prev: seq<nat>, p: seq<nat>, l: nat)
    requires l < |lists| == |prev| == |p|
  {
    && (forall i | 0 <= i < |lists[l]| :: lists[l][i] < |nodes|)
    && IsPredecessor(nodes, lists[l], key, p[l]) && prev[l] == lists[l][p[l]]
  }

  /** The same at the levels from low to high. */
  ghost predicate FoundFrom(nodes: seq<Entry>, lists: seq<seq<nat>>, key: IKey, low: nat, high: nat,
                            prev: seq<nat>, p: seq<nat>) {
    && low <= high <= |lists| == |prev| == |p|
    && forall l {:trigger FoundAt(nodes, lists, key, prev, p, l)} | low <= l < high ::
         FoundAt(nodes, lists, key, prev, p, l)
  }

  lemma FoundBelow(nodes: seq<Entry>, lists: seq<seq<nat>>, key: IKey, low: nat, high: nat,
                   prev: seq<nat>, p: seq<nat>, x: nat, q: nat)
    requires low < high && FoundFrom(nodes, lists, key, low + 1, high, prev, p)
    requires forall i | 0 <= i < |lists[low]| :: lists[low][i] < |nodes|
    requires IsPredecessor(nodes, lists[low], key, q) && x == lists[low][q]
    ensures FoundFrom(nodes, lists, key, low, high, prev[low := x], p[low := q])
    ensures FoundAt(nodes, lists, key, prev[low := x], p[low := q], low)
  {
    var prev', p' := prev[low := x], p[low := q];
    forall l | low <= l < high
      ensures FoundAt(nodes, lists, key, prev', p', l)
    {
      assert low < l ==> FoundAt(nodes, lists, key, prev, p, l);
    }
  }

  // ----- Readers -----

  /** A search is at node x of a level, and everything it has passed is before the key. */
  ghost predicate OnCourse(nodes: seq<Entry>, lists: seq<seq<nat>>, key: IKey, x: nat, level: nat) {
    && level < |lists| && x < |nodes| && x in lists[level] && Before(nodes, x, key)
  }

  /** What a writer may do under a reader: add nodes, and put them in more lists. */
  ghost predicate Grows(nodes: seq<Entry>, lists: seq<seq<nat>>, nodes': seq<Entry>, lists': seq<seq<nat>>) {
    && nodes <= nodes' && |lists| == |lists'|
    && forall l, n {:trigger n in lists'[l]} | 0 <= l < |lists| && n in lists[l] :: n in lists'[l]
  }

  /** A search under way stays on course whatever is inserted meanwhile. */
  lemma SearchSurvives(nodes: seq<Entry>, lists: seq<seq<nat>>, nodes': seq<Entry>, lists': seq<seq<nat>>, key: IKey,
                       x: nat, level: nat)
    requires OnCourse(nodes, lists, key, x, level) && Grows(nodes, lists, nodes', lists')
    ensures OnCourse(nodes', lists', key, x, level)
  {
    assert x in lists'[level];
    assert nodes'[x] == nodes[x];
  }

  /** One load of a search, and where it leads in the state it is made in. */
  lemma SearchStep(nodes: seq<Entry>, links: seq<seq<int>>, lists: seq<seq<nat>>, key: IKey, x: nat, level: nat, p: nat)
    requires |links| == |nodes| && ListsOk(nodes, links, lists) && OnCourse(nodes, lists, key, x, level)
    requires p < |lists[level]| && lists[level][p] == x
    ensures level < |links[x]| && links[x][level] == if p + 1 < |lists[level]| then lists[level][p+1] else NIL
    ensures forall i | 0 <= i < |lists[level]| :: lists[level][i] < |nodes|
    ensures links[x][level] != NIL ==> HEAD < links[x][level] < |nodes|
    ensures var next := links[x][level];
            if next != NIL && Before(nodes, next, key) then OnCourse(nodes, lists, key, next, level)
            else IsPredecessor(nodes, lists[level], key, p) && (level > 0 ==> OnCourse(nodes, lists, key, x, level - 1))
  {
    assert LevelOk(nodes, links, lists[level], level);
    assert LinkedAt(links, lists[level], level, p);
    if level > 0 {
      assert x in lists[level];
      assert x in lists[level-1];
    }
  }

  lemma EndStep(nodes: seq<Entry>, links: seq<seq<int>>, lists: seq<seq<nat>>, x: nat, level: nat, p: nat)
    requires |links| == |nodes| && ListsOk(nodes, links, lists)
    requires level < MAX_HEIGHT && p < |lists[level]| && lists[level][p] == x
    ensures x < |nodes| && level < |links[x]|
    ensures links[x][level] == if p + 1 < |lists[level]| then lists[level][p+1] else NIL
    ensures level > 0 ==> x in lists[level-1]
  {
    assert LevelOk(nodes, links, lists[level], level);
    assert LinkedAt(links, lists[level], level, p);
    assert x in lists[level];
    if level > 0 {
      assert x in lists[level-1];
    }
  }

  lemma PlaceIn(list: seq<nat>, x: nat) returns (p: nat)
    requires x in list
    ensures p < |list| && list[p] == x
  {
    p :| 0 <= p < |list| && list[p] == x;
  }

  // ----- A search among stores -----

  datatype ListState = ListState(nodes: seq<Entry>, links: seq<seq<int>>, lists: seq<seq<nat>>)

  ghost predicate StateOk(s: ListState) {
    |s.links| == |s.nodes| && s.nodes != [] && ListsOk(s.nodes, s.links, s.lists)
  }

  /** Any stores of inserts lead from one state to the other. */
  ghost predicate Later(s: ListState, s': ListState) {
    Grows(s.nodes, s.lists, s'.nodes, s'.lists)
  }

  lemma {:induction false} LaterTransitive(a: ListState, b: ListState, c: ListState)
    requires Later(a, b) && Later(b, c)
    ensures Later(a, c)
  {
    forall l, n | 0 <= l < |a.lists| && n in a.lists[l]
      ensures n in c.lists[l]
    {
      assert n in b.lists[l];
    }
  }

  /**
   The states that a sequence of stores goes through: each is well formed, and nothing is ever taken
   out of a list.
   */
  ghost predicate IsTrace(t: seq<ListState>) {
    && t != []
    && (forall i {:trigger StateOk(t[i])} | 0 <= i < |t| :: StateOk(t[i]))
    && (forall i {:trigger NextLater(t, i)} | 0 <= i < |t| - 1 :: NextLater(t, i))
  }

  ghost predicate NextLater(t: seq<ListState>, i: nat)
    requires i + 1 < |t|
  {
    Later(t[i], t[i+1])
  }

  lemma {:induction false} OneMoreStore(t: seq<ListState>, s: ListState)
    requires IsTrace(t) && StateOk(s) && Later(t[|t|-1], s)
    ensures IsTrace(t + [s])
  {
    var t' := t + [s];
    forall i | 0 <= i < |t'|
      ensures StateOk(t'[i])
    {
      assert i < |t| ==> StateOk(t[i]);
    }
    forall i | 0 <= i < |t'| - 1
      ensures NextLater(t', i)
    {
      assert i < |t| - 1 ==> NextLater(t, i);
    }
  }

  /** So any two moments of a trace are such that a search may be under way between them. */
  lemma {:induction false} LaterInTrace(t: seq<ListState>, i: nat, j: nat)
    requires IsTrace(t) && i <= j < |t|
    ensures Later(t[i], t[j]) && StateOk(t[i]) && StateOk(t[j])
    decreases j
  {
    assert StateOk(t[j]) && StateOk(t[i]);
    if i < j {
      LaterInTrace(t, i, j - 1);
      assert NextLater(t, j - 1);
      LaterTransitive(t[i], t[j-1], t[j]);
    }
  }

  /** Where a search is: a node and a level. */
  datatype Place = Place(node: nat, level: nat)

  ghost predicate PlaceOk(s: ListState, key: IKey, at: Place) {
    OnCourse(s.nodes, s.lists, key, at.node, at.level)
  }

  /** What a load of the link at a place finds is before the key. */
  ghost predicate GoesOn(s: ListState, key: IKey, at: Place)
    requires StateOk(s) && PlaceOk(s, key, at)
  {
    PlaceLinked(s, key, at);
    var next := s.links[at.node][at.level];
    next != NIL && Before(s.nodes, next, key)
  }

  lemma {:induction false} PlaceLinked(s: ListState, key: IKey, at: Place)
    requires StateOk(s) && PlaceOk(s, key, at)
    ensures at.level < |s.links[at.node]|
    ensures s.links[at.node][at.level] != NIL ==> HEAD < s.links[at.node][at.level] < |s.nodes|
  {
    var p := PlaceIn(s.lists[at.level], at.node);
    SearchStep(s.nodes, s.links, s.lists, key, at.node, at.level, p);
  }

  /** The place after a load: along the link, or a level down. */
  ghost predicate Moves(s: ListState, key: IKey, at: Place, next: Place)
    requires StateOk(s) && PlaceOk(s, key, at)
  {
    PlaceLinked(s, key, at);
    if GoesOn(s, key, at) then next == Place(s.links[at.node][at.level], at.level)
    else at.level > 0 && next == Place(at.node, at.level - 1)
  }

  ghost predicate Stops(s: ListState, key: IKey, at: Place) {
    at.level == 0 && (StateOk(s) && PlaceOk(s, key, at) ==> !GoesOn(s, key, at))
  }

  /** A search makes load i at moment moments[i] of a trace; between two loads there may be any stores. */
  ghost predicate IsSearch(t: seq<ListState>, moments: seq<nat>, key: IKey, path: seq<Place>) {
    IsTrace(t) && IsSearchOf(t, moments, key, path)
  }

  ghost predicate IsSearchOf(t: seq<ListState>, moments: seq<nat>, key: IKey, path: seq<Place>) {
    && |path| == |moments| > 0
    && (forall i | 0 <= i < |moments| :: moments[i] < |t|)
    && path[0].node == HEAD && path[0].level < MAX_HEIGHT
    && (forall i {:trigger LoadMoves(t, moments, key, path, i)} | 0 <= i < |moments| - 1 ::
         LoadMoves(t, moments, key, path, i))
  }

  /** Load i leads to the next place, and is made no later than the next one. */
  ghost predicate LoadMoves(t: seq<ListState>, moments: seq<nat>, key: IKey, path: seq<Place>, i: nat)
    requires |path| == |moments| > i + 1 && moments[i] < |t|
  {
    && moments[i] <= moments[i+1]
    && var s := t[moments[i]];
       StateOk(s) && PlaceOk(s, key, path[i]) ==> Moves(s, key, path[i], path[i+1])
  }

  lemma {:induction false} SearchOnCourse(t: seq<ListState>, moments: seq<nat>, key: IKey, path: seq<Place>, i: nat)
    requires IsSearch(t, moments, key, path) && i < |moments|
    ensures StateOk(t[moments[i]]) && PlaceOk(t[moments[i]], key, path[i])
  {
    var s' := t[moments[i]];
    assert StateOk(s');
    if i == 0 {
      HeadInLevel(s'.nodes, s'.links, s'.lists, path[0].level);
    } else {
      SearchOnCourse(t, moments, key, path, i - 1);
      var s, at := t[moments[i-1]], path[i-1];
      assert LoadMoves(t, moments, key, path, i - 1);
      MovesOnCourse(s, key, at, path[i]);
      LaterInTrace(t, moments[i-1], moments[i]);
      SearchSurvives(s.nodes, s.lists, s'.nodes, s'.lists, key, path[i].node, path[i].level);
    }
  }

  lemma {:induction false} MovesOnCourse(s: ListState, key: IKey, at: Place, next: Place)
    requires StateOk(s) && PlaceOk(s, key, at) && Moves(s, key, at, next)
    ensures PlaceOk(s, key, next)
  {
    var p := PlaceIn(s.lists[at.level], at.node);
    SearchStep(s.nodes, s.links, s.lists, key, at.node, at.level, p);
  }

  /**
   Whatever is inserted while a search is under way, when a load at the lowest level finds
   nothing before the key, the search is at the predecessor of the key in the state of
   that load, and what it found is the node that a scan of the lowest list finds.
   */
  lemma {:induction false} SearchAmongStores(t: seq<ListState>, moments: seq<nat>, key: IKey, path: seq<Place>)
    returns (p: nat)
    requires IsSearch(t, moments, key, path)
    requires Stops(t[moments[|moments|-1]], key, path[|path|-1])
    ensures var s, x := t[moments[|moments|-1]], path[|path|-1].node;
            && StateOk(s) && (forall i | 0 <= i < |s.lists[0]| :: s.lists[0][i] < |s.nodes|)
            && IsPredecessor(s.nodes, s.lists[0], key, p) && s.lists[0][p] == x < |s.links| && s.links[x] != []
            && s.links[x][0] == if p + 1 < |s.lists[0]| then s.lists[0][p+1] else NIL
  {
    var n := |moments| - 1;
    var s, at := t[moments[n]], path[n];
    SearchOnCourse(t, moments, key, path, n);
    p := PlaceIn(s.lists[0], at.node);
    SearchStep(s.nodes, s.links, s.lists, key, at.node, 0, p);
  }

  /** The stores of one insertion follow those of another. */
  lemma {:induction false} TracesJoin(t: seq<ListState>, t': seq<ListState>)
    requires IsTrace(t) && IsTrace(t') && t'[0] == t[|t|-1]
    ensures IsTrace(t + t'[1..])
  {
    var both := t + t'[1..];
    forall i | 0 <= i < |both|
      ensures StateOk(both[i])
    {
      if i < |t| {
        assert StateOk(t[i]);
      } else {
        assert StateOk(t'[i - |t| + 1]);
      }
    }
    forall i | 0 <= i < |both| - 1
      ensures NextLater(both, i)
    {
      if i + 1 < |t| {
        assert NextLater(t, i);
      } else {
        assert NextLater(t', i - |t| + 1);
      }
    }
  }

  /** The traces of insertions made one after another, each from the state that the one before leaves. */
  ghost predicate AreConsecutive(traces: seq<seq<ListState>>) {
    && traces != []
    && (forall i {:trigger IsTrace(traces[i])} | 0 <= i < |traces| :: IsTrace(traces[i]))
    && (forall i {:trigger Follows(traces, i)} | 0 <= i < |traces| - 1 :: Follows(traces, i))
  }

  ghost predicate Follows(traces: seq<seq<ListState>>, i: nat)
    requires i + 1 < |traces|
  {
    var t, t' := traces[i], traces[i+1];
    t != [] && t' != [] && t'[0] == t[|t|-1]
  }

  /** All their states, in order. */
  function Joined(traces: seq<seq<ListState>>): seq<ListState> {
    if traces == [] then []
    else
      var last := traces[|traces|-1];
      if |traces| == 1 || last == [] then last else Joined(traces[..|traces|-1]) + last[1..]
  }

  lemma {:induction false} JoinedIsTrace(traces: seq<seq<ListState>>)
    requires AreConsecutive(traces)
    ensures IsTrace(Joined(traces))
    ensures var all, last := Joined(traces), traces[|traces|-1];
            last != [] && all[|all|-1] == last[|last|-1]
  {
    var n := |traces| - 1;
    assert IsTrace(traces[n]);
    if n > 0 {
      var front := traces[..n];
      assert AreConsecutive(front) by {
        forall i | 0 <= i < |front|
          ensures IsTrace(front[i])
        {
          assert IsTrace(traces[i]);
        }
        forall i | 0 <= i < |front| - 1
          ensures Follows(front, i)
        {
          assert Follows(traces, i);
        }
      }
      JoinedIsTrace(front);
      assert Follows(traces, n - 1);
      TracesJoin(Joined(front), traces[n]);
    }
  }

  /** A search may run through any number of insertions and ends as one among the stores of a single insertion. */
  lemma {:induction false} SearchAmongInsertions(traces: seq<seq<ListState>>, moments: seq<nat>, key: IKey,
                                                 path: seq<Place>)
    returns (p: nat)
    requires AreConsecutive(traces)
    requires IsSearchOf(Joined(traces), moments, key, path)
    requires Stops(Joined(traces)[moments[|moments|-1]], key, path[|path|-1])
    ensures var s, x := Joined(traces)[moments[|moments|-1]], path[|path|-1].node;
            && StateOk(s) && (forall i | 0 <= i < |s.lists[0]| :: s.lists[0][i] < |s.nodes|)
            && IsPredecessor(s.nodes, s.lists[0], key, p) && s.lists[0][p] == x < |s.links| && s.links[x] != []
            && s.links[x][0] == if p + 1 < |s.lists[0]| then s.lists[0][p+1] else NIL
  {
    JoinedIsTrace(traces);
    p := SearchAmongStores(Joined(traces), moments, key, path);
  }

  // ----- Searches -----

  /** A missing node is after every key. */
  predicate KeyIsAfterNode(nodes: seq<Entry>, key: IKey, n: int)
    requires n == NIL || HEAD < n < |nodes|
  {
    n != NIL && Less(nodes[n].ikey, key)
  }

  /** The first node at or after the key, and its predecessors on every level in use. */
  method FindGreaterOrEqual(nodes: seq<Entry>, links: seq<seq<int>>, ghost lists: seq<seq<nat>>, maxHeight: nat,
                            key: IKey)
    returns (node: int, prev: seq<nat>, ghost p: seq<nat>)
    requires |links| == |nodes| && nodes != [] && ListsOk(nodes, links, lists) && 1 <= maxHeight <= MAX_HEIGHT
    ensures FoundFrom(nodes, lists, key, 0, maxHeight, prev, p) && FoundAt(nodes, lists, key, prev, p, 0)
    ensures node == if p[0] + 1 < |lists[0]| then lists[0][p[0]+1] else NIL
  {
    var x: nat := HEAD;
    var level: nat := maxHeight - 1;
    prev := seq(MAX_HEIGHT, _ => HEAD);
    p := seq(MAX_HEIGHT, _ => 0);
    HeadInLevel(nodes, links, lists, level);
    ghost var q: nat := PlaceIn(lists[level], HEAD);
    while true
      invariant level < maxHeight && OnCourse(nodes, lists, key, x, level)
      invariant q < |lists[level]| && lists[level][q] == x
      invariant FoundFrom(nodes, lists, key, level + 1, maxHeight, prev, p)
      decreases level, |lists[level]| - q
    {
      SearchStep(nodes, links, lists, key, x, level, q);
      var next := links[x][level];
      if KeyIsAfterNode(nodes, key, next) {
        x := next;
        q := q + 1;
      } else {
        FoundBelow(nodes, lists, key, level, maxHeight, prev, p, x, q);
        prev, p := prev[level := x], p[level := q];
        if level == 0 {
          return next, prev, p;
        }
        level := level - 1;
        q := PlaceIn(lists[level], x);
      }
    }
  }

  /** The last node before the key, the head if there is none. */
  method FindLessThan(nodes: seq<Entry>, links: seq<seq<int>>, ghost lists: seq<seq<nat>>, maxHeight: nat, key: IKey)
    returns (x: nat, ghost p: nat)
    requires |links| == |nodes| && nodes != [] && ListsOk(nodes, links, lists) && 1 <= maxHeight <= MAX_HEIGHT
    ensures (forall i | 0 <= i < |lists[0]| :: lists[0][i] < |nodes|) && IsPredecessor(nodes, lists[0], key, p)
    ensures x == lists[0][p]
  {
    x := HEAD;
    var level: nat := maxHeight - 1;
    HeadInLevel(nodes, links, lists, level);
    ghost var q: nat := PlaceIn(lists[level], HEAD);
    while true
      invariant level < maxHeight && OnCourse(nodes, lists, key, x, level)
      invariant q < |lists[level]| && lists[level][q] == x
      decreases level, |lists[level]| - q
    {
      SearchStep(nodes, links, lists, key, x, level, q);
      var next := links[x][level];
      if next == NIL || !Less(nodes[next].ikey, key) {
        if level == 0 {
          return x, q;
        }
        level := level - 1;
        q := PlaceIn(lists[level], x);
      } else {
        x := next;
        q := q + 1;
      }
    }
  }

  /** The last node of the list, the head if the list is empty. */
  method FindLast(nodes: seq<Entry>, links: seq<seq<int>>, ghost lists: seq<seq<nat>>, maxHeight: nat) returns (x: nat)
    requires |links| == |nodes| && nodes != [] && ListsOk(nodes, links, lists) && 1 <= maxHeight <= MAX_HEIGHT
    ensures lists[0] != [] && x == lists[0][|lists[0]|-1]
  {
    x := HEAD;
    var level: nat := maxHeight - 1;
    HeadInLevel(nodes, links, lists, level);
    ghost var q: nat := PlaceIn(lists[level], HEAD);
    while true
      invariant level < maxHeight && q < |lists[level]| && lists[level][q] == x
      decreases level, |lists[level]| - q
    {
      EndStep(nodes, links, lists, x, level, q);
      var next := links[x][level];
      if next == NIL {
        if level == 0 {
          return x;
        }
        level := level - 1;
        q := PlaceIn(lists[level], x);
      } else {
        x := next;
        q := q + 1;
      }
    }
  }

  lemma HeadInLevel(nodes: seq<Entry>, links: seq<seq<int>>, lists: seq<seq<nat>>, level: nat)
    requires |links| == |nodes| && ListsOk(nodes, links, lists) && level < MAX_HEIGHT
    ensures HEAD in lists[level]
  {
    assert LevelOk(nodes, links, lists[level], level);
  }

  // ----- Stores of the writer -----

  /** A store in a link of a node that is not in the list leaves the level as it is. */
  lemma StoreElsewhere(nodes: seq<Entry>, links: seq<seq<int>>, list: seq<nat>, level: nat, n: nat, at: nat,
                       target: int)
    requires |links| == |nodes| && LevelOk(nodes, links, list, level)
    requires n < |links| && at < |links[n]| && (at != level || n !in list)
    ensures LevelOk(nodes, links[n := links[n][at := target]], list, level)
  {
    var links' := links[n := links[n][at := target]];
    forall i | 0 <= i < |list|
      ensures LinkedAt(links', list, level, i)
    {
      assert list[i] in list;
      assert LinkedAt(links, list, level, i);
    }
  }

  /** Publishing a node behind its predecessor puts it in the list of its level. */
  lemma Publish(nodes: seq<Entry>, links: seq<seq<int>>, list: seq<nat>, level: nat, p: nat, x: nat)
    requires |links| == |nodes| && LevelOk(nodes, links, list, level)
    requires HEAD < x < |nodes| && x !in list && level < |links[x]|
    requires IsPredecessor(nodes, list, nodes[x].ikey, p)
    requires forall i | 1 <= i < |list| :: nodes[list[i]].ikey != nodes[x].ikey
    requires links[x][level] == links[list[p]][level]
    ensures LevelOk(nodes, links[list[p] := links[list[p]][level := x]], Inserted(list, p, x), level)
  {
    var list' := Inserted(list, p, x);
    var links' := links[list[p] := links[list[p]][level := x]];
    forall i | 0 <= i < |list|
      ensures list[i] == list[p] ==> i == p
    {
      assert i < p && 1 <= i ==> Less(nodes[list[i]].ikey, nodes[list[p]].ikey);
      assert p < i && 1 <= p ==> Less(nodes[list[p]].ikey, nodes[list[i]].ikey);
    }
    assert x != list[p];
    assert LinkedAt(links, list, level, p);
    forall i | 0 <= i < |list'|
      ensures LinkedAt(links', list', level, i)
    {
      if i < p {
        assert LinkedAt(links, list, level, i);
      } else if i > p + 1 {
        assert LinkedAt(links, list, level, i - 1);
      }
    }
    PublishSorted(nodes, list, p, x);
  }

  /** The list with x behind place p. */
  function Inserted(list: seq<nat>, p: nat, x: nat): (list': seq<nat>)
    requires p < |list|
    ensures |list'| == |list| + 1
    ensures forall i | 0 <= i < |list'| :: list'[i] == if i <= p then list[i] else if i == p + 1 then x else list[i-1]
  {
    list[..p+1] + [x] + list[p+1..]
  }

  lemma PublishSorted(nodes: seq<Entry>, list: seq<nat>, p: nat, x: nat)
    requires list != [] && list[0] == HEAD && (forall i | 0 <= i < |list| :: list[i] < |nodes|) && x < |nodes|
    requires forall i | 1 <= i < |list| :: list[i] != HEAD
    requires forall i, j | 1 <= i < j < |list| :: Less(nodes[list[i]].ikey, nodes[list[j]].ikey)
    requires IsPredecessor(nodes, list, nodes[x].ikey, p)
    requires forall i | 1 <= i < |list| :: nodes[list[i]].ikey != nodes[x].ikey
    ensures var list' := Inserted(list, p, x);
            forall i, j | 1 <= i < j < |list'| :: Less(nodes[list'[i]].ikey, nodes[list'[j]].ikey)
  {
    var key := nodes[x].ikey;
    forall i | 1 <= i <= p
      ensures Less(nodes[list[i]].ikey, key)
    {
      assert i < p ==> Less(nodes[list[i]].ikey, nodes[list[p]].ikey);
    }
    forall i | p < i < |list|
      ensures Less(key, nodes[list[i]].ikey)
    {
      assert p + 1 < i ==> Less(nodes[list[p+1]].ikey, nodes[list[i]].ikey);
    }
  }

  // ----- The skip list -----

  class SkipList {
    /** The keys of the nodes, and each node's links, one per level up to its height. */
    var nodes: seq<Entry>
    var links: seq<seq<int>>
    var maxHeight: nat
    ghost var lists: seq<seq<nat>>

    ghost predicate Valid()
      reads this
    {
      && |links| == |nodes| && nodes != [] && |links[HEAD]| == MAX_HEIGHT
      && 1 <= maxHeight <= MAX_HEIGHT
      && ListsOk(nodes, links, lists)
      && forall l | maxHeight <= l < MAX_HEIGHT :: lists[l] == [HEAD]
    }

    ghost function State(): ListState
      reads this
    {
      ListState(nodes, links, lists)
    }

    ghost function Contents(): seq<Entry>
      requires Valid()
      reads this
    {
      KeysOf(nodes, lists[0])
    }

    constructor ()
      ensures Valid() && Contents() == []
    {
      nodes := [Entry(IKey(0.0, 0, Kind.Value), [])];
      links := [seq(MAX_HEIGHT, _ => NIL)];
      maxHeight := 1;
      lists := seq(MAX_HEIGHT, _ => [HEAD]);
    }

    // The stores of an insertion.  After each one the structure is valid and no search is led astray.

    /** Raises the height of the list; the new levels are still empty. */
    method RaiseHeight(height: nat)
      requires Valid() && maxHeight <= height <= MAX_HEIGHT
      modifies this`maxHeight
      ensures Valid() && maxHeight == height
    {
      maxHeight := height;
    }

    /** Allocates a node, not linked anywhere yet. */
    method NewNode(e: Entry, height: nat) returns (x: nat)
      requires Valid() && 1 <= height <= MAX_HEIGHT
      modifies this`nodes, this`links
      ensures Valid() && Grows(old(nodes), lists, nodes, lists)
      ensures x == |old(nodes)| && nodes == old(nodes) + [e] && |links[x]| == height
      ensures Contents() == old(Contents())
      ensures forall l | 0 <= l < MAX_HEIGHT :: x !in lists[l]
    {
      x := |nodes|;
      NodeAdded(nodes, links, lists, e, height);
      nodes := nodes + [e];
      links := links + [seq(height, _ => NIL)];
    }

    /** The new node's own link, set before the node can be reached at that level. */
    method SetOwnLink(x: nat, level: nat, next: int)
      requires Valid() && HEAD < x < |nodes| && level < |links[x]| && level < MAX_HEIGHT && x !in lists[level]
      modifies this`links
      ensures Valid() && links == old(links)[x := old(links)[x][level := next]]
    {
      StoresElsewhere(nodes, links, lists, x, level, next);
      links := links[x := links[x][level := next]];
    }

    /** The store that makes the new node reachable at a level. */
    method PublishLink(prev: nat, level: nat, x: nat, ghost p: nat)
      requires Valid() && HEAD < x < |nodes| && level < maxHeight && level < |links[x]|
      requires x !in lists[level] && forall m | 0 <= m < level :: x in lists[m]
      requires (forall i | 0 <= i < |lists[level]| :: lists[level][i] < |nodes|)
      requires IsPredecessor(nodes, lists[level], nodes[x].ikey, p)
      requires prev == lists[level][p] && level < |links[prev]| && links[x][level] == links[prev][level]
      requires forall i | 1 <= i < |lists[level]| :: nodes[lists[level][i]].ikey != nodes[x].ikey
      modifies this`links, this`lists
      ensures Valid() && Grows(nodes, old(lists), nodes, lists)
      ensures lists == old(lists)[level := Inserted(old(lists)[level], p, x)]
      ensures |links[x]| == old(|links[x]|)
    {
      PublishedLists(nodes, links, lists, level, p, x);
      links := links[prev := links[prev][level := x]];
      lists := lists[level := Inserted(lists[level], p, x)];
    }

    /** The two stores that link the new node at one level. */
    method LinkLevel(e: Entry, x: nat, ghost height: nat, i: nat, prev: seq<nat>, ghost p: seq<nat>)
      returns (ghost between: ListState)
      requires Valid() && Inserting(nodes, links, lists, maxHeight, e, x, height, i, prev, p) && i < height
      modifies this`links, this`lists
      ensures Valid() && Inserting(nodes, links, lists, maxHeight, e, x, height, i + 1, prev, p)
      ensures StateOk(between) && Later(old(State()), between) && Later(between, State())
      ensures p[i] < |old(lists)[i]| && lists == old(lists)[i := Inserted(old(lists)[i], p[i], x)]
    {
      PrevHasLink(nodes, links, lists, e.ikey, i, height, prev, p, x);
      ghost var links0, lists0 := links, lists;
      SetOwnLink(x, i, links[prev[i]][i]);
      between := State();
      PublishLink(prev[i], i, x, p[i]);
      NextLevel(nodes, links0, lists0, maxHeight, links, e, x, height, i, prev, p);
    }

    /** The states that a reader may see of it, after those of stores. */
    method LinkTraced(e: Entry, x: nat, ghost height: nat, i: nat, prev: seq<nat>, ghost p: seq<nat>,
                      ghost stores: seq<ListState>)
      returns (ghost more: seq<ListState>)
      requires IsTrace(stores) && stores[|stores|-1] == State()
      requires Valid() && Inserting(nodes, links, lists, maxHeight, e, x, height, i, prev, p) && i < height
      modifies this`links, this`lists
      ensures Valid() && Inserting(nodes, links, lists, maxHeight, e, x, height, i + 1, prev, p)
      ensures IsTrace(more) && more[0] == stores[0] && more[|more|-1] == State()
      ensures p[i] < |old(lists)[i]| && lists == old(lists)[i := Inserted(old(lists)[i], p[i], x)]
    {
      ghost var between := LinkLevel(e, x, height, i, prev, p);
      OneMoreStore(stores, between);
      OneMoreStore(stores + [between], State());
      more := stores + [between] + [State()];
    }

    method LinkAll(e: Entry, x: nat, height: nat, prev: seq<nat>, ghost p: seq<nat>, ghost stores: seq<ListState>)
      returns (ghost more: seq<ListState>)
      requires IsTrace(stores) && stores[|stores|-1] == State()
      requires Valid() && Inserting(nodes, links, lists, maxHeight, e, x, height, 0, prev, p)
      modifies this`links, this`lists
      ensures Valid() && p[0] < |old(lists)[0]| && lists[0] == Inserted(old(lists)[0], p[0], x)
      ensures IsTrace(more) && more[0] == stores[0] && more[|more|-1] == State()
    {
      more := stores;
      for i := 0 to height
        invariant IsTrace(more) && more[0] == stores[0] && more[|more|-1] == State()
        invariant Valid() && Inserting(nodes, links, lists, maxHeight, e, x, height, i, prev, p)
        invariant i == 0 ==> lists == old(lists)
        invariant i > 0 ==> p[0] < |old(lists)[0]| && lists[0] == Inserted(old(lists)[0], p[0], x)
      {
        more := LinkTraced(e, x, height, i, prev, p, more);
      }
    }

    /** The search, and the allocation of the node. */
    method StartInsert(e: Entry, height: nat) returns (x: nat, prev: seq<nat>, ghost p: seq<nat>)
      requires Valid() && 1 <= height <= MAX_HEIGHT
      requires forall o | o in Contents() :: o.ikey != e.ikey
      modifies this`nodes, this`links, this`maxHeight
      ensures Valid() && Inserting(nodes, links, lists, maxHeight, e, x, height, 0, prev, p)
      ensures nodes == old(nodes) + [e] && x == |old(nodes)| && Later(old(State()), State())
      ensures IsSeek(old(Contents()), e.ikey, p[0])
    {
      ghost var keys := Contents();
      LowestList(nodes, links, lists);
      var found;
      found, prev, p := FindGreaterOrEqual(nodes, links, lists, maxHeight, e.ikey);
      ghost var at := p[0];
      PredecessorIsSeek(nodes, links, lists[0], e.ikey, at);
      if height > maxHeight {
        prev, p := HeadsAbove(nodes, lists, e.ikey, maxHeight, height, prev, p);
        RaiseHeight(height);
      }
      ghost var before := nodes;
      x := NewNode(e, height);
      FoundStill(before, nodes, lists, e.ikey, height, prev, p);
      KeysApart(nodes, before, lists[0], x, e, keys);
    }

    /**
     Adds an entry at its place.  height is the outcome of RandomHeight, and stores lists
     the states that a reader may see on the way.
     */
    method Insert(e: Entry, height: nat) returns (ghost at: nat, ghost stores: seq<ListState>)
      requires Valid() && 1 <= height <= MAX_HEIGHT
      requires forall o | o in Contents() :: o.ikey != e.ikey
      modifies this
      ensures Valid() && IsSeek(old(Contents()), e.ikey, at)
      ensures Contents() == old(Contents())[..at] + [e] + old(Contents())[at..]
      ensures IsTrace(stores) && stores[0] == old(State()) && stores[|stores|-1] == State()
    {
      stores := [State()];
      ghost var before, lowest := nodes, lists[0];
      LowestList(nodes, links, lists);
      var x, prev;
      ghost var p;
      x, prev, p := StartInsert(e, height);
      OneMoreStore(stores, State());
      stores := LinkAll(e, x, height, prev, p, stores + [State()]);
      at := p[0];
      InsertedKeys(nodes, before, lowest, at, x, e);
    }

    method Contains(e: Entry) returns (b: bool)
      requires Valid()
      ensures b <==> exists o :: o in Contents() && o.ikey == e.ikey
    {
      var x, prev;
      ghost var p;
      x, prev, p := FindGreaterOrEqual(nodes, links, lists, maxHeight, e.ikey);
      PredecessorIsSeek(nodes, links, lists[0], e.ikey, p[0]);
      ghost var keys := Contents();
      assert x != NIL ==> keys[p[0]] == nodes[x];
      b := x != NIL && nodes[x].ikey == e.ikey;
      if b {
        assert keys[p[0]] in keys;
      } else {
        NotFound(keys, e.ikey, p[0]);
      }
    }
  }

  /** At the levels not in use yet the head is every key's predecessor. */
  method HeadsAbove(ghost nodes: seq<Entry>, ghost lists: seq<seq<nat>>, ghost key: IKey, maxHeight: nat, height: nat,
                    prev: seq<nat>, ghost p: seq<nat>)
    returns (prev': seq<nat>, ghost p': seq<nat>)
    requires FoundFrom(nodes, lists, key, 0, maxHeight, prev, p) && 0 < maxHeight <= height <= |lists| && nodes != []
    requires forall l | maxHeight <= l < |lists| :: lists[l] == [HEAD]
    ensures FoundFrom(nodes, lists, key, 0, height, prev', p') && p'[0] == p[0]
  {
    prev', p' := prev, p;
    for i := maxHeight to height
      invariant FoundFrom(nodes, lists, key, 0, i, prev', p') && p'[0] == p[0]
    {
      HeadFound(nodes, lists, key, i, prev', p');
      prev', p' := prev'[i := HEAD], p'[i := 0];
    }
  }

  lemma HeadFound(nodes: seq<Entry>, lists: seq<seq<nat>>, key: IKey, high: nat, prev: seq<nat>, p: seq<nat>)
    requires FoundFrom(nodes, lists, key, 0, high, prev, p) && high < |lists| && lists[high] == [HEAD] && nodes != []
    ensures FoundFrom(nodes, lists, key, 0, high + 1, prev[high := HEAD], p[high := 0])
  {
    var prev', p' := prev[high := HEAD], p[high := 0];
    forall l | 0 <= l < high + 1
      ensures FoundAt(nodes, lists, key, prev', p', l)
    {
      assert l < high ==> FoundAt(nodes, lists, key, prev, p, l);
    }
  }

  lemma FoundStill(nodes: seq<Entry>, nodes': seq<Entry>, lists: seq<seq<nat>>, key: IKey, high: nat, prev: seq<nat>,
                   p: seq<nat>)
    requires high <= |lists| == |prev| == |p| && nodes <= nodes'
    requires forall l {:trigger FoundAt(nodes, lists, key, prev, p, l)} | 0 <= l < high ::
             FoundAt(nodes, lists, key, prev, p, l)
    ensures FoundFrom(nodes', lists, key, 0, high, prev, p)
  {
    forall l | 0 <= l < high
      ensures FoundAt(nodes', lists, key, prev, p, l)
    {
      assert FoundAt(nodes, lists, key, prev, p, l);
      assert forall i | 0 <= i < |lists[l]| :: lists[l][i] < |nodes|;
    }
  }

  lemma KeysApart(nodes: seq<Entry>, before: seq<Entry>, list: seq<nat>, x: nat, e: Entry, keys: seq<Entry>)
    requires list != [] && list[0] == HEAD && forall i | 0 <= i < |list| :: list[i] < |before|
    requires nodes == before + [e] && x == |before| && keys == KeysOf(before, list)
    requires forall o | o in keys :: o.ikey != e.ikey
    ensures forall n | n in list && n != HEAD && n != x :: n < |nodes| && nodes[n].ikey != e.ikey
  {
    forall n | n in list && n != HEAD
      ensures n < |nodes| && nodes[n].ikey != e.ikey
    {
      var i :| 0 <= i < |list| && list[i] == n;
      assert keys[i-1] == before[n] && keys[i-1] in keys;
    }
  }

  /** What publishing at level i needs to know of the predecessor found there. */
  lemma PrevHasLink(nodes: seq<Entry>, links: seq<seq<int>>, lists: seq<seq<nat>>, key: IKey, i: nat, high: nat,
                    prev: seq<nat>, p: seq<nat>, x: nat)
    requires |links| == |nodes| && ListsOk(nodes, links, lists)
    requires FoundFrom(nodes, lists, key, i, high, prev, p) && i < high && x !in lists[i]
    requires forall n | n in lists[0] && n != HEAD && n != x :: n < |nodes| && nodes[n].ikey != key
    ensures (forall j | 0 <= j < |lists[i]| :: lists[i][j] < |nodes|) && IsPredecessor(nodes, lists[i], key, p[i])
    ensures prev[i] == lists[i][p[i]] && prev[i] in lists[i] && prev[i] < |nodes| && i < |links[prev[i]]|
    ensures forall j | 1 <= j < |lists[i]| :: nodes[lists[i][j]].ikey != key
  {
    assert FoundAt(nodes, lists, key, prev, p, i);
    assert LevelOk(nodes, links, lists[i], i);
    forall j | 1 <= j < |lists[i]|
      ensures nodes[lists[i][j]].ikey != key
    {
      assert lists[i][j] in lists[i];
      assert lists[i][j] in lists[0];
    }
  }

  /** Node x, holding e, is linked at the levels below i; prev are its predecessors at the levels from i on. */
  ghost predicate Inserting(nodes: seq<Entry>, links: seq<seq<int>>, lists: seq<seq<nat>>, maxHeight: nat,
                            e: Entry, x: nat, height: nat, i: nat, prev: seq<nat>, p: seq<nat>)
  {
    && |links| == |nodes| && |lists| == MAX_HEIGHT
    && HEAD < x < |nodes| && nodes[x] == e && i <= height <= maxHeight <= MAX_HEIGHT && |links[x]| == height
    && 0 < height && |prev| == |p| == MAX_HEIGHT
    && FoundFrom(nodes, lists, e.ikey, i, height, prev, p)
    && (forall l | i <= l < MAX_HEIGHT :: x !in lists[l])
    && (forall l | 0 <= l < i :: x in lists[l])
    && forall n | n in lists[0] && n != HEAD && n != x :: n < |nodes| && nodes[n].ikey != e.ikey
  }

  lemma NextLevel(nodes: seq<Entry>, links: seq<seq<int>>, lists: seq<seq<nat>>, maxHeight: nat, links': seq<seq<int>>,
                  e: Entry, x: nat, height: nat, i: nat, prev: seq<nat>, p: seq<nat>)
    requires Inserting(nodes, links, lists, maxHeight, e, x, height, i, prev, p) && i < height
    requires |links'| == |nodes| && |links'[x]| == height
    requires p[i] < |lists[i]|
    ensures Inserting(nodes, links', lists[i := Inserted(lists[i], p[i], x)], maxHeight, e, x, height, i + 1, prev, p)
  {
    var lists' := lists[i := Inserted(lists[i], p[i], x)];
    InsertedMembers(lists[i], p[i], x);
    forall l | i + 1 <= l < height
      ensures FoundAt(nodes, lists', e.ikey, prev, p, l)
    {
      assert FoundAt(nodes, lists, e.ikey, prev, p, l);
    }
    forall n | n in lists'[0] && n != HEAD && n != x
      ensures n < |nodes| && nodes[n].ikey != e.ikey
    {
      assert i == 0 ==> n in Inserted(lists[i], p[i], x);
      assert n in lists[0];
    }
  }

  lemma LowestList(nodes: seq<Entry>, links: seq<seq<int>>, lists: seq<seq<nat>>)
    requires |links| == |nodes| && ListsOk(nodes, links, lists)
    ensures lists[0] != [] && lists[0][0] == HEAD && forall i | 0 <= i < |lists[0]| :: lists[0][i] < |nodes|
  {
    assert LevelOk(nodes, links, lists[0], 0);
  }

  lemma InsertedKeys(nodes: seq<Entry>, before: seq<Entry>, list: seq<nat>, at: nat, x: nat, e: Entry)
    requires list != [] && at < |list| && forall i | 0 <= i < |list| :: list[i] < |before|
    requires nodes == before + [e] && x == |before|
    ensures var keys, list' := KeysOf(before, list), Inserted(list, at, x);
            (forall i | 0 <= i < |list'| :: list'[i] < |nodes|) && KeysOf(nodes, list') == keys[..at] + [e] + keys[at..]
  {
  }

  lemma NodeAdded(nodes: seq<Entry>, links: seq<seq<int>>, lists: seq<seq<nat>>, e: Entry, height: nat)
    requires |links| == |nodes| && ListsOk(nodes, links, lists)
    ensures ListsOk(nodes + [e], links + [seq(height, _ => NIL)], lists)
    ensures Grows(nodes, lists, nodes + [e], lists)
    ensures forall l | 0 <= l < MAX_HEIGHT :: |nodes| !in lists[l]
    ensures KeysOf(nodes + [e], lists[0]) == KeysOf(nodes, lists[0])
  {
    forall l | 0 <= l < MAX_HEIGHT
      ensures LevelOk(nodes + [e], links + [seq(height, _ => NIL)], lists[l], l) && |nodes| !in lists[l]
    {
      NodeElsewhere(nodes, links, lists[l], l, e, seq(height, _ => NIL));
    }
  }

  /** A node that is linked nowhere leaves a level as it is. */
  lemma NodeElsewhere(nodes: seq<Entry>, links: seq<seq<int>>, list: seq<nat>, level: nat, e: Entry, own: seq<int>)
    requires |links| == |nodes| && LevelOk(nodes, links, list, level)
    ensures LevelOk(nodes + [e], links + [own], list, level) && |nodes| !in list
  {
    forall i | 0 <= i < |list|
      ensures LinkedAt(links + [own], list, level, i)
    {
      assert LinkedAt(links, list, level, i);
    }
  }

  lemma StoresElsewhere(nodes: seq<Entry>, links: seq<seq<int>>, lists: seq<seq<nat>>, x: nat, level: nat, next: int)
    requires |links| == |nodes| && ListsOk(nodes, links, lists)
    requires x < |nodes| && level < |links[x]| && level < MAX_HEIGHT && x !in lists[level]
    ensures ListsOk(nodes, links[x := links[x][level := next]], lists)
  {
    forall l | 0 <= l < MAX_HEIGHT
      ensures LevelOk(nodes, links[x := links[x][level := next]], lists[l], l)
    {
      StoreElsewhere(nodes, links, lists[l], l, x, level, next);
    }
  }

  lemma PublishedLists(nodes: seq<Entry>, links: seq<seq<int>>, lists: seq<seq<nat>>, level: nat, p: nat, x: nat)
    requires |links| == |nodes| && ListsOk(nodes, links, lists) && level < MAX_HEIGHT
    requires HEAD < x < |nodes| && level < |links[x]| && x !in lists[level]
    requires (forall m | 0 <= m < level :: x in lists[m])
    requires (forall i | 0 <= i < |lists[level]| :: lists[level][i] < |nodes|)
    requires IsPredecessor(nodes, lists[level], nodes[x].ikey, p)
    requires level < |links[lists[level][p]]| && links[x][level] == links[lists[level][p]][level]
    requires forall i | 1 <= i < |lists[level]| :: nodes[lists[level][i]].ikey != nodes[x].ikey
    ensures var prev, list := lists[level][p], Inserted(lists[level], p, x);
            && ListsOk(nodes, links[prev := links[prev][level := x]], lists[level := list])
            && Grows(nodes, lists, nodes, lists[level := list])
  {
    var prev, list := lists[level][p], Inserted(lists[level], p, x);
    var links', lists' := links[prev := links[prev][level := x]], lists[level := list];
    assert LevelOk(nodes, links, lists[level], level);
    Publish(nodes, links, lists[level], level, p, x);
    forall l | 0 <= l < MAX_HEIGHT
      ensures LevelOk(nodes, links', lists'[l], l)
    {
      if l != level {
        StoreElsewhere(nodes, links, lists[l], l, prev, level, x);
      }
    }
    InsertedMembers(lists[level], p, x);
    forall l, m, n {:trigger n in lists'[l], lists'[m]} | 0 <= m < l < MAX_HEIGHT && n in lists'[l]
      ensures n in lists'[m]
    {
      assert n in lists[l] || (n == x && l == level);
      assert n in lists[m];
    }
  }

  lemma InsertedMembers(list: seq<nat>, p: nat, x: nat)
    requires p < |list|
    ensures forall n :: n in Inserted(list, p, x) <==> n in list || n == x
  {
    assert list == list[..p+1] + list[p+1..];
  }

  lemma NotFound(keys: seq<Entry>, key: IKey, i: nat)
    requires Sorted(keys) && IsSeek(keys, key, i) && (i < |keys| ==> keys[i].ikey != key)
    ensures forall o | o in keys :: o.ikey != key
  {
    forall o | o in keys
      ensures o.ikey != key
    {
      var j :| 0 <= j < |keys| && keys[j] == o;
      assert i < j ==> Less(keys[i].ikey, keys[j].ikey);
    }
  }

  // ----- Iterating -----

  function PlaceOf(list: seq<nat>, n: nat): (p: nat)
    requires n in list
    ensures p < |list| && list[p] == n && forall j | 0 <= j < p :: list[j] != n
  {
    if list[0] == n then 0
    else
      assert forall j | 1 <= j < |list| :: list[j] == list[1..][j-1];
      1 + PlaceOf(list[1..], n)
  }

  /** The places of nodes in a level are their own. */
  lemma PlaceOfIndex(nodes: seq<Entry>, links: seq<seq<int>>, list: seq<nat>, level: nat, p: nat)
    requires |links| == |nodes| && LevelOk(nodes, links, list, level) && p < |list|
    ensures PlaceOf(list, list[p]) == p
  {
    var q := PlaceOf(list, list[p]);
    assert q <= p;
    assert 1 <= q < p ==> Less(nodes[list[q]].ikey, nodes[list[p]].ikey);
  }

  /** SkipList::Iterator: only a node is remembered, so it stays usable while entries are added. */
  class Iterator {
    const list: SkipList
    var node: int

    ghost predicate Valid()
      reads this, list
    {
      list.Valid() && (node == NIL || (node > HEAD && node in list.lists[0]))
    }

    /** The position of the node among the keys now in the list, their number if there is none. */
    ghost function At(): nat
      requires Valid()
      reads this, list
    {
      if node == NIL then |list.Contents()| else PlaceOf(list.lists[0], node) - 1
    }

    constructor (list: SkipList)
      requires list.Valid()
      ensures Valid() && this.list == list && node == NIL
    {
      this.list := list;
      node := NIL;
    }

    method Key() returns (e: Entry)
      requires Valid() && node != NIL
      ensures At() < |list.Contents()| && e == list.Contents()[At()]
    {
      LowestList(list.nodes, list.links, list.lists);
      e := list.nodes[node];
    }

    method Next()
      requires Valid() && node != NIL
      modifies this
      ensures Valid() && At() == old(At()) + 1
    {
      ghost var p := PlaceOf(list.lists[0], node);
      EndStep(list.nodes, list.links, list.lists, node, 0, p);
      node := list.links[node][0];
      AtPlace(p + 1);
    }

    /** What is known of the iterator when its node is at a place of the lowest level, or past its end. */
    lemma AtPlace(p: nat)
      requires list.Valid() && 1 <= p <= |list.lists[0]|
      requires node == if p < |list.lists[0]| then list.lists[0][p] else NIL
      ensures Valid() && At() == p - 1
    {
      assert LevelOk(list.nodes, list.links, list.lists[0], 0);
      if p < |list.lists[0]| {
        PlaceOfIndex(list.nodes, list.links, list.lists[0], 0, p);
      }
    }

    method Prev()
      requires Valid() && node != NIL
      modifies this
      ensures Valid() && At() == if old(At()) == 0 then |list.Contents()| else old(At()) - 1
    {
      ghost var at := PlaceOf(list.lists[0], node);
      LowestList(list.nodes, list.links, list.lists);
      var x;
      ghost var p;
      x, p := FindLessThan(list.nodes, list.links, list.lists, list.maxHeight, list.nodes[node].ikey);
      PredecessorIsSeek(list.nodes, list.links, list.lists[0], list.nodes[node].ikey, p);
      OwnSeek(list.Contents(), at - 1, p);
      PlaceOfIndex(list.nodes, list.links, list.lists[0], 0, p);
      if x == HEAD {
        HeadIsFirst(list.nodes, list.links, list.lists[0], p);
        node := NIL;
      } else {
        node := x;
        assert p > 0;
        AtPlace(p);
      }
    }

    method Seek(target: IKey)
      requires Valid()
      modifies this
      ensures Valid() && IsSeek(list.Contents(), target, At())
    {
      var x, prev;
      ghost var p;
      x, prev, p := FindGreaterOrEqual(list.nodes, list.links, list.lists, list.maxHeight, target);
      PredecessorIsSeek(list.nodes, list.links, list.lists[0], target, p[0]);
      node := x;
      AtPlace(p[0] + 1);
    }

    method SeekToFirst()
      requires Valid()
      modifies this
      ensures Valid() && At() == 0
    {
      LowestList(list.nodes, list.links, list.lists);
      EndStep(list.nodes, list.links, list.lists, HEAD, 0, 0);
      node := list.links[HEAD][0];
      AtPlace(1);
    }

    method SeekToLast()
      requires Valid()
      modifies this
      ensures Valid() && At() == if |list.Contents()| == 0 then 0 else |list.Contents()| - 1
    {
      var x := FindLast(list.nodes, list.links, list.lists, list.maxHeight);
      ghost var p: nat := |list.lists[0]| - 1;
      if x == HEAD {
        HeadIsFirst(list.nodes, list.links, list.lists[0], p);
        node := NIL;
      } else {
        node := x;
        LowestList(list.nodes, list.links, list.lists);
        AtPlace(p);
      }
    }
  }

  lemma HeadIsFirst(nodes: seq<Entry>, links: seq<seq<int>>, list: seq<nat>, p: nat)
    requires |links| == |nodes| && LevelOk(nodes, links, list, 0) && p < |list| && list[p] == HEAD
    ensures p == 0
  {
  }

  lemma OwnSeek(keys: seq<Entry>, i: nat, p: nat)
    requires Sorted(keys) && i < |keys| && IsSeek(keys, keys[i].ikey, p)
    ensures p == i
  {
    var own := keys[i];
    assert p <= i;
    var first := keys[p];
  }
}
