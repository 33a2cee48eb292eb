/** The circular doubly linked lists of the cache: entries on a ring around a list head. */
module Rings {
  import opened HandleTables

  datatype Node = LruHead | InUseHead | Entry(handle: Handle)

  function NodeAt(head: Node, list: seq<Handle>, i: nat): (n: Node)
    requires i <= |list| + 1
    ensures OnRing(head, list, n)
  {
    if i == 0 || i == |list| + 1 then head else Entry(list[i-1])
  }

  /** Going around from the head by next, and the other way by prev, lists exactly these entries. */
  ghost predicate Ring(next: map<Node, Node>, prev: map<Node, Node>, head: Node, list: seq<Handle>) {
    && !head.Entry?
    && (forall i, j | 0 <= i < j < |list| :: list[i] != list[j])
    && (forall n {:trigger n in next} | OnRing(head, list, n) :: n in next)
    && (forall n {:trigger n in prev} | OnRing(head, list, n) :: n in prev)
    && (forall i {:trigger next[NodeAt(head, list, i)]} | 0 <= i <= |list| ::
         next[NodeAt(head, list, i)] == NodeAt(head, list, i + 1))
    && (forall i {:trigger prev[NodeAt(head, list, i)]} | 1 <= i <= |list| + 1 ::
         prev[NodeAt(head, list, i)] == NodeAt(head, list, i - 1))
  }

  predicate OnRing(head: Node, list: seq<Handle>, n: Node) {
    n == head || (n.Entry? && n.handle in list)
  }

  /** A change of a node that is not on the ring leaves the ring. */
  lemma RingElsewhere(next: map<Node, Node>, prev: map<Node, Node>, head: Node, list: seq<Handle>, n: Node, x: Node)
    requires Ring(next, prev, head, list) && !OnRing(head, list, n)
    ensures Ring(next[n := x], prev, head, list) && Ring(next, prev[n := x], head, list)
  {
    forall i | 0 <= i <= |list| + 1
      ensures NodeAt(head, list, i) != n
    {
    }
  }

  /** The neighbours of an entry on a ring. */
  lemma Neighbours(next: map<Node, Node>, prev: map<Node, Node>, head: Node, list: seq<Handle>, k: nat)
    requires Ring(next, prev, head, list) && k < |list|
    ensures Entry(list[k]) in next && Entry(list[k]) in prev
    ensures next[Entry(list[k])] == NodeAt(head, list, k + 2) && prev[Entry(list[k])] == NodeAt(head, list, k)
  {
    assert NodeAt(head, list, k + 1) == Entry(list[k]);
    assert next[NodeAt(head, list, k + 1)] == NodeAt(head, list, k + 2);
    assert prev[NodeAt(head, list, k + 1)] == NodeAt(head, list, k);
  }

  function Without(list: seq<Handle>, k: nat): seq<Handle>
    requires k < |list|
  {
    list[..k] + list[k+1..]
  }

  lemma WithoutNodes(head: Node, list: seq<Handle>, k: nat, i: nat)
    requires k < |list| && i <= |list|
    ensures NodeAt(head, Without(list, k), i) == NodeAt(head, list, if i <= k then i else i + 1)
  {
  }

  lemma NodesDiffer(next: map<Node, Node>, prev: map<Node, Node>, head: Node, list: seq<Handle>, i: nat, j: nat)
    requires Ring(next, prev, head, list) && i < j <= |list| + 1 && !(i == 0 && j == |list| + 1)
    ensures NodeAt(head, list, i) != NodeAt(head, list, j)
  {
  }

  /** Position i of the shorter list is position Shift(k, i) of the list. */
  function Shift(k: nat, i: nat): nat {
    if i <= k then i else i + 1
  }

  lemma RingRemoveNext(next: map<Node, Node>, prev: map<Node, Node>, head: Node, list: seq<Handle>, k: nat, i: nat)
    requires Ring(next, prev, head, list) && k < |list| && i < |list|
    ensures var next' := next[NodeAt(head, list, k) := NodeAt(head, list, k + 2)];
            NodeAt(head, list, Shift(k, i)) in next'
                && next'[NodeAt(head, list, Shift(k, i))] == NodeAt(head, list, Shift(k, i + 1))
  {
    var j := Shift(k, i);
    assert next[NodeAt(head, list, j)] == NodeAt(head, list, j + 1);
    if j < k {
      NodesDiffer(next, prev, head, list, j, k);
    } else if j > k {
      NodesDiffer(next, prev, head, list, k, j);
    }
  }

  lemma RingRemovePrev(next: map<Node, Node>, prev: map<Node, Node>, head: Node, list: seq<Handle>, k: nat, i: nat)
    requires Ring(next, prev, head, list) && k < |list| && 1 <= i <= |list|
    ensures var prev' := prev[NodeAt(head, list, k + 2) := NodeAt(head, list, k)];
            NodeAt(head, list, Shift(k, i)) in prev'
                && prev'[NodeAt(head, list, Shift(k, i))] == NodeAt(head, list, Shift(k, i - 1))
  {
    var j := Shift(k, i);
    assert prev[NodeAt(head, list, j)] == NodeAt(head, list, j - 1);
    if j < k + 2 {
      NodesDiffer(next, prev, head, list, j, k + 2);
    } else if j > k + 2 {
      NodesDiffer(next, prev, head, list, k + 2, j);
    }
  }

  lemma RemovedNode(next: map<Node, Node>, prev: map<Node, Node>, head: Node, list: seq<Handle>, k: nat, i: nat)
    requires Ring(next, prev, head, list) && k < |list| && i <= |list|
    ensures var list' := Without(list, k);
            var next' := next[NodeAt(head, list, k) := NodeAt(head, list, k + 2)];
            var prev' := prev[NodeAt(head, list, k + 2) := NodeAt(head, list, k)];
            && (i <= |list'| ==>
                 NodeAt(head, list', i) in next' && next'[NodeAt(head, list', i)] == NodeAt(head, list', i + 1))
            && (i >= 1 ==>
                 NodeAt(head, list', i) in prev' && prev'[NodeAt(head, list', i)] == NodeAt(head, list', i - 1))
  {
    WithoutNodes(head, list, k, i);
    if i < |list| {
      WithoutNodes(head, list, k, i + 1);
      RingRemoveNext(next, prev, head, list, k, i);
    }
    if i >= 1 {
      WithoutNodes(head, list, k, i - 1);
      RingRemovePrev(next, prev, head, list, k, i);
    }
  }

  /** LRU_Remove: the neighbours of an entry are linked to each other. */
  lemma RingRemove(next: map<Node, Node>, prev: map<Node, Node>, head: Node, list: seq<Handle>, k: nat)
    requires Ring(next, prev, head, list) && k < |list|
    ensures Ring(next[NodeAt(head, list, k) := NodeAt(head, list, k + 2)],
            prev[NodeAt(head, list, k + 2) := NodeAt(head, list, k)],
                 head, Without(list, k))
  {
    var list' := Without(list, k);
    WithoutMembers(list, k);
    forall i | 0 <= i <= |list|
      ensures i <= |list'| ==>
              next[NodeAt(head, list, k) := NodeAt(head, list, k + 2)][NodeAt(head, list', i)] ==
                  NodeAt(head, list', i + 1)
      ensures i >= 1 ==>
              prev[NodeAt(head, list, k + 2) := NodeAt(head, list, k)][NodeAt(head, list', i)] ==
                  NodeAt(head, list', i - 1)
    {
      RemovedNode(next, prev, head, list, k, i);
    }
  }

  /** LRU_Append: an entry is linked in just before the head, as the newest. */
  lemma RingAppend(next: map<Node, Node>, prev: map<Node, Node>, head: Node, list: seq<Handle>, h: Handle)
    requires Ring(next, prev, head, list) && h !in list
    ensures head in prev && prev[head] == NodeAt(head, list, |list|)
    ensures Ring(next[Entry(h) := head][prev[head] := Entry(h)], prev[Entry(h) := prev[head]][head := Entry(h)], head,
            list + [h])
  {
    var e, last, longer := Entry(h), NodeAt(head, list, |list|), list + [h];
    assert prev[NodeAt(head, list, |list| + 1)] == last;
    var next', prev' := next[e := head][last := e], prev[e := last][head := e];
    forall i | 0 <= i <= |longer| + 1
      ensures i <= |longer| ==> next'[NodeAt(head, longer, i)] == NodeAt(head, longer, i + 1)
      ensures i >= 1 ==> prev'[NodeAt(head, longer, i)] == NodeAt(head, longer, i - 1)
    {
      AppendedNode(next, prev, head, list, h, i);
    }
  }

  lemma AppendedNode(next: map<Node, Node>, prev: map<Node, Node>, head: Node, list: seq<Handle>, h: Handle, i: nat)
    requires Ring(next, prev, head, list) && h !in list && i <= |list| + 2
    ensures var e, last, longer := Entry(h), NodeAt(head, list, |list|), list + [h];
            var next', prev' := next[e := head][last := e], prev[e := last][head := e];
            && NodeAt(head, longer, i) in next' && NodeAt(head, longer, i) in prev'
            && (i <= |longer| ==> next'[NodeAt(head, longer, i)] == NodeAt(head, longer, i + 1))
            && (i >= 1 ==> prev'[NodeAt(head, longer, i)] == NodeAt(head, longer, i - 1))
  {
    var e, longer := Entry(h), list + [h];
    if i <= |list| {
      assert NodeAt(head, longer, i) == NodeAt(head, list, i);
      assert next[NodeAt(head, list, i)] == NodeAt(head, list, i + 1);
      if i < |list| {
        NodesDiffer(next, prev, head, list, i, |list|);
      }
      if i >= 1 {
        NodesDiffer(next, prev, head, list, i, |list| + 1);
        assert prev[NodeAt(head, list, i)] == NodeAt(head, list, i - 1);
      }
    } else {
    }
  }

  lemma WithoutMembers(list: seq<Handle>, k: nat)
    requires k < |list| && forall i, j | 0 <= i < j < |list| :: list[i] != list[j]
    ensures forall h :: h in Without(list, k) <==> h in list && h != list[k]
  {
    forall h | h in list && h != list[k]
      ensures h in Without(list, k)
    {
      var i :| 0 <= i < |list| && list[i] == h;
      assert h in if i < k then list[..k] else list[k+1..];
    }
  }
}
