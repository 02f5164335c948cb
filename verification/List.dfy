// The intrusive list of core/src/klist.c: nodes linked both ways around a permanent sentinel. Every
// operation refines one on the sequence of the linked nodes, and touches no other list.

module IntrusiveList {
  import opened Basics

  class Node {
    var nextPtr: Node?
    var prevPtr: Node?

    constructor ()
      ensures nextPtr == null && prevPtr == null
    {
      nextPtr, prevPtr := null, null;
    }
  }

  // The i-th stop around the list: the sentinel, the nodes in order, the sentinel again.
  function Stop(d: Node, ns: seq<Node>, i: nat): Node {
    if 1 <= i <= |ns| then ns[i - 1] else d
  }

  // Stop i leads to the next one, and back.
  ghost predicate Joined(d: Node, ns: seq<Node>, i: nat)
    reads Stop(d, ns, i), Stop(d, ns, i + 1)
  {
    Stop(d, ns, i).nextPtr == Stop(d, ns, i + 1) && Stop(d, ns, i + 1).prevPtr == Stop(d, ns, i)
  }

  ghost predicate Linked(d: Node, ns: seq<Node>)
    reads d, ns
  {
    forall i: nat :: i <= |ns| ==> Joined(d, ns, i)
  }

  // Every node sits where pos says, so no node occurs twice and none is the sentinel.
  ghost predicate Placed(d: Node, ns: seq<Node>, pos: map<Node, nat>) {
    d in pos && pos[d] == 0 && forall i :: 0 <= i < |ns| ==> ns[i] in pos && pos[ns[i]] == i + 1
  }

  ghost function With(ns: seq<Node>, k: nat, x: Node): (r: seq<Node>)
    requires k <= |ns|
    ensures |r| == |ns| + 1
  {
    ns[..k] + [x] + ns[k..]
  }

  ghost function Less(ns: seq<Node>, k: nat): (r: seq<Node>)
    requires k < |ns|
    ensures |r| == |ns| - 1
  {
    ns[..k] + ns[k + 1..]
  }

  lemma StopWith(d: Node, ns: seq<Node>, k: nat, x: Node, i: nat)
    requires k <= |ns|
    ensures Stop(d, With(ns, k, x), i) ==
      if i <= k then Stop(d, ns, i) else if i == k + 1 then x else Stop(d, ns, i - 1)
  {
  }

  lemma StopLess(d: Node, ns: seq<Node>, k: nat, i: nat)
    requires k < |ns|
    ensures Stop(d, Less(ns, k), i) == if i <= k then Stop(d, ns, i) else Stop(d, ns, i + 1)
  {
  }

  ghost function PosWith(pos: map<Node, nat>, k: nat, x: Node): map<Node, nat> {
    (map n | n in pos :: if pos[n] <= k then pos[n] else pos[n] + 1)[x := k + 1]
  }

  ghost function PosLess(pos: map<Node, nat>, k: nat): map<Node, nat> {
    map n | n in pos && pos[n] != k + 1 :: if pos[n] <= k then pos[n] else pos[n] - 1
  }

  lemma PlacedWith(d: Node, ns: seq<Node>, pos: map<Node, nat>, k: nat, x: Node)
    requires Placed(d, ns, pos) && k <= |ns| && x != d && x !in ns
    ensures Placed(d, With(ns, k, x), PosWith(pos, k, x))
  {
    var r := With(ns, k, x);
    forall i | 0 <= i < |r| ensures r[i] in PosWith(pos, k, x) && PosWith(pos, k, x)[r[i]] == i + 1 {
      if i != k { assert ns[if i < k then i else i - 1] in ns; }
    }
  }

  lemma PlacedLess(d: Node, ns: seq<Node>, pos: map<Node, nat>, k: nat)
    requires Placed(d, ns, pos) && k < |ns|
    ensures Placed(d, Less(ns, k), PosLess(pos, k)) && ns[k] !in Less(ns, k)
  {
    var r := Less(ns, k);
    forall i | 0 <= i < |r| ensures r[i] in PosLess(pos, k) && PosLess(pos, k)[r[i]] == i + 1 && r[i] != ns[k] {
      assert r[i] == ns[if i < k then i else i + 1];
    }
  }

  // Distinct stops are distinct nodes.
  lemma StopsDiffer(d: Node, ns: seq<Node>, pos: map<Node, nat>, i: nat, j: nat)
    requires Placed(d, ns, pos) && i != j && i <= |ns| + 1 && j <= |ns| + 1
    requires (i != 0 && j != 0) || (i != |ns| + 1 && j != |ns| + 1)
    ensures Stop(d, ns, i) != Stop(d, ns, j)
  {
  }

  // With x between stops k and k + 1 and everything else as it was, the longer list is linked.
  lemma LinkedWith(d: Node, ns: seq<Node>, k: nat, x: Node)
    requires k <= |ns| && forall i: nat :: i <= |ns| && i != k ==> Joined(d, ns, i)
    requires Stop(d, ns, k).nextPtr == x && x.nextPtr == Stop(d, ns, k + 1)
    requires Stop(d, ns, k + 1).prevPtr == x && x.prevPtr == Stop(d, ns, k)
    ensures Linked(d, With(ns, k, x))
  {
    forall i: nat | i <= |ns| + 1 ensures Joined(d, With(ns, k, x), i) {
      StopWith(d, ns, k, x, i);
      StopWith(d, ns, k, x, i + 1);
      if i != k && i != k + 1 { assert Joined(d, ns, if i < k then i else i - 1); }
    }
  }

  // With stop k + 1 bypassed and everything else as it was, the shorter list is linked.
  lemma LinkedLess(d: Node, ns: seq<Node>, k: nat)
    requires k < |ns| && forall i: nat :: i <= |ns| && i != k && i != k + 1 ==> Joined(d, ns, i)
    requires Stop(d, ns, k).nextPtr == Stop(d, ns, k + 2) && Stop(d, ns, k + 2).prevPtr == Stop(d, ns, k)
    ensures Linked(d, Less(ns, k))
  {
    forall i: nat | i <= |ns| - 1 ensures Joined(d, Less(ns, k), i) {
      StopLess(d, ns, k, i);
      StopLess(d, ns, k, i + 1);
      if i != k { assert Joined(d, ns, if i < k then i else i + 1); }
    }
  }

  class List {
    const dummy: Node
    var size: nat
    ghost var nodes: seq<Node>
    ghost var pos: map<Node, nat>

    // kListInit
    constructor ()
      ensures Valid() && nodes == [] && fresh(dummy)
    {
      dummy := new Node();
      size, nodes := 0, [];
      new;
      dummy.nextPtr, dummy.prevPtr := dummy, dummy;
      pos := map[dummy := 0];
    }

    ghost predicate Valid()
      reads this, dummy, nodes
    {
      size == |nodes| && Placed(dummy, nodes, pos) && Linked(dummy, nodes)
    }

    // Two lists with no node in common.
    ghost predicate Apart(other: List)
      reads this, other
    {
      this != other && dummy != other.dummy && dummy !in other.nodes && other.dummy !in nodes
      && forall n <- nodes :: n !in other.nodes
    }

    // The four writes of kListInsertAfter.
    method Splice(refNode: Node, newNode: Node, ghost k: nat)
      requires Valid() && newNode != dummy && newNode !in nodes && k <= |nodes| && Stop(dummy, nodes, k) == refNode
      modifies dummy, nodes, newNode
      ensures forall i: nat :: i <= |nodes| && i != k ==> Joined(dummy, nodes, i)
      ensures refNode.nextPtr == newNode && newNode.nextPtr == Stop(dummy, nodes, k + 1)
      ensures Stop(dummy, nodes, k + 1).prevPtr == newNode && newNode.prevPtr == refNode
    {
      assert Joined(dummy, nodes, k);
      newNode.nextPtr := refNode.nextPtr;
      refNode.nextPtr.prevPtr := newNode;
      newNode.prevPtr := refNode;
      refNode.nextPtr := newNode;
      forall i: nat | i <= |nodes| && i != k ensures Joined(dummy, nodes, i) {
        assert old(Joined(dummy, nodes, i));
        StopsDiffer(dummy, nodes, pos, i, k);
        StopsDiffer(dummy, nodes, pos, i + 1, k + 1);
      }
    }

    // KLISTNODEDEL
    method Bypass(remNode: Node, ghost k: nat)
      requires Valid() && k < |nodes| && nodes[k] == remNode
      modifies dummy, nodes
      ensures forall i: nat :: i <= |nodes| && i != k && i != k + 1 ==> Joined(dummy, nodes, i)
      ensures Stop(dummy, nodes, k).nextPtr == Stop(dummy, nodes, k + 2)
      ensures Stop(dummy, nodes, k + 2).prevPtr == Stop(dummy, nodes, k)
      ensures remNode.nextPtr == null && remNode.prevPtr == null
    {
      assert Joined(dummy, nodes, k) && Joined(dummy, nodes, k + 1) && remNode == Stop(dummy, nodes, k + 1);
      StopsDiffer(dummy, nodes, pos, k, k + 1);
      StopsDiffer(dummy, nodes, pos, k + 1, k + 2);
      remNode.nextPtr.prevPtr := remNode.prevPtr;
      remNode.prevPtr.nextPtr := remNode.nextPtr;
      remNode.prevPtr := null;
      remNode.nextPtr := null;
      forall i: nat | i <= |nodes| && i != k && i != k + 1 ensures Joined(dummy, nodes, i) {
        assert old(Joined(dummy, nodes, i));
        StopsDiffer(dummy, nodes, pos, i, k);
        StopsDiffer(dummy, nodes, pos, i, k + 1);
        StopsDiffer(dummy, nodes, pos, i + 1, k + 1);
        StopsDiffer(dummy, nodes, pos, i + 1, k + 2);
      }
    }

    // kListInsertAfter: the new node goes behind the k-th stop.
    method InsertAfter(refNode: Node, newNode: Node, ghost k: nat)
      requires Valid() && newNode != dummy && newNode !in nodes && k <= |nodes| && Stop(dummy, nodes, k) == refNode
      modifies this, dummy, nodes, newNode
      ensures Valid() && nodes == old(nodes)[..k] + [newNode] + old(nodes)[k..]
    {
      Splice(refNode, newNode, k);
      LinkedWith(dummy, nodes, k, newNode);
      PlacedWith(dummy, nodes, pos, k, newNode);
      size := size + 1;
      nodes, pos := With(nodes, k, newNode), PosWith(pos, k, newNode);
    }

    // kListRemove: the k-th node leaves, unlinked; false is RK_ERR_LIST_EMPTY.
    method Remove(remNode: Node, ghost k: nat) returns (ok: bool)
      requires Valid() && (nodes != [] ==> k < |nodes| && nodes[k] == remNode)
      modifies this, dummy, nodes
      ensures Valid() && (ok <==> old(nodes) != [])
      ensures ok ==> nodes == old(nodes)[..k] + old(nodes)[k + 1..]
      ensures ok ==> remNode.nextPtr == null && remNode.prevPtr == null && remNode !in nodes
      ensures !ok ==> unchanged(this) && unchanged(dummy)
    {
      if size == 0 { return false; }
      Bypass(remNode, k);
      LinkedLess(dummy, nodes, k);
      PlacedLess(dummy, nodes, pos, k);
      size := size - 1;
      nodes, pos := Less(nodes, k), PosLess(pos, k);
      ok := true;
    }

    // kListAddTail
    method AddTail(newNode: Node)
      requires Valid() && newNode != dummy && newNode !in nodes
      modifies this, dummy, nodes, newNode
      ensures Valid() && nodes == old(nodes) + [newNode]
    {
      assert Joined(dummy, nodes, |nodes|);
      InsertAfter(dummy.prevPtr, newNode, |nodes|);
    }

    // kListAddHead
    method AddHead(newNode: Node)
      requires Valid() && newNode != dummy && newNode !in nodes
      modifies this, dummy, nodes, newNode
      ensures Valid() && nodes == [newNode] + old(nodes)
    {
      InsertAfter(dummy, newNode, 0);
    }

    // kListRemoveHead; null is RK_ERR_LIST_EMPTY.
    method RemoveHead() returns (head: Node?)
      requires Valid()
      modifies this, dummy, nodes
      ensures Valid() && (head == null <==> old(nodes) == [])
      ensures head == null ==> nodes == []
      ensures head != null ==> old(nodes) == [head] + nodes && head.nextPtr == null && head.prevPtr == null
    {
      if size == 0 { return null; }
      assert Joined(dummy, nodes, 0);
      head := dummy.nextPtr;
      var _ := Remove(head, 0);
    }

    // kListRemoveTail
    method RemoveTail() returns (tail: Node?)
      requires Valid()
      modifies this, dummy, nodes
      ensures Valid() && (tail == null <==> old(nodes) == [])
      ensures tail == null ==> nodes == []
      ensures tail != null ==> old(nodes) == nodes + [tail] && tail.nextPtr == null && tail.prevPtr == null
    {
      if size == 0 { return null; }
      assert Joined(dummy, nodes, |nodes|);
      tail := dummy.prevPtr;
      var _ := Remove(tail, |nodes| - 1);
    }
  }

  // Following next visits exactly the nodes, in order, and following prev visits them backwards.
  lemma WalksAreInverse(l: List, i: nat)
    requires l.Valid() && i < |l.nodes|
    ensures l.nodes[i].nextPtr == (if i + 1 < |l.nodes| then l.nodes[i + 1] else l.dummy)
    ensures l.nodes[i].prevPtr == (if i > 0 then l.nodes[i - 1] else l.dummy)
    ensures l.dummy.nextPtr == l.nodes[0] && l.dummy.prevPtr == l.nodes[|l.nodes| - 1]
    ensures l.size == |set n | n in l.nodes|
  {
    assert Joined(l.dummy, l.nodes, 0) && Joined(l.dummy, l.nodes, |l.nodes|);
    assert Joined(l.dummy, l.nodes, i) && Joined(l.dummy, l.nodes, i + 1);
    forall a, b | 0 <= a < b < |l.nodes| ensures l.nodes[a] != l.nodes[b] {
      assert l.pos[l.nodes[a]] == a + 1 && l.pos[l.nodes[b]] == b + 1;
    }
    CardinalityOfDistinct(l.nodes);
  }

  // An operation on one list leaves a list apart from it exactly as it was.
  method RemoveHeadBeside(l: List, other: List) returns (head: Node?)
    requires l.Valid() && other.Valid() && l.Apart(other)
    modifies l, l.dummy, l.nodes
    ensures l.Valid() && other.Valid() && other.nodes == old(other.nodes) && l.Apart(other)
    ensures head == null <==> old(l.nodes) == []
    ensures head != null ==> old(l.nodes) == [head] + l.nodes
  {
    ghost var mine, theirs := l.nodes, other.nodes;
    head := l.RemoveHead();
    if head == null { return; }
    assert forall n <- l.nodes :: n in mine;
    forall i: nat | i <= |theirs| ensures Joined(other.dummy, theirs, i) {
      assert old(Joined(other.dummy, theirs, i));
      assert Stop(other.dummy, theirs, i) !in mine && Stop(other.dummy, theirs, i + 1) !in mine;
    }
  }

  method AddTailBeside(l: List, n: Node, other: List)
    requires l.Valid() && other.Valid() && l.Apart(other) && n != l.dummy && n !in l.nodes
    requires n != other.dummy && n !in other.nodes
    modifies l, l.dummy, l.nodes, n
    ensures l.Valid() && other.Valid() && other.nodes == old(other.nodes) && l.Apart(other)
    ensures l.nodes == old(l.nodes) + [n]
  {
    ghost var mine, theirs := l.nodes, other.nodes;
    l.AddTail(n);
    forall i: nat | i <= |theirs| ensures Joined(other.dummy, theirs, i) {
      assert old(Joined(other.dummy, theirs, i));
      assert Stop(other.dummy, theirs, i) !in mine && Stop(other.dummy, theirs, i + 1) !in mine;
    }
  }
}
