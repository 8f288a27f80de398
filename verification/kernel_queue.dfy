/** The intrusive queue: nodes linked both ways, updated in place, against the sequence they stand for. */
module KernelQueue {

  class Node {
    var next: Node?
    var prev: Node?
    var root: Queue?

    constructor ()
      ensures root == null
    {
      next, prev, root := null, null, null;
    }
  }

  /** Node `i` of the list knows its queue and its neighbours. */
  ghost predicate Linked(s: seq<Node>, i: int, q: Queue)
    requires 0 <= i < |s|
    reads s[i]
  {
    && s[i].root == q
    && s[i].prev == (if i == 0 then null else s[i - 1])
    && s[i].next == (if i + 1 == |s| then null else s[i + 1])
  }

  class Queue {
    var head: Node?
    var tail: Node?
    ghost var nodes: seq<Node>

    /** The links spell `nodes`, each once, and each knows its queue. */
    ghost predicate Valid()
      reads this, nodes
    {
      && head == (if nodes == [] then null else nodes[0])
      && tail == (if nodes == [] then null else nodes[|nodes| - 1])
      && (forall i, j | 0 <= i < j < |nodes| :: nodes[i] != nodes[j])
      && (forall i | 0 <= i < |nodes| :: Linked(nodes, i, this))
    }

    constructor ()
      ensures Valid() && nodes == []
    {
      head, tail, nodes := null, null, [];
    }

    /** Appending a node that is in no queue. */
    method Push(node: Node)
      requires Valid() && node.root == null
      modifies this, nodes, node
      ensures Valid() && nodes == old(nodes) + [node]
    {
      ghost var n, s := |nodes|, nodes;
      assert forall i | 0 <= i < n :: Linked(s, i, this) && s[i] != node;
      node.root, node.prev, node.next := this, tail, null;
      if tail != null { tail.next := node; } else { head := node; }
      tail := node;
      nodes := s + [node];
      forall i | 0 <= i < n + 1 ensures Linked(nodes, i, this) {
        if i < n { assert nodes[i] == s[i]; }
      }
    }

    /** Taking the first node, which is then in no queue. */
    method Pop() returns (node: Node?)
      requires Valid()
      modifies this, nodes
      ensures Valid()
      ensures old(nodes) == [] ==> node == null && nodes == []
      ensures old(nodes) != [] ==> node == old(nodes)[0] && nodes == old(nodes)[1..] && Unlinked(node)
    {
      node := head;
      if node == null { return; }
      ghost var n, s := |nodes|, nodes;
      assert forall i | 0 <= i < n :: Linked(s, i, this);
      assert Linked(s, 0, this) && (n > 1 ==> Linked(s, 1, this));
      head := node.next;
      if node.next != null { node.next.prev := null; } else { tail := null; }
      node.next, node.prev, node.root := null, null, null;
      nodes := s[1..];
      forall i | 0 <= i < n - 1 ensures Linked(nodes, i, this) {
        assert nodes[i] == s[i + 1] && s[i + 1] != s[0] && old(Linked(s, i + 1, this));
      }
    }
  }

  ghost predicate Unlinked(node: Node)
    reads node
  {
    node.root == null && node.prev == null && node.next == null
  }

  /** Unlinking a node from wherever it is in its queue. */
  method Remove(node: Node, ghost i: nat)
    requires node.root != null && node.root.Valid() && i < |node.root.nodes| && node.root.nodes[i] == node
    modifies node.root, node.root.nodes
    ensures var q := old(node.root);
            q.Valid() && q.nodes == old(q.nodes[..i] + q.nodes[i + 1..]) && Unlinked(node)
  {
    var queue := node.root;
    ghost var n, s := |queue.nodes|, queue.nodes;
    assert forall k | 0 <= k < n :: Linked(s, k, queue);
    assert Linked(s, i, queue) && (i > 0 ==> Linked(s, i - 1, queue)) && (i + 1 < n ==> Linked(s, i + 1, queue));
    if node.prev != null { node.prev.next := node.next; } else { queue.head := node.next; }
    if node.next != null { node.next.prev := node.prev; } else { queue.tail := node.prev; }
    node.next, node.prev, node.root := null, null, null;
    queue.nodes := s[..i] + s[i + 1..];
    forall k | 0 <= k < n - 1 ensures Linked(queue.nodes, k, queue) {
      var j := if k < i then k else k + 1;
      assert queue.nodes[k] == s[j] && s[j] != s[i] && old(Linked(s, j, queue));
    }
  }

  /** No node is in two queues. */
  lemma QueuesDisjoint(q: Queue, r: Queue)
    requires q.Valid() && r.Valid() && q != r
    ensures forall n | n in q.nodes :: n !in r.nodes
  {
    forall n | n in q.nodes ensures n !in r.nodes {
      var i :| 0 <= i < |q.nodes| && q.nodes[i] == n;
      assert Linked(q.nodes, i, q);
      forall j | 0 <= j < |r.nodes| ensures r.nodes[j] != n { assert Linked(r.nodes, j, r); }
    }
  }
}
