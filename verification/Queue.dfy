// The intrusive FIFO of kernel/queue.h: the elements carry the links. The spin lock
// makes every operation one atomic step, so each is one method here.

module IntrusiveQueue {
  class Node {
    var next: Node?

    constructor ()
      ensures next == null
    {
      next := null;
    }
  }

  ghost function At(nodes: seq<Node>, k: nat): Node? {
    if k < |nodes| then nodes[k] else null
  }

  ghost predicate LinkOk(nodes: seq<Node>, k: nat)
    requires k < |nodes|
    reads nodes
  {
    nodes[k].next == At(nodes, k + 1)
  }

  // Following next from the first node visits exactly these nodes and ends at null.
  ghost predicate Chain(first: Node?, nodes: seq<Node>)
    reads nodes
  {
    first == At(nodes, 0) &&
    (forall i, j :: 0 <= i < j < |nodes| ==> nodes[i] != nodes[j]) &&
    (forall k {:trigger LinkOk(nodes, k)} :: 0 <= k < |nodes| ==> LinkOk(nodes, k))
  }

  class Queue {
    var first: Node?
    var last: Node?
    var count: nat
    ghost var nodes: seq<Node>

    ghost predicate Valid()
      reads this, nodes
    {
      Chain(first, nodes) && last == (if nodes == [] then null else nodes[|nodes| - 1]) && count == |nodes|
    }

    constructor ()
      ensures Valid() && nodes == []
    {
      first, last, count, nodes := null, null, 0, [];
    }

    // The element goes behind all others; it may carry any stale link.
    method Add(t: Node)
      requires Valid() && t !in nodes
      modifies this, nodes, t
      ensures Valid() && nodes == old(nodes) + [t]
    {
      ghost var ns := nodes;
      t.next := null;
      if first == null {
        first := t;
      } else {
        last.next := t;
      }
      last := t;
      count := count + 1;
      nodes := ns + [t];
      forall k {:trigger LinkOk(nodes, k)} | 0 <= k < |nodes| ensures LinkOk(nodes, k) {
        assert k < |ns| ==> old(LinkOk(ns, k)) && nodes[k] == ns[k];
      }
    }

    // The oldest element, or null exactly when there is none.
    method Remove() returns (it: Node?)
      requires Valid()
      modifies this
      ensures Valid()
      ensures it == null <==> old(nodes) == []
      ensures old(nodes) != [] ==> old(nodes) == [it] + nodes
      ensures old(nodes) == [] ==> nodes == []
    {
      it := first;
      if it == null {
        return;
      }
      ghost var ns := nodes;
      assert LinkOk(ns, 0);
      first := it.next;
      if first == null {
        last := null;
      }
      count := count - 1;
      nodes := ns[1..];
      forall k {:trigger LinkOk(nodes, k)} | 0 <= k < |nodes| ensures LinkOk(nodes, k) {
        assert old(LinkOk(ns, k + 1)) && nodes[k] == ns[k + 1];
      }
    }

    // All elements at once, still chained in their order.
    method RemoveAll() returns (it: Node?)
      requires Valid()
      modifies this
      ensures Valid() && nodes == [] && Chain(it, old(nodes))
    {
      it := first;
      first, last, count := null, null, 0;
      nodes := [];
    }
  }

  // What add and remove do to the contents.
  datatype Op = AddOp(t: Node) | RemoveOp

  ghost function Contents(ops: seq<Op>): seq<Node> {
    if ops == [] then []
    else
      var before := Contents(ops[..|ops| - 1]);
      match ops[|ops| - 1]
      case AddOp(t) => before + [t]
      case RemoveOp => if before == [] then [] else before[1..]
  }

  ghost function Added(ops: seq<Op>): seq<Node> {
    if ops == [] then []
    else Added(ops[..|ops| - 1]) + match ops[|ops| - 1] case AddOp(t) => [t] case RemoveOp => []
  }

  ghost function Removed(ops: seq<Op>): seq<Node> {
    if ops == [] then []
    else
      var before := ops[..|ops| - 1];
      Removed(before) + if ops[|ops| - 1].RemoveOp? && Contents(before) != [] then [Contents(before)[0]] else []
  }

  // First in, first out, over every history: what left, then what is there, is what came.
  lemma {:induction false} FirstInFirstOut(ops: seq<Op>)
    ensures Removed(ops) + Contents(ops) == Added(ops)
    decreases |ops|
  {
    if ops != [] {
      FirstInFirstOut(ops[..|ops| - 1]);
      var before := Contents(ops[..|ops| - 1]);
      if ops[|ops| - 1].RemoveOp? && before != [] {
        assert before == [before[0]] + before[1..];
      }
    }
  }
}
