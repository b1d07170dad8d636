/**
 * The node collection logic of `add_node` and `delete_node`: the duplicate
 * (address, port) test against existing nodes and the removal of a node id.
 */
module NodeOps {
  import opened LbTypes

  /** An existing node and a requested one share address and port. */
  predicate SameEndpoint(existing: Node, requested: NodeSpec) {
    existing.address == requested.address && existing.port == requested.port
  }

  /** Some requested node collides with some existing node; pairs inside the batch are not compared. */
  predicate HasDuplicates(existing: seq<Node>, batch: seq<NodeSpec>) {
    exists i, j :: 0 <= i < |existing| && 0 <= j < |batch| && SameEndpoint(existing[i], batch[j])
  }

  /** The nested loops of `add_node` that look for a collision. */
  method FindDuplicate(existing: seq<Node>, batch: seq<NodeSpec>) returns (dup: bool)
    ensures dup <==> HasDuplicates(existing, batch)
  {
    var i := 0;
    while i < |existing|
      invariant 0 <= i <= |existing|
      invariant forall i', j :: 0 <= i' < i && 0 <= j < |batch| ==> !SameEndpoint(existing[i'], batch[j])
    {
      var j := 0;
      while j < |batch|
        invariant 0 <= j <= |batch|
        invariant forall j' :: 0 <= j' < j ==> !SameEndpoint(existing[i], batch[j'])
      {
        if existing[i].address == batch[j].address && existing[i].port == batch[j].port {
          return true;
        }
        j := j + 1;
      }
      i := i + 1;
    }
    return false;
  }

  /**
   * Requested nodes are compared only with existing ones, never with each
   * other: a batch that repeats its own endpoints collides exactly when the
   * batch alone does.
   */
  lemma BatchNotComparedWithItself(existing: seq<Node>, batch: seq<NodeSpec>)
    ensures HasDuplicates(existing, batch + batch) <==> HasDuplicates(existing, batch)
  {
    var doubled := batch + batch;
    if HasDuplicates(existing, doubled) {
      var i, j :| 0 <= i < |existing| && 0 <= j < |doubled| && SameEndpoint(existing[i], doubled[j]);
      var j' := if j < |batch| then j else j - |batch|;
      assert doubled[j] == batch[j'];
    }
    if HasDuplicates(existing, batch) {
      var i, j :| 0 <= i < |existing| && 0 <= j < |batch| && SameEndpoint(existing[i], batch[j]);
      assert doubled[j] == batch[j];
    }
  }

  /** `[x for x in nodes if not (node_id == x.get("id"))]`. */
  function WithoutNode(nodes: seq<Node>, nodeId: int): (kept: seq<Node>)
    ensures forall n :: n in kept <==> n in nodes && n.id != nodeId
    ensures (forall k :: 0 <= k < |nodes| ==> nodes[k].id != nodeId) ==> kept == nodes
    ensures |kept| <= |nodes|
    // every node whose id differs is kept as often as it occurs, every other node never
    ensures forall n :: multiset(kept)[n] == if n.id == nodeId then 0 else multiset(nodes)[n]
    decreases |nodes|
  {
    if nodes == [] then []
    else
      assert nodes == [nodes[0]] + nodes[1..];
      assert multiset(nodes) == multiset{nodes[0]} + multiset(nodes[1..]);
      var rest := WithoutNode(nodes[1..], nodeId);
      if nodes[0].id == nodeId then rest
      else
        assert multiset([nodes[0]] + rest) == multiset{nodes[0]} + multiset(rest);
        [nodes[0]] + rest
  }

  /** `a` is `b` with some elements dropped and the rest in their order. */
  predicate Subsequence<T(==)>(a: seq<T>, b: seq<T>)
    decreases |b|
  {
    if a == [] then true
    else if b == [] then false
    else if a[0] == b[0] then Subsequence(a[1..], b[1..])
    else Subsequence(a, b[1..])
  }

  /** Removing a node id keeps the other nodes, in their order. */
  lemma {:induction false} WithoutNodeKeepsOrder(nodes: seq<Node>, nodeId: int)
    ensures Subsequence(WithoutNode(nodes, nodeId), nodes)
    decreases |nodes|
  {
    if nodes != [] {
      var kept := WithoutNode(nodes, nodeId);
      WithoutNodeKeepsOrder(nodes[1..], nodeId);
      if nodes[0].id == nodeId {
        // every kept node differs from the dropped head, so the head is skipped
        assert kept != [] ==> kept[0] in kept && kept[0] != nodes[0];
      } else {
        assert kept[0] == nodes[0] && kept[1..] == WithoutNode(nodes[1..], nodeId);
      }
    }
  }
}
