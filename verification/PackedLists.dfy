/** Node lists as they are stored: identifiers of a fixed width, one after the other. */
module PackedLists {
  import opened Forest

  const NODE_LENGTH := 36

  ghost predicate FullWidth(nodes: seq<NodeId>) {
    forall i :: 0 <= i < |nodes| ==> |nodes[i].uuid| == NODE_LENGTH
  }

  function Pack(nodes: seq<NodeId>): string {
    if nodes == [] then "" else nodes[0].uuid + Pack(nodes[1..])
  }

  lemma {:induction false} PackedAt(nodes: seq<NodeId>, i: nat)
    requires FullWidth(nodes) && i < |nodes|
    ensures |Pack(nodes)| == NODE_LENGTH * |nodes|
    ensures Pack(nodes)[36 * i..36 * (i + 1)] == nodes[i].uuid
  {
    PackedLength(nodes);
    var first, tail := nodes[0].uuid, Pack(nodes[1..]);
    if i == 0 {
      assert (first + tail)[..NODE_LENGTH] == first;
    } else {
      PackedAt(nodes[1..], i - 1);
      var lo, hi := NODE_LENGTH * (i - 1), NODE_LENGTH * i;
      assert (first + tail)[NODE_LENGTH + lo..NODE_LENGTH + hi] == tail[lo..hi];
    }
  }

  lemma {:induction false} PackedLength(nodes: seq<NodeId>)
    requires FullWidth(nodes)
    ensures |Pack(nodes)| == NODE_LENGTH * |nodes|
  {
    if nodes != [] {
      PackedLength(nodes[1..]);
    }
  }

  /** Appending a node's bytes to a stored list appends the node. */
  lemma {:induction false} PackConcat(a: seq<NodeId>, b: seq<NodeId>)
    ensures Pack(a + b) == Pack(a) + Pack(b)
  {
    if a == [] {
      assert a + b == b;
    } else {
      assert (a + b)[1..] == a[1..] + b;
      PackConcat(a[1..], b);
    }
  }

  /** Stored bytes determine the list. */
  lemma {:induction false} PackInjective(a: seq<NodeId>, b: seq<NodeId>)
    requires FullWidth(a) && FullWidth(b) && Pack(a) == Pack(b)
    ensures a == b
  {
    PackedLength(a);
    PackedLength(b);
    if a != [] {
      PackedAt(a, 0);
      PackedAt(b, 0);
      assert Pack(a)[NODE_LENGTH..] == Pack(a[1..]) && Pack(b)[NODE_LENGTH..] == Pack(b[1..]);
      assert a[0] == NodeId(a[0].uuid) && b[0] == NodeId(b[0].uuid);
      PackInjective(a[1..], b[1..]);
      assert a == [a[0]] + a[1..] && b == [b[0]] + b[1..];
    }
  }

  lemma FirstSlot(nodes: seq<NodeId>)
    requires FullWidth(nodes) && nodes != []
    ensures |Pack(nodes)| >= NODE_LENGTH
    ensures Pack(nodes)[..NODE_LENGTH] == nodes[0].uuid && Pack(nodes)[NODE_LENGTH..] == Pack(nodes[1..])
  {
    var first, tail := nodes[0].uuid, Pack(nodes[1..]);
    assert |first| == NODE_LENGTH;
    assert (first + tail)[..NODE_LENGTH] == first && (first + tail)[NODE_LENGTH..] == tail;
  }

  lemma WithoutFirst(nodes: seq<NodeId>, node: NodeId)
    requires nodes != []
    ensures nodes[0] == node ==> Without(nodes, node) == Without(nodes[1..], node)
    ensures nodes[0] != node ==> Pack(Without(nodes, node)) == nodes[0].uuid + Pack(Without(nodes[1..], node))
  {
    var rest := Without(nodes[1..], node);
    if nodes[0] == node {
      assert [] + rest == rest;
    } else {
      assert ([nodes[0]] + rest)[1..] == rest;
    }
  }

  /** The unlinking loop on the stored bytes: it copies every slot but those holding `node`. */
  method RemoveNode(stored: string, node: string, ghost nodes: seq<NodeId>) returns (kept: string)
    requires FullWidth(nodes) && stored == Pack(nodes)
    ensures kept == Pack(Without(nodes, NodeId(node)))
  {
    kept := "";
    ghost var rest := nodes;
    ghost var all := Pack(Without(nodes, NodeId(node)));
    var i := 0;
    assert stored[0..] == stored;
    while i < |stored|
      invariant 0 <= i <= |stored| && stored[i..] == Pack(rest) && FullWidth(rest)
      invariant kept + Pack(Without(rest, NodeId(node))) == all
    {
      SlotTaken(stored, i, rest);
      NextSlot(rest, node, kept);
      var slot := stored[i..i + NODE_LENGTH];
      if slot != node {
        kept := kept + slot;
      }
      i := i + NODE_LENGTH;
      rest := rest[1..];
    }
    assert rest == [] by {
      PackedLength(rest);
    }
  }

  lemma SlotTaken(stored: string, i: nat, rest: seq<NodeId>)
    requires i < |stored| && stored[i..] == Pack(rest) && FullWidth(rest)
    ensures rest != [] && i + NODE_LENGTH <= |stored|
    ensures stored[i..i + NODE_LENGTH] == rest[0].uuid && stored[i + NODE_LENGTH..] == Pack(rest[1..])
  {
    FirstSlot(rest);
    var tail := stored[i..];
    assert stored[i..i + NODE_LENGTH] == tail[..NODE_LENGTH];
    assert stored[i + NODE_LENGTH..] == tail[NODE_LENGTH..];
  }

  lemma NextSlot(rest: seq<NodeId>, node: string, kept: string)
    requires rest != []
    ensures var slot := rest[0].uuid;
            kept + Pack(Without(rest, NodeId(node))) ==
            (if slot == node then kept else kept + slot) + Pack(Without(rest[1..], NodeId(node)))
  {
    var slot, after := rest[0].uuid, Pack(Without(rest[1..], NodeId(node)));
    assert rest[0] == NodeId(slot);
    WithoutFirst(rest, NodeId(node));
    assert (kept + slot) + after == kept + (slot + after);
  }
}
