/** hclient's device list, the links: a circular doubly linked list whose head is
    a node of its own. */
module LinkedList {
  import opened CaseFold

  /** What the client knows about a device: its path, its file handle, whether it
      is open, and the handle of its removal notification. */
  datatype Device = Device(path: Option<string>, handle: Option<int>, isOpen: bool, notification: int)

  const NULL_HANDLE := 0

  class Node {
    var Flink: Node
    var Blink: Node
    var device: Device

    /** A node that is linked to itself, as InitializeList leaves a list head. */
    constructor (device: Device)
      ensures Flink == this && Blink == this && this.device == device
    {
      Flink, Blink := this, this;
      this.device := device;
    }
  }

  /** The nodes in a circle: the head, nodes 1 to n, and the head again. */
  ghost function RingAt(head: Node, nodes: seq<Node>, i: nat): Node {
    if 0 < i <= |nodes| then nodes[i - 1] else head
  }

  ghost predicate Distinct(head: Node, nodes: seq<Node>) {
    head !in nodes && forall i, j | 0 <= i < j < |nodes| :: nodes[i] != nodes[j]
  }

  /** The links are exactly those of the circle, in both directions. */
  ghost predicate IsRing(head: Node, nodes: seq<Node>)
    reads head, nodes
  {
    && Distinct(head, nodes)
    && forall i | 0 <= i <= |nodes| ::
         RingAt(head, nodes, i).Flink == RingAt(head, nodes, i + 1)
         && RingAt(head, nodes, i + 1).Blink == RingAt(head, nodes, i)
  }

  ghost function Devices(nodes: seq<Node>): seq<Device>
    reads nodes
  {
    seq(|nodes|, i requires 0 <= i < |nodes| reads nodes => nodes[i].device)
  }

  /** Following the links forward and backward leads back. */
  lemma LinksAreInverse(head: Node, nodes: seq<Node>, node: Node)
    requires IsRing(head, nodes) && (node == head || node in nodes)
    ensures node.Flink.Blink == node && node.Blink.Flink == node
  {
    if node == head {
      Links(head, nodes, 0);
      Links(head, nodes, |nodes|);
    } else {
      var i :| 0 <= i < |nodes| && nodes[i] == node;
      Links(head, nodes, i);
      Links(head, nodes, i + 1);
    }
  }

  lemma Links(head: Node, nodes: seq<Node>, i: nat)
    requires IsRing(head, nodes) && i <= |nodes|
    ensures RingAt(head, nodes, i).Flink == RingAt(head, nodes, i + 1)
    ensures RingAt(head, nodes, i + 1).Blink == RingAt(head, nodes, i)
  {
  }

  /** The links never leave the circle. */
  lemma LinksStayInside(head: Node, nodes: seq<Node>, node: Node)
    requires IsRing(head, nodes) && (node == head || node in nodes)
    ensures node.Flink == head || node.Flink in nodes
    ensures node.Blink == head || node.Blink in nodes
  {
    if node == head {
      Links(head, nodes, 0);
      Links(head, nodes, |nodes|);
    } else {
      var i :| 0 <= i < |nodes| && nodes[i] == node;
      Links(head, nodes, i);
      Links(head, nodes, i + 1);
    }
  }

  method InitializeList(head: Node)
    modifies head`Flink, head`Blink
    ensures IsRing(head, [])
  {
    head.Flink, head.Blink := head, head;
  }

  method InsertHead(head: Node, node: Node, ghost nodes: seq<Node>)
    requires IsRing(head, nodes) && node != head && node !in nodes
    modifies head`Flink, head.Flink`Blink, node`Flink, node`Blink
    ensures IsRing(head, [node] + nodes)
  {
    assert RingAt(head, nodes, 0) == head && head.Flink == RingAt(head, nodes, 1);
    var first := head.Flink;
    node.Blink := head;
    node.Flink := first;
    first.Blink := node;
    head.Flink := node;
    ghost var longer := [node] + nodes;
    forall i | 0 <= i <= |longer|
      ensures RingAt(head, longer, i).Flink == RingAt(head, longer, i + 1)
              && RingAt(head, longer, i + 1).Blink == RingAt(head, longer, i)
    {
      if i > 1 {
        assert RingAt(head, longer, i) == RingAt(head, nodes, i - 1);
        assert RingAt(head, longer, i + 1) == RingAt(head, nodes, i);
      }
    }
  }

  method InsertTail(head: Node, node: Node, ghost nodes: seq<Node>)
    requires IsRing(head, nodes) && node != head && node !in nodes
    modifies head`Blink, head.Blink`Flink, node`Flink, node`Blink
    ensures IsRing(head, nodes + [node])
  {
    assert RingAt(head, nodes, |nodes| + 1) == head && head.Blink == RingAt(head, nodes, |nodes|);
    var last := head.Blink;
    node.Flink := head;
    node.Blink := last;
    last.Flink := node;
    head.Blink := node;
    ghost var longer := nodes + [node];
    forall i | 0 <= i <= |longer|
      ensures RingAt(head, longer, i).Flink == RingAt(head, longer, i + 1)
              && RingAt(head, longer, i + 1).Blink == RingAt(head, longer, i)
    {
      if i < |nodes| {
        assert RingAt(head, longer, i) == RingAt(head, nodes, i);
        assert RingAt(head, longer, i + 1) == RingAt(head, nodes, i + 1);
      }
    }
  }

  method RemoveNode(ghost head: Node, node: Node, ghost nodes: seq<Node>, ghost k: nat)
    requires IsRing(head, nodes) && k < |nodes| && node == nodes[k]
    modifies node.Blink`Flink, node.Flink`Blink
    ensures IsRing(head, nodes[..k] + nodes[k + 1..])
    ensures node.Flink == old(node.Flink)
  {
    assert RingAt(head, nodes, k + 1) == node;
    assert node.Blink == RingAt(head, nodes, k) && node.Flink == RingAt(head, nodes, k + 2);
    var next := node.Flink;
    var previous := node.Blink;
    previous.Flink := next;
    next.Blink := previous;
    ghost var shorter := nodes[..k] + nodes[k + 1..];
    forall i | 0 <= i <= |shorter|
      ensures RingAt(head, shorter, i).Flink == RingAt(head, shorter, i + 1)
              && RingAt(head, shorter, i + 1).Blink == RingAt(head, shorter, i)
    {
      if i < k {
        assert RingAt(head, shorter, i) == RingAt(head, nodes, i);
        assert RingAt(head, shorter, i + 1) == RingAt(head, nodes, i + 1);
      } else if i > k {
        assert RingAt(head, shorter, i) == RingAt(head, nodes, i + 1);
        assert RingAt(head, shorter, i + 1) == RingAt(head, nodes, i + 2);
      }
    }
  }

  method IsListEmpty(head: Node, ghost nodes: seq<Node>) returns (empty: bool)
    requires IsRing(head, nodes)
    ensures empty <==> nodes == []
  {
    Links(head, nodes, 0);
    empty := head.Flink == head;
  }

  method RemoveHead(head: Node, ghost nodes: seq<Node>) returns (node: Node)
    requires IsRing(head, nodes) && nodes != []
    modifies head.Flink.Flink`Blink, head`Flink
    ensures node == nodes[0] && IsRing(head, nodes[1..])
  {
    Links(head, nodes, 0);
    node := head.Flink;
    RemoveNode(head, node, nodes, 0);
    assert nodes[..0] + nodes[1..] == nodes[1..];
  }
}
