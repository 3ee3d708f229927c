/** The message queue of a11 server.c: a singly linked list with pointers to both ends. */
module MessageQueue {

  class Node<T> {
    const data: T
    var next: Node?<T>

    constructor (data: T)
      ensures this.data == data && next == null
    {
      this.data, next := data, null;
    }
  }

  class Queue<T> {
    var head: Node?<T>
    var tail: Node?<T>
    ghost var nodes: seq<Node<T>>

    /** The nodes form one chain from `head` to `tail`, none of them twice. */
    ghost predicate Valid()
      reads this, nodes
    {
      && (nodes == [] <==> head == null) && (nodes == [] <==> tail == null)
      && (nodes != [] ==> head == nodes[0] && tail == nodes[|nodes| - 1] && tail.next == null)
      && (forall k :: 0 <= k < |nodes| - 1 ==> nodes[k].next == nodes[k + 1])
      && (forall k, l :: 0 <= k < l < |nodes| ==> nodes[k] != nodes[l])
    }

    ghost function Contents(): (r: seq<T>)
      reads this
      ensures |r| == |nodes| && forall k :: 0 <= k < |r| ==> r[k] == nodes[k].data
    {
      DataOf(nodes)
    }

    constructor ()
      ensures Valid() && Contents() == [] && nodes == []
    {
      head, tail, nodes := null, null, [];
    }

    /** Lines 92 to 102 of server.c: the push of `queue_message`. */
    method Enqueue(message: T)
      requires Valid()
      modifies this, tail
      ensures Valid() && Contents() == old(Contents()) + [message]
      ensures |nodes| == |old(nodes)| + 1 && old(nodes) <= nodes && fresh(nodes[|nodes| - 1])
    {
      var node := new Node(message);
      if tail == null {
        head, tail := node, node;
      } else {
        tail.next := node;
        tail := node;
      }
      nodes := nodes + [node];
    }

    /** Lines 51 to 55 of server.c: the broadcaster takes the head. */
    method Dequeue() returns (message: T)
      requires Valid() && head != null
      modifies this
      ensures Valid() && old(Contents()) == [message] + Contents() && nodes == old(nodes)[1..]
    {
      message := head.data;
      assert head == nodes[0];
      assert |nodes| == 1 ==> tail == nodes[0];
      assert |nodes| > 1 ==> nodes[0].next == nodes[1];
      head := head.next;
      if head == null { tail := null; }
      nodes := nodes[1..];
    }
  }

  ghost function DataOf<T>(nodes: seq<Node<T>>): (r: seq<T>)
    ensures |r| == |nodes| && forall k :: 0 <= k < |r| ==> r[k] == nodes[k].data
  {
    if nodes == [] then [] else [nodes[0].data] + DataOf(nodes[1..])
  }
}
