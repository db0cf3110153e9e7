/** src/thread_pool/queue.c: a first-in-first-out queue on a singly linked list. */
module Queues {
  import opened Options

  class Node<T> {
    var value: T
    var next: Node?<T>

    constructor (value: T)
      ensures this.value == value && next == null
    {
      this.value, next := value, null;
    }
  }

  class Queue<T> {
    var head: Node?<T>
    var tail: Node?<T>  // left dangling when the last node is popped
    var count: nat
    ghost var nodes: seq<Node<T>>

    static ghost function NodeAt(nodes: seq<Node<T>>, i: nat): Node?<T> {
      if i < |nodes| then nodes[i] else null
    }

    ghost predicate Valid()
      reads this, nodes
    {
      && count == |nodes|
      && (forall i, j :: 0 <= i < j < |nodes| ==> nodes[i] != nodes[j])
      && (forall i {:trigger nodes[i].next} :: 0 <= i < |nodes| ==> nodes[i].next == NodeAt(nodes, i + 1))
      && head == NodeAt(nodes, 0)
      && (nodes != [] ==> tail == nodes[|nodes| - 1])
    }

    ghost function Contents(): (s: seq<T>)
      reads this, nodes
      ensures |s| == |nodes|
    {
      seq(|nodes|, i requires 0 <= i < |nodes| reads this, nodes => nodes[i].value)
    }

    constructor ()
      ensures Valid() && Contents() == [] && nodes == []
    {
      head, tail, count, nodes := null, null, 0, [];
    }

    /** queue_push, with an allocation that succeeds. */
    method Push(elem: T)
      requires Valid()
      modifies this, nodes
      ensures Valid() && Contents() == old(Contents()) + [elem]
      ensures fresh(set n | n in nodes && n !in old(nodes))
    {
      var node := new Node(elem);
      if head == null {
        head := node;
      } else {
        tail.next := node;
      }
      tail := node;
      count := count + 1;
      nodes := nodes + [node];
    }

    /** queue_pop: NULL when the queue is empty. */
    method Pop() returns (elem: Option<T>)
      requires Valid()
      modifies this
      ensures Valid()
      ensures elem == None ==> old(Contents()) == [] && Contents() == []
      ensures elem.Some? ==> old(Contents()) == [elem.value] + Contents()
      ensures count == if elem == None then old(count) else old(count) - 1
      ensures nodes == if elem == None then old(nodes) else old(nodes)[1..]
    {
      if count == 0 {
        return None;
      }
      elem := Some(head.value);
      head := head.next;
      count := count - 1;
      nodes := nodes[1..];
      assert forall i :: 0 <= i < |nodes| ==> nodes[i] == old(nodes)[i + 1];
    }

    method Count() returns (n: nat)
      requires Valid()
      ensures n == |Contents()|
    {
      n := count;
    }

    /** The loops that empty a queue before it is freed: elements leave in the order they were pushed. */
    method PopAll() returns (elems: seq<T>)
      requires Valid()
      modifies this
      ensures Valid() && Contents() == [] && elems == old(Contents())
    {
      hide Queue.Valid;
      hide Queue.Contents;
      elems := [];
      var n := Count();
      while n > 0
        invariant Valid() && elems + Contents() == old(Contents()) && n == |Contents()|
        decreases n
      {
        ghost var rest := Contents();
        var elem := Pop();
        assert rest == [elem.value] + Contents();
        assert elems + rest == elems + [elem.value] + Contents();
        elems := elems + [elem.value];
        n := Count();
      }
    }
  }
}
