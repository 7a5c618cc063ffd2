/** The bounded queue of requests: a singly linked list with head, tail and size, changed in place. */
module RequestQueue {
  import opened Protocol

  class Node {
    var value: int
    var arrivalTime: int
    var next: Node?

    constructor (value: int, arrivalTime: int)
      ensures this.value == value && this.arrivalTime == arrivalTime && next == null
    {
      this.value, this.arrivalTime, next := value, arrivalTime, null;
    }
  }

  function At(nodes: seq<Node>, i: int): Node? {
    if 0 <= i < |nodes| then nodes[i] else null
  }

  class Queue {
    var size: int
    const maxSize: int
    var head: Node?
    var tail: Node?
    ghost var nodes: seq<Node>
    ghost var cells: set<Node>

    ghost predicate Linked(i: int)
      requires 0 <= i < |nodes| && nodes[i] in cells
      reads this, cells
    {
      nodes[i].next == At(nodes, i + 1)
    }

    ghost predicate Valid()
      reads this, cells
    {
      && (forall i :: 0 <= i < |nodes| ==> nodes[i] in cells)
      && size == |nodes| && head == At(nodes, 0) && tail == At(nodes, |nodes| - 1)
      && (forall i :: 0 <= i < |nodes| ==> Linked(i))
      && (forall i, j :: 0 <= i < j < |nodes| ==> nodes[i] != nodes[j])
    }

    /** The values in line, oldest first. */
    ghost function Contents(): (s: seq<int>)
      requires Valid()
      reads this, cells
      ensures |s| == |nodes|
    {
      seq(|nodes|, i requires 0 <= i < |nodes| && nodes[i] in cells reads this, cells => nodes[i].value)
    }

    constructor (maxSize: int)
      ensures Valid() && Contents() == [] && this.maxSize == maxSize && cells == {}
    {
      size, head, tail, nodes, cells := 0, null, null, [], {};
      this.maxSize := maxSize;
    }

    predicate Full()
      reads this
    {
      size == maxSize
    }

    predicate Empty()
      reads this
    {
      size == 0
    }

    /** Appends a value; a full queue is left as it is, and says nothing. */
    method Enqueue(value: int, arrivalTime: int)
      requires Valid()
      modifies this, cells
      ensures Valid() && fresh(cells - old(cells))
      ensures Contents() == if |old(Contents())| == maxSize then old(Contents()) else old(Contents()) + [value]
    {
      if Full() {
        return;
      }
      var newNode := new Node(value, arrivalTime);
      if Empty() {
        head := newNode;
        tail := newNode;
      } else {
        assert Linked(|nodes| - 1);
        tail.next := newNode;
        tail := newNode;
      }
      nodes := nodes + [newNode];
      cells := cells + {newNode};
      size := size + 1;
      forall i | 0 <= i < |nodes|
        ensures Linked(i)
      {
        assert i < |nodes| - 1 ==> old(Linked(i));
      }
    }

    /** Removes and returns the oldest value, or returns -1. */
    method Dequeue() returns (value: int)
      requires Valid()
      modifies this, cells
      ensures Valid() && cells == old(cells)
      ensures old(Contents()) == [] ==> value == -1 && Contents() == []
      ensures old(Contents()) != [] ==> old(Contents()) == [value] + Contents()
    {
      if Empty() {
        return -1;
      }
      assert Linked(0);
      value := head.value;
      head := head.next;
      if head == null {
        tail := null;
      }
      size := size - 1;
      nodes := nodes[1..];
      forall i | 0 <= i < |nodes|
        ensures Linked(i)
      {
        assert old(Linked(i + 1));
      }
    }

    /** Removes and returns the value at an index; an index that is not below the bound of the queue is refused. */
    method DequeueByIndex(index: int) returns (value: int)
      requires Valid() && (0 <= index < maxSize && Contents() != [] ==> index < |Contents()|)
      modifies this, cells
      ensures Valid() && cells == old(cells)
      ensures old(Contents()) == [] || index < 0 || index >= maxSize ==> value == -1 && Contents() == old(Contents())
      ensures old(Contents()) != [] && 0 <= index < maxSize ==>
                value == old(Contents())[index] && Contents() == RemoveAt(old(Contents()), index)
    {
      if Empty() {
        return -1;
      }
      if index < 0 || index >= maxSize {
        return -1;
      }
      if index == 0 {
        value := Dequeue();
        return;
      }
      var nodeToDequeue, prevNode := head, head;
      for i := 0 to index
        invariant nodeToDequeue == nodes[i] && (i > 0 ==> prevNode == nodes[i - 1])
      {
        assert Linked(i);
        prevNode := nodeToDequeue;
        nodeToDequeue := nodeToDequeue.next;
      }
      Unlink(index, prevNode, nodeToDequeue);
      value := nodeToDequeue.value;
    }

    /** Takes a node out from behind its predecessor. */
    method Unlink(index: int, prevNode: Node, nodeToDequeue: Node)
      requires Valid() && 0 < index < |nodes| && prevNode == nodes[index - 1] && nodeToDequeue == nodes[index]
      modifies this`nodes, this`tail, this`size, prevNode`next
      ensures Valid() && nodes == RemoveAt(old(nodes), index)
    {
      assert Linked(index);
      prevNode.next := nodeToDequeue.next;
      if index == size - 1 {
        tail := prevNode;
      }
      size := size - 1;
      nodes := RemoveAt(nodes, index);
      forall i | 0 <= i < |nodes|
        ensures Linked(i)
      {
        assert old(Linked(if i < index then i else i + 1));
      }
    }

    /** The index of the first occurrence of a value; the size if there is none. */
    method QueueFindIndex(value: int) returns (index: int)
      requires Valid()
      ensures index == FindIndex(Contents(), value)
    {
      var itr := head;
      index := 0;
      while itr != null && itr.value != value
        invariant 0 <= index <= |nodes| && itr == At(nodes, index)
        invariant forall j :: 0 <= j < index ==> nodes[j].value != value
        decreases |nodes| - index
      {
        assert Linked(index);
        itr := itr.next;
        index := index + 1;
      }
      var k := FindIndex(Contents(), value);
      assert k < |nodes| ==> Contents()[k] == nodes[k].value;
      assert index < |nodes| ==> Contents()[index] == value;
    }
  }
}
