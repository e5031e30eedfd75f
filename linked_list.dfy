/**
 * The generic singly linked list of the SpriteKit version (GLinkedList.swift):
 * head and tail pointers over nodes linked by `next`, appending at the tail,
 * clearing, walking the nodes, and an iterator that follows `next`.
 */
module LinkedList {
  import opened Wrappers

  /** `GListNode`: a value and a link to the next node. */
  class ListNode<T> {
    var value: T
    var next: ListNode?<T>

    /** `init(value:)`: a new node links to nothing. */
    constructor(value: T)
      ensures this.value == value && next == null
    {
      this.value := value;
      next := null;
    }
  }

  /** The nodes form one chain: each links to the following one, the last to nothing. */
  ghost predicate Chain<T>(nodes: seq<ListNode<T>>)
    reads set n | n in nodes
  {
    (forall i :: 0 <= i < |nodes| - 1 ==> nodes[i].next == nodes[i + 1]) &&
    (nodes != [] ==> nodes[|nodes| - 1].next == null) &&
    (forall i, j :: 0 <= i < j < |nodes| ==> nodes[i] != nodes[j])
  }

  /** `GLinkedList`: the list object with its `head` and `tail` pointers. */
  class GLinkedList<T> {
    var head: ListNode?<T>
    var tail: ListNode?<T>
    ghost var Nodes: seq<ListNode<T>>
    ghost var Repr: set<object>

    /** `head` is the first node, `tail` the last, and the nodes form one chain. */
    ghost predicate Valid()
      reads this, Repr
    {
      this in Repr &&
      (forall i :: 0 <= i < |Nodes| ==> Nodes[i] in Repr) &&
      (Nodes == [] ==> head == null && tail == null) &&
      (Nodes != [] ==> head == Nodes[0] && tail == Nodes[|Nodes| - 1]) &&
      Chain(Nodes)
    }

    /** The values met walking from `head` along `next`. */
    ghost function Contents(): seq<T>
      reads this, Nodes
    {
      seq(|Nodes|, i reads this, Nodes requires 0 <= i < |Nodes| => Nodes[i].value)
    }

    /** A new list is empty. */
    constructor()
      ensures Valid() && fresh(Repr)
      ensures Nodes == [] && head == null && tail == null
    {
      head := null;
      tail := null;
      Nodes := [];
      Repr := {this};
    }

    /**
     * `append(value:)`: link a new node after the tail, or make it the head
     * of an empty list; either way it becomes the tail. The existing nodes
     * keep their values.
     */
    method Append(value: T)
      requires Valid()
      modifies Repr
      ensures Valid() && fresh(Repr - old(Repr))
      ensures |Nodes| == |old(Nodes)| + 1 && Nodes[..|old(Nodes)|] == old(Nodes)
      ensures fresh(tail) && tail != null && tail.value == value && tail.next == null
      ensures old(Nodes) == [] ==> head == tail
      ensures forall i :: 0 <= i < |old(Nodes)| ==> Nodes[i].value == old(Nodes[i].value)
      ensures Contents() == old(Contents()) + [value]
    {
      var node := new ListNode(value);
      if tail != null {
        tail.next := node;
      } else {
        head := node;
      }
      tail := node;
      Nodes := Nodes + [node];
      Repr := Repr + {node};
    }

    /** `removeAll`: drop both pointers, leaving an empty list. */
    method RemoveAll()
      requires Valid()
      modifies this
      ensures Valid() && Repr == {this}
      ensures head == null && tail == null && Contents() == []
    {
      head := null;
      tail := null;
      Nodes := [];
      Repr := {this};
    }

    /**
     * `printList`: walk from `head` along `next` and emit each value. The
     * values are returned in order instead of printed.
     */
    method PrintList() returns (printed: seq<T>)
      requires Valid()
      ensures printed == Contents()
    {
      printed := [];
      var current := head;
      ghost var k := 0;
      while current != null
        invariant 0 <= k <= |Nodes|
        invariant current == if k < |Nodes| then Nodes[k] else null
        invariant printed == Contents()[..k]
        decreases |Nodes| - k
      {
        printed := printed + [current.value];
        current := current.next;
        k := k + 1;
      }
    }

    /** `makeIterator`: an iterator starting at `head`. */
    method MakeIterator() returns (it: GLinkedListIterator<T>)
      requires Valid()
      ensures fresh(it) && it.Valid() && it.Rest == Nodes
    {
      it := new GLinkedListIterator(head, Nodes);
    }
  }

  /** `GLinkedListIterator`: the node it will read next, if any. */
  class GLinkedListIterator<T> {
    var current: ListNode?<T>
    ghost var Rest: seq<ListNode<T>>

    /** `current` is the first of the nodes still to visit, which form a chain. */
    ghost predicate Valid()
      reads this, set n | n in Rest
    {
      Chain(Rest) && current == if Rest == [] then null else Rest[0]
    }

    /** The values still to come. */
    ghost function Remaining(): seq<T>
      reads this, set n | n in Rest
    {
      seq(|Rest|, i reads this, set n | n in Rest requires 0 <= i < |Rest| => Rest[i].value)
    }

    constructor(current: ListNode?<T>, ghost rest: seq<ListNode<T>>)
      requires Chain(rest) && current == if rest == [] then null else rest[0]
      ensures Valid() && Rest == rest && this.current == current
    {
      this.current := current;
      Rest := rest;
    }

    /**
     * `next()`: the current node's value, then move along `next`; past the
     * end it returns nil and stays there.
     */
    method Next() returns (r: Option<T>)
      requires Valid()
      modifies this
      ensures Valid()
      ensures old(Rest) == [] ==> r == None && Rest == [] && current == null
      ensures old(Rest) != [] ==> r == Some(old(Rest[0].value)) && Rest == old(Rest)[1..]
      ensures Remaining() == if old(Rest) == [] then [] else old(Remaining())[1..]
    {
      if current == null {
        r := None;
      } else {
        r := Some(current.value);
        current := current.next;
        Rest := Rest[1..];
      }
    }
  }
}
