/** The doubly-linked lists of common/utlist.h: the first node's prev points at the last node, the last
    node's next is null. */
module UtList {

  class Node<T> {
    var prev: Node?<T>
    var next: Node?<T>
    const item: T

    constructor (item: T)
      ensures this.item == item
    {
      this.item := item;
      prev, next := null, null;
    }
  }

  ghost predicate Distinct<T>(ns: seq<Node<T>>) {
    forall i, j :: 0 <= i < j < |ns| ==> ns[i] != ns[j]
  }

  ghost function Items<T>(ns: seq<Node<T>>): (s: seq<T>)
    ensures |s| == |ns|
  {
    seq(|ns|, i requires 0 <= i < |ns| => ns[i].item)
  }

  lemma ItemsSnoc<T>(ns: seq<Node<T>>, n: Node<T>)
    ensures Items(ns + [n]) == Items(ns) + [n.item]
  {
  }

  lemma ItemsTail<T>(ns: seq<Node<T>>)
    requires ns != []
    ensures Items(ns)[0] == ns[0].item && Items(ns[1..]) == Items(ns)[1..]
  {
  }

  /** A list head. The nodes in order are a ghost. */
  class List<T> {
    var head: Node?<T>
    ghost var nodes: seq<Node<T>>

    ghost predicate Valid()
      reads this, nodes
    {
      && Distinct(nodes)
      && (nodes == [] <==> head == null)
      && (nodes != [] ==> head == nodes[0] && nodes[0].prev == nodes[|nodes| - 1] && nodes[|nodes| - 1].next == null)
      && (forall i {:trigger nodes[i].next} :: 0 <= i < |nodes| - 1 ==> nodes[i].next == nodes[i + 1])
      && (forall i {:trigger nodes[i].prev} :: 1 <= i < |nodes| ==> nodes[i].prev == nodes[i - 1])
    }

    constructor ()
      ensures Valid() && nodes == []
    {
      head, nodes := null, [];
    }

    /** The head is set to null: the list is empty, whatever its nodes were. */
    method Clear()
      modifies this
      ensures Valid() && nodes == []
    {
      head, nodes := null, [];
    }

    /** DL_APPEND. */
    method Append(add: Node<T>)
      requires Valid() && add !in nodes
      modifies this, nodes, add
      ensures Valid() && nodes == old(nodes) + [add]
    {
      if head != null {
        add.prev := head.prev;
        head.prev.next := add;
        head.prev := add;
        add.next := null;
      } else {
        head := add;
        head.prev := head;
        head.next := null;
      }
      nodes := nodes + [add];
    }

    /** DL_DELETE. The deleted node keeps its links. */
    method Delete(del: Node<T>, ghost k: nat)
      requires Valid() && k < |nodes| && nodes[k] == del
      modifies this, nodes
      ensures Valid() && nodes == old(nodes)[..k] + old(nodes)[k + 1..]
      ensures del.next == old(del.next)
    {
      assert k > 0 ==> nodes[k].prev == nodes[k - 1];
      assert k + 1 < |nodes| ==> nodes[k].next == nodes[k + 1] && nodes[k + 1].prev == nodes[k];
      if del.prev == del {
        head := null;
      } else if del == head {
        del.next.prev := del.prev;
        head := del.next;
      } else {
        del.prev.next := del.next;
        if del.next != null {
          del.next.prev := del.prev;
        } else {
          head.prev := del.prev;
        }
      }
      nodes := nodes[..k] + nodes[k + 1..];
    }
  }
}
