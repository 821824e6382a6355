/**
 The intrusive doubly linked list of threads, with a bookend node at each end
 (kern/thread/threadlist.c). A thread is identified with its t_listnode; the
 list refines a sequence of threads.
 */
module Threadlist {

  class Node {
    var prev: Node?
    var next: Node?
    /** The thread this node belongs to; null in a bookend. */
    var self: Node?

    /** threadlistnode_init for a thread. */
    constructor Thread()
      ensures self == this && Detached()
    {
      prev, next := null, null;
      self := this;
    }

    constructor Bookend()
      ensures self == null && Detached()
    {
      prev, next, self := null, null, null;
    }

    ghost predicate Detached()
      reads this
    {
      prev == null && next == null
    }
  }

  class ThreadList {
    const head: Node
    const tail: Node
    var count: nat
    /** All nodes in order, bookends included. */
    ghost var nodes: seq<Node>

    ghost predicate Linked(i: int)
      reads this, nodes
      requires 0 <= i < |nodes| - 1
    {
      nodes[i].next == nodes[i + 1] && nodes[i + 1].prev == nodes[i]
    }

    ghost predicate Valid()
      reads this, nodes
    {
      && |nodes| == count + 2
      && nodes[0] == head && nodes[count + 1] == tail
      && (forall i, j :: 0 <= i < j < |nodes| ==> nodes[i] != nodes[j])
      && (forall i :: 0 <= i < |nodes| - 1 ==> Linked(i))
      && head.prev == null && tail.next == null
      && head.self == null && tail.self == null
      && (forall i :: 1 <= i <= count ==> nodes[i].self == nodes[i])
    }

    /** The threads on the list, in order. */
    ghost function Contents(): seq<Node>
      reads this, nodes
      requires Valid()
    {
      nodes[1..count + 1]
    }

    /** threadlist_init */
    constructor ()
      ensures Valid() && Contents() == []
      ensures fresh(nodes)
    {
      head := new Node.Bookend();
      tail := new Node.Bookend();
      count := 0;
      new;
      head.next := tail;
      tail.prev := head;
      nodes := [head, tail];
    }

    /** threadlist_isempty */
    method IsEmpty() returns (r: bool)
      requires Valid()
      ensures r <==> Contents() == []
    {
      r := count == 0;
    }

    /** Insertion between two linked nodes, as both insertion helpers do. */
    method Insert(before: Node, after: Node, t: Node, ghost i: nat)
      requires Valid() && i <= count && before == nodes[i] && after == nodes[i + 1]
      requires t !in nodes && t.Detached() && t.self == t
      modifies this, nodes, t
      ensures Valid() && count == old(count) + 1
      ensures nodes == old(nodes[..i + 1] + [t] + nodes[i + 1..])
    {
      ghost var s := nodes;
      assert Linked(i);
      t.prev := before;
      t.next := after;
      before.next := t;
      after.prev := t;
      count := count + 1;
      nodes := s[..i + 1] + [t] + s[i + 1..];
      forall k | 0 <= k < |nodes| - 1 ensures Linked(k) {
        if k < i {
          assert old(Linked(k));
        } else if k > i + 1 {
          assert old(Linked(k - 1));
        }
      }
    }

    /** threadlist_removenode, for the node at position i. */
    method Unlink(t: Node, ghost i: nat)
      requires Valid() && 1 <= i <= count && t == nodes[i]
      modifies this, nodes
      ensures Valid() && count == old(count) - 1 && t.Detached() && t.self == t
      ensures nodes == old(nodes[..i] + nodes[i + 1..])
    {
      ghost var s := nodes;
      assert Linked(i - 1) && Linked(i);
      t.prev.next := t.next;
      t.next.prev := t.prev;
      t.prev := null;
      t.next := null;
      count := count - 1;
      nodes := s[..i] + s[i + 1..];
      forall k | 0 <= k < |nodes| - 1 ensures Linked(k) {
        if k < i - 1 {
          assert old(Linked(k));
        } else if k >= i {
          assert old(Linked(k + 1));
        }
      }
    }

    method AddHead(t: Node)
      requires Valid() && t !in nodes && t.Detached() && t.self == t
      modifies this, nodes, t
      ensures Valid() && Contents() == [t] + old(Contents())
    {
      assert Linked(0);
      InsertedSlice(nodes, t, 0);
      Insert(head, head.next, t, 0);
    }

    method AddTail(t: Node)
      requires Valid() && t !in nodes && t.Detached() && t.self == t
      modifies this, nodes, t
      ensures Valid() && Contents() == old(Contents()) + [t]
    {
      assert Linked(count);
      InsertedSlice(nodes, t, count);
      Insert(tail.prev, tail, t, count);
    }

    /** threadlist_insertafter */
    method InsertAfter(onlist: Node, t: Node, ghost i: nat)
      requires Valid() && i < |Contents()| && onlist == Contents()[i]
      requires t !in nodes && t.Detached() && t.self == t
      modifies this, nodes, t
      ensures Valid() && Contents() == old(Contents()[..i + 1] + [t] + Contents()[i + 1..])
    {
      assert Linked(i + 1);
      InsertedSlice(nodes, t, i + 1);
      Insert(onlist, onlist.next, t, i + 1);
    }

    /** threadlist_insertbefore */
    method InsertBefore(t: Node, onlist: Node, ghost i: nat)
      requires Valid() && i < |Contents()| && onlist == Contents()[i]
      requires t !in nodes && t.Detached() && t.self == t
      modifies this, nodes, t
      ensures Valid() && Contents() == old(Contents()[..i] + [t] + Contents()[i..])
    {
      assert Linked(i);
      InsertedSlice(nodes, t, i);
      Insert(onlist.prev, onlist, t, i);
    }

    /** threadlist_remhead: null if the list is empty. */
    method RemHead() returns (r: Node?)
      requires Valid()
      modifies this, nodes
      ensures Valid()
      ensures old(Contents()) == [] ==> r == null && Contents() == []
      ensures old(Contents()) != [] ==> r == old(Contents()[0]) && Contents() == old(Contents()[1..])
      ensures r != null ==> r.Detached() && r.self == r
      ensures forall x :: x in nodes ==> x in old(nodes)
      ensures r != null ==> r !in nodes
    {
      assert Linked(0);
      var tln := head.next;
      if count > 0 { assert Linked(1); }
      if tln.next == null {
        return null;
      }
      RemovedSlice(nodes, 1);
      Unlink(tln, 1);
      r := tln.self;
    }

    /** threadlist_remtail: null if the list is empty. */
    method RemTail() returns (r: Node?)
      requires Valid()
      modifies this, nodes
      ensures Valid()
      ensures old(Contents()) == [] ==> r == null && Contents() == []
      ensures old(Contents()) != [] ==>
        r == old(Contents()[|Contents()| - 1]) && Contents() == old(Contents()[..|Contents()| - 1])
      ensures r != null ==> r.Detached() && r.self == r && r !in nodes
    {
      assert Linked(count);
      var tln := tail.prev;
      if count > 0 { assert Linked(count - 1); }
      if tln.prev == null {
        return null;
      }
      RemovedSlice(nodes, count);
      Unlink(tln, count);
      r := tln.self;
    }

    /** threadlist_remove: the thread is on this list. */
    method Remove(t: Node, ghost i: nat)
      requires Valid() && i < |Contents()| && t == Contents()[i]
      modifies this, nodes
      ensures Valid() && t.Detached()
      ensures Contents() == old(Contents()[..i] + Contents()[i + 1..])
    {
      RemovedSlice(nodes, i + 1);
      Unlink(t, i + 1);
    }
  }

  /** Between the bookends, an insertion after place j is one at position j. */
  lemma InsertedSlice<T>(s: seq<T>, t: T, j: nat)
    requires j + 2 <= |s|
    ensures (s[..j + 1] + [t] + s[j + 1..])[1..|s|] == s[1..|s| - 1][..j] + [t] + s[1..|s| - 1][j..]
  {
  }

  lemma RemovedSlice<T>(s: seq<T>, j: nat)
    requires 1 <= j && j + 2 <= |s|
    ensures (s[..j] + s[j + 1..])[1..|s| - 2] == s[1..|s| - 1][..j - 1] + s[1..|s| - 1][j..]
  {
  }
}
