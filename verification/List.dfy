/** Circular doubly linked lists threaded through their elements. A list is a ring of nodes
    that starts with its head; the methods are proved against the sequence of the nodes in
    ring order. */
module List {

  class Node {
    var prev: Node?
    var next: Node?

    /** An empty list: the head alone. */
    constructor ()
      ensures Ring([this])
    {
      prev, next := this, this;
    }
  }

  function After(i: nat, n: nat): nat { if i + 1 < n then i + 1 else 0 }

  predicate Distinct(r: seq<Node>) { forall i, j :: 0 <= i < j < |r| ==> r[i] != r[j] }

  ghost predicate Linked(r: seq<Node>, i: nat)
    requires i < |r|
    reads r
  {
    r[i].next == r[After(i, |r|)] && r[After(i, |r|)].prev == r[i]
  }

  /** The nodes of `r` are linked in this order, and the last one back to the first. */
  ghost predicate Ring(r: seq<Node>)
    reads r
  {
    && r != [] && Distinct(r)
    && forall i :: 0 <= i < |r| ==> Linked(r, i)
  }

  /** Inserts `elem` just before `before`, which is node `j` of the ring (or its head, when
      `elem` goes to the end). */
  method Insert(before: Node, elem: Node, ghost r: seq<Node>, ghost j: nat)
    requires Ring(r) && 1 <= j <= |r| && before == r[if j < |r| then j else 0] && elem !in r
    modifies r, elem
    ensures Ring(r[..j] + [elem] + r[j..])
  {
    assert Linked(r, j - 1);
    elem.prev := before.prev;
    elem.next := before;
    before.prev.next := elem;
    before.prev := elem;
    ghost var s := r[..j] + [elem] + r[j..];
    forall i | 0 <= i < |s| ensures Linked(s, i) {
      if i < j - 1 {
        assert old(Linked(r, i));
      } else if i > j {
        assert old(Linked(r, i - 1));
      }
    }
  }

  method PushFront(list: Node, elem: Node, ghost r: seq<Node>)
    requires Ring(r) && list == r[0] && elem !in r
    modifies r, elem
    ensures Ring([list, elem] + r[1..])
  {
    assert Linked(r, 0);
    Insert(list.next, elem, r, 1);
    assert r[..1] + [elem] + r[1..] == [list, elem] + r[1..];
  }

  method PushBack(list: Node, elem: Node, ghost r: seq<Node>)
    requires Ring(r) && list == r[0] && elem !in r
    modifies r, elem
    ensures Ring(r + [elem])
  {
    Insert(list, elem, r, |r|);
    assert r[..|r|] + [elem] + r[|r|..] == r + [elem];
  }

  /** Removes node `j` of the ring and returns the node that followed it. */
  method Remove(elem: Node, ghost r: seq<Node>, ghost j: nat) returns (following: Node)
    requires Ring(r) && 1 <= j < |r| && elem == r[j]
    modifies r
    ensures Ring(r[..j] + r[j + 1..])
    ensures following == r[if j + 1 < |r| then j + 1 else 0]
  {
    assert Linked(r, j - 1) && Linked(r, j);
    elem.prev.next := elem.next;
    elem.next.prev := elem.prev;
    following := elem.next;
    ghost var s := r[..j] + r[j + 1..];
    forall i | 0 <= i < |s| ensures Linked(s, i) {
      if i < j - 1 {
        assert old(Linked(r, i));
      } else if i >= j {
        assert old(Linked(r, i + 1));
      }
    }
  }

  /** Takes the front element off a list that is not empty. */
  method PopFront(list: Node, ghost r: seq<Node>) returns (front: Node)
    requires Ring(r) && list == r[0] && |r| > 1
    modifies r
    ensures front == r[1] && Ring([list] + r[2..])
  {
    assert Linked(r, 0);
    front := list.next;
    var following := Remove(front, r, 1);
    assert r[..1] + r[2..] == [list] + r[2..];
  }

  predicate IsEmpty(list: Node)
    reads list
  {
    list.next == list
  }

  lemma EmptyMeans(list: Node, r: seq<Node>)
    requires Ring(r) && list == r[0]
    ensures IsEmpty(list) <==> r == [list]
  {
    assert Linked(r, 0);
  }

  /** The number of elements, found by walking round. */
  method Size(list: Node, ghost r: seq<Node>) returns (count: nat)
    requires Ring(r) && list == r[0]
    ensures count == |r| - 1
  {
    count := 0;
    assert Linked(r, 0);
    var e := list.next;
    while e != list
      invariant count < |r| && e == r[After(count, |r|)]
      decreases |r| - count
    {
      count := count + 1;
      assert Linked(r, count);
      e := e.next;
    }
  }
}
