/** The kernel's circular doubly-linked lists at heap level: kernel/include/list.h. */
module Lists {

  class ListHead {
    var next: ListHead?
    var prev: ListHead?

    constructor ()
    {
    }
  }

  predicate Linked(a: ListHead, b: ListHead)
    reads a, b
  {
    a.next == b && b.prev == a
  }

  /** The node after position `i`, going round. */
  function After(ring: seq<ListHead>, i: nat): ListHead
    requires i < |ring|
  {
    if i + 1 < |ring| then ring[i + 1] else ring[0]
  }

  function Before(ring: seq<ListHead>, i: nat): ListHead
    requires i < |ring|
  {
    if i > 0 then ring[i - 1] else ring[|ring| - 1]
  }

  /**
   The nodes form one ring in the given order, without repetition. By convention the first node is
   the head of the list and the others are its items.
   */
  ghost predicate Ring(ring: seq<ListHead>)
    reads set n | n in ring
  {
    && ring != []
    && (forall i, j :: 0 <= i < j < |ring| ==> ring[i] != ring[j])
    && (forall i :: 0 <= i < |ring| ==> Linked(ring[i], After(ring, i)))
  }

  function Rotated(ring: seq<ListHead>, k: nat): seq<ListHead>
    requires k <= |ring|
  {
    ring[k..] + ring[..k]
  }

  /** A ring may be read from any of its nodes. */
  lemma RotatedRing(ring: seq<ListHead>, k: nat)
    requires Ring(ring) && k <= |ring|
    ensures Ring(Rotated(ring, k))
  {
    var r := Rotated(ring, k);
    forall i | 0 <= i < |r|
      ensures Linked(r[i], After(r, i))
    {
      var j := if i < |ring| - k then i + k else i - (|ring| - k);
      assert r[i] == ring[j] && After(r, i) == After(ring, j);
    }
  }

  /** What comes before a node is linked to it. */
  lemma PrevIsBefore(ring: seq<ListHead>, i: nat)
    requires Ring(ring) && i < |ring|
    ensures ring[i].prev == Before(ring, i) && ring[i].next == After(ring, i)
  {
    var j := if i > 0 then i - 1 else |ring| - 1;
    assert Linked(ring[j], After(ring, j)) && Linked(ring[i], After(ring, i));
  }

  /** A node links one ring only: rings with different heads have no node in common. */
  lemma {:induction false} RingsApart(a: seq<ListHead>, b: seq<ListHead>, i: nat)
    requires Ring(a) && Ring(b) && a[0] !in b && i < |a|
    ensures a[i] !in b
  {
    if i > 0 {
      RingsApart(a, b, i - 1);
      PrevIsBefore(a, i);
      if j :| 0 <= j < |b| && b[j] == a[i] {
        PrevIsBefore(b, j);
      }
    }
  }

  /** ListHeadInit: an empty list. */
  method Init(head: ListHead)
    modifies head
    ensures Ring([head])
  {
    head.next := head;
    head.prev := head;
  }

  /** ListEmpty. */
  method IsEmpty(head: ListHead, ghost ring: seq<ListHead>) returns (r: bool)
    requires Ring(ring) && ring[0] == head
    ensures r <==> ring == [head]
  {
    PrevIsBefore(ring, 0);
    r := head.next == head;
  }

  /** Where a node put before position `i` goes; before the head means at the end of the list. */
  function InsertedBefore(ring: seq<ListHead>, i: nat, node: ListHead): seq<ListHead>
    requires i < |ring|
  {
    if i == 0 then ring + [node] else ring[..i] + [node] + ring[i..]
  }

  /** The ring closed over a node between its last and its first. */
  lemma Closed(ring: seq<ListHead>, node: ListHead)
    requires ring != [] && node !in ring
    requires forall i, j :: 0 <= i < j < |ring| ==> ring[i] != ring[j]
    requires forall i :: 0 <= i < |ring| - 1 ==> Linked(ring[i], ring[i + 1])
    requires Linked(ring[|ring| - 1], node) && Linked(node, ring[0])
    ensures Ring(ring + [node])
  {
    var r := ring + [node];
    forall i | 0 <= i < |r|
      ensures Linked(r[i], After(r, i))
    {
      assert i < |ring| - 1 ==> r[i] == ring[i] && After(r, i) == ring[i + 1];
    }
  }

  /** ListAddBefore the first node of a ring. */
  method AddBeforeFirst(newItem: ListHead, item: ListHead, ghost ring: seq<ListHead>)
    requires Ring(ring) && ring[0] == item && newItem !in ring
    modifies newItem, item, ring[|ring| - 1]
    ensures Ring(ring + [newItem])
  {
    PrevIsBefore(ring, 0);
    forall i | 0 <= i < |ring| - 1
      ensures Linked(ring[i], ring[i + 1])
    {
      assert After(ring, i) == ring[i + 1];
    }
    newItem.next := item;
    newItem.prev := item.prev;
    item.prev.next := newItem;
    item.prev := newItem;
    Closed(ring, newItem);
  }

  /** ListAddAfter the last node of a ring. */
  method AddAfterLast(newItem: ListHead, item: ListHead, ghost ring: seq<ListHead>)
    requires Ring(ring) && ring[|ring| - 1] == item && newItem !in ring
    modifies newItem, item, ring[0]
    ensures Ring(ring + [newItem])
  {
    PrevIsBefore(ring, |ring| - 1);
    forall i | 0 <= i < |ring| - 1
      ensures Linked(ring[i], ring[i + 1])
    {
      assert After(ring, i) == ring[i + 1];
    }
    newItem.prev := item;
    newItem.next := item.next;
    item.next.prev := newItem;
    item.next := newItem;
    Closed(ring, newItem);
  }

  /** Inserting before a node is closing the ring read from that node. */
  lemma InsertByRotation(ring: seq<ListHead>, i: nat, node: ListHead)
    requires i < |ring| && node !in ring
    ensures Rotated(ring, i)[0] == ring[i] && Rotated(ring, i)[|ring| - 1] == Before(ring, i)
    ensures node !in Rotated(ring, i)
    ensures i == 0 ==> Rotated(ring, i) + [node] == InsertedBefore(ring, i, node)
    ensures i > 0 ==> Rotated(Rotated(ring, i) + [node], |ring| - i) == InsertedBefore(ring, i, node)
  {
  }

  /** ListAddBefore. */
  method AddBefore(newItem: ListHead, item: ListHead, ghost ring: seq<ListHead>, ghost i: nat)
    requires Ring(ring) && i < |ring| && ring[i] == item && newItem !in ring
    modifies newItem, item, Before(ring, i)
    ensures Ring(InsertedBefore(ring, i, newItem))
  {
    RotatedRing(ring, i);
    InsertByRotation(ring, i, newItem);
    ghost var r := Rotated(ring, i);
    AddBeforeFirst(newItem, item, r);
    if i > 0 {
      RotatedRing(r + [newItem], |ring| - i);
      assert Ring(Rotated(r + [newItem], |ring| - i));
    } else {
      assert Ring(r + [newItem]);
    }
  }

  lemma InsertAfterByRotation(ring: seq<ListHead>, i: nat, node: ListHead)
    requires i < |ring|
    ensures Rotated(Rotated(ring, i + 1) + [node], |ring| - i - 1) == ring[..i + 1] + [node] + ring[i + 1..]
  {
  }

  /** ListAddAfter. */
  method AddAfter(newItem: ListHead, item: ListHead, ghost ring: seq<ListHead>, ghost i: nat)
    requires Ring(ring) && i < |ring| && ring[i] == item && newItem !in ring
    modifies newItem, item, After(ring, i)
    ensures Ring(ring[..i + 1] + [newItem] + ring[i + 1..])
  {
    RotatedRing(ring, i + 1);
    ghost var r := Rotated(ring, i + 1);
    AddAfterLast(newItem, item, r);
    RotatedRing(r + [newItem], |ring| - i - 1);
    InsertAfterByRotation(ring, i, newItem);
    assert Ring(Rotated(r + [newItem], |ring| - i - 1));
  }

  /** ListDelete: the item's own pointers stay as they were. */
  method Delete(item: ListHead, ghost ring: seq<ListHead>, ghost i: nat)
    requires Ring(ring) && 0 < i < |ring| && ring[i] == item
    modifies Before(ring, i)`next, After(ring, i)`prev
    ensures Ring(ring[..i] + ring[i + 1..])
    ensures item.next == old(item.next) && item.prev == old(item.prev)
  {
    PrevIsBefore(ring, i);
    ghost var r := ring[..i] + ring[i + 1..];
    forall j | 0 <= j < |ring|
      ensures Linked(ring[j], After(ring, j))
    {
    }
    item.prev.next := item.next;
    item.next.prev := item.prev;
    forall j | 0 <= j < |r|
      ensures Linked(r[j], After(r, j))
    {
      ghost var k := if j < i then j else j + 1;
      assert r[j] == ring[k];
      if j == i - 1 {
        assert After(r, j) == After(ring, i);
      } else {
        assert After(r, j) == After(ring, k);
      }
    }
  }

  /** ListDeleteInit. */
  method DeleteInit(item: ListHead, ghost ring: seq<ListHead>, ghost i: nat)
    requires Ring(ring) && 0 < i < |ring| && ring[i] == item
    modifies item, Before(ring, i)`next, After(ring, i)`prev
    ensures Ring(ring[..i] + ring[i + 1..]) && Ring([item])
  {
    Delete(item, ring, i);
    Init(item);
  }

  /** The ring once its first items have been unlinked. */
  function Left(ring: seq<ListHead>, visited: nat): seq<ListHead>
    requires visited < |ring|
  {
    [ring[0]] + ring[visited + 1..]
  }

  lemma LeftShrinks(ring: seq<ListHead>, visited: nat)
    requires visited + 1 < |ring|
    ensures Left(ring, visited)[..1] + Left(ring, visited)[2..] == Left(ring, visited + 1)
    ensures Left(ring, visited)[1] == ring[visited + 1]
    ensures Before(Left(ring, visited), 1) == ring[0]
    ensures After(Left(ring, visited), 1) == After(Left(ring, visited + 1), 0)
    ensures After(Left(ring, visited), 1) in ring
    ensures ring[1..visited + 1] + [ring[visited + 1]] == ring[1..visited + 2]
  {
    var left := Left(ring, visited);
    assert left[1] == ring[visited + 1];
    assert left[..1] == [ring[0]] && left[2..] == ring[visited + 2..];
    assert |left| > 2 ==> left[2] == ring[visited + 2];
  }

  /**
   A loop with the "safe" iterator that unlinks each item it visits: every item is visited once, in
   order, and the list ends up empty.
   */
  method DeleteEach(head: ListHead, ghost ring: seq<ListHead>) returns (visited: seq<ListHead>)
    requires Ring(ring) && ring[0] == head
    modifies set n | n in ring
    ensures visited == ring[1..] && Ring([head])
  {
    visited := [];
    PrevIsBefore(ring, 0);
    var item := head.next;
    assert Left(ring, 0) == ring;
    ghost var n := 0;
    while item != head
      invariant 0 <= n < |ring| && visited == ring[1..n + 1]
      invariant Ring(Left(ring, n)) && item == After(Left(ring, n), 0)
      decreases |ring| - n
    {
      AtHead(ring, n, head);
      LeftShrinks(ring, n);
      PrevIsBefore(Left(ring, n), 1);
      var next := item.next;
      visited := visited + [item];
      DeleteInit(item, Left(ring, n), 1);
      item := next;
      n := n + 1;
    }
    AtHead(ring, n, head);
  }

  /** Back at the head, everything has been visited. */
  lemma AtHead(ring: seq<ListHead>, n: nat, head: ListHead)
    requires n < |ring| && ring[0] == head
    requires forall i, j :: 0 <= i < j < |ring| ==> ring[i] != ring[j]
    ensures After(Left(ring, n), 0) == head <==> n + 1 == |ring|
    ensures n + 1 == |ring| ==> Left(ring, n) == [head]
  {
    assert n + 1 < |ring| ==> After(Left(ring, n), 0) == ring[n + 1];
  }
}
