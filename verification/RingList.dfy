/** The intrusive circular doubly linked list of 04-30_nwchecker_refactor/list.h, on the heap. */
module RingList {
  import opened Sequences

  // A link. The record that embeds it (container_of) is its entry; a list header's entry is unused.
  class ListHead<T> {
    var next: ListHead?<T>
    var prev: ListHead?<T>
    var entry: T

    constructor (entry: T)
      ensures this.entry == entry && next == null && prev == null
    {
      this.entry := entry;
      next, prev := null, null;
    }
  }

  // Once round the ring: the header, the nodes, the header again.
  ghost function Circle<T>(head: ListHead<T>, nodes: seq<ListHead<T>>): seq<ListHead<T>> {
    [head] + nodes + [head]
  }

  /** head is the header of a ring that holds exactly these nodes in this order:
      next and prev are mutually inverse all the way round. */
  ghost predicate Ring<T>(head: ListHead<T>, nodes: seq<ListHead<T>>)
    reads head, nodes
  {
    && Distinct(nodes) && head !in nodes
    && var c := Circle(head, nodes);
       && (forall i {:trigger c[i].next} :: 0 <= i < |c| - 1 ==> c[i].next == c[i + 1])
       && (forall i {:trigger c[i].prev} :: 1 <= i < |c| ==> c[i].prev == c[i - 1])
  }

  // What the links of the header and of the k-th node are.
  lemma HeadLinks<T>(head: ListHead<T>, nodes: seq<ListHead<T>>)
    requires Ring(head, nodes)
    ensures head.next == (if nodes == [] then head else nodes[0])
    ensures head.prev == (if nodes == [] then head else nodes[|nodes| - 1])
  {
    var c := Circle(head, nodes);
    assert c[0].next == c[1] && c[|nodes| + 1].prev == c[|nodes|];
  }

  lemma NodeLinks<T>(head: ListHead<T>, nodes: seq<ListHead<T>>, k: nat)
    requires Ring(head, nodes) && k < |nodes|
    ensures nodes[k].next == (if k + 1 == |nodes| then head else nodes[k + 1])
    ensures nodes[k].prev == (if k == 0 then head else nodes[k - 1])
  {
    var c := Circle(head, nodes);
    assert c[k + 1].next == c[k + 2] && c[k + 1].prev == c[k];
  }

  /** A ring holds one sequence only: the abstraction is a function of the heap. */
  lemma {:induction false} RingIsUnique<T>(head: ListHead<T>, a: seq<ListHead<T>>, b: seq<ListHead<T>>)
    requires Ring(head, a) && Ring(head, b)
    ensures a == b
  {
    var n := if |a| <= |b| then |a| else |b|;
    var ca, cb := Circle(head, a), Circle(head, b);
    var i := 0;
    while i < n + 1
      invariant i <= n + 1
      invariant forall j :: 0 <= j < i ==> ca[j] == cb[j]
    {
      if i > 0 {
        assert ca[i - 1].next == ca[i] && cb[i - 1].next == cb[i];
      }
      i := i + 1;
    }
    assert ca[n].next == ca[n + 1] && cb[n].next == cb[n + 1];
    assert forall j :: 0 <= j < n ==> a[j] == ca[j + 1] && b[j] == cb[j + 1];
    assert ca[n + 1] == cb[n + 1];
  }

  method InitListHead<T>(list: ListHead<T>)
    modifies list`next, list`prev
    ensures Ring(list, [])
  {
    list.next := list;
    list.prev := list;
  }

  // __list_add
  method Insert<T>(node: ListHead<T>, prev: ListHead<T>, next: ListHead<T>)
    modifies node`next, node`prev, prev`next, next`prev
    requires node != prev && node != next
    ensures next.prev == node && prev.next == node
    ensures node.next == next && node.prev == prev
  {
    next.prev := node;
    node.next := next;
    node.prev := prev;
    prev.next := node;
  }

  method ListAddTail<T>(node: ListHead<T>, head: ListHead<T>, ghost nodes: seq<ListHead<T>>)
    requires Ring(head, nodes) && node != head && node !in nodes && head.prev != null && head.next != null
    modifies node`next, node`prev, head`prev, head.prev`next
    ensures Ring(head, nodes + [node])
  {
    ghost var c := Circle(head, nodes);
    assert c[|nodes| + 1].prev == c[|nodes|];
    Insert(node, head.prev, head);
    assert Circle(head, nodes + [node]) == c[..|nodes| + 1] + [node, head];
  }

  method ListAdd<T>(node: ListHead<T>, head: ListHead<T>, ghost nodes: seq<ListHead<T>>)
    requires Ring(head, nodes) && node != head && node !in nodes && head.prev != null && head.next != null
    modifies node`next, node`prev, head`next, head.next`prev
    ensures Ring(head, [node] + nodes)
  {
    ghost var c := Circle(head, nodes);
    assert c[0].next == c[1];
    Insert(node, head, head.next);
    assert Circle(head, [node] + nodes) == [head, node] + c[1..];
  }

  // list_del, with __list_del in place: the neighbours are joined and the node's own links cleared.
  method ListDel<T>(node: ListHead<T>, ghost head: ListHead<T>, ghost nodes: seq<ListHead<T>>, ghost k: nat)
    requires Ring(head, nodes) && k < |nodes| && nodes[k] == node && node.next != null && node.prev != null
    modifies node`next, node`prev, node.next`prev, node.prev`next
    ensures Ring(head, Without(nodes, k))
    ensures node.next == null && node.prev == null
  {
    ghost var c := Circle(head, nodes);
    NodeLinks(head, nodes, k);
    assert c[k + 1] == node && node.next == c[k + 2] && node.prev == c[k];
    node.next.prev := node.prev;
    node.prev.next := node.next;
    node.next := null;
    node.prev := null;
    ghost var d := Circle(head, Without(nodes, k));
    assert d == c[..k + 1] + c[k + 2..];
    forall i | 0 <= i < |d| - 1
      ensures d[i].next == d[i + 1] && d[i + 1].prev == d[i]
    {
      ghost var j := if i <= k then i else i + 1;
      if i != k {
        assert c[j].next == c[j + 1] && c[j + 1].prev == c[j];
      }
    }
  }

  method ListEmpty<T>(head: ListHead<T>, ghost nodes: seq<ListHead<T>>) returns (empty: bool)
    requires Ring(head, nodes)
    ensures empty <==> nodes == []
  {
    ghost var c := Circle(head, nodes);
    assert c[0].next == c[1];
    empty := head.next == head;
  }

  // ---------- list_for_each_safe that deletes the current node on a condition ----------

  // What is left of the list once nodes[..i] are visited.
  ghost function Remaining<T>(nodes: seq<T>, doomed: T -> bool, i: nat): seq<T> {
    if i > |nodes| then [] else Except(nodes[..i], doomed) + nodes[i..]
  }

  lemma RemainingStep<T>(nodes: seq<T>, doomed: T -> bool, i: nat)
    requires i < |nodes|
    ensures var live, next := Remaining(nodes, doomed, i), Remaining(nodes, doomed, i + 1);
            var k := |Except(nodes[..i], doomed)|;
            && k < |live| && live[k] == nodes[i]
            && next == (if doomed(nodes[i]) then Without(live, k) else live)
            && (k + 1 == |live| <==> i + 1 == |nodes|)
            && (k + 1 < |live| ==> live[k + 1] == nodes[i + 1])
  {
    ExceptStep(nodes, doomed, i);
    assert nodes[i..] == [nodes[i]] + nodes[i + 1..];
    Middle(Except(nodes[..i], doomed), nodes[i], nodes[i + 1..]);
  }

  lemma Middle<T>(front: seq<T>, x: T, rest: seq<T>)
    ensures var s := front + ([x] + rest);
            && |s| == |front| + 1 + |rest| && s[|front|] == x && (rest != [] ==> s[|front| + 1] == rest[0])
            && Without(s, |front|) == front + rest && (front + []) + rest == front + rest && (front + [x]) + rest == s
  {
  }

  // A traversal that has visited nodes[..i]: the ring it leaves behind, and where it stands.
  ghost predicate Visiting<T>(head: ListHead<T>, nodes: seq<ListHead<T>>, doomed: ListHead<T> -> bool,
                              i: nat, pos: ListHead?<T>)
    reads head, Remaining(nodes, doomed, i)
  {
    && i <= |nodes|
    && Ring(head, Remaining(nodes, doomed, i))
    && head !in nodes
    && pos == if i < |nodes| then nodes[i] else head
  }

  lemma VisitingStarts<T>(head: ListHead<T>, nodes: seq<ListHead<T>>, doomed: ListHead<T> -> bool)
    requires Ring(head, nodes)
    ensures Visiting(head, nodes, doomed, 0, head.next)
  {
    HeadLinks(head, nodes);
    assert Remaining(nodes, doomed, 0) == nodes;
  }

  lemma VisitingEnds<T>(head: ListHead<T>, nodes: seq<ListHead<T>>, doomed: ListHead<T> -> bool, i: nat)
    requires Visiting(head, nodes, doomed, i, head)
    ensures nodes[..i] == nodes && Ring(head, Except(nodes, doomed))
  {
    assert i == |nodes|;
    assert nodes[..i] == nodes;
    assert Remaining(nodes, doomed, i) == Except(nodes, doomed);
  }

  /** The traversal visits every node of the original list once, in order, and leaves exactly the nodes
      that are not doomed, in order. */
  method DeleteWhere<T>(head: ListHead<T>, ghost nodes: seq<ListHead<T>>, doomed: ListHead<T> -> bool)
      returns (visited: seq<ListHead<T>>)
    requires Ring(head, nodes) && head.next != null
    modifies head`next, head`prev, nodes`next, nodes`prev
    ensures visited == nodes
    ensures Ring(head, Except(nodes, doomed))
  {
    visited := [];
    var pos := head.next;
    ghost var i := 0;
    VisitingStarts(head, nodes, doomed);
    while pos != head
      invariant Visiting(head, nodes, doomed, i, pos) && visited == nodes[..i]
      decreases |nodes| - i
    {
      pos, visited := VisitOne(head, nodes, doomed, i, pos, visited);
      i := i + 1;
    }
    VisitingEnds(head, nodes, doomed, i);
  }

  // One round of the traversal.
  method VisitOne<T>(head: ListHead<T>, ghost nodes: seq<ListHead<T>>, doomed: ListHead<T> -> bool, ghost i: nat,
                     pos: ListHead<T>, visited: seq<ListHead<T>>) returns (n: ListHead<T>, more: seq<ListHead<T>>)
    requires Visiting(head, nodes, doomed, i, pos) && pos != head && visited == nodes[..i]
    modifies head`next, head`prev, nodes`next, nodes`prev
    ensures Visiting(head, nodes, doomed, i + 1, n) && more == nodes[..i + 1]
  {
    more := visited + [pos];
    n := UnlinkIf(head, nodes, doomed, i, pos);
  }

  // The successor is saved before the node may be unlinked.
  method UnlinkIf<T>(head: ListHead<T>, ghost nodes: seq<ListHead<T>>, doomed: ListHead<T> -> bool, ghost i: nat,
                     pos: ListHead<T>) returns (n: ListHead<T>)
    requires Visiting(head, nodes, doomed, i, pos) && pos != head
    modifies head`next, head`prev, nodes`next, nodes`prev
    ensures Visiting(head, nodes, doomed, i + 1, n)
  {
    ghost var live, k := Remaining(nodes, doomed, i), |Except(nodes[..i], doomed)|;
    RemainingStep(nodes, doomed, i);
    NodeLinks(head, live, k);
    n := pos.next;
    if doomed(pos) {
      ExceptIsExact(nodes[..i], doomed);
      assert k > 0 ==> live[k - 1] == Except(nodes[..i], doomed)[k - 1];
      ListDel(pos, head, live, k);
    }
  }
}
