/** The intrusive tail queue of src/ca_queue.h: a chain of next links and the address of the
    last of them. */
module TailQueue {

  class Node<T> {
    var next: Node?<T>
    var item: T

    constructor (item: T)
      ensures this.item == item && next == null
    {
      this.item, next := item, null;
    }
  }

  /** The address of a link: the first link of a queue, or the next link of a node. */
  datatype Link<!T> = FirstOf(q: Queue<T>) | NextOf(n: Node<T>)

  ghost predicate Distinct<A>(s: seq<A>) {
    forall i, j :: 0 <= i < j < |s| ==> s[i] != s[j]
  }

  ghost predicate Disjoint<A>(s: seq<A>, t: seq<A>) {
    forall i, j :: 0 <= i < |s| && 0 <= j < |t| ==> s[i] != t[j]
  }

  /** What the link of member i holds. */
  ghost function Successor<T>(nodes: seq<Node<T>>, i: nat): Node?<T>
    requires i < |nodes|
  {
    if i + 1 < |nodes| then nodes[i + 1] else null
  }

  /** The next links spell out the nodes in order. */
  ghost predicate Linked<T>(nodes: seq<Node<T>>)
    reads nodes
  {
    Distinct(nodes) && forall i :: 0 <= i < |nodes| ==> nodes[i].next == Successor(nodes, i)
  }

  lemma LinkedMembers<T>(nodes: seq<Node<T>>, k: nat)
    requires Linked(nodes) && k < |nodes|
    ensures Distinct(nodes) && nodes[k].next == Successor(nodes, k)
    ensures forall i :: 0 <= i < |nodes| && i != k ==> nodes[i] != nodes[k] && nodes[i].next == Successor(nodes, i)
  {
  }

  lemma HeadApart<A>(s: seq<A>)
    requires s != [] && Distinct(s)
    ensures s[0] !in s[1..]
  {
  }

  /** An element was linked in behind member k. */
  lemma LinkedInsert<T>(was: seq<Node<T>>, k: nat, elm: Node<T>, nodes: seq<Node<T>>)
    requires Distinct(was) && k < |was| && elm !in was && nodes == was[..k + 1] + [elm] + was[k + 1..]
    requires was[k].next == elm && elm.next == Successor(was, k)
    requires forall i :: 0 <= i < |was| && i != k ==> was[i].next == Successor(was, i)
    ensures Linked(nodes)
  {
    With(was, k + 1, elm, nodes);
    hide Distinct;
    forall i | 0 <= i < |nodes| ensures nodes[i].next == Successor(nodes, i) {
      if i < k {
        assert nodes[i] == was[i] && was[i].next == Successor(was, i);
      } else if i > k + 1 {
        assert nodes[i] == was[i - 1] && was[i - 1].next == Successor(was, i - 1);
      }
    }
  }

  /** The last member of one chain now leads to the first of another. */
  lemma LinkedConcat<T>(a: seq<Node<T>>, b: seq<Node<T>>, nodes: seq<Node<T>>)
    requires Distinct(a) && Linked(b) && Disjoint(a, b) && a != [] && b != [] && nodes == a + b
    requires forall i :: 0 <= i < |a| - 1 ==> a[i].next == Successor(a, i)
    requires a[|a| - 1].next == b[0]
    ensures Linked(nodes)
  {
    assert Distinct(nodes);
    hide Distinct, Disjoint;
    forall i | 0 <= i < |nodes| ensures nodes[i].next == Successor(nodes, i) {
      if i < |a| - 1 {
        assert nodes[i] == a[i] && nodes[i + 1] == a[i + 1] && a[i].next == Successor(a, i);
      } else if i == |a| - 1 {
        assert nodes[i] == a[i] && nodes[i + 1] == b[0];
      } else {
        var j := i - |a|;
        assert nodes[i] == b[j] && b[j].next == Successor(b, j);
        assert i + 1 < |nodes| ==> nodes[i + 1] == b[j + 1];
      }
    }
  }

  /** The member behind member k was linked out. */
  lemma LinkedRemove<T>(was: seq<Node<T>>, k: nat, nodes: seq<Node<T>>)
    requires Distinct(was) && k + 1 < |was| && nodes == was[..k + 1] + was[k + 2..]
    requires was[k].next == Successor(was, k + 1)
    requires forall i :: 0 <= i < |was| && i != k ==> was[i].next == Successor(was, i)
    ensures Linked(nodes)
  {
    Without(was, k + 1, nodes);
    hide Distinct;
    forall i | 0 <= i < |nodes| ensures nodes[i].next == Successor(nodes, i) {
      if i < k {
        assert nodes[i] == was[i] && was[i].next == Successor(was, i);
      } else if i > k {
        assert nodes[i] == was[i + 1] && was[i + 1].next == Successor(was, i + 1);
      }
    }
  }

  lemma Without<A>(s: seq<A>, k: nat, r: seq<A>)
    requires k < |s| && Distinct(s) && r == s[..k] + s[k + 1..]
    ensures |r| == |s| - 1 && Distinct(r)
    ensures forall i :: 0 <= i < |r| ==> r[i] == s[if i < k then i else i + 1]
  {
  }

  lemma With<A>(s: seq<A>, k: nat, x: A, r: seq<A>)
    requires k <= |s| && Distinct(s) && x !in s && r == s[..k] + [x] + s[k..]
    ensures |r| == |s| + 1 && Distinct(r)
    ensures forall i :: 0 <= i < |r| ==> r[i] == if i == k then x else s[if i < k then i else i - 1]
  {
  }

  /** The ends of a chain after an insertion behind member k. */
  lemma InsertedEnds<T>(was: seq<Node<T>>, k: nat, elm: Node<T>)
    requires k < |was|
    ensures var r := was[..k + 1] + [elm] + was[k + 1..];
            && r != [] && r[0] == was[0]
            && r[|r| - 1] == if Successor(was, k) == null then elm else was[|was| - 1]
  {
  }

  /** And after the removal of the member behind it. */
  lemma RemovedEnds<T>(was: seq<Node<T>>, k: nat)
    requires k + 1 < |was|
    ensures Successor(was, k) == was[k + 1]
    ensures var r := was[..k + 1] + was[k + 2..];
            && r != [] && r[0] == was[0]
            && r[|r| - 1] == if Successor(was, k + 1) == null then was[k] else was[|was| - 1]
  {
  }

  lemma Joined<A>(a: seq<A>, b: seq<A>)
    requires b != []
    ensures a == [] ==> a + b == b
    ensures a + b != [] && (a + b)[0] == (if a == [] then b[0] else a[0])
    ensures (a + b)[|a + b| - 1] == b[|b| - 1]
  {
  }

  /** Stores through the address of a link that is inside a node. */
  method LinkBehind<T>(n: Node<T>, v: Node<T>, ghost a: seq<Node<T>>, ghost b: seq<Node<T>>)
    requires Linked(a) && Linked(b) && Disjoint(a, b)
    requires a != [] && b != [] && n == a[|a| - 1] && v == b[0]
    modifies n`next
    ensures Linked(a + b)
  {
    LinkedMembers(a, |a| - 1);
    assert a[|a| - 1] !in b;
    hide Linked, Distinct, Disjoint, Successor;
    n.next := v;
    LinkedConcat(a, b, a + b);
  }

  class Queue<T> {
    var first: Node?<T>
    var last: Link<T>
    /** The members, in order. */
    ghost var nodes: seq<Node<T>>

    /** The links spell out the members, and last is the address of the final link. */
    ghost predicate Valid()
      reads this, nodes
    {
      && Linked(nodes)
      && first == (if nodes == [] then null else nodes[0])
      && last == if nodes == [] then FirstOf(this) else NextOf(nodes[|nodes| - 1])
    }

    /** STAILQ_INIT on a new head. */
    constructor ()
      ensures Valid() && nodes == []
    {
      first, last, nodes := null, FirstOf(this), [];
    }

    /** STAILQ_INIT: the members, if any, are let go. */
    method Init()
      modifies this
      ensures Valid() && nodes == []
    {
      first, last, nodes := null, FirstOf(this), [];
    }

    predicate Empty()
      requires Valid()
      reads this, nodes
      ensures Empty() <==> nodes == []
    {
      first == null
    }

    method InsertHead(elm: Node<T>)
      requires Valid() && elm !in nodes
      modifies this, elm`next
      ensures Valid() && nodes == [elm] + old(nodes)
    {
      elm.next := first;
      if elm.next == null {
        last := NextOf(elm);
      }
      first := elm;
      nodes := [elm] + nodes;
    }

    /** The two stores at the end of a queue, through the last address and to it: a chain of links that
        starts at v and ends at the link at l is put behind the members. */
    method Extend(v: Node<T>, l: Link<T>, ghost more: seq<Node<T>>)
      requires Valid() && more != [] && Linked(more) && Disjoint(nodes, more)
      requires v == more[0] && l == NextOf(more[|more| - 1])
      modifies this, nodes`next
      ensures Valid() && nodes == old(nodes) + more
    {
      hide Linked, Distinct, Disjoint;
      ghost var was := nodes;
      Joined(was, more);
      match last {
        case FirstOf(q) => q.first := v;
        case NextOf(n) => LinkBehind(n, v, was, more);
      }
      last := l;
      nodes := was + more;
    }

    method InsertTail(elm: Node<T>)
      requires Valid() && elm !in nodes
      modifies this, elm`next, nodes`next
      ensures Valid() && nodes == old(nodes) + [elm]
    {
      elm.next := null;
      Extend(elm, NextOf(elm), [elm]);
    }

    method InsertAfter(t: Node<T>, elm: Node<T>, ghost k: nat)
      requires Valid() && elm !in nodes && k < |nodes| && nodes[k] == t
      modifies this, t`next, elm`next
      ensures Valid() && nodes == old(nodes[..k + 1] + [elm] + nodes[k + 1..])
    {
      ghost var was := nodes;
      LinkedMembers(was, k);
      InsertedEnds(was, k, elm);
      hide Linked, Distinct, Successor;
      elm.next := t.next;
      if elm.next == null {
        last := NextOf(elm);
      }
      t.next := elm;
      nodes := nodes[..k + 1] + [elm] + nodes[k + 1..];
      LinkedInsert(was, k, elm, nodes);
    }

    method RemoveHead()
      requires Valid() && nodes != []
      modifies this
      ensures Valid() && nodes == old(nodes[1..])
    {
      first := first.next;
      if first == null {
        last := FirstOf(this);
      }
      nodes := nodes[1..];
    }

    method RemoveAfter(elm: Node<T>, ghost k: nat)
      requires Valid() && k + 1 < |nodes| && nodes[k] == elm
      modifies this, elm`next
      ensures Valid() && nodes == old(nodes[..k + 1] + nodes[k + 2..])
    {
      ghost var was := nodes;
      LinkedMembers(was, k);
      LinkedMembers(was, k + 1);
      RemovedEnds(was, k);
      hide Linked, Distinct, Successor;
      elm.next := elm.next.next;
      if elm.next == null {
        last := NextOf(elm);
      }
      nodes := nodes[..k + 1] + nodes[k + 2..];
      LinkedRemove(was, k, nodes);
    }

    method Remove(elm: Node<T>, ghost k: nat)
      requires Valid() && k < |nodes| && nodes[k] == elm
      modifies this, nodes`next
      ensures Valid() && nodes == old(nodes[..k] + nodes[k + 1..])
    {
      if first == elm {
        RemoveHead();
      } else {
        var curelm := first;
        ghost var j := 0;
        while curelm.next != elm
          invariant 0 <= j < k && curelm == nodes[j]
          decreases k - j
        {
          curelm := curelm.next;
          j := j + 1;
        }
        RemoveAfter(curelm, j);
      }
    }

    /** STAILQ_CONCAT: the members of other move to the end of this queue. */
    method Concat(other: Queue<T>)
      requires other != this && Valid() && other.Valid() && Disjoint(nodes, other.nodes)
      modifies this, other, nodes`next
      ensures Valid() && other.Valid()
      ensures nodes == old(nodes + other.nodes) && other.nodes == []
    {
      if !other.Empty() {
        Extend(other.first, other.last, other.nodes);
        other.Init();
      }
    }

    /** STAILQ_SWAP: between the two halves the last links of empty queues are stale. */
    method Swap(other: Queue<T>)
      requires other != this && Valid() && other.Valid()
      modifies this, other
      ensures Valid() && other.Valid()
      ensures nodes == old(other.nodes) && other.nodes == old(nodes)
    {
      hide Linked;
      var swapFirst, swapLast := first, last;
      first, last := other.first, other.last;
      other.first, other.last := swapFirst, swapLast;
      nodes, other.nodes := other.nodes, nodes;
      if first == null {
        last := FirstOf(this);
      }
      if other.first == null {
        other.last := FirstOf(other);
      }
    }

    /** STAILQ_LAST: the node whose link the last address is in. */
    method Last() returns (n: Node?<T>)
      requires Valid()
      ensures n == if nodes == [] then null else nodes[|nodes| - 1]
    {
      if Empty() {
        return null;
      }
      return last.n;
    }

    /** STAILQ_FOREACH visits every member once, in order. */
    method Walk() returns (visited: seq<Node<T>>)
      requires Valid()
      ensures visited == nodes
    {
      visited := [];
      var n := first;
      while n != null
        invariant |visited| <= |nodes| && visited == nodes[..|visited|]
        invariant n == if |visited| < |nodes| then nodes[|visited|] else null
        decreases |nodes| - |visited|
      {
        visited := visited + [n];
        n := n.next;
      }
    }
  }
}
