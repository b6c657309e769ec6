/** The singly linked lists of active edges, changed in place through the link that leads to a node: the
    first node's link is the list head, any other node's link is the `next` field of its predecessor. */
module ActiveEdges {

  /** `NSVGactiveEdge`: abscissa and slope in 22.10 fixed point, end height, direction, link. */
  class ActiveEdge {
    var x: int
    var dx: int
    var ey: real
    var dir: int
    var next: ActiveEdge?

    constructor ()
    {
    }
  }

  /** The data of a node. */
  datatype Cell = Cell(x: int, dx: int, ey: real, dir: int)

  ghost function CellOf(z: ActiveEdge): Cell
    reads z`x, z`dx, z`ey, z`dir
  {
    Cell(z.x, z.dx, z.ey, z.dir)
  }

  /** The data of a list of nodes, which relinking does not touch. */
  ghost function Cells(nodes: seq<ActiveEdge>): (cells: seq<Cell>)
    reads nodes`x, nodes`dx, nodes`ey, nodes`dir
    ensures |cells| == |nodes|
    ensures forall i :: 0 <= i < |nodes| ==> cells[i] == CellOf(nodes[i])
  {
    if nodes == [] then [] else Cells(nodes[..|nodes| - 1]) + [CellOf(nodes[|nodes| - 1])]
  }

  lemma {:induction false} CellsConcat(a: seq<ActiveEdge>, b: seq<ActiveEdge>)
    ensures Cells(a + b) == Cells(a) + Cells(b)
    decreases |b|
  {
    hide CellOf;
    if b == [] {
      assert a + b == a;
    } else {
      assert (a + b)[..|a + b| - 1] == a + b[..|b| - 1];
      CellsConcat(a, b[..|b| - 1]);
    }
  }

  lemma CellsOne(z: ActiveEdge)
    ensures Cells([z]) == [CellOf(z)]
  {
    assert [z][..0] == [];
  }

  lemma CellsSlices(nodes: seq<ActiveEdge>, i: nat)
    requires i <= |nodes|
    ensures Cells(nodes[..i]) == Cells(nodes)[..i] && Cells(nodes[i..]) == Cells(nodes)[i..]
  {
    assert nodes == nodes[..i] + nodes[i..];
    CellsConcat(nodes[..i], nodes[i..]);
  }

  ghost predicate Distinct(nodes: seq<ActiveEdge>) {
    forall i, j :: 0 <= i < j < |nodes| ==> nodes[i] != nodes[j]
  }

  ghost function NodeAt(nodes: seq<ActiveEdge>, i: int): ActiveEdge? {
    if 0 <= i < |nodes| then nodes[i] else null
  }

  ghost function Just(z: ActiveEdge?): set<ActiveEdge> {
    if z == null then {} else {z}
  }

  ghost predicate Linked(head: ActiveEdge?, nodes: seq<ActiveEdge>)
    reads nodes`next
  {
    && head == NodeAt(nodes, 0)
    && forall i :: 0 <= i < |nodes| ==> nodes[i].next == NodeAt(nodes, i + 1)
  }

  ghost function Without<T>(s: seq<T>, i: nat): seq<T>
    requires i < |s|
  {
    s[..i] + s[i + 1..]
  }

  ghost function With<T>(s: seq<T>, i: nat, z: T): seq<T>
    requires i <= |s|
  {
    s[..i] + [z] + s[i..]
  }

  lemma WithAt<T>(s: seq<T>, i: nat, z: T)
    requires i <= |s|
    ensures |With(s, i, z)| == |s| + 1
    ensures forall k :: 0 <= k <= |s| ==> With(s, i, z)[k] == if k < i then s[k] else if k == i then z else s[k - 1]
  {
  }

  lemma SwappedAt(s: seq<ActiveEdge>, i: nat)
    requires i + 1 < |s|
    ensures |Swapped(s, i)| == |s|
    ensures forall k :: 0 <= k < |s| ==>
              Swapped(s, i)[k] == if k == i then s[i + 1] else if k == i + 1 then s[i] else s[k]
  {
  }

  ghost function Swapped<T>(s: seq<T>, i: nat): seq<T>
    requires i + 1 < |s|
  {
    s[i := s[i + 1]][i + 1 := s[i]]
  }

  lemma OnlyAt(s: seq<ActiveEdge>, i: int, z: ActiveEdge?)
    requires Distinct(s) && z == NodeAt(s, i)
    ensures forall k :: 0 <= k < |s| && s[k] == z ==> k == i
  {
  }

  lemma DistinctWithout(s: seq<ActiveEdge>, i: nat)
    requires Distinct(s) && i < |s|
    ensures Distinct(Without(s, i))
  {
  }

  lemma DistinctSwapped(s: seq<ActiveEdge>, i: nat)
    requires Distinct(s) && i + 1 < |s|
    ensures Distinct(Swapped(s, i))
  {
  }

  lemma DistinctWith(s: seq<ActiveEdge>, i: nat, z: ActiveEdge)
    requires Distinct(s) && i <= |s| && z !in s
    ensures Distinct(With(s, i, z))
  {
  }

  class EdgeList {
    var head: ActiveEdge?
    ghost var nodes: seq<ActiveEdge>

    ghost predicate Valid()
      reads this, nodes`next
    {
      Distinct(nodes) && Linked(head, nodes)
    }

    constructor ()
      ensures Valid() && nodes == []
    {
      head, nodes := null, [];
    }

    method Clear()
      modifies this
      ensures Valid() && nodes == []
    {
      head, nodes := null, [];
    }

    /** What following a link leads to. */
    lemma LinkAt(i: nat)
      requires Valid()
      ensures head == NodeAt(nodes, 0)
      ensures i < |nodes| ==> nodes[i].next == NodeAt(nodes, i + 1)
    {
    }

    /** `*step = z->next`, where `prev` holds the link to the `i`-th node. */
    method Unlink(prev: ActiveEdge?, ghost i: nat) returns (z: ActiveEdge)
      requires Valid() && i < |nodes| && prev == NodeAt(nodes, i - 1)
      modifies this, Just(prev)`next
      ensures Valid() && z == old(nodes)[i] && nodes == Without(old(nodes), i)
    {
      hide Distinct;
      DistinctWithout(nodes, i);
      OnlyAt(nodes, i - 1, prev);
      assert (prev == null <==> i == 0) && (prev != null ==> prev == nodes[i - 1]);
      if prev == null {
        z := head;
        head := z.next;
      } else {
        z := prev.next;
        prev.next := z.next;
      }
      nodes := Without(nodes, i);
      forall k | 0 <= k < |nodes| ensures nodes[k].next == NodeAt(nodes, k + 1) {
        assert k < i ==> nodes[k] == old(nodes)[k];
        assert k >= i ==> nodes[k] == old(nodes)[k + 1];
      }
    }

    /** Exchanges the `i`-th node with its successor by relinking. */
    method SwapNext(prev: ActiveEdge?, ghost i: nat)
      requires Valid() && i + 1 < |nodes| && prev == NodeAt(nodes, i - 1)
      modifies this, Just(prev)`next, Just(NodeAt(nodes, i))`next, Just(NodeAt(nodes, i + 1))`next
      ensures Valid() && nodes == Swapped(old(nodes), i)
    {
      hide Distinct, Swapped;
      ghost var was := nodes;
      assert nodes[i].next == NodeAt(nodes, i + 1);
      DistinctSwapped(nodes, i);
      OnlyAt(nodes, i - 1, prev);
      OnlyAt(nodes, i, nodes[i]);
      OnlyAt(nodes, i + 1, nodes[i + 1]);
      var t := if prev == null then head else prev.next;
      var q := t.next;
      t.next := q.next;
      q.next := t;
      if prev == null {
        head := q;
      } else {
        prev.next := q;
      }
      nodes := Swapped(nodes, i);
      SwappedAt(was, i);
      assert head == NodeAt(nodes, 0);
      forall k | 0 <= k < |nodes| ensures nodes[k].next == NodeAt(nodes, k + 1) {}
    }

    /** Links `z` in at the front. */
    method LinkFirst(z: ActiveEdge)
      requires Valid() && z !in nodes
      modifies this, z`next
      ensures Valid() && nodes == [z] + old(nodes)
    {
      hide Distinct;
      DistinctWith(nodes, 0, z);
      z.next := head;
      head := z;
      assert With(nodes, 0, z) == [z] + nodes;
      nodes := [z] + nodes;
    }

    /** Links `z` in behind the `i`-th node `p`. */
    method LinkBehind(p: ActiveEdge, z: ActiveEdge, ghost i: nat)
      requires Valid() && i < |nodes| && p == nodes[i] && z !in nodes
      modifies this`nodes, p`next, z`next
      ensures Valid() && nodes == With(old(nodes), i + 1, z)
    {
      hide Distinct;
      DistinctWith(nodes, i + 1, z);
      OnlyAt(nodes, i, p);
      z.next := p.next;
      p.next := z;
      WithAt(nodes, i + 1, z);
      hide With;
      nodes := With(nodes, i + 1, z);
      forall k | 0 <= k < |nodes| ensures nodes[k].next == NodeAt(nodes, k + 1) {
        assert k <= i ==> nodes[k] == old(nodes)[k];
        assert k > i + 1 ==> nodes[k] == old(nodes)[k - 1];
      }
    }
  }
}
