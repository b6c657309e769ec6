/** The resorting loop of `nsvg__rasterizeSortedEdges`: passes over the active list that exchange
    neighbours by relinking, until a pass finds nothing to exchange. */
module Resort {
  import opened Seqs
  import opened ActiveEdges
  import opened Scan

  /** The data of every node, which resorting does not change. */
  type Data = map<ActiveEdge, Cell>

  ghost predicate Describes(data: Data, nodes: seq<ActiveEdge>) {
    forall z :: z in nodes ==> z in data
  }

  ghost function Row(data: Data, nodes: seq<ActiveEdge>): (cells: seq<Cell>)
    requires Describes(data, nodes)
    ensures |cells| == |nodes| && forall i :: 0 <= i < |nodes| ==> cells[i] == data[nodes[i]]
  {
    seq(|nodes|, i requires 0 <= i < |nodes| => data[nodes[i]])
  }

  lemma RowSwapped(data: Data, nodes: seq<ActiveEdge>, i: nat)
    requires i + 1 < |nodes| && Describes(data, nodes)
    ensures Describes(data, Swapped(nodes, i))
    ensures Row(data, Swapped(nodes, i)) == Swapped(Row(data, nodes), i)
  {
    hide Row;
    var t := Swapped(nodes, i);
    forall z | z in t ensures z in data {
      var k :| 0 <= k < |t| && t[k] == z;
    }
  }

  lemma SwappedPermutes<T>(s: seq<T>, i: nat)
    requires i + 1 < |s|
    ensures multiset(Swapped(s, i)) == multiset(s)
  {
    assert s == s[..i] + [s[i], s[i + 1]] + s[i + 2..];
    assert Swapped(s, i) == s[..i] + [s[i + 1], s[i]] + s[i + 2..];
  }

  /** Permuting the nodes permutes their data. */
  lemma {:induction false} RowPermutation(data: Data, a: seq<ActiveEdge>, b: seq<ActiveEdge>)
    requires multiset(a) == multiset(b) && Describes(data, a) && Describes(data, b)
    ensures multiset(Row(data, a)) == multiset(Row(data, b))
    decreases |a|
  {
    PermutationLength(a, b);
    if a != [] {
      var k := MatchLast(a, b);
      RowPermutation(data, a[..|a| - 1], b[..k] + b[k + 1..]);
      RowLast(data, a);
      RowRemove(data, b, k);
    }
  }

  lemma RowLast(data: Data, a: seq<ActiveEdge>)
    requires a != [] && Describes(data, a)
    ensures Row(data, a) == Row(data, a[..|a| - 1]) + [data[a[|a| - 1]]]
  {
  }

  lemma RowRemove(data: Data, b: seq<ActiveEdge>, k: nat)
    requires k < |b| && Describes(data, b)
    ensures Describes(data, b[..k] + b[k + 1..])
    ensures multiset(Row(data, b)) == multiset(Row(data, b[..k] + b[k + 1..]) + [data[b[k]]])
  {
    var r := Row(data, b);
    assert Row(data, b[..k] + b[k + 1..]) == r[..k] + r[k + 1..];
    assert r == r[..k] + [r[k]] + r[k + 1..];
  }

  ghost predicate NonDecreasing(cells: seq<Cell>, n: nat) {
    forall k :: 0 < k < n && k < |cells| ==> cells[k - 1].x <= cells[k].x
  }

  lemma {:induction false} NonDecreasingSorted(cells: seq<Cell>)
    requires NonDecreasing(cells, |cells|)
    ensures Sorted(cells)
  {
    forall i, j | 0 <= i < j < |cells| ensures cells[i].x <= cells[j].x {
      Chain(cells, i, j);
    }
  }

  lemma {:induction false} Chain(cells: seq<Cell>, i: nat, j: nat)
    requires NonDecreasing(cells, |cells|) && i < j < |cells|
    ensures cells[i].x <= cells[j].x
    decreases j
  {
    if i + 1 < j {
      Chain(cells, i, j - 1);
    }
    assert cells[j - 1].x <= cells[j].x;
  }

  /** What a pass has established before it looks at the `i`-th node. */
  ghost predicate PassState(data: Data, was: seq<ActiveEdge>, now: seq<ActiveEdge>, i: nat, changed: bool) {
    && Describes(data, was) && Describes(data, now) && multiset(now) == multiset(was)
    && (changed ==> Inversions(Row(data, now)) < Inversions(Row(data, was)))
    && (!changed ==> now == was && NonDecreasing(Row(data, now), i + 1))
  }

  lemma PassSwaps(data: Data, was: seq<ActiveEdge>, now: seq<ActiveEdge>, i: nat, changed: bool)
    requires PassState(data, was, now, i, changed) && i + 1 < |now|
    requires data[now[i]].x > data[now[i + 1]].x
    ensures PassState(data, was, Swapped(now, i), i + 1, true)
  {
    hide NonDecreasing, Swapped;
    RowSwapped(data, now, i);
    SwappedPermutes(now, i);
    InversionsSwapped(Row(data, now), i);
  }

  lemma PassMoves(data: Data, was: seq<ActiveEdge>, now: seq<ActiveEdge>, i: nat, changed: bool)
    requires PassState(data, was, now, i, changed) && i + 1 < |now|
    requires data[now[i]].x <= data[now[i + 1]].x
    ensures PassState(data, was, now, i + 1, changed)
  {
  }

  /** One pass. It either finds the list sorted and leaves it alone, or strictly reduces the inversions. */
  method Pass(list: EdgeList, ghost data: Data, ghost own: set<ActiveEdge>) returns (changed: bool)
    requires list.Valid() && Describes(data, list.nodes) && Within(list.nodes, own)
    requires forall z :: z in data ==> data[z].x == z.x
    modifies list, own`next
    ensures list.Valid() && Describes(data, list.nodes)
    ensures multiset(list.nodes) == multiset(old(list.nodes))
    ensures changed ==> Inversions(Row(data, list.nodes)) < Inversions(Row(data, old(list.nodes)))
    ensures !changed ==> list.nodes == old(list.nodes) && Sorted(Row(data, list.nodes))
  {
    hide Distinct, NonDecreasing, Swapped, PassState, Row, Describes, Linked, Within;
    ghost var was := list.nodes;
    changed := false;
    var prev: ActiveEdge? := null;
    ghost var i := 0;
    var cur := list.head;
    PassStarts(data, was);
    list.LinkAt(0);
    while cur != null && cur.next != null
      invariant list.Valid() && 0 <= i <= |list.nodes|
      invariant prev == NodeAt(list.nodes, i - 1) && cur == NodeAt(list.nodes, i)
      invariant PassState(data, was, list.nodes, i, changed)
      invariant Within(list.nodes, own)
      decreases |list.nodes| - i
    {
      PassDescribes(data, was, list.nodes, i, changed);
      list.LinkAt(i);
      if cur.x > cur.next.x {
        PassSwaps(data, was, list.nodes, i, changed);
        SwappedAt(list.nodes, i);
        Owned(list.nodes, own, i);
        list.SwapNext(prev, i);
        changed := true;
        list.LinkAt(if i == 0 then 0 else i - 1);
        cur := if prev == null then list.head else prev.next;
        list.LinkAt(i);
      } else {
        PassMoves(data, was, list.nodes, i, changed);
      }
      prev := cur;
      cur := cur.next;
      i := i + 1;
      PassDescribes(data, was, list.nodes, i, changed);
      SameOwner(was, list.nodes, own);
    }
    list.LinkAt(i);
    PassEnds(data, was, list.nodes, i, changed);
  }

  lemma PassStarts(data: Data, was: seq<ActiveEdge>)
    requires Describes(data, was)
    ensures PassState(data, was, was, 0, false)
  {
  }

  lemma PassDescribes(data: Data, was: seq<ActiveEdge>, now: seq<ActiveEdge>, i: nat, changed: bool)
    requires PassState(data, was, now, i, changed)
    ensures Describes(data, now) && multiset(now) == multiset(was)
  {
  }

  ghost predicate Within(nodes: seq<ActiveEdge>, own: set<ActiveEdge>) {
    forall z :: z in nodes ==> z in own
  }

  lemma Owned(nodes: seq<ActiveEdge>, own: set<ActiveEdge>, i: nat)
    requires Within(nodes, own) && i < |nodes|
    ensures Just(NodeAt(nodes, i - 1)) <= own && Just(NodeAt(nodes, i)) <= own && Just(NodeAt(nodes, i + 1)) <= own
    ensures nodes[i] in own
  {
  }

  lemma SameOwner(a: seq<ActiveEdge>, b: seq<ActiveEdge>, own: set<ActiveEdge>)
    requires multiset(a) == multiset(b) && Within(a, own)
    ensures Within(b, own)
  {
    forall z | z in b ensures z in own {
      assert z in multiset(b);
      assert z in multiset(a);
    }
  }

  lemma PassEnds(data: Data, was: seq<ActiveEdge>, now: seq<ActiveEdge>, i: nat, changed: bool)
    requires PassState(data, was, now, i, changed) && |now| <= i + 1
    ensures Describes(data, was) && Describes(data, now) && multiset(now) == multiset(was)
    ensures changed ==> Inversions(Row(data, now)) < Inversions(Row(data, was))
    ensures !changed ==> now == was && Sorted(Row(data, now))
  {
    if !changed {
      NonDecreasingSorted(Row(data, now));
    }
  }

  lemma RowIsCells(data: Data, nodes: seq<ActiveEdge>)
    requires Describes(data, nodes) && forall z :: z in data ==> data[z] == CellOf(z)
    ensures Row(data, nodes) == Cells(nodes)
  {
  }

  /** The whole resorting: it terminates and leaves a sorted permutation of the list. */
  method SortActive(list: EdgeList, ghost own: set<ActiveEdge>)
    requires list.Valid() && Within(list.nodes, own)
    modifies list, own`next
    ensures list.Valid() && Within(list.nodes, own)
    ensures multiset(list.nodes) == multiset(old(list.nodes))
    ensures multiset(Cells(list.nodes)) == multiset(old(Cells(list.nodes)))
    ensures Sorted(Cells(list.nodes))
  {
    hide Distinct, Linked, Sorted, Row, Within, Cells;
    ghost var was := list.nodes;
    ghost var data := map z | z in was :: CellOf(z);
    RowIsCells(data, was);
    var changed := true;
    while changed
      invariant list.Valid() && Describes(data, list.nodes) && Within(list.nodes, own)
      invariant multiset(list.nodes) == multiset(was)
      invariant !changed ==> Sorted(Row(data, list.nodes))
      decreases Inversions(Row(data, list.nodes)), changed
    {
      ghost var before := list.nodes;
      changed := Pass(list, data, own);
      SameOwner(before, list.nodes, own);
    }
    RowPermutation(data, was, list.nodes);
    RowIsCells(data, list.nodes);
  }
}
