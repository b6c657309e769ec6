/** The active list, the free list and the memory behind them: `nsvg__addActive`, `nsvg__freeActive` and the
    list updates of `nsvg__rasterizeSortedEdges` on one sub-scanline. */
module Sweep {
  import opened Edges
  import opened MemPool
  import opened ActiveEdges
  import opened Scan
  import opened Resort

  /** `sizeof(NSVGactiveEdge)` with 4-byte ints and floats and 8-byte pointers. */
  const EDGE_SIZE := 24

  /** Every node ever made is in exactly one place: active, free, or in hand. */
  ghost predicate Conserved(a: seq<ActiveEdge>, f: seq<ActiveEdge>, hand: seq<ActiveEdge>, made: seq<ActiveEdge>) {
    Distinct(made) && multiset(a) + multiset(f) + multiset(hand) == multiset(made)
  }

  lemma {:induction false} AtMostOnce(made: seq<ActiveEdge>, z: ActiveEdge)
    requires Distinct(made)
    ensures multiset(made)[z] <= 1
  {
    if made != [] {
      var front, last := made[..|made| - 1], made[|made| - 1];
      assert made == front + [last];
      AtMostOnce(front, z);
      if z == last {
        assert forall i :: 0 <= i < |front| ==> front[i] != last;
        assert z !in front;
      }
    }
  }

  lemma InOnePlace(a: seq<ActiveEdge>, f: seq<ActiveEdge>, hand: seq<ActiveEdge>, made: seq<ActiveEdge>, z: ActiveEdge)
    requires Conserved(a, f, hand, made)
    ensures multiset(a)[z] + multiset(f)[z] + multiset(hand)[z] == multiset(made)[z] <= 1
  {
    AtMostOnce(made, z);
    var m := multiset(a) + multiset(f) + multiset(hand);
    assert m[z] == multiset(a)[z] + multiset(f)[z] + multiset(hand)[z];
  }

  lemma AllMade(a: seq<ActiveEdge>, f: seq<ActiveEdge>, hand: seq<ActiveEdge>, made: seq<ActiveEdge>)
    requires Conserved(a, f, hand, made)
    ensures forall z :: z in a || z in f || z in hand <==> z in made
  {
    forall z ensures z in a || z in f || z in hand <==> z in made {
      assert z in made <==> z in multiset(made);
      assert z in a <==> z in multiset(a);
      assert z in f <==> z in multiset(f);
      assert z in hand <==> z in multiset(hand);
    }
  }

  lemma InHand(a: seq<ActiveEdge>, f: seq<ActiveEdge>, z: ActiveEdge, made: seq<ActiveEdge>)
    requires Conserved(a, f, [z], made)
    ensures z !in a && z !in f && z in made
  {
    InOnePlace(a, f, [z], made, z);
    assert multiset([z])[z] == 1;
    AllMade(a, f, [z], made);
  }

  lemma MoveFreeToHand(a: seq<ActiveEdge>, f: seq<ActiveEdge>, made: seq<ActiveEdge>)
    requires f != [] && Conserved(a, f, [], made)
    ensures Conserved(a, Without(f, 0), [f[0]], made)
  {
    assert f == [f[0]] + Without(f, 0);
  }

  lemma MoveHandToFree(a: seq<ActiveEdge>, f: seq<ActiveEdge>, z: ActiveEdge, made: seq<ActiveEdge>)
    requires Conserved(a, f, [z], made)
    ensures Conserved(a, [z] + f, [], made)
  {
  }

  lemma MakeInHand(a: seq<ActiveEdge>, f: seq<ActiveEdge>, z: ActiveEdge, made: seq<ActiveEdge>)
    requires Conserved(a, f, [], made) && z !in made
    ensures Conserved(a, f, [z], made + [z])
  {
    assert Distinct(made + [z]);
  }

  lemma MoveActiveToHand(a: seq<ActiveEdge>, i: nat, f: seq<ActiveEdge>, made: seq<ActiveEdge>)
    requires i < |a| && Conserved(a, f, [], made)
    ensures Conserved(Without(a, i), f, [a[i]], made)
  {
    assert a == a[..i] + [a[i]] + a[i + 1..];
  }

  lemma MoveHandToActive(a: seq<ActiveEdge>, i: nat, z: ActiveEdge, f: seq<ActiveEdge>, made: seq<ActiveEdge>)
    requires i <= |a| && Conserved(a, f, [z], made)
    ensures Conserved(With(a, i, z), f, [], made)
  {
    assert a == a[..i] + a[i..];
  }

  lemma ActiveNotFree(a: seq<ActiveEdge>, f: seq<ActiveEdge>, hand: seq<ActiveEdge>, made: seq<ActiveEdge>)
    requires Conserved(a, f, hand, made)
    ensures forall z :: z in a ==> z !in f
  {
    forall z | z in a ensures z !in f {
      InOnePlace(a, f, hand, made, z);
      assert z in multiset(a);
    }
  }

  /** The data of `nsvg__addActive`: the slope is rounded towards zero, the abscissa down. */
  method SetNode(z: ActiveEdge, e: Edge, y: real)
    requires e.WellFormed()
    modifies z`x, z`dx, z`ey, z`dir
    ensures CellOf(z) == Cell(FixedX(e, y), FixedSlope(e), e.y1, e.dir)
  {
    hide Slope;
    var dxdy := Slope(e);
    if dxdy < 0.0 {
      z.dx := -(FIX as real * -dxdy).Floor;
    } else {
      z.dx := (FIX as real * dxdy).Floor;
    }
    z.x := (FIX as real * (e.x0 + dxdy * (y - e.y0))).Floor;
    z.ey := e.y1;
    z.dir := e.dir;
  }

  lemma NothingMade(own: set<ActiveEdge>)
    ensures Conserved([], [], [], []) && Within([], own)
  {
  }

  lemma MoveWithin(a: seq<ActiveEdge>, a': seq<ActiveEdge>, f: seq<ActiveEdge>, made: seq<ActiveEdge>)
    requires Conserved(a, f, [], made) && multiset(a') == multiset(a)
    ensures Conserved(a', f, [], made)
  {
  }

  class SweepState {
    const pool: Pool
    const active: EdgeList
    const freelist: EdgeList
    ghost var made: seq<ActiveEdge>     // all nodes made since the last reset
    ghost var own: set<ActiveEdge>      // contains them all

    /** Each node made has its own block of the pool. */
    ghost predicate Memory()
      reads this, pool, pool.space
    {
      pool.Valid() && |pool.given| == |made| && forall b :: b in pool.given ==> b.size == EDGE_SIZE
    }

    /** Both lists are sound, and they and the nodes in hand are exactly the nodes made. */
    ghost predicate Lists(hand: seq<ActiveEdge>)
      reads this, active, freelist, own`next
    {
      && active != freelist
      && Within(made, own) && Within(active.nodes, own) && Within(freelist.nodes, own)
      && Conserved(active.nodes, freelist.nodes, hand, made)
      && active.Valid() && freelist.Valid()
    }

    ghost predicate Valid()
      reads this, pool, pool.space, active, freelist, own`next
    {
      Memory() && Lists([])
    }

    constructor ()
      ensures Valid() && fresh(pool) && fresh(active) && fresh(freelist) && pool.space == {} && own == {}
      ensures active.nodes == []
    {
      pool := new Pool();
      active := new EdgeList();
      freelist := new EdgeList();
      made, own := [], {};
    }

    method TakeFree() returns (z: ActiveEdge)
      requires Lists([]) && freelist.head != null
      modifies freelist
      ensures Lists([z]) && z in own
    {
      hide Conserved, Distinct, Linked, Without, Within;
      freelist.LinkAt(0);
      Owned(freelist.nodes, own, 0);
      MoveFreeToHand(active.nodes, freelist.nodes, made);
      WithinWithout(freelist.nodes, own, 0);
      z := freelist.Unlink(null, 0);
    }

    method MakeNode() returns (z: ActiveEdge)
      requires Memory() && Lists([])
      modifies this`made, this`own, pool, pool.space
      ensures Memory() && Lists([z]) && fresh(z) && own == old(own) + {z}
      ensures old(pool.space) <= pool.space && fresh(pool.space - old(pool.space))
    {
      hide Conserved, Distinct, Linked, AllApart, Indexed, Chained;
      var b := pool.Alloc(EDGE_SIZE);
      z := new ActiveEdge();
      MakeInHand(active.nodes, freelist.nodes, z, made);
      made, own := made + [z], own + {z};
    }

    method TakeNode() returns (z: ActiveEdge)
      requires Valid()
      modifies this`made, this`own, pool, pool.space, freelist
      ensures Memory() && Lists([z])
      ensures own == old(own) || (own == old(own) + {z} && fresh(z))
      ensures old(pool.space) <= pool.space && fresh(pool.space - old(pool.space))
    {
      hide Conserved, Distinct, Linked, Within, AllApart, Indexed, Chained;
      if freelist.head != null {
        z := TakeFree();
      } else {
        z := MakeNode();
      }
    }

    /** `nsvg__addActive`: a node for edge `e`, taken from the free list or newly made, with the data the edge
        has at height `y`. The active list is not touched. */
    method AddActive(e: Edge, y: real) returns (z: ActiveEdge)
      requires Valid() && e.WellFormed()
      modifies this`made, this`own, pool, pool.space, freelist, own
      ensures Memory() && Lists([z]) && z in own
      ensures own == old(own) || (own == old(own) + {z} && fresh(z))
      ensures old(pool.space) <= pool.space && fresh(pool.space - old(pool.space))
      ensures active.nodes == old(active.nodes) && Cells(active.nodes) == old(Cells(active.nodes))
      ensures CellOf(z) == Cell(FixedX(e, y), FixedSlope(e), e.y1, e.dir)
    {
      hide Conserved, Distinct, Linked, Within, AllApart, Indexed, Chained, Cells;
      z := TakeNode();
      InHand(active.nodes, freelist.nodes, z, made);
      WithinHas(made, own, z);
      SetNode(z, e, y);
    }

    /** Takes the `i`-th active node out and pushes it on the free list (`nsvg__freeActive`). */
    method Retire(prev: ActiveEdge?, ghost i: nat)
      requires Lists([]) && i < |active.nodes| && prev == NodeAt(active.nodes, i - 1)
      modifies active, freelist, own`next
      ensures Lists([]) && active.nodes == Without(old(active.nodes), i)
    {
      hide Conserved, Distinct, Linked, Within;
      MoveActiveToHand(active.nodes, i, freelist.nodes, made);
      ActiveNotFree(active.nodes, freelist.nodes, [], made);
      assert prev != null ==> prev == active.nodes[i - 1] && prev !in freelist.nodes;
      Owned(active.nodes, own, i);
      WithinWithout(active.nodes, own, i);
      var z := active.Unlink(prev, i);
      InHand(active.nodes, freelist.nodes, z, made);
      MoveHandToFree(active.nodes, freelist.nodes, z, made);
      WithinPush(freelist.nodes, own, z);
      freelist.LinkFirst(z);
    }

    /** Moves the `i`-th active node on by its slope. */
    method Move(z: ActiveEdge, ghost i: nat)
      requires Lists([]) && i < |active.nodes| && z == active.nodes[i]
      modifies z`x
      ensures Lists([])
      ensures Cells(active.nodes) == old(Cells(active.nodes))[i := old(CellOf(z)).(x := old(z.x) + z.dx)]
    {
      hide Conserved, Linked, Within;
      OnlyAt(active.nodes, i, z);
      z.x := z.x + z.dx;
    }

    /** `cur` is the `i`-th active node and `prev` the one before it. */
    ghost predicate At(prev: ActiveEdge?, cur: ActiveEdge?, i: nat)
      reads active
    {
      i <= |active.nodes| && prev == NodeAt(active.nodes, i - 1) && cur == NodeAt(active.nodes, i)
    }

    /** The branch of the loop that drops a node. */
    method DropNode(prev: ActiveEdge?, cur: ActiveEdge, y: real, ghost cells: seq<Cell>, ghost k: nat, ghost i: nat)
      returns (cur': ActiveEdge?)
      requires Lists([]) && At(prev, cur, i) && Advancing(cells, k, y, Cells(active.nodes), i) && cur.ey <= y
      modifies active, freelist, own`next
      ensures Lists([]) && At(prev, cur', i) && Advancing(cells, k + 1, y, Cells(active.nodes), i)
    {
      hide Conserved, Distinct, Linked, Within, Cells, Without, Advancing;
      AdvanceStep(cells, k, y, Cells(active.nodes), i);
      CellsWithout(active.nodes, i);
      ghost var nodes := active.nodes;
      WithoutAt(nodes, i);
      Retire(prev, i);
      assert Cells(Without(nodes, i)) == old(Cells(Without(nodes, i)));
      active.LinkAt(if i == 0 then 0 else i - 1);
      cur' := if prev == null then active.head else prev.next;
    }

    /** The branch of the loop that moves a node. */
    method KeepNode(cur: ActiveEdge, y: real, ghost cells: seq<Cell>, ghost k: nat, ghost i: nat)
      returns (cur': ActiveEdge?)
      requires Lists([]) && i < |active.nodes| && cur == active.nodes[i] && cur.ey > y
      requires Advancing(cells, k, y, Cells(active.nodes), i)
      modifies cur`x
      ensures Lists([]) && At(cur, cur', i + 1) && Advancing(cells, k + 1, y, Cells(active.nodes), i + 1)
    {
      hide Conserved, Distinct, Linked, Within, Cells, Advancing;
      AdvanceStep(cells, k, y, Cells(active.nodes), i);
      Move(cur, i);
      active.LinkAt(i);
      cur' := cur.next;
    }

    /** The body of the loop. */
    method AdvanceNode(prev: ActiveEdge?, cur: ActiveEdge, y: real, ghost cells: seq<Cell>, ghost k: nat, ghost i: nat)
      returns (prev': ActiveEdge?, cur': ActiveEdge?, ghost i': nat)
      requires Lists([]) && At(prev, cur, i) && Advancing(cells, k, y, Cells(active.nodes), i)
      modifies active, freelist, own
      ensures Lists([]) && At(prev', cur', i') && Advancing(cells, k + 1, y, Cells(active.nodes), i')
    {
      hide Conserved, Distinct, Linked, Within, Cells, Advancing;
      if cur.ey <= y {
        cur' := DropNode(prev, cur, y, cells, k, i);
        prev', i' := prev, i;
      } else {
        Owned(active.nodes, own, i);
        cur' := KeepNode(cur, y, cells, k, i);
        prev', i' := cur, i + 1;
      }
    }

    /** The first loop on a sub-scanline: the active list is advanced to height `y`, and every node dropped
        from it is free again. */
    method RemoveEnded(y: real)
      requires Lists([])
      modifies active, freelist, own
      ensures Lists([]) && Cells(active.nodes) == Advance(old(Cells(active.nodes)), y)
    {
      hide *;
      ghost var cells, i, k := Cells(active.nodes), 0, 0;
      var prev: ActiveEdge? := null;
      var cur := active.head;
      AtStart();
      AdvanceStart(cells, y);
      while cur != null
        invariant Lists([]) && At(prev, cur, i) && k <= |cells|
        invariant Advancing(cells, k, y, Cells(active.nodes), i)
        decreases |cells| - k
      {
        InList(prev, cur, i);
        AdvanceStep(cells, k, y, Cells(active.nodes), i);
        prev, cur, i := AdvanceNode(prev, cur, y, cells, k, i);
        k := k + 1;
      }
      InList(prev, cur, i);
      AdvanceDone(cells, k, y, Cells(active.nodes), i);
    }

    lemma AtStart()
      requires Lists([])
      ensures At(null, active.head, 0)
    {
      active.LinkAt(0);
    }

    lemma InList(prev: ActiveEdge?, cur: ActiveEdge?, i: nat)
      requires At(prev, cur, i)
      ensures if cur == null then i == |Cells(active.nodes)| else i < |Cells(active.nodes)|
    {
    }

    /** The search for the node to insert behind: the last one before the first that is not left of `x`. */
    method FindPlace(x: int) returns (p: ActiveEdge, ghost i: nat)
      requires active.Valid() && active.head != null && active.head.x <= x
      ensures i < |active.nodes| && p == active.nodes[i] && p.x <= x
      ensures i + 1 < |active.nodes| ==> active.nodes[i + 1].x >= x
    {
      hide Distinct, Linked;
      active.LinkAt(0);
      p, i := active.head, 0;
      active.LinkAt(i);
      while p.next != null && p.next.x < x
        invariant i < |active.nodes| && p == active.nodes[i] && p.x <= x
        invariant p.next == NodeAt(active.nodes, i + 1)
        decreases |active.nodes| - i
      {
        p := p.next;
        i := i + 1;
        active.LinkAt(i);
      }
    }

    method PutFirst(z: ActiveEdge)
      requires Lists([z])
      modifies active, own`next
      ensures Lists([]) && active.nodes == With(old(active.nodes), 0, z)
    {
      hide Conserved, Distinct, Linked, Within;
      InHand(active.nodes, freelist.nodes, z, made);
      WithinHas(made, own, z);
      WithinWith(active.nodes, own, 0, z);
      MoveHandToActive(active.nodes, 0, z, freelist.nodes, made);
      assert With(active.nodes, 0, z) == [z] + active.nodes;
      active.LinkFirst(z);
    }

    method PutBehind(p: ActiveEdge, z: ActiveEdge, ghost i: nat)
      requires Lists([z]) && i < |active.nodes| && p == active.nodes[i]
      modifies active, own`next
      ensures Lists([]) && active.nodes == With(old(active.nodes), i + 1, z)
    {
      hide Conserved, Distinct, Linked, Within;
      InHand(active.nodes, freelist.nodes, z, made);
      ActiveNotFree(active.nodes, freelist.nodes, [z], made);
      assert p !in freelist.nodes;
      WithinHas(made, own, z);
      Owned(active.nodes, own, i);
      WithinWith(active.nodes, own, i + 1, z);
      MoveHandToActive(active.nodes, i + 1, z, freelist.nodes, made);
      active.LinkBehind(p, z, i);
    }

    /** Inserts the node in hand so that the list stays sorted. */
    method Insert(z: ActiveEdge)
      requires Lists([z]) && Sorted(Cells(active.nodes))
      modifies active, own`next
      ensures Lists([]) && Sorted(Cells(active.nodes))
      ensures multiset(Cells(active.nodes)) == multiset(old(Cells(active.nodes))) + multiset{CellOf(z)}
    {
      hide Lists, Cells, Sorted, With;
      ghost var nodes, cells, c := active.nodes, Cells(active.nodes), CellOf(z);
      ghost var k := 0;
      ListsValid([z]);
      active.LinkAt(0);
      if active.head == null || z.x < active.head.x {
        PutFirst(z);
      } else {
        var p, i := FindPlace(z.x);
        k := i + 1;
        PutBehind(p, z, i);
      }
      assert Cells(nodes) == cells && CellOf(z) == c;
      CellsWith(nodes, k, z);
      SortedWith(cells, k, c);
    }

    /** A live edge enters the active list at its first sub-scanline. */
    method StartEdge(e: Edge, n: nat)
      requires Valid() && e.WellFormed() && FirstScan(e) == n && Sorted(Cells(active.nodes))
      modifies this`made, this`own, pool, pool.space, active, freelist, own
      ensures Valid() && Sorted(Cells(active.nodes)) && OnlyNew(old(own), old(pool.space))
      ensures multiset(Cells(active.nodes)) == multiset(old(Cells(active.nodes))) + multiset{CellAt(e, n)}
    {
      hide Memory, Lists, Cells, Sorted, FixedX, FixedSlope, FirstScan;
      var z := AddActive(e, ScanY(n));
      assert CellOf(z) == CellAt(e, n);
      Insert(z);
    }

    /** Nodes and pages were only added, and those added are new. */
    twostate predicate OnlyNew(own0: set<ActiveEdge>, space0: set<MemPage>)
      reads this, pool
    {
      own0 <= own && fresh(own - own0) && space0 <= pool.space && fresh(pool.space - space0)
    }

    /** The last loop before filling: from the edges not yet looked at, takes those that start by sub-scanline
        `n` and inserts the live ones. */
    method InsertStarting(edges: seq<Edge>, e0: nat, n: nat) returns (e: nat)
      requires Valid() && AllWellFormed(edges) && SortedByY0(edges) && Pending(edges, e0, n)
      requires Sorted(Cells(active.nodes))
      requires multiset(Cells(active.nodes)) == multiset(LiveCells(edges, e0, n))
      modifies this`made, this`own, pool, pool.space, active, freelist, own
      ensures Valid() && Sorted(Cells(active.nodes)) && OnlyNew(old(own), old(pool.space))
      ensures Reached(edges, e, n)
      ensures multiset(Cells(active.nodes)) == multiset(LiveCells(edges, e, n))
    {
      hide Memory, Lists, Cells, Sorted, LiveCells, Reached, StartsBy, FirstScan, AllWellFormed;
      e := e0;
      while StartsBy(edges, e, n)
        invariant Pending(edges, e, n)
        invariant Valid() && Sorted(Cells(active.nodes)) && OnlyNew(old(own), old(pool.space))
        invariant multiset(Cells(active.nodes)) == multiset(LiveCells(edges, e, n))
        decreases |edges| - e
      {
        PendingStep(edges, e, n);
        InsertNext(edges, e, n);
        e := e + 1;
      }
      PendingDone(edges, e, n);
    }

    method InsertNext(edges: seq<Edge>, e: nat, n: nat)
      requires Valid() && AllWellFormed(edges) && e < |edges| && FirstScan(edges[e]) == n
      requires Sorted(Cells(active.nodes))
      requires multiset(Cells(active.nodes)) == multiset(LiveCells(edges, e, n))
      modifies this`made, this`own, pool, pool.space, active, freelist, own
      ensures Valid() && Sorted(Cells(active.nodes)) && OnlyNew(old(own), old(pool.space))
      ensures multiset(Cells(active.nodes)) == multiset(LiveCells(edges, e + 1, n))
    {
      hide Memory, Lists, Cells, Sorted, CellAt, LiveCells, FirstScan;
      LiveCellsNext(edges, e, n);
      if edges[e].y1 > ScanY(n) {
        StartEdge(edges[e], n);
      }
    }

    /** `nsvg__resetPool`, `freelist = NULL` and `active = NULL`: no node is in use any more. */
    method Reset()
      requires Valid()
      modifies this`made, pool, pool.space, active, freelist
      ensures Valid() && active.nodes == [] && made == []
      ensures own == old(own) && pool.space == old(pool.space) && pool.chain == old(pool.chain)
    {
      hide AllApart, Indexed, Chained, Conserved, Distinct, Linked, Within;
      NothingMade(own);
      pool.Reset();
      active.Clear();
      freelist.Clear();
      made := [];
    }

    /** Ready for sub-scanline `n`: once advanced, the active nodes will be the live cells of the edges that
        have been looked at. */
    ghost predicate Ready(edges: seq<Edge>, e: nat, n: nat)
      reads active, active.nodes`x, active.nodes`dx, active.nodes`ey, active.nodes`dir
      requires AllWellFormed(edges)
    {
      && Pending(edges, e, n)
      && multiset(Advance(Cells(active.nodes), ScanY(n))) == multiset(LiveCells(edges, e, n))
    }

    lemma StartReady(edges: seq<Edge>)
      requires AllWellFormed(edges) && active.nodes == []
      ensures Ready(edges, 0, 0)
    {
      PendingStart(edges);
    }

    /** The list updates of one sub-scanline. Afterwards the active list is sorted and holds exactly the edges
        that cross the sub-scanline, each at the abscissa its own start and slope give. */
    method SubScanline(edges: seq<Edge>, e0: nat, n: nat) returns (e: nat)
      requires Valid() && AllWellFormed(edges) && SortedByY0(edges) && Ready(edges, e0, n)
      modifies this`made, this`own, pool, pool.space, active, freelist, own
      ensures Valid() && OnlyNew(old(own), old(pool.space)) && Ready(edges, e, n + 1)
      ensures Sorted(Cells(active.nodes))
      ensures multiset(Cells(active.nodes)) == multiset(LiveCells(edges, |edges|, n))
    {
      hide Memory, Lists, Cells, Sorted, Advance, LiveCells, Pending, Reached, AllWellFormed, SortedByY0;
      RemoveEnded(ScanY(n));
      Resort();
      e := InsertStarting(edges, e0, n);
      AllReached(edges, e, n);
      StaysReady(edges, e, n, Cells(active.nodes));
    }

    method Resort()
      requires Lists([])
      modifies active, own`next
      ensures Lists([]) && Sorted(Cells(active.nodes))
      ensures multiset(Cells(active.nodes)) == multiset(old(Cells(active.nodes)))
    {
      hide Conserved, Distinct, Linked, Cells, Sorted, Within;
      ghost var was := active.nodes;
      ghost var mine := set z | z in was;
      ActiveNotFree(was, freelist.nodes, [], made);
      WithinItself(was, own, mine);
      SortActive(active, mine);
      MoveWithin(was, active.nodes, freelist.nodes, made);
      SameOwner(was, active.nodes, own);
    }

    lemma ListsValid(hand: seq<ActiveEdge>)
      requires Lists(hand)
      ensures active.Valid() && freelist.Valid()
    {
    }
  }

  lemma WithinWith(nodes: seq<ActiveEdge>, own: set<ActiveEdge>, i: nat, z: ActiveEdge)
    requires Within(nodes, own) && z in own && i <= |nodes|
    ensures Within(With(nodes, i, z), own)
  {
  }

  lemma CellsWith(nodes: seq<ActiveEdge>, i: nat, z: ActiveEdge)
    requires i <= |nodes|
    ensures Cells(With(nodes, i, z)) == With(Cells(nodes), i, CellOf(z))
  {
    CellsSlices(nodes, i);
    CellsOne(z);
    CellsConcat(nodes[..i], [z]);
    CellsConcat(nodes[..i] + [z], nodes[i..]);
  }

  lemma SortedWith(cells: seq<Cell>, i: nat, c: Cell)
    requires Sorted(cells) && i <= |cells|
    requires (i > 0 ==> cells[i - 1].x <= c.x) && (i < |cells| ==> c.x <= cells[i].x)
    ensures Sorted(With(cells, i, c))
    ensures multiset(With(cells, i, c)) == multiset(cells) + multiset{c}
  {
    WithAt(cells, i, c);
    MultisetWith(cells, i, c);
    hide With;
    var r := With(cells, i, c);
    forall j, k | 0 <= j < k < |r| ensures r[j].x <= r[k].x {
      if k == i {
        assert cells[j].x <= cells[i - 1].x;
      } else if j == i {
        assert cells[i].x <= cells[k - 1].x;
      }
    }
  }

  lemma MultisetWith(cells: seq<Cell>, i: nat, c: Cell)
    requires i <= |cells|
    ensures multiset(With(cells, i, c)) == multiset(cells) + multiset{c}
  {
    assert cells == cells[..i] + cells[i..];
  }

  /** Before sub-scanline `n`: the first `e` edges have started by then, no other one started earlier. */
  ghost predicate Pending(edges: seq<Edge>, e: nat, n: nat) {
    && e <= |edges|
    && (forall i :: 0 <= i < e ==> edges[i].y0 <= ScanY(n))
    && (forall i :: e <= i < |edges| ==> FirstScan(edges[i]) >= n)
  }

  /** After sub-scanline `n`: exactly the first `e` edges have started. */
  ghost predicate Reached(edges: seq<Edge>, e: nat, n: nat) {
    && e <= |edges|
    && (forall i :: 0 <= i < e ==> edges[i].y0 <= ScanY(n))
    && (forall i :: e <= i < |edges| ==> edges[i].y0 > ScanY(n))
  }

  predicate StartsBy(edges: seq<Edge>, e: nat, n: nat) {
    e < |edges| && edges[e].y0 <= ScanY(n)
  }

  lemma PendingStart(edges: seq<Edge>)
    ensures Pending(edges, 0, 0)
  {
  }

  lemma PendingStep(edges: seq<Edge>, e: nat, n: nat)
    requires Pending(edges, e, n) && StartsBy(edges, e, n)
    ensures e < |edges| && FirstScan(edges[e]) == n && Pending(edges, e + 1, n)
  {
    hide FirstScan;
    FirstScanIsFirst(edges[e], n);
  }

  lemma PendingDone(edges: seq<Edge>, e: nat, n: nat)
    requires SortedByY0(edges) && Pending(edges, e, n) && !StartsBy(edges, e, n)
    ensures Reached(edges, e, n)
  {
    forall i | e <= i < |edges| ensures edges[i].y0 > ScanY(n) {
      assert edges[e].y0 <= edges[i].y0;
    }
  }

  lemma ReachedPending(edges: seq<Edge>, e: nat, n: nat)
    requires Reached(edges, e, n)
    ensures Pending(edges, e, n + 1)
  {
    hide FirstScan;
    forall i | e <= i < |edges| ensures FirstScan(edges[i]) >= n + 1 {
      FirstScanIsFirst(edges[i], n);
    }
  }

  lemma LiveCellsNext(edges: seq<Edge>, e: nat, n: nat)
    requires AllWellFormed(edges) && e < |edges| && FirstScan(edges[e]) == n
    ensures LiveCells(edges, e + 1, n)
         == LiveCells(edges, e, n) + (if edges[e].y1 > ScanY(n) then [CellAt(edges[e], n)] else [])
  {
    hide CellAt, FirstScan;
    FirstScanIsFirst(edges[e], n);
  }

  lemma AllReached(edges: seq<Edge>, e: nat, n: nat)
    requires AllWellFormed(edges) && Reached(edges, e, n)
    ensures LiveCells(edges, |edges|, n) == LiveCells(edges, e, n)
  {
    LiveCellsPrefix(edges, e, |edges|, n);
  }

  /** The live cells of one sub-scanline, advanced, are those of the next among the same edges. */
  lemma StaysReady(edges: seq<Edge>, e: nat, n: nat, cells: seq<Cell>)
    requires AllWellFormed(edges) && Reached(edges, e, n)
    requires multiset(cells) == multiset(LiveCells(edges, e, n))
    ensures Pending(edges, e, n + 1)
    ensures multiset(Advance(cells, ScanY(n + 1))) == multiset(LiveCells(edges, e, n + 1))
  {
    ReachedPending(edges, e, n);
    AdvancePermutation(cells, LiveCells(edges, e, n), ScanY(n + 1));
    AdvanceLive(edges, e, n);
  }

  /** The first `k` cells have been advanced, which left `i` cells; the others are as they were. */
  ghost predicate Advancing(cells: seq<Cell>, k: nat, y: real, now: seq<Cell>, i: nat) {
    k <= |cells| && now == Advance(cells[..k], y) + cells[k..] && i == |Advance(cells[..k], y)|
  }

  lemma AdvanceStart(cells: seq<Cell>, y: real)
    ensures Advancing(cells, 0, y, cells, 0)
  {
  }

  lemma AdvanceStep(cells: seq<Cell>, k: nat, y: real, now: seq<Cell>, i: nat)
    requires Advancing(cells, k, y, now, i) && i < |now|
    ensures k < |cells| && now[i] == cells[k]
    ensures cells[k].ey <= y ==> Advancing(cells, k + 1, y, Without(now, i), i)
    ensures cells[k].ey > y ==>
              Advancing(cells, k + 1, y, now[i := cells[k].(x := cells[k].x + cells[k].dx)], i + 1)
  {
    hide Advance;
    var c := cells[k];
    assert cells[..k + 1] == cells[..k] + [c];
    AdvanceConcat(cells[..k], [c], y);
    AdvanceSingle(c, y);
    assert cells[k..] == [c] + cells[k + 1..];
  }

  lemma AdvanceDone(cells: seq<Cell>, k: nat, y: real, now: seq<Cell>, i: nat)
    requires Advancing(cells, k, y, now, i) && i == |now|
    ensures now == Advance(cells, y)
  {
    assert cells[..k] == cells;
  }

  lemma CellsWithout(nodes: seq<ActiveEdge>, i: nat)
    requires i < |nodes|
    ensures Cells(Without(nodes, i)) == Without(Cells(nodes), i)
  {
    CellsSlices(nodes, i);
    CellsSlices(nodes, i + 1);
    CellsConcat(nodes[..i], nodes[i + 1..]);
  }

  lemma WithoutAt(nodes: seq<ActiveEdge>, i: nat)
    requires i < |nodes|
    ensures |Without(nodes, i)| == |nodes| - 1
    ensures NodeAt(Without(nodes, i), i - 1) == NodeAt(nodes, i - 1)
  {
  }

  lemma WithinWithout(nodes: seq<ActiveEdge>, own: set<ActiveEdge>, i: nat)
    requires Within(nodes, own) && i < |nodes|
    ensures Within(Without(nodes, i), own)
  {
  }

  lemma WithinItself(nodes: seq<ActiveEdge>, own: set<ActiveEdge>, mine: set<ActiveEdge>)
    requires Within(nodes, own) && mine == set z | z in nodes
    ensures Within(nodes, mine) && mine <= own
  {
  }

  lemma WithinHas(nodes: seq<ActiveEdge>, own: set<ActiveEdge>, z: ActiveEdge)
    requires Within(nodes, own) && z in nodes
    ensures z in own
  {
  }

  lemma WithinPush(nodes: seq<ActiveEdge>, own: set<ActiveEdge>, z: ActiveEdge)
    requires Within(nodes, own) && z in own
    ensures Within([z] + nodes, own)
  {
  }
}
