/** What the dependency lists of `chkdepschain.py` should be, from the entries of the three variables alone. */
module DepNeeds {
  import opened DepGraph

  /** The directory of an entry stands behind its first colon. */
  predicate Names(entry: seq<string>, x: Path) {
    |entry| >= 2 && entry[1] == x
  }

  /** Port `p` needs `x` to run: as a library or at run time. */
  ghost predicate NeedsToRun(g: Graph, p: Path, x: Path) {
    exists entry :: (entry in g.vars(p).lib || entry in g.vars(p).run) && Names(entry, x)
  }

  /** Port `p` needs `x` to be built: for the build itself or as a library. */
  ghost predicate NeedsToBuild(g: Graph, p: Path, x: Path) {
    exists entry :: (entry in g.vars(p).build || entry in g.vars(p).lib) && Names(entry, x)
  }

  lemma SecondHas(entries: seq<seq<string>>, x: Path)
    requires forall d :: d in entries ==> |d| >= 2
    ensures x in Second(entries) <==> exists entry :: entry in entries && Names(entry, x)
  {
    if entry :| entry in entries && Names(entry, x) {
      var i :| 0 <= i < |entries| && entries[i] == entry;
      assert Second(entries)[i] == x;
    }
    if x in Second(entries) {
      var i :| 0 <= i < |entries| && Second(entries)[i] == x;
      assert entries[i] in entries && Names(entries[i], x);
    }
  }

  lemma RunEdgesAreNeeds(g: Graph, p: Path, x: Path)
    requires GraphOk(g)
    ensures x in RunEdges(g, p) <==> NeedsToRun(g, p, x)
  {
    assert g.vars(p).WellFormed();
    SecondHas(g.vars(p).lib, x);
    SecondHas(g.vars(p).run, x);
    hide Names, Second;
  }

  lemma BuildEdgesAreNeeds(g: Graph, p: Path, x: Path)
    requires GraphOk(g)
    ensures x in BuildEdges(g, p) <==> NeedsToBuild(g, p, x)
  {
    assert g.vars(p).WellFormed();
    SecondHas(g.vars(p).build, x);
    SecondHas(g.vars(p).lib, x);
    hide Names, Second;
  }

  /** From one port to the next by what it needs to run, up to `x`. */
  ghost predicate Follows(g: Graph, steps: seq<Path>, x: Path) {
    && steps != [] && steps[|steps| - 1] == x
    && forall i :: 0 < i < |steps| ==> NeedsToRun(g, g.abs(steps[i - 1]), steps[i])
  }

  lemma WayFollows(g: Graph, from: seq<Path>, steps: seq<Path>, x: Path)
    requires GraphOk(g)
    ensures Way(g, from, steps, x) <==> Follows(g, steps, x) && steps[0] in from
  {
    hide NeedsToRun, RunEdges;
    forall i | 0 < i < |steps|
      ensures steps[i] in RunEdges(g, g.abs(steps[i - 1])) <==> NeedsToRun(g, g.abs(steps[i - 1]), steps[i])
    {
      RunEdgesAreNeeds(g, g.abs(steps[i - 1]), steps[i]);
    }
  }

  /** The run-time list holds exactly the ports that are needed to run, directly or by what is needed. */
  lemma RunListIsNeeded(g: Graph, rank: Path -> nat, p: Path, x: Path)
    requires Acyclic(g, rank)
    ensures x in RunList(g, rank, p) <==> exists steps :: Follows(g, steps, x) && NeedsToRun(g, p, steps[0])
  {
    hide RunList, RunEdges, NeedsToRun, Follows, Way;
    RunListIsReachable(g, rank, p, x);
    forall steps: seq<Path> | steps != []
      ensures Way(g, RunEdges(g, p), steps, x) <==> Follows(g, steps, x) && NeedsToRun(g, p, steps[0])
    {
      WayFollows(g, RunEdges(g, p), steps, x);
      RunEdgesAreNeeds(g, p, steps[0]);
    }
    SomeWay(g, RunEdges(g, p), x);
    FollowsSomething(g, x);
  }

  lemma SomeWay(g: Graph, from: seq<Path>, x: Path)
    requires GraphOk(g)
    ensures Reached(g, from, x) <==> exists steps :: steps != [] && Way(g, from, steps, x)
  {
    hide RunEdges;
  }

  lemma FollowsSomething(g: Graph, x: Path)
    ensures forall steps :: Follows(g, steps, x) ==> steps != []
  {
    hide NeedsToRun;
  }

  /** The build-time list holds exactly what is needed to build, and what that needs to run. */
  lemma BuildListIsNeeded(g: Graph, rank: Path -> nat, p: Path, x: Path)
    requires Acyclic(g, rank)
    ensures x in BuildList(g, rank, p) <==> exists steps :: Follows(g, steps, x) && NeedsToBuild(g, p, steps[0])
  {
    hide BuildList, BuildEdges, RunEdges, NeedsToRun, NeedsToBuild, Follows, Way;
    BuildListIsReachable(g, rank, p, x);
    forall steps: seq<Path> | steps != []
      ensures Way(g, BuildEdges(g, p), steps, x) <==> Follows(g, steps, x) && NeedsToBuild(g, p, steps[0])
    {
      WayFollows(g, BuildEdges(g, p), steps, x);
      BuildEdgesAreNeeds(g, p, steps[0]);
    }
    SomeWay(g, BuildEdges(g, p), x);
    FollowsSomething(g, x);
  }

  ghost predicate Distinct(list: seq<Path>) {
    forall i, j :: 0 <= i < j < |list| ==> list[i] != list[j]
  }

  lemma DistinctJoin(a: seq<Path>, b: seq<Path>)
    requires Distinct(a) && Distinct(b) && forall x :: x in a ==> x !in b
    ensures Distinct(a + b)
  {
    forall i, j | 0 <= i < j < |a + b| ensures (a + b)[i] != (a + b)[j] {
      if i < |a| <= j {
        assert a[i] in a && b[j - |a|] in b;
      }
    }
  }

  lemma {:induction false} MissingDistinct(list: seq<Path>, top: seq<Path>)
    requires Distinct(list)
    ensures Distinct(Missing(list, top))
  {
    if list != [] {
      var front, last := list[..|list| - 1], list[|list| - 1];
      MissingDistinct(front, top);
      MissingIs(front, top, last);
      assert last !in front;
      DistinctJoin(Missing(front, top), if last in top then [] else [last]);
    }
  }

  lemma AddedDistinct(a: seq<Path>, list: seq<Path>)
    requires Distinct(a) && Distinct(list)
    ensures Distinct(a + Missing(list, a))
  {
    MissingDistinct(list, a);
    forall x | x in a ensures x !in Missing(list, a) {
      MissingIs(list, a, x);
    }
    DistinctJoin(a, Missing(list, a));
  }

  /** If no port names a direct dependency twice, no list holds a port twice; and every list begins with the direct
      dependencies in their order. */
  lemma {:induction false} RunListDistinct(g: Graph, rank: Path -> nat, p: Path)
    requires Acyclic(g, rank) && forall q :: Distinct(RunEdges(g, q))
    ensures Distinct(RunList(g, rank, p)) && RunEdges(g, p) <= RunList(g, rank, p)
    decreases rank(p), 1, 0
  {
    hide RunEdges, Distinct;
    assert Distinct(RunEdges(g, p));
    ExtendedDistinct(g, rank, RunEdges(g, p), RunEdges(g, p), rank(p));
  }

  lemma {:induction false} ExtendedDistinct(g: Graph, rank: Path -> nat, top: seq<Path>, ds: seq<Path>, bound: nat)
    requires Acyclic(g, rank) && forall q :: Distinct(RunEdges(g, q))
    requires forall d :: d in ds ==> rank(g.abs(d)) < bound
    requires Distinct(top)
    ensures Distinct(Extended(g, rank, top, ds, bound)) && top <= Extended(g, rank, top, ds, bound)
    decreases bound, 0, |ds|
  {
    hide RunEdges, Distinct, RunList;
    if ds != [] {
      var front, last := ds[..|ds| - 1], ds[|ds| - 1];
      assert last in ds;
      ExtendedDistinct(g, rank, top, front, bound);
      RunListDistinct(g, rank, g.abs(last));
      AddedDistinct(Extended(g, rank, top, front, bound), RunList(g, rank, g.abs(last)));
    }
  }

  lemma {:induction false} BuildListDistinct(g: Graph, rank: Path -> nat, top: seq<Path>, ds: seq<Path>)
    requires Acyclic(g, rank) && (forall q :: Distinct(RunEdges(g, q))) && Distinct(top)
    ensures Distinct(ExtendedOver(g, rank, top, ds)) && top <= ExtendedOver(g, rank, top, ds)
    decreases |ds|
  {
    hide RunEdges, Distinct, RunList;
    if ds != [] {
      var front, last := ds[..|ds| - 1], ds[|ds| - 1];
      BuildListDistinct(g, rank, top, front);
      RunListDistinct(g, rank, g.abs(last));
      AddedDistinct(ExtendedOver(g, rank, top, front), RunList(g, rank, g.abs(last)));
    }
  }
}
