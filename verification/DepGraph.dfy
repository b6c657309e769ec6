/** The port dependency graph of `chkdepschain.py`: the dependency lists that the script builds, and plain
    reachability, which they must agree with. */
module DepGraph {

  type Path = string

  /** The three dependency variables of a port, each entry split at its colons. */
  datatype Vars = Vars(build: seq<seq<string>>, lib: seq<seq<string>>, run: seq<seq<string>>) {
    /** Every entry has a second field. */
    ghost predicate WellFormed() {
      forall d :: d in build || d in lib || d in run ==> |d| >= 2
    }
  }

  /** What make(1) answers for a port directory, and the absolute form of a path. */
  datatype Graph = Graph(vars: Path -> Vars, abs: Path -> Path)

  ghost predicate GraphOk(g: Graph) {
    forall p :: g.vars(p).WellFormed()
  }

  function Second(entries: seq<seq<string>>): (r: seq<Path>)
    requires forall d :: d in entries ==> |d| >= 2
    ensures |r| == |entries| && forall i :: 0 <= i < |r| ==> r[i] == entries[i][1]
  {
    seq(|entries|, i requires 0 <= i < |entries| => entries[i][1])
  }

  /** The triple of `getdeps`. */
  datatype Deps = Deps(build: seq<Path>, lib: seq<Path>, run: seq<Path>)

  function DepsOf(g: Graph, p: Path): Deps
    requires GraphOk(g)
  {
    var v := g.vars(p);
    Deps(Second(v.build), Second(v.lib), Second(v.run))
  }

  /** Direct run-time and build-time dependencies. */
  function RunEdges(g: Graph, p: Path): seq<Path>
    requires GraphOk(g)
  {
    DepsOf(g, p).lib + DepsOf(g, p).run
  }

  function BuildEdges(g: Graph, p: Path): seq<Path>
    requires GraphOk(g)
  {
    DepsOf(g, p).build + DepsOf(g, p).lib
  }

  /** Run-time dependencies have no cycle. */
  ghost predicate Acyclic(g: Graph, rank: Path -> nat) {
    GraphOk(g) && forall p, d :: d in RunEdges(g, p) ==> rank(g.abs(d)) < rank(p)
  }

  /** `steps` is a way through run-time dependencies that starts among `from` and ends in `x`. */
  ghost predicate Way(g: Graph, from: seq<Path>, steps: seq<Path>, x: Path)
    requires GraphOk(g)
  {
    && steps != [] && steps[0] in from && steps[|steps| - 1] == x
    && forall i :: 0 < i < |steps| ==> steps[i] in RunEdges(g, g.abs(steps[i - 1]))
  }

  /** `x` is one of `from` or can be reached from one of them by run-time dependencies. */
  ghost predicate Reached(g: Graph, from: seq<Path>, x: Path)
    requires GraphOk(g)
  {
    exists steps :: Way(g, from, steps, x)
  }

  lemma ReachedDirect(g: Graph, from: seq<Path>, x: Path)
    requires GraphOk(g) && x in from
    ensures Reached(g, from, x)
  {
    assert Way(g, from, [x], x);
  }

  lemma ReachedThrough(g: Graph, from: seq<Path>, d: Path, x: Path)
    requires GraphOk(g) && d in from && Reached(g, RunEdges(g, g.abs(d)), x)
    ensures Reached(g, from, x)
  {
    hide RunEdges;
    var steps :| Way(g, RunEdges(g, g.abs(d)), steps, x);
    assert Way(g, from, [d] + steps, x);
  }

  /** Either directly, or through one of them. */
  lemma ReachedSplit(g: Graph, from: seq<Path>, x: Path) returns (d: Path)
    requires GraphOk(g) && Reached(g, from, x)
    ensures x in from || (d in from && Reached(g, RunEdges(g, g.abs(d)), x))
  {
    hide RunEdges;
    var steps :| Way(g, from, steps, x);
    d := steps[0];
    if |steps| > 1 {
      var rest := steps[1..];
      assert forall i :: 0 < i < |rest| ==> rest[i] == steps[i + 1];
      assert Way(g, RunEdges(g, g.abs(d)), rest, x);
    }
  }

  /** `filter(lambda dep: dep not in topdeps, list)`. */
  function Missing(list: seq<Path>, top: seq<Path>): seq<Path> {
    if list == [] then []
    else Missing(list[..|list| - 1], top) + if list[|list| - 1] in top then [] else [list[|list| - 1]]
  }

  lemma {:induction false} MissingIs(list: seq<Path>, top: seq<Path>, x: Path)
    ensures x in Missing(list, top) <==> x in list && x !in top
  {
    if list != [] {
      var front, last := list[..|list| - 1], list[|list| - 1];
      assert list == front + [last];
      MissingIs(front, top, x);
    }
  }

  /** The list that `get_rt_deps` builds. */
  function RunList(g: Graph, rank: Path -> nat, p: Path): seq<Path>
    requires Acyclic(g, rank)
    decreases rank(p), 1, 0
  {
    var top := RunEdges(g, p);
    Extended(g, rank, top, top, rank(p))
  }

  /** The loop over the direct dependencies `ds`. */
  function Extended(g: Graph, rank: Path -> nat, top: seq<Path>, ds: seq<Path>, bound: nat): seq<Path>
    requires Acyclic(g, rank) && forall d :: d in ds ==> rank(g.abs(d)) < bound
    decreases bound, 0, |ds|
  {
    if ds == [] then top
    else
      var front, last := ds[..|ds| - 1], ds[|ds| - 1];
      assert last in ds;
      var soFar := Extended(g, rank, top, front, bound);
      soFar + Missing(RunList(g, rank, g.abs(last)), soFar)
  }

  /** The lists hold exactly what can be reached. */
  lemma {:induction false} RunListIsReachable(g: Graph, rank: Path -> nat, p: Path, x: Path)
    requires Acyclic(g, rank)
    ensures x in RunList(g, rank, p) <==> Reached(g, RunEdges(g, p), x)
    decreases rank(p), 1, 0
  {
    var top := RunEdges(g, p);
    hide RunEdges, Reached;
    ExtendedHolds(g, rank, top, top, rank(p), x);
    if x in top {
      ReachedDirect(g, top, x);
    } else if Reached(g, top, x) {
      var d := ReachedSplit(g, top, x);
      assert ThroughOne(g, top, x);
    } else {
      forall d | d in top ensures !Reached(g, RunEdges(g, g.abs(d)), x) {
        if Reached(g, RunEdges(g, g.abs(d)), x) {
          ReachedThrough(g, top, d, x);
        }
      }
    }
  }

  ghost predicate ThroughOne(g: Graph, ds: seq<Path>, x: Path)
    requires GraphOk(g)
  {
    exists d :: d in ds && Reached(g, RunEdges(g, g.abs(d)), x)
  }

  lemma {:induction false} ExtendedHolds(g: Graph, rank: Path -> nat, top: seq<Path>, ds: seq<Path>, bound: nat,
                                         x: Path)
    requires Acyclic(g, rank) && forall d :: d in ds ==> rank(g.abs(d)) < bound
    ensures x in Extended(g, rank, top, ds, bound) <==> x in top || ThroughOne(g, ds, x)
    decreases bound, 0, |ds|
  {
    hide RunEdges, Reached, RunList;
    if ds != [] {
      var front, last := ds[..|ds| - 1], ds[|ds| - 1];
      assert last in ds;
      assert ds == front + [last];
      ExtendedHolds(g, rank, top, front, bound, x);
      RunListIsReachable(g, rank, g.abs(last), x);
      MissingIs(RunList(g, rank, g.abs(last)), Extended(g, rank, top, front, bound), x);
    }
  }

  /** The list that `get_bt_deps` builds. */
  function BuildList(g: Graph, rank: Path -> nat, p: Path): seq<Path>
    requires Acyclic(g, rank)
  {
    var top := BuildEdges(g, p);
    ExtendedOver(g, rank, top, top)
  }

  /** The loop of `get_bt_deps`; build dependencies may form cycles. */
  function ExtendedOver(g: Graph, rank: Path -> nat, top: seq<Path>, ds: seq<Path>): seq<Path>
    requires Acyclic(g, rank)
  {
    if ds == [] then top
    else
      var soFar := ExtendedOver(g, rank, top, ds[..|ds| - 1]);
      soFar + Missing(RunList(g, rank, g.abs(ds[|ds| - 1])), soFar)
  }

  lemma {:induction false} ExtendedOverHolds(g: Graph, rank: Path -> nat, top: seq<Path>, ds: seq<Path>, x: Path)
    requires Acyclic(g, rank)
    ensures x in ExtendedOver(g, rank, top, ds) <==> x in top || ThroughOne(g, ds, x)
  {
    hide RunEdges, Reached, RunList;
    if ds != [] {
      var front, last := ds[..|ds| - 1], ds[|ds| - 1];
      assert ds == front + [last];
      ExtendedOverHolds(g, rank, top, front, x);
      RunListIsReachable(g, rank, g.abs(last), x);
      MissingIs(RunList(g, rank, g.abs(last)), ExtendedOver(g, rank, top, front), x);
    }
  }

  /** Build-time dependencies: the direct ones and all that these need at run time. */
  lemma BuildListIsReachable(g: Graph, rank: Path -> nat, p: Path, x: Path)
    requires Acyclic(g, rank)
    ensures x in BuildList(g, rank, p) <==> Reached(g, BuildEdges(g, p), x)
  {
    var top := BuildEdges(g, p);
    hide BuildEdges, Reached;
    ExtendedOverHolds(g, rank, top, top, x);
    if x in top {
      ReachedDirect(g, top, x);
    } else if Reached(g, top, x) {
      var d := ReachedSplit(g, top, x);
      assert ThroughOne(g, top, x);
    } else {
      forall d | d in top ensures !Reached(g, RunEdges(g, g.abs(d)), x) {
        if Reached(g, RunEdges(g, g.abs(d)), x) {
          ReachedThrough(g, top, d, x);
        }
      }
    }
  }
}
