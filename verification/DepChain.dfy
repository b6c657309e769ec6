/** The memoised port objects of `chkdepschain.py`: `getpi`, `getdeps`, `get_rt_deps` and `get_bt_deps`. */
module DepChain {
  import opened DepGraph
  import opened Options

  /** `PortInfo`: what make(1) answered, and the cached values. */
  class PortInfo {
    const path: Path
    const vars: Vars
    var deps: Option<Deps>
    var btDeps: Option<seq<Path>>
    var rtDeps: Option<seq<Path>>

    constructor (g: Graph, path: Path)
      ensures this.path == path && vars == g.vars(path)
      ensures deps == None && btDeps == None && rtDeps == None
    {
      this.path, this.vars := path, g.vars(path);
      deps, btDeps, rtDeps := None, None, None;
    }

    /** Whatever is cached is right. */
    ghost predicate Right(g: Graph, rank: Path -> nat)
      requires Acyclic(g, rank)
      reads this
    {
      && vars == g.vars(path)
      && (deps.Some? ==> deps.value == DepsOf(g, path))
      && (rtDeps.Some? ==> rtDeps.value == RunList(g, rank, path))
      && (btDeps.Some? ==> btDeps.value == BuildList(g, rank, path))
    }

    /** `getdeps`. */
    method GetDeps(g: Graph, ghost rank: Path -> nat) returns (r: Deps)
      requires Acyclic(g, rank) && Right(g, rank)
      modifies this`deps
      ensures Right(g, rank) && r == DepsOf(g, path)
    {
      if deps == None {
        assert g.vars(path).WellFormed();
        deps := Some(Deps(Second(vars.build), Second(vars.lib), Second(vars.run)));
      }
      r := deps.value;
    }
  }

  /** `picache`. */
  class PortCache {
    var picache: map<Path, PortInfo>
    ghost var ports: set<PortInfo>

    ghost predicate Valid(g: Graph, rank: Path -> nat)
      requires Acyclic(g, rank)
      reads this, ports
    {
      && (forall p :: p in picache ==> picache[p] in ports && picache[p].path == p)
      && forall pi :: pi in ports ==> pi.Right(g, rank)
    }

    constructor (g: Graph, ghost rank: Path -> nat)
      requires Acyclic(g, rank)
      ensures Valid(g, rank) && picache == map[] && ports == {}
    {
      picache, ports := map[], {};
    }

    /** Ports are only added, and those added are new. */
    twostate predicate Grows(ports0: set<PortInfo>)
      reads this
    {
      ports0 <= ports && fresh(ports - ports0)
    }

    /** `getpi`. */
    method GetPi(g: Graph, dep: Path, ghost rank: Path -> nat) returns (pi: PortInfo)
      requires Acyclic(g, rank) && Valid(g, rank)
      modifies this
      ensures Valid(g, rank) && Grows(old(ports)) && pi in ports && pi.path == g.abs(dep)
    {
      hide PortInfo.Right, Acyclic;
      var path := g.abs(dep);
      if path !in picache {
        pi := NewPort(g, path, rank);
        picache := picache[path := pi];
        ports := ports + {pi};
      }
      pi := picache[path];
    }

    static method NewPort(g: Graph, path: Path, ghost rank: Path -> nat) returns (pi: PortInfo)
      requires Acyclic(g, rank)
      ensures fresh(pi) && pi.path == path && pi.Right(g, rank)
    {
      pi := new PortInfo(g, path);
    }

    /** `get_rt_deps`: from any state of the caches it returns the list that the graph alone determines. */
    method GetRtDeps(g: Graph, pi: PortInfo, ghost rank: Path -> nat) returns (r: seq<Path>)
      requires Acyclic(g, rank) && Valid(g, rank) && pi in ports
      modifies this, ports
      ensures Valid(g, rank) && Grows(old(ports)) && r == RunList(g, rank, pi.path)
      decreases rank(pi.path), 1, 0
    {
      hide RunList, BuildList, Acyclic;
      if pi.rtDeps == None {
        var d := pi.GetDeps(g, rank);
        var topdeps := d.lib + d.run;
        RunListIs(g, rank, pi.path);
        topdeps := AddRunTime(g, topdeps, rank(pi.path), rank);
        pi.rtDeps := Some(topdeps);
      }
      r := pi.rtDeps.value;
    }

    /** The body of either loop: adds what one dependency needs at run time and is not there yet. */
    method AddOne(g: Graph, dep: Path, top: seq<Path>, ghost rank: Path -> nat) returns (topdeps: seq<Path>)
      requires Acyclic(g, rank) && Valid(g, rank)
      modifies this, ports
      ensures Valid(g, rank) && Grows(old(ports))
      ensures topdeps == top + Missing(RunList(g, rank, g.abs(dep)), top)
      decreases rank(g.abs(dep)), 2, 0
    {
      hide PortInfo.Right, Acyclic, RunList;
      var pi := GetPi(g, dep, rank);
      var rt := GetRtDeps(g, pi, rank);
      var botdeps := Filter(rt, top);
      topdeps := top + botdeps;
    }

    /** The loop of `get_rt_deps`. */
    method AddRunTime(g: Graph, top: seq<Path>, ghost bound: nat, ghost rank: Path -> nat) returns (topdeps: seq<Path>)
      requires Acyclic(g, rank) && Valid(g, rank) && forall d :: d in top ==> rank(g.abs(d)) < bound
      modifies this, ports
      ensures Valid(g, rank) && Grows(old(ports)) && topdeps == Extended(g, rank, top, top, bound)
      decreases bound, 0, |top|
    {
      hide PortInfo.Right, Acyclic, RunList;
      topdeps := top;
      var i := 0;
      while i < |top|
        invariant 0 <= i <= |top| && Valid(g, rank) && Grows(old(ports))
        invariant topdeps == Extended(g, rank, top, top[..i], bound)
      {
        assert top[i] in top;
        topdeps := AddOne(g, top[i], topdeps, rank);
        assert top[..i + 1][..i] == top[..i];
        i := i + 1;
      }
      assert top[..i] == top;
    }

    /** `get_bt_deps`. */
    method GetBtDeps(g: Graph, pi: PortInfo, ghost rank: Path -> nat) returns (r: seq<Path>)
      requires Acyclic(g, rank) && Valid(g, rank) && pi in ports
      modifies this, ports
      ensures Valid(g, rank) && Grows(old(ports)) && r == BuildList(g, rank, pi.path)
    {
      hide RunList, Acyclic, ExtendedOver;
      if pi.btDeps == None {
        var d := pi.GetDeps(g, rank);
        var topdeps := d.build + d.lib;
        topdeps := AddBuildTime(g, topdeps, rank);
        pi.btDeps := Some(topdeps);
      }
      r := pi.btDeps.value;
    }

    /** The loop of `get_bt_deps`. */
    method AddBuildTime(g: Graph, top: seq<Path>, ghost rank: Path -> nat) returns (topdeps: seq<Path>)
      requires Acyclic(g, rank) && Valid(g, rank)
      modifies this, ports
      ensures Valid(g, rank) && Grows(old(ports)) && topdeps == ExtendedOver(g, rank, top, top)
    {
      hide PortInfo.Right, Acyclic, RunList;
      topdeps := top;
      var i := 0;
      while i < |top|
        invariant 0 <= i <= |top| && Valid(g, rank) && Grows(old(ports))
        invariant topdeps == ExtendedOver(g, rank, top, top[..i])
      {
        topdeps := AddOne(g, top[i], topdeps, rank);
        assert top[..i + 1][..i] == top[..i];
        i := i + 1;
      }
      assert top[..i] == top;
    }
  }

  lemma RunListIs(g: Graph, rank: Path -> nat, p: Path)
    requires Acyclic(g, rank)
    ensures forall d :: d in RunEdges(g, p) ==> rank(g.abs(d)) < rank(p)
    ensures RunList(g, rank, p) == Extended(g, rank, RunEdges(g, p), RunEdges(g, p), rank(p))
  {
  }

  method Filter(list: seq<Path>, top: seq<Path>) returns (r: seq<Path>)
    ensures r == Missing(list, top)
  {
    r := [];
    var i := 0;
    while i < |list|
      invariant 0 <= i <= |list| && r == Missing(list[..i], top)
    {
      if list[i] !in top {
        r := r + [list[i]];
      }
      assert list[..i + 1][..i] == list[..i];
      i := i + 1;
    }
    assert list[..i] == list;
  }
}
