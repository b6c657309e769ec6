/** Path data as the grammar of section 8.3 of SVG 1.1 sees it: commands, each a letter with groups of arguments.
    The item machine, which knows only a letter and a growing list of numbers, performs exactly them. */
module PathGrammar {
  import opened PathLexer
  import opened PathData

  datatype Command = Command(letter: char, groups: seq<seq<string>>)

  ghost predicate NumberGroup(g: seq<string>, n: int) {
    |g| == n && forall i :: 0 <= i < |g| ==> g[i] != "" && IsCoordinate(g[i])
  }

  /** A known letter with at least one full group of arguments, or with none if it takes none. */
  ghost predicate Legal(c: Command) {
    var n := ArgsPerElement(c.letter);
    && n >= 0 && (n == 0 <==> c.groups == [])
    && forall i :: 0 <= i < |c.groups| ==> NumberGroup(c.groups[i], n)
  }

  /** The items of a command in order. */
  function Tokens(c: Command): seq<string> {
    [[c.letter]] + Flat(c.groups)
  }

  function Flat(groups: seq<seq<string>>): seq<string> {
    if groups == [] then [] else groups[0] + Flat(groups[1..])
  }

  function AllTokens(doc: seq<Command>): seq<string> {
    if doc == [] then [] else Tokens(doc[0]) + AllTokens(doc[1..])
  }

  ghost predicate Items(items: seq<string>) {
    forall i :: 0 <= i < |items| ==> items[i] != ""
  }

  /** The machine fed with a list of items. */
  ghost function FeedAll(env: Env, st: PathState, items: seq<string>): PathState
    requires Items(items)
    decreases |items|
  {
    if items == [] then st else FeedAll(env, Feed(env, st, items[0]), items[1..])
  }

  lemma {:induction false} FeedConcat(env: Env, st: PathState, a: seq<string>, b: seq<string>)
    requires Items(a) && Items(b)
    ensures Items(a + b) && FeedAll(env, st, a + b) == FeedAll(env, FeedAll(env, st, a), b)
    decreases |a|
  {
    hide Feed;
    if a == [] {
      assert a + b == b;
    } else {
      assert (a + b)[1..] == a[1..] + b;
      FeedConcat(env, Feed(env, st, a[0]), a[1..], b);
    }
  }

  function Values(env: Env, g: seq<string>): (r: seq<real>)
    ensures |r| == |g| && forall i :: 0 <= i < |g| ==> r[i] == env.atof(g[i])
  {
    seq(|g|, i requires 0 <= i < |g| => env.atof(g[i]))
  }

  /** Executing each group; a moveto continues as a lineto. */
  ghost function Perform(env: Env, st: PathState, groups: seq<seq<string>>): PathState
    requires forall i :: 0 <= i < |groups| ==> NumberGroup(groups[i], Rargs(st.cmd))
    decreases |groups|
  {
    if groups == [] then st
    else
      assert NumberGroup(groups[0], Rargs(st.cmd));
      var next := Execute(env, st, Values(env, groups[0]));
      ExecuteArity(env, st, Values(env, groups[0]));
      Perform(env, next, groups[1..])
  }

  lemma ExecuteArity(env: Env, st: PathState, a: seq<real>)
    requires |a| >= Rargs(st.cmd)
    ensures var next := Execute(env, st, a);
            && Rargs(next.cmd) == Rargs(st.cmd) && next.args == []
            && (st.cmd in "mM" || st.started ==> next.started) && (next.cmd == '\0' <==> st.cmd == '\0')
  {
    hide Drawn;
  }

  ghost predicate Continues(st: PathState, doc: seq<Command>) {
    st.started || doc == [] || doc[0].letter in "mM"
  }

  lemma BeginLegal(env: Env, st: PathState, c: Command)
    requires Legal(c) && st.args == [] && (st.started || c.letter in "mM")
    ensures var next := Begin(env, st, c.letter);
            next.cmd == c.letter != '\0' && next.args == [] && (next.started <==> st.started)
    ensures !IsCoordinate([c.letter])
  {
    hide Committed;
  }

  /** All commands of the data, one after the other. */
  ghost function PerformAll(env: Env, st: PathState, doc: seq<Command>): PathState
    requires (forall i :: 0 <= i < |doc| ==> Legal(doc[i])) && Continues(st, doc) && st.args == []
    decreases |doc|
  {
    if doc == [] then st
    else
      BeginLegal(env, st, doc[0]);
      var next := Perform(env, Begin(env, st, doc[0].letter), doc[0].groups);
      PerformKeeps(env, Begin(env, st, doc[0].letter), doc[0].groups);
      PerformAll(env, next, doc[1..])
  }

  lemma {:induction false} PerformKeeps(env: Env, st: PathState, groups: seq<seq<string>>)
    requires forall i :: 0 <= i < |groups| ==> NumberGroup(groups[i], Rargs(st.cmd))
    requires st.args == []
    ensures var next := Perform(env, st, groups);
            next.args == [] && (st.started || (st.cmd in "mM" && groups != []) ==> next.started)
    decreases |groups|
  {
    hide Execute;
    if groups != [] {
      ExecuteArity(env, st, Values(env, groups[0]));
      PerformKeeps(env, Execute(env, st, Values(env, groups[0])), groups[1..]);
    }
  }

  lemma ExecuteForgets(env: Env, st: PathState, k: seq<real>, a: seq<real>)
    requires |a| >= Rargs(st.cmd)
    ensures Execute(env, st.(args := k), a) == Execute(env, st, a)
  {
    hide Drawn;
  }

  /** Numbers are collected until the command is complete, and then it is executed. */
  lemma {:induction false} FeedGroup(env: Env, st: PathState, g: seq<string>, k: nat)
    requires st.cmd != '\0' && Rargs(st.cmd) == |g| && k < |g| && NumberGroup(g, |g|)
    requires st.args == Values(env, g)[..k]
    ensures FeedAll(env, st, g[k..]) == Execute(env, st.(args := []), Values(env, g))
    decreases |g| - k
  {
    hide Execute, Rargs;
    var a := st.args + [env.atof(g[k])];
    assert a == Values(env, g)[..k + 1];
    assert g[k..][1..] == g[k + 1..];
    assert Feed(env, st, g[k]) == if |a| >= Rargs(st.cmd) then Execute(env, st, a) else st.(args := a);
    if k + 1 == |g| {
      assert a == Values(env, g);
      ExecuteForgets(env, st.(args := []), st.args, a);
      assert st.(args := []).(args := st.args) == st;
      assert g[k + 1..] == [];
    } else {
      FeedGroup(env, st.(args := a), g, k + 1);
    }
  }

  lemma {:induction false} FeedGroups(env: Env, st: PathState, groups: seq<seq<string>>)
    requires st.cmd != '\0' && Rargs(st.cmd) > 0 && st.args == []
    requires forall i :: 0 <= i < |groups| ==> NumberGroup(groups[i], Rargs(st.cmd))
    ensures Items(Flat(groups)) && FeedAll(env, st, Flat(groups)) == Perform(env, st, groups)
    decreases |groups|
  {
    hide Feed, Execute;
    if groups != [] {
      var g := groups[0];
      ExecuteArity(env, st, Values(env, g));
      FeedGroup(env, st, g, 0);
      assert g[0..] == g;
      assert st.(args := []) == st;
      FeedGroups(env, Execute(env, st, Values(env, g)), groups[1..]);
      FeedConcat(env, st, g, Flat(groups[1..]));
    }
  }

  lemma FeedCommand(env: Env, st: PathState, c: Command)
    requires Legal(c) && st.args == [] && (st.started || c.letter in "mM")
    ensures Items(Tokens(c))
    ensures forall i :: 0 <= i < |c.groups| ==> NumberGroup(c.groups[i], Rargs(Begin(env, st, c.letter).cmd))
    ensures FeedAll(env, st, Tokens(c)) == Perform(env, Begin(env, st, c.letter), c.groups)
  {
    BeginLegal(env, st, c);
    hide Begin;
    var next := Begin(env, st, c.letter);
    assert Feed(env, st, [c.letter]) == next;
    hide Feed, FeedAll;
    if c.groups == [] {
      assert Tokens(c) == [[c.letter]];
      FeedOne(env, st, [c.letter]);
    } else {
      FeedGroups(env, next, c.groups);
      FeedOne(env, st, [c.letter]);
      FeedConcat(env, st, [[c.letter]], Flat(c.groups));
    }
  }

  lemma FeedOne(env: Env, st: PathState, item: string)
    requires item != ""
    ensures FeedAll(env, st, [item]) == Feed(env, st, item)
  {
    hide Feed;
  }

  /** The machine performs the grammar: for legal path data that begins with a moveto, feeding its items one by
      one is executing its commands group by group, with implicit repetition, and linetos after a moveto. */
  lemma {:induction false} MachinePerformsGrammar(env: Env, st: PathState, doc: seq<Command>)
    requires (forall i :: 0 <= i < |doc| ==> Legal(doc[i])) && Continues(st, doc) && st.args == []
    ensures Items(AllTokens(doc)) && FeedAll(env, st, AllTokens(doc)) == PerformAll(env, st, doc)
    decreases |doc|
  {
    hide Feed, Execute, Begin, Tokens;
    if doc != [] {
      var c := doc[0];
      BeginLegal(env, st, c);
      FeedCommand(env, st, c);
      var next := Perform(env, Begin(env, st, c.letter), c.groups);
      PerformKeeps(env, Begin(env, st, c.letter), c.groups);
      MachinePerformsGrammar(env, next, doc[1..]);
      FeedConcat(env, st, Tokens(c), AllTokens(doc[1..]));
    }
  }
}
