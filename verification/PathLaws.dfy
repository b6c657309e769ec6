/** The laws of path normalisation, which leave no choice in what it computes, and that runs of slashes do not
    matter. */
module PathLaws {
  import opened PathText

  lemma {:induction false} NormalizeConcat(stack: seq<string>, a: seq<string>, b: seq<string>)
    ensures Normalize(stack, a + b) == Normalize(Normalize(stack, a), b)
    decreases |a|
  {
    hide Enter;
    if a == [] {
      assert a + b == b;
    } else {
      assert (a + b)[0] == a[0] && (a + b)[1..] == a[1..] + b;
      NormalizeConcat(Enter(stack, a[0]), a[1..], b);
    }
  }

  lemma NormalizeOne(stack: seq<string>, c: string)
    ensures Normalize(stack, [c]) == Enter(stack, c)
  {
    hide Enter;
    assert [c][1..] == [];
    assert Normalize(Enter(stack, c), []) == Enter(stack, c);
  }

  lemma NormalizeBetween(a: seq<string>, m: seq<string>, b: seq<string>)
    ensures Normalize([], a + m + b) == Normalize(Normalize(Normalize([], a), m), b)
  {
    NormalizeConcat([], a + m, b);
    NormalizeConcat([], a, m);
  }

  /** "." anywhere can be left out. */
  lemma DotVanishes(a: seq<string>, b: seq<string>)
    ensures Normalize([], a + ["."] + b) == Normalize([], a + b)
  {
    NormalizeBetween(a, ["."], b);
    NormalizeOne(Normalize([], a), ".");
    NormalizeConcat([], a, b);
  }

  /** ".." cancels the proper component in front of it. */
  lemma UpCancels(a: seq<string>, c: string, b: seq<string>)
    requires Proper(c)
    ensures Normalize([], a + [c, ".."] + b) == Normalize([], a + b)
  {
    var stack := Normalize([], a);
    NormalizeBetween(a, [c, ".."], b);
    assert [c] + [".."] == [c, ".."];
    NormalizeConcat(stack, [c], [".."]);
    NormalizeOne(stack, c);
    NormalizeOne(stack + [c], "..");
    assert (stack + [c])[..|stack|] == stack;
    NormalizeConcat([], a, b);
  }

  /** ".." at the top stays at the top. */
  lemma UpAtTop(b: seq<string>)
    ensures Normalize([], [".."] + b) == Normalize([], b)
  {
    NormalizeConcat([], [".."], b);
    NormalizeOne([], "..");
  }

  /** Each component with a run of slashes in front of it. */
  function Spread(comps: seq<string>, runs: seq<nat>, tail: nat): string
    requires |runs| == |comps|
  {
    if comps == [] then Slashes(tail) else Slashes(runs[0]) + comps[0] + Spread(comps[1..], runs[1..], tail)
  }

  function Slashes(n: nat): (s: string)
    ensures |s| == n && forall i :: 0 <= i < n ==> s[i] == SLASH
  {
    seq(n, _ => SLASH)
  }

  /** Components are parted by at least one slash. */
  ghost predicate Parted(comps: seq<string>, runs: seq<nat>) {
    |runs| == |comps| && Nonempty(comps) && forall i :: 0 < i < |runs| ==> runs[i] > 0
  }

  /** However many slashes stand in front, between and behind, the components are found. */
  lemma {:induction false} ComponentsOfSpread(before: string, comps: seq<string>, runs: seq<nat>, tail: nat)
    requires Parted(comps, runs) && (comps != [] && before != "" ==> runs[0] > 0)
    ensures Components(before + Spread(comps, runs, tail), |before|) == comps
    decreases |comps|
  {
    hide Components;
    if comps == [] {
      NoComponent(before, tail);
    } else {
      var rest := Spread(comps[1..], runs[1..], tail);
      var next := before + (Slashes(runs[0]) + comps[0]);
      RestStarts(comps, runs, tail);
      OneComponent(before, runs[0], comps[0], rest);
      assert before + Spread(comps, runs, tail) == next + rest;
      ComponentsOfSpread(next, comps[1..], runs[1..], tail);
    }
  }

  lemma NoComponent(before: string, tail: nat)
    ensures Components(before + Slashes(tail), |before|) == []
  {
    var s := before + Slashes(tail);
    SkipRun(s, |before|, |s|);
  }

  lemma OneComponent(before: string, run: nat, c: string, rest: string)
    requires c != "" && NoSlash(c) && (rest == "" || rest[0] == SLASH)
    ensures var s, end := before + (Slashes(run) + c) + rest, |before| + run + |c|;
            end <= |s| && Components(s, |before|) == [c] + Components(s, end)
  {
    var s, j, end := before + (Slashes(run) + c) + rest, |before| + run, |before| + run + |c|;
    assert forall k :: 0 <= k < |c| ==> s[j + k] == c[k];
    assert s[j..end] == c;
    assert forall k :: |before| <= k < j ==> s[k] == Slashes(run)[k - |before|];
    hide Components;
    SkipRun(s, |before|, j);
    FindSlash(s, j, end);
    ComponentsStep(s, |before|, j, end);
  }

  lemma RestStarts(comps: seq<string>, runs: seq<nat>, tail: nat)
    requires Parted(comps, runs) && comps != []
    ensures var rest := Spread(comps[1..], runs[1..], tail); rest == "" || rest[0] == SLASH
  {
    if |comps| > 1 {
      assert runs[1..][0] == runs[1] > 0;
    }
  }

  lemma {:induction false} SkipRun(s: string, i: nat, j: nat)
    requires i <= j <= |s| && (forall k :: i <= k < j ==> s[k] == SLASH) && (j < |s| ==> s[j] != SLASH)
    ensures SkipSlashes(s, i) == j
    decreases j - i
  {
    if i < j {
      SkipRun(s, i + 1, j);
    }
  }

  lemma {:induction false} FindSlash(s: string, i: nat, j: nat)
    requires i <= j <= |s| && (forall k :: i <= k < j ==> s[k] != SLASH) && (j < |s| ==> s[j] == SLASH)
    ensures NextSlash(s, i) == j
    decreases j - i
  {
    if i < j {
      FindSlash(s, i + 1, j);
    }
  }

  lemma ComponentsStep(s: string, i: nat, j: nat, n: nat)
    requires i <= j < n <= |s| && SkipSlashes(s, i) == j && NextSlash(s, j) == n
    ensures Components(s, i) == [s[j..n]] + Components(s, n)
  {
  }

  /** So a path that is written with superfluous slashes is sanitised as if it had none. */
  lemma SlashesVanish(comps: seq<string>, runs: seq<nat>, tail: nat)
    requires Parted(comps, runs)
    ensures Components(Spread(comps, runs, tail), 0) == comps
  {
    ComponentsOfSpread("", comps, runs, tail);
    assert "" + Spread(comps, runs, tail) == Spread(comps, runs, tail);
  }
}
