/** Paths as lists of components: what `copy_path_relative` is meant to compute. */
module PathText {

  const SLASH := '/'

  ghost predicate NoSlash(s: string) {
    forall i :: 0 <= i < |s| ==> s[i] != SLASH
  }

  /** `while(*p && *p == PATH_CHAR) ++p`. */
  function SkipSlashes(s: string, i: nat): (j: nat)
    requires i <= |s|
    ensures i <= j <= |s| && (j < |s| ==> s[j] != SLASH)
    ensures forall k :: i <= k < j ==> s[k] == SLASH
    decreases |s| - i
  {
    if i < |s| && s[i] == SLASH then SkipSlashes(s, i + 1) else i
  }

  /** `strchr`, or the end of the string. */
  function NextSlash(s: string, i: nat): (j: nat)
    requires i <= |s|
    ensures i <= j <= |s| && (j < |s| ==> s[j] == SLASH)
    ensures forall k :: i <= k < j ==> s[k] != SLASH
    decreases |s| - i
  {
    if i < |s| && s[i] != SLASH then NextSlash(s, i + 1) else i
  }

  /** The components from position `i` on; empty ones do not count. */
  function Components(s: string, i: nat): seq<string>
    requires i <= |s|
    decreases |s| - i
  {
    var j := SkipSlashes(s, i);
    if j == |s| then [] else [s[j..NextSlash(s, j)]] + Components(s, NextSlash(s, j))
  }

  /** What one component does to the path so far: "." nothing, ".." drops the last component if there is one. */
  function Enter(stack: seq<string>, c: string): seq<string> {
    if c == "." then stack
    else if c == ".." then (if stack == [] then [] else stack[..|stack| - 1])
    else stack + [c]
  }

  function Normalize(stack: seq<string>, comps: seq<string>): seq<string>
    decreases |comps|
  {
    if comps == [] then stack else Normalize(Enter(stack, comps[0]), comps[1..])
  }

  function Join(stack: seq<string>): string {
    if stack == [] then ""
    else if |stack| == 1 then stack[0]
    else Join(stack[..|stack| - 1]) + [SLASH] + stack[|stack| - 1]
  }

  /** A component that names something below the directory it stands in. */
  ghost predicate Proper(c: string) {
    c != "" && c != "." && c != ".." && NoSlash(c)
  }

  ghost predicate AllProper(stack: seq<string>) {
    forall i :: 0 <= i < |stack| ==> Proper(stack[i])
  }

  ghost predicate Nonempty(comps: seq<string>) {
    forall i :: 0 <= i < |comps| ==> comps[i] != "" && NoSlash(comps[i])
  }

  lemma {:induction false} ComponentsNonempty(s: string, i: nat)
    requires i <= |s|
    ensures Nonempty(Components(s, i))
    decreases |s| - i
  {
    var j := SkipSlashes(s, i);
    if j < |s| {
      ComponentsNonempty(s, NextSlash(s, j));
    }
  }

  lemma EnterProper(stack: seq<string>, c: string)
    requires AllProper(stack) && c != "" && NoSlash(c)
    ensures AllProper(Enter(stack, c))
  {
  }

  /** Whatever the path: no component of the result is empty, "." or "..", so it never leaves the directory. */
  lemma {:induction false} NormalizeProper(stack: seq<string>, comps: seq<string>)
    requires AllProper(stack) && Nonempty(comps)
    ensures AllProper(Normalize(stack, comps))
    decreases |comps|
  {
    if comps != [] {
      EnterProper(stack, comps[0]);
      NormalizeProper(Enter(stack, comps[0]), comps[1..]);
    }
  }

  lemma {:induction false} NormalizeNothing(stack: seq<string>, comps: seq<string>)
    requires AllProper(comps)
    ensures Normalize(stack, comps) == stack + comps
    decreases |comps|
  {
    if comps == [] {
      assert stack + comps == stack;
    } else {
      assert Proper(comps[0]);
      NormalizeNothing(stack + [comps[0]], comps[1..]);
      assert stack + [comps[0]] + comps[1..] == stack + comps;
    }
  }

  lemma JoinPush(stack: seq<string>, c: string)
    ensures Join(stack + [c]) == if stack == [] then c else Join(stack) + [SLASH] + c
  {
    assert (stack + [c])[..|stack|] == stack;
  }

  lemma {:induction false} JoinEmptyIff(stack: seq<string>)
    requires AllProper(stack)
    ensures Join(stack) == "" <==> stack == []
  {
    if |stack| == 1 {
      assert Proper(stack[0]);
    }
  }

  /** Position of the last slash, or -1 (`strrchr`). */
  function LastSlash(s: string): (k: int)
    ensures -1 <= k < |s| && (k >= 0 ==> s[k] == SLASH)
    ensures forall i :: k < i < |s| ==> s[i] != SLASH
  {
    if s == "" then -1 else if s[|s| - 1] == SLASH then |s| - 1 else LastSlash(s[..|s| - 1])
  }

  /** The textual pop agrees with dropping the last component. */
  lemma LastSlashPops(stack: seq<string>)
    requires AllProper(stack) && stack != []
    ensures var k := LastSlash(Join(stack));
            if |stack| == 1 then k == -1
            else k == |Join(stack[..|stack| - 1])| && Join(stack)[..k] == Join(stack[..|stack| - 1])
  {
    var c := stack[|stack| - 1];
    assert Proper(c);
    var s, k := Join(stack), LastSlash(Join(stack));
    if |stack| > 1 {
      var front := Join(stack[..|stack| - 1]);
      assert s[|front|] == SLASH;
      assert forall i :: |front| < i < |s| ==> s[i] == c[i - |front| - 1];
    }
  }

  lemma NextSlashAt(s: string, i: nat, j: nat)
    requires i <= j <= |s| && (j < |s| ==> s[j] == SLASH) && forall k :: i <= k < j ==> s[k] != SLASH
    ensures NextSlash(s, i) == j
  {
  }

  lemma NoSkip(s: string, i: nat)
    requires i <= |s| && (i < |s| ==> s[i] != SLASH)
    ensures SkipSlashes(s, i) == i
  {
  }

  /** Skipping slashes first changes nothing. */
  lemma ComponentsSkip(s: string, i: nat)
    requires i <= |s|
    ensures Components(s, SkipSlashes(s, i)) == Components(s, i)
  {
    NoSkip(s, SkipSlashes(s, i));
  }

  lemma ComponentsStep(s: string, i: nat)
    requires i < |s| && s[i] != SLASH
    ensures Components(s, i) == [s[i..NextSlash(s, i)]] + Components(s, NextSlash(s, i))
    ensures i < NextSlash(s, i) && NoSlash(s[i..NextSlash(s, i)])
  {
    NoSkip(s, i);
  }

  lemma ComponentsFrom(s: string, i: nat, j: nat, n: nat)
    requires i <= |s| && SkipSlashes(s, i) == j
    requires j < |s| ==> NextSlash(s, j) == n
    ensures j == |s| ==> Components(s, i) == []
    ensures j < |s| ==> j < n <= |s| && Components(s, i) == [s[j..n]] + Components(s, n)
  {
  }

  lemma ComponentsSlash(s: string, i: nat)
    requires i < |s| && s[i] == SLASH
    ensures Components(s, i) == Components(s, i + 1)
  {
  }

  lemma SkipBounds(s: string, i: nat)
    requires i <= |s|
    ensures i <= SkipSlashes(s, i) <= |s|
    ensures SkipSlashes(s, i) < |s| ==> SkipSlashes(s, i) < NextSlash(s, SkipSlashes(s, i)) <= |s|
  {
  }

  /** A string in front of a position does not matter for the components behind it. */
  lemma {:induction false} ComponentsShift(a: string, b: string, i: nat)
    requires i <= |b|
    ensures Components(a + b, |a| + i) == Components(b, i)
    decreases |b| - i
  {
    hide Components, SkipSlashes, NextSlash;
    SkipBounds(b, i);
    var j := SkipSlashes(b, i);
    var n := if j < |b| then NextSlash(b, j) else j;
    SkipShift(a, b, i);
    ComponentsFrom(b, i, j, n);
    if j < |b| {
      NextShift(a, b, j);
      ComponentsShift(a, b, n);
      ShiftSlice(a, b, j, n);
    }
    ComponentsFrom(a + b, |a| + i, |a| + j, |a| + n);
  }

  lemma ShiftSlice(a: string, b: string, j: nat, n: nat)
    requires j <= n <= |b|
    ensures (a + b)[|a| + j..|a| + n] == b[j..n]
  {
  }

  lemma {:induction false} SkipShift(a: string, b: string, i: nat)
    requires i <= |b|
    ensures SkipSlashes(a + b, |a| + i) == |a| + SkipSlashes(b, i)
    decreases |b| - i
  {
    if i < |b| && b[i] == SLASH {
      SkipShift(a, b, i + 1);
    }
  }

  lemma {:induction false} NextShift(a: string, b: string, i: nat)
    requires i <= |b|
    ensures NextSlash(a + b, |a| + i) == |a| + NextSlash(b, i)
    decreases |b| - i
  {
    if i < |b| && b[i] != SLASH {
      NextShift(a, b, i + 1);
    }
  }

  lemma {:induction false} NextInFirst(a: string, b: string, i: nat)
    requires i <= |a| && (b == "" || b[0] == SLASH)
    ensures NextSlash(a + b, i) == NextSlash(a, i)
    decreases |a| - i
  {
    if i < |a| && a[i] != SLASH {
      NextInFirst(a, b, i + 1);
    }
  }

  lemma {:induction false} SkipInFirst(a: string, b: string, i: nat)
    requires i <= |a| && SkipSlashes(a, i) < |a|
    ensures SkipSlashes(a + b, i) == SkipSlashes(a, i)
    decreases |a| - i
  {
    if i < |a| && a[i] == SLASH {
      SkipInFirst(a, b, i + 1);
    }
  }

  /** Splitting at a slash. */
  lemma {:induction false} ComponentsConcat(a: string, c: string, i: nat)
    requires i <= |a| && c != "" && NoSlash(c)
    ensures Components(a + ([SLASH] + c), i) == Components(a, i) + [c]
    decreases |a| - i
  {
    var b := [SLASH] + c;
    var j := SkipSlashes(a, i);
    if j < |a| {
      SkipInFirst(a, b, i);
      NextInFirst(a, b, j);
      ComponentsConcat(a, c, NextSlash(a, j));
      assert (a + b)[j..NextSlash(a, j)] == a[j..NextSlash(a, j)];
    } else {
      ComponentsOfTail(a, c, i);
    }
  }

  lemma {:induction false} ComponentsOfTail(a: string, c: string, i: nat)
    requires i <= |a| && c != "" && NoSlash(c) && SkipSlashes(a, i) == |a|
    ensures Components(a + ([SLASH] + c), i) == [c]
    decreases |a| - i
  {
    var s := a + ([SLASH] + c);
    if i < |a| {
      assert a[i] == SLASH;
      ComponentsOfTail(a, c, i + 1);
      ComponentsSlash(s, i);
    } else {
      ComponentsShift(a + [SLASH], c, 0);
      assert a + [SLASH] + c == s;
      ComponentsSlash(s, i);
      ComponentsWhole(c);
    }
  }

  lemma ComponentsWhole(c: string)
    requires c != "" && NoSlash(c)
    ensures Components(c, 0) == [c]
  {
    NextSlashAt(c, 0, |c|);
    NoSkip(c, 0);
    NoSkip(c, |c|);
    assert c[0..|c|] == c;
  }

  /** Splitting undoes joining. */
  lemma {:induction false} ComponentsOfJoin(stack: seq<string>)
    requires Nonempty(stack)
    ensures Components(Join(stack), 0) == stack
  {
    if |stack| == 1 {
      ComponentsWhole(stack[0]);
    } else if |stack| > 1 {
      var front, c := stack[..|stack| - 1], stack[|stack| - 1];
      ComponentsOfJoin(front);
      ComponentsConcat(Join(front), c, 0);
      assert Join(stack) == Join(front) + ([SLASH] + c);
      assert front + [c] == stack;
    }
  }

  /** The sanitised form of a path. */
  function Sanitized(s: string): string {
    Join(Normalize([], Components(s, 0)))
  }

  /** Sanitising is idempotent, and its result has only proper components. */
  lemma SanitizedIdempotent(s: string)
    ensures AllProper(Components(Sanitized(s), 0))
    ensures Sanitized(Sanitized(s)) == Sanitized(s)
  {
    ComponentsNonempty(s, 0);
    NormalizeProper([], Components(s, 0));
    var stack := Normalize([], Components(s, 0));
    ComponentsOfJoin(stack);
    NormalizeNothing([], stack);
    assert [] + stack == stack;
  }
}
