/** `copy_path_relative`: the path normaliser that works in place in the destination buffer. */
module Sanitize {
  import opened CStrings
  import opened PathText

  /** What the buffer of size `len` ends up with when the components `comps` are entered into the path so far:
      the first path that does not fit is cut off, and nothing after it is looked at. */
  function Fitted(stack: seq<string>, comps: seq<string>, len: nat): string
    decreases |comps|
  {
    if comps == [] then Join(stack)
    else
      var next := Enter(stack, comps[0]);
      if |Join(next)| >= len > 0 then Join(next)[..len - 1] else Fitted(next, comps[1..], len)
  }

  /** Length of the path while it is being built, at its longest. */
  function Peak(stack: seq<string>, comps: seq<string>): nat
    decreases |comps|
  {
    if comps == [] then |Join(stack)|
    else
      var rest := Peak(Enter(stack, comps[0]), comps[1..]);
      if |Join(stack)| > rest then |Join(stack)| else rest
  }

  /** The buffer holds the whole normalised path whenever the path never outgrows it on the way. */
  lemma {:induction false} FittedWhole(stack: seq<string>, comps: seq<string>, len: nat)
    requires Peak(stack, comps) < len
    ensures Fitted(stack, comps, len) == Join(Normalize(stack, comps))
    decreases |comps|
  {
    hide Join, Enter;
    if comps != [] {
      FittedWhole(Enter(stack, comps[0]), comps[1..], len);
      PeakCovers(Enter(stack, comps[0]), comps[1..]);
    }
  }

  lemma PeakCovers(stack: seq<string>, comps: seq<string>)
    ensures |Join(stack)| <= Peak(stack, comps)
  {
  }

  lemma EnterLength(stack: seq<string>, c: string)
    ensures |Join(Enter(stack, c))| <= |Join(stack)| + (if stack == [] then 0 else 1) + |c|
  {
    if c != "." && c != ".." {
      JoinPush(stack, c);
    }
  }

  /** The path is never longer than the part of the source it came from. */
  lemma {:induction false} PeakAtMost(stack: seq<string>, s: string, i: nat)
    requires i <= |s| && |Join(stack)| <= i
    requires stack != [] && i < |s| ==> s[i] == SLASH
    ensures Peak(stack, Components(s, i)) <= |s|
    decreases |s| - i
  {
    hide Join, Enter;
    var j := SkipSlashes(s, i);
    if j < |s| {
      var n := NextSlash(s, j);
      var c := s[j..n];
      EnterLength(stack, c);
      if i < |s| && s[i] == SLASH {
        SkipAtLeast(s, i);
      }
      assert Components(s, i) == [c] + Components(s, n);
      PeakAtMost(Enter(stack, c), s, n);
    }
  }

  lemma SkipAtLeast(s: string, i: nat)
    requires i < |s| && s[i] == SLASH
    ensures SkipSlashes(s, i) > i
  {
  }

  /** A buffer longer than the source is always enough. */
  lemma ShortSourceFits(s: string, len: nat)
    requires |s| < len
    ensures Fitted([], Components(s, 0), len) == Sanitized(s)
  {
    PeakAtMost([], s, 0);
    FittedWhole([], Components(s, 0), len);
  }

  /** The first path on the way that does not fit. */
  function FirstTooLong(stack: seq<string>, comps: seq<string>, len: nat): (path: string)
    requires |Join(stack)| < len <= Peak(stack, comps)
    ensures |path| >= len
    decreases |comps|
  {
    var next := Enter(stack, comps[0]);
    if |Join(next)| >= len then Join(next) else FirstTooLong(next, comps[1..], len)
  }

  /** A path that outgrows the buffer on the way always fills it to the last byte before the terminator. */
  lemma {:induction false} FittedCut(stack: seq<string>, comps: seq<string>, len: nat)
    requires |Join(stack)| < len <= Peak(stack, comps)
    ensures Fitted(stack, comps, len) == FirstTooLong(stack, comps, len)[..len - 1]
    decreases |comps|
  {
    hide Join, Enter;
    var next := Enter(stack, comps[0]);
    if |Join(next)| < len {
      FittedCut(next, comps[1..], len);
    }
  }

  /** The exact condition: the buffer ends up with the normalised path if and only if the path never outgrew it on
      the way, or the cut happens to leave just the normalised path. */
  lemma SanitizedIff(s: string, len: nat)
    requires len > 0
    ensures Fitted([], Components(s, 0), len) == Sanitized(s)
            <==> (Peak([], Components(s, 0)) >= len ==>
                    FirstTooLong([], Components(s, 0), len)[..len - 1] == Sanitized(s))
  {
    hide Fitted, Peak, Components, Normalize;
    assert Join([]) == "";
    var comps := Components(s, 0);
    if Peak([], comps) < len {
      FittedWhole([], comps, len);
    } else {
      FittedCut([], comps, len);
    }
  }

  /** That coincidence needs a normalised path which exactly fills the buffer. For every other path the condition
      is that it never outgrows the buffer on the way. */
  lemma SanitizedIffPeak(s: string, len: nat)
    requires len > 0 && |Sanitized(s)| != len - 1
    ensures Fitted([], Components(s, 0), len) == Sanitized(s) <==> Peak([], Components(s, 0)) < len
  {
    hide Fitted, Peak, Components, Normalize;
    assert Join([]) == "";
    var comps := Components(s, 0);
    if Peak([], comps) < len {
      FittedWhole([], comps, len);
    } else {
      FittedCut([], comps, len);
    }
  }

  /** When it is not, the result can differ from the normalised path: here 4 bytes for "a/bb/..". */
  lemma ShortBufferCuts()
    ensures Fitted([], Components("a/bb/..", 0), 4) == "a/b"
    ensures Sanitized("a/bb/..") == "a"
  {
    ExampleJoins();
    ComponentsOfJoin(["a", "bb", ".."]);
    ExampleFitted();
    ExampleNormal();
    hide Fitted, Components, Join, Normalize;
  }

  /** And the coincidence does occur: with 4 bytes "a/bbb" is cut to "a/b", which is what "a/bbb/../b" comes to. */
  lemma CutCanCoincide()
    ensures Peak([], Components("a/bbb/../b", 0)) >= 4
    ensures Fitted([], Components("a/bbb/../b", 0), 4) == Sanitized("a/bbb/../b") == "a/b"
  {
    LongJoins();
    ComponentsOfJoin(["a", "bbb", "..", "b"]);
    CoincidenceCut();
    CoincidenceNormal();
    hide Components, Join, Peak, Fitted, Normalize;
  }

  lemma CoincidenceCut()
    ensures Peak([], ["a", "bbb", "..", "b"]) >= 4
    ensures Fitted([], ["a", "bbb", "..", "b"], 4) == "a/b"
  {
    var rest := ["bbb", "..", "b"];
    LongJoins();
    hide Join, Fitted;
    assert Enter([], "a") == ["a"] && Enter(["a"], "bbb") == ["a", "bbb"];
    assert ["a"] + rest == ["a", "bbb", "..", "b"] && ["bbb"] + ["..", "b"] == rest;
    hide Enter;
    EntersNext([], "a", rest, 4);
    EntersNext(["a"], "bbb", ["..", "b"], 4);
    assert "a/bbb"[..3] == "a/b";
    PeakNext([], "a", rest);
    PeakNext(["a"], "bbb", ["..", "b"]);
    PeakCovers(["a", "bbb"], ["..", "b"]);
  }

  lemma PeakNext(stack: seq<string>, c: string, rest: seq<string>)
    ensures Peak(stack, [c] + rest) >= Peak(Enter(stack, c), rest)
  {
    hide Join, Enter;
    assert ([c] + rest)[1..] == rest;
  }

  lemma CoincidenceNormal()
    ensures Join(Normalize([], ["a", "bbb", "..", "b"])) == "a/b"
  {
    LongJoins();
    hide Join;
    assert Enter([], "a") == ["a"] && Enter(["a"], "bbb") == ["a", "bbb"];
    assert Enter(["a", "bbb"], "..") == ["a"] && Enter(["a"], "b") == ["a", "b"];
    hide Enter;
    assert ["a", "bbb", "..", "b"][1..] == ["bbb", "..", "b"] && ["bbb", "..", "b"][1..] == ["..", "b"];
    assert ["..", "b"][1..] == ["b"] && ["b"][1..] == [];
    assert Normalize(["a"], ["b"]) == ["a", "b"];
    assert Normalize(["a", "bbb"], ["..", "b"]) == ["a", "b"];
    assert Normalize(["a"], ["bbb", "..", "b"]) == ["a", "b"];
  }

  lemma LongJoins()
    ensures Join([]) == "" && Join(["a"]) == "a" && Join(["a", "bbb"]) == "a/bbb" && Join(["a", "b"]) == "a/b"
    ensures Join(["a", "bbb", "..", "b"]) == "a/bbb/../b"
  {
    JoinPush(["a"], "bbb");
    JoinPush(["a"], "b");
    JoinPush(["a", "bbb"], "..");
    JoinPush(["a", "bbb", ".."], "b");
    assert ["a"] + ["bbb"] == ["a", "bbb"] && ["a"] + ["b"] == ["a", "b"];
    assert ["a", "bbb"] + [".."] == ["a", "bbb", ".."] && ["a", "bbb", ".."] + ["b"] == ["a", "bbb", "..", "b"];
    hide Join;
    assert "a" + [SLASH] + "bbb" == "a/bbb" && "a" + [SLASH] + "b" == "a/b";
    assert "a/bbb" + [SLASH] + ".." == "a/bbb/.." && "a/bbb/.." + [SLASH] + "b" == "a/bbb/../b";
  }

  lemma ExampleJoins()
    ensures Join(["a"]) == "a" && Join(["a", "bb"]) == "a/bb" && Join(["a", "bb", ".."]) == "a/bb/.."
  {
    JoinPush(["a"], "bb");
    JoinPush(["a", "bb"], "..");
    assert ["a"] + ["bb"] == ["a", "bb"] && ["a", "bb"] + [".."] == ["a", "bb", ".."];
    hide Join;
    assert "a" + [SLASH] + "bb" == "a/bb" && "a/bb" + [SLASH] + ".." == "a/bb/..";
  }

  lemma ExampleFitted()
    ensures Fitted([], ["a", "bb", ".."], 4) == "a/b"
  {
    ExampleJoins();
    hide Join, Fitted;
    EntersNext([], "a", ["bb", ".."], 4);
    EntersNext(["a"], "bb", [".."], 4);
    assert ["a"] + ["bb", ".."] == ["a", "bb", ".."] && ["bb"] + [".."] == ["bb", ".."];
    assert Enter([], "a") == ["a"] && Enter(["a"], "bb") == ["a", "bb"];
    assert "a/bb"[..3] == "a/b";
  }

  lemma ExampleNormal()
    ensures Join(Normalize([], ["a", "bb", ".."])) == "a"
  {
    var comps := ["a", "bb", ".."];
    assert comps[1..] == ["bb", ".."] && ["bb", ".."][1..] == [".."] && [".."][1..] == [];
    assert Enter([], "a") == ["a"] && Enter(["a"], "bb") == ["a", "bb"];
    assert Enter(["a", "bb"], "..") == ["a"];
    hide Enter;
    assert Normalize(["a"], []) == ["a"];
    assert Normalize(["a", "bb"], [".."]) == ["a"];
    assert Normalize(["a"], ["bb", ".."]) == ["a"];
  }

  method FindSlash(s: string, i: nat) returns (p: nat)
    requires i <= |s|
    ensures p == NextSlash(s, i)
  {
    p := i;
    while p < |s| && s[p] != SLASH
      invariant i <= p <= |s| && NextSlash(s, i) == NextSlash(s, p)
    {
      p := p + 1;
    }
  }

  method Skip(s: string, i: nat) returns (p: nat)
    requires i <= |s|
    ensures p == SkipSlashes(s, i)
  {
    p := i;
    while p < |s| && s[p] == SLASH
      invariant i <= p <= |s| && SkipSlashes(s, i) == SkipSlashes(s, p)
    {
      p := p + 1;
    }
  }

  /** `strrchr(dest, PATH_CHAR)` for a buffer that holds `o` characters; -1 for NULL. */
  method FindLastSlash(dest: array<char>, o: nat) returns (k: int)
    requires o <= dest.Length
    ensures k == LastSlash(dest[..o])
  {
    k := o - 1;
    while k >= 0 && dest[k] != SLASH
      invariant -1 <= k < o
      invariant LastSlash(dest[..o]) == LastSlash(dest[..k + 1])
    {
      assert dest[..k + 1][..k] == dest[..k];
      k := k - 1;
    }
    if k >= 0 {
      assert dest[..k + 1][..k] == dest[..k];
    }
  }

  method CopyChars(dest: array<char>, o: nat, src: string, i: nat, count: nat, ghost size: nat)
    requires o + count <= size <= dest.Length && i + count <= |src|
    modifies dest
    ensures dest[..o + count] == old(dest[..o]) + src[i..i + count]
    ensures dest[size..] == old(dest[size..])
  {
    var k := 0;
    while k < count
      invariant 0 <= k <= count
      invariant dest[..o + k] == old(dest[..o]) + src[i..i + k]
      invariant dest[size..] == old(dest[size..])
    {
      ghost var before := dest[..o + k];
      dest[o + k] := src[i + k];
      assert dest[..o + k + 1] == before + [src[i + k]];
      assert src[i..i + k + 1] == src[i..i + k] + [src[i + k]];
      k := k + 1;
    }
  }

  method PutSlash(dest: array<char>, o: nat, ghost size: nat)
    requires o < size <= dest.Length
    modifies dest
    ensures dest[..o + 1] == old(dest[..o]) + [SLASH] && dest[size..] == old(dest[size..])
  {
    dest[o] := SLASH;
  }

  /** The branch that enters an ordinary component: a separator, then as much of the component as fits. `len` is
      the room left of the `size` bytes that the caller granted. */
  method Push(dest: array<char>, o: nat, len: nat, src: string, at: nat, p: nat, ghost size: nat,
              ghost stack: seq<string>) returns (o': nat, len': nat)
    requires o + len == size <= dest.Length && len > 0
    requires at < p <= |src| && AllProper(stack) && Proper(src[at..p]) && dest[..o] == Join(stack)
    modifies dest
    ensures o' + len' == size && dest[size..] == old(dest[size..])
    ensures var path := Join(stack + [src[at..p]]);
            if |path| < size then o' == |path| && dest[..o'] == path else len' == 0 && dest[..size] == path[..size]
  {
    var c := src[at..p];
    hide Join, AllProper;
    o', len' := Separate(dest, o, len, size, stack, c);
    ghost var head := dest[..o'];
    var copy := if p - at < len' then p - at else len';
    CopyChars(dest, o', src, at, copy, size);
    CutEarly(head, src, at, p, copy);
    len' := len' - copy;
    o' := o' + copy;
  }

  lemma CutEarly(head: string, src: string, at: nat, p: nat, copy: nat)
    requires at <= p <= |src| && at + copy <= p
    ensures head + src[at..at + copy] == (head + src[at..p])[..|head| + copy]
  {
  }

  /** The separator, except in front of the first component. */
  method Separate(dest: array<char>, o: nat, len: nat, ghost size: nat, ghost stack: seq<string>, ghost c: string)
    returns (o': nat, len': nat)
    requires o + len == size <= dest.Length && len > 0 && AllProper(stack) && dest[..o] == Join(stack)
    modifies dest
    ensures o' + len' == size && dest[size..] == old(dest[size..])
    ensures dest[..o'] + c == Join(stack + [c])
  {
    JoinPush(stack, c);
    JoinEmptyIff(stack);
    hide Join, AllProper;
    o', len' := o, len;
    if o' != 0 {
      len' := len' - 1;
      PutSlash(dest, o', size);
      o' := o' + 1;
    }
  }

  /** The branch for "..": cuts the path off at its last slash, or drops all of it. */
  method Pop(dest: array<char>, o: nat, len: nat, ghost size: nat, ghost stack: seq<string>)
    returns (o': nat, len': nat)
    requires o + len == size <= dest.Length && len > 0 && AllProper(stack) && dest[..o] == Join(stack)
    modifies dest
    ensures o' + len' == size && len' >= len && dest[size..] == old(dest[size..])
    ensures dest[..o'] == Join(Enter(stack, ".."))
  {
    JoinEmptyIff(stack);
    o', len' := o, len;
    if o != 0 {
      dest[o] := '\0';
      LastSlashPops(stack);
      var tmp := FindLastSlash(dest, o);
      if tmp == -1 {
        len' := len' + o;
        o' := 0;
      } else {
        assert dest[..tmp] == dest[..o][..tmp];
        len' := len' + (o - tmp);
        o' := tmp;
      }
    }
  }

  /** `copy_path_relative`, for a buffer of which `len` bytes may be used. All accesses are within them, the result
      is terminated, and it is the normalised path, or the first path on the way that does not fit, cut off. */
  method CopyPathRelative(dest: array<char>, src: string, len: nat)
    requires 1 <= len <= dest.Length && CString(src)
    modifies dest
    ensures Holds(dest[..len], Fitted([], Components(src, 0), len))
    ensures dest[len..] == old(dest[len..])
    ensures |src| < len ==> Holds(dest[..len], Sanitized(src))
  {
    hide Fitted, Join, Components, AllProper;
    var o, left := 0, len;
    dest[o] := '\0';
    var p := Skip(src, 0);
    ComponentsSkip(src, 0);
    ghost var stack: seq<string> := [];
    ghost var result := Fitted([], Components(src, 0), len);
    StartsEmpty();
    while left != 0 && p < |src|
      invariant 0 <= o && 0 <= left && o + left == len && p <= |src| && (p < |src| ==> src[p] != SLASH)
      invariant AllProper(stack) && dest[len..] == old(dest[len..])
      invariant left > 0 ==> dest[..o] == Join(stack) && result == Fitted(stack, Components(src, p), len)
      invariant left == 0 ==> result == dest[..len - 1]
      decreases |src| - p
    {
      o, left, p, stack := CopyComponent(dest, o, left, src, p, len, stack, result);
      ComponentsSkip(src, p);
      p := Skip(src, p);
    }
    if left > 0 {
      NothingLeft(src, p, stack, len);
    }
    Terminate(dest, o, left, len, result);
    if |src| < len {
      ShortSourceFits(src, len);
    }
  }

  /** `o[len?0:-1] = '\0'`. */
  method Terminate(dest: array<char>, o: nat, len: nat, ghost size: nat, ghost result: string)
    requires o + len == size <= dest.Length && size > 0
    requires if len > 0 then result == dest[..o] else result == dest[..size - 1]
    modifies dest
    ensures Holds(dest[..size], result) && dest[size..] == old(dest[size..])
  {
    var at := if len != 0 then o else o - 1;
    dest[at] := '\0';
    assert dest[..size][..at] == result;
  }

  /** The body of the loop. */
  method CopyComponent(dest: array<char>, o: nat, len: nat, src: string, at: nat, ghost size: nat,
                       ghost stack: seq<string>, ghost result: string)
    returns (o': nat, len': nat, p: nat, ghost stack': seq<string>)
    requires o + len == size <= dest.Length && len > 0 && at < |src| && src[at] != SLASH && AllProper(stack)
    requires dest[..o] == Join(stack) && result == Fitted(stack, Components(src, at), size)
    modifies dest
    ensures at < p <= |src| && o' + len' == size && AllProper(stack') && dest[size..] == old(dest[size..])
    ensures len' > 0 ==> dest[..o'] == Join(stack') && result == Fitted(stack', Components(src, p), size)
    ensures len' == 0 ==> result == dest[..size - 1]
  {
    hide Fitted, Join, Components, AllProper, Enter;
    ComponentsStep(src, at);
    p := FindSlash(src, at);
    ghost var c := src[at..p];
    EntersNext(stack, c, Components(src, p), size);
    EnterKeepsProper(stack, c);
    stack' := Enter(stack, c);
    o', len' := o, len;
    if p - at == 1 && src[at] == '.' {
      EnterDot(stack, c);
    } else if p - at == 2 && src[at] == '.' && src[at + 1] == '.' {
      EnterDots(stack, c);
      o', len' := Pop(dest, o, len, size, stack);
    } else {
      EnterName(stack, c);
      o', len' := Push(dest, o, len, src, at, p, size, stack);
      if len' == 0 {
        assert dest[..size - 1] == dest[..size][..size - 1];
      }
    }
    if p < |src| {
      ComponentsSlash(src, p);
      p := p + 1;
    }
  }

  lemma StartsEmpty()
    ensures AllProper([]) && Join([]) == ""
  {
  }

  lemma NothingLeft(src: string, p: nat, stack: seq<string>, len: nat)
    requires p == |src|
    ensures Fitted(stack, Components(src, p), len) == Join(stack)
  {
  }

  lemma EntersNext(stack: seq<string>, c: string, rest: seq<string>, len: nat)
    requires len > 0
    ensures Fitted(stack, [c] + rest, len)
         == (var next := Join(Enter(stack, c));
             if |next| >= len then next[..len - 1] else Fitted(Enter(stack, c), rest, len))
  {
    hide Join, Enter;
    assert ([c] + rest)[1..] == rest;
  }

  lemma EnterKeepsProper(stack: seq<string>, c: string)
    requires AllProper(stack) && c != "" && NoSlash(c)
    ensures AllProper(Enter(stack, c))
  {
  }

  lemma EnterDot(stack: seq<string>, c: string)
    requires |c| == 1 && c[0] == '.'
    ensures Enter(stack, c) == stack
  {
    assert c == ".";
  }

  lemma EnterDots(stack: seq<string>, c: string)
    requires |c| == 2 && c[0] == '.' && c[1] == '.'
    ensures c == ".."
  {
  }

  lemma EnterName(stack: seq<string>, c: string)
    requires c != "" && NoSlash(c) && !(|c| == 1 && c[0] == '.') && !(|c| == 2 && c[0] == '.' && c[1] == '.')
    ensures Proper(c) && Enter(stack, c) == stack + [c]
  {
  }
}
