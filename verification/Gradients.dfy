/** Gradient stops: `nsvg__parseGradientStop`, which inserts each new stop in place so that the list stays
    sorted by offset. */
module Gradients {
  import opened Blend

  datatype Stop = Stop(color: Color, offset: real)

  ghost predicate SortedStops(s: seq<Stop>) {
    forall i, j :: 0 <= i < j < |s| ==> s[i].offset <= s[j].offset
  }

  /** Where the search loop stops: the first stop with a strictly larger offset, or the end. */
  function PlaceOf(s: seq<Stop>, offset: real): (k: nat)
    ensures k <= |s|
    ensures forall i :: 0 <= i < k ==> s[i].offset <= offset
    ensures k < |s| ==> offset < s[k].offset
  {
    if s == [] || offset < s[0].offset then 0 else 1 + PlaceOf(s[1..], offset)
  }

  function Inserted(s: seq<Stop>, stop: Stop): seq<Stop> {
    var k := PlaceOf(s, stop.offset);
    s[..k] + [stop] + s[k..]
  }

  /** The list after a whole run of insertions, in document order. */
  function Parsed(stops: seq<Stop>): seq<Stop> {
    if stops == [] then [] else Inserted(Parsed(stops[..|stops| - 1]), stops[|stops| - 1])
  }

  lemma InsertedSorted(s: seq<Stop>, stop: Stop)
    requires SortedStops(s)
    ensures SortedStops(Inserted(s, stop))
  {
    var k := PlaceOf(s, stop.offset);
    assert forall j :: k <= j < |s| ==> stop.offset <= s[j].offset;
  }

  lemma InsertedContents(s: seq<Stop>, stop: Stop)
    ensures multiset(Inserted(s, stop)) == multiset(s) + multiset{stop}
  {
    var k := PlaceOf(s, stop.offset);
    assert s == s[..k] + s[k..];
  }

  function WithOffset(s: seq<Stop>, offset: real): seq<Stop> {
    if s == [] then []
    else WithOffset(s[..|s| - 1], offset) + (if s[|s| - 1].offset == offset then [s[|s| - 1]] else [])
  }

  lemma {:induction false} WithOffsetConcat(a: seq<Stop>, b: seq<Stop>, offset: real)
    ensures WithOffset(a + b, offset) == WithOffset(a, offset) + WithOffset(b, offset)
    decreases |b|
  {
    if b == [] {
      assert a + b == a;
    } else {
      assert (a + b)[..|a + b| - 1] == a + b[..|b| - 1];
      WithOffsetConcat(a, b[..|b| - 1], offset);
    }
  }

  lemma {:induction false} NoneAbove(s: seq<Stop>, offset: real)
    requires forall i :: 0 <= i < |s| ==> offset < s[i].offset
    ensures WithOffset(s, offset) == []
  {
    if s != [] {
      NoneAbove(s[..|s| - 1], offset);
    }
  }

  lemma WithOffsetBetween(a: seq<Stop>, stop: Stop, b: seq<Stop>, offset: real)
    ensures WithOffset(a + [stop] + b, offset)
         == WithOffset(a, offset) + (if stop.offset == offset then [stop] else []) + WithOffset(b, offset)
  {
    WithOffsetConcat(a + [stop], b, offset);
    assert (a + [stop])[..|a|] == a;
  }

  lemma NoneAfter(s: seq<Stop>, offset: real)
    requires SortedStops(s)
    ensures WithOffset(s[PlaceOf(s, offset)..], offset) == []
  {
    var k := PlaceOf(s, offset);
    forall i | k <= i < |s| ensures offset < s[i].offset {
      assert s[k].offset <= s[i].offset;
    }
    NoneAbove(s[k..], offset);
  }

  lemma InsertedLast(s: seq<Stop>, stop: Stop, offset: real)
    requires SortedStops(s)
    ensures WithOffset(Inserted(s, stop), offset)
         == WithOffset(s, offset) + if stop.offset == offset then [stop] else []
  {
    hide WithOffset, SortedStops;
    var k := PlaceOf(s, stop.offset);
    assert s == s[..k] + s[k..];
    WithOffsetConcat(s[..k], s[k..], offset);
    WithOffsetBetween(s[..k], stop, s[k..], offset);
    NoneAfter(s, stop.offset);
  }

  /** In whatever order the stops come, the list ends up sorted, holds each of them, and keeps those of equal
      offset in document order (section 13.2.4 of SVG 1.1). */
  lemma {:induction false} ParsedIsStableSort(stops: seq<Stop>)
    ensures SortedStops(Parsed(stops)) && multiset(Parsed(stops)) == multiset(stops)
    ensures forall offset :: WithOffset(Parsed(stops), offset) == WithOffset(stops, offset)
  {
    if stops != [] {
      hide SortedStops, Inserted;
      var front, last := stops[..|stops| - 1], stops[|stops| - 1];
      ParsedIsStableSort(front);
      InsertedSorted(Parsed(front), last);
      InsertedContents(Parsed(front), last);
      assert stops == front + [last];
      forall offset ensures WithOffset(Parsed(stops), offset) == WithOffset(stops, offset) {
        InsertedLast(Parsed(front), last, offset);
      }
    }
  }

  /** The stop list of a gradient under construction. */
  class GradientData {
    var stops: array<Stop>

    constructor ()
      ensures stops[..] == []
    {
      stops := new Stop[0];
    }

    /** `realloc`: one more place, the old contents kept. */
    method Grow(filler: Stop)
      modifies this`stops
      ensures fresh(stops) && stops.Length == old(stops.Length) + 1
      ensures stops[..old(stops.Length)] == old(stops[..])
    {
      var from := stops;
      var more := new Stop[from.Length + 1](_ => filler);
      for i := 0 to from.Length
        invariant forall j :: 0 <= j < i ==> more[j] == from[j]
      {
        more[i] := from[i];
      }
      stops := more;
    }

    /** `nsvg__parseGradientStop`, from the search on. */
    method AddStop(stop: Stop)
      modifies this`stops
      ensures stops[..] == Inserted(old(stops[..]), stop)
    {
      hide PlaceOf;
      ghost var was := stops[..];
      Grow(stop);
      var n := stops.Length;
      var idx := FindPlace(n - 1, stop.offset);
      assert stops[..n - 1] == was;
      if idx != n - 1 {
        ShiftUp(idx);
      }
      assert stops[..idx] == was[..idx];
      assert stops[idx + 1..] == was[idx..];
      stops[idx] := stop;
      assert stops[..] == stops[..idx] + [stop] + stops[idx + 1..];
    }

    method FindPlace(n: nat, offset: real) returns (idx: nat)
      requires n <= stops.Length
      ensures idx == PlaceOf(stops[..n], offset)
    {
      idx := n;
      for i := 0 to n
        invariant forall j :: 0 <= j < i ==> stops[j].offset <= offset
        invariant idx == n
      {
        if offset < stops[i].offset {
          idx := i;
          break;
        }
      }
    }

    /** Moves everything from `idx` on up by one place, the last place being free. */
    method ShiftUp(idx: nat)
      requires idx < stops.Length
      modifies stops
      ensures stops[..idx] == old(stops[..idx])
      ensures stops[idx + 1..] == old(stops[idx..stops.Length - 1])
    {
      var i := stops.Length - 1;
      while i > idx
        invariant idx <= i < stops.Length
        invariant forall j :: 0 <= j <= i ==> stops[j] == old(stops[j])
        invariant forall j :: i < j < stops.Length ==> stops[j] == old(stops[j - 1])
      {
        stops[i] := stops[i - 1];
        i := i - 1;
      }
    }
  }
}
