/** The dash pattern, endlessly repeated, and the place in it where `nsvg__flattenShapeStroke` starts. */
module Dashes {
  import opened Edges
  import opened Flatten
  import opened Remainders

  const MAX_DASHES := 8

  /** What the parser guarantees of a dash array that is used. */
  ghost predicate Pattern(d: seq<real>) {
    0 < |d| && (forall i :: 0 <= i < |d| ==> d[i] >= 0.0) && Prefix(d, |d|) > 0.0
  }

  /** The entry that stands at place `k` of the endlessly repeated pattern. */
  function Slot(k: nat, n: nat): (i: nat)
    requires n > 0
    ensures i < n
  {
    k % n
  }

  lemma SlotNext(k: nat, n: nat)
    requires n > 0
    ensures Slot(k + 1, n) == (Slot(k, n) + 1) % n
  {
    RemainderSum(k, 1, n);
  }

  lemma SlotPeriod(k: nat, n: nat)
    requires n > 0
    ensures Slot(k + n, n) == Slot(k, n)
  {
    hide Rounds;
    var q := Divided(k, n);
    RemainderIs(k + n, n, q + 1, k % n);
  }

  /** Sum of the first `k` entries of the endlessly repeated pattern. */
  function Prefix(d: seq<real>, k: nat): real
    requires |d| > 0
  {
    if k == 0 then 0.0 else Prefix(d, k - 1) + d[Slot(k - 1, |d|)]
  }

  lemma {:induction false} PrefixGrows(d: seq<real>, i: nat, j: nat)
    requires Pattern(d) && i <= j
    ensures Prefix(d, i) <= Prefix(d, j)
    decreases j
  {
    hide Slot;
    if i < j {
      PrefixGrows(d, i, j - 1);
    }
  }

  lemma {:induction false} PrefixPeriod(d: seq<real>, k: nat)
    requires |d| > 0
    ensures Prefix(d, k + |d|) == Prefix(d, k) + Prefix(d, |d|)
  {
    hide Slot;
    if k > 0 {
      PrefixPeriod(d, k - 1);
      SlotPeriod(k - 1, |d|);
    }
  }

  /** Entries after which the pattern of on and off repeats: an odd pattern is run through twice. */
  function Cycle(d: seq<real>): nat {
    if |d| % 2 == 1 then 2 * |d| else |d|
  }

  /** `allDashLen`. */
  function CycleLength(d: seq<real>): real
    requires |d| > 0
  {
    Prefix(d, Cycle(d))
  }

  lemma CycleTwice(d: seq<real>)
    requires |d| > 0
    ensures CycleLength(d) == if |d| % 2 == 1 then 2.0 * Prefix(d, |d|) else Prefix(d, |d|)
    ensures Cycle(d) % 2 == 0 && Cycle(d) >= |d|
  {
    PrefixPeriod(d, |d|);
  }

  lemma {:induction false} CyclePeriod(d: seq<real>, k: nat)
    requires |d| > 0
    ensures Prefix(d, k + Cycle(d)) == Prefix(d, k) + CycleLength(d)
  {
    PrefixPeriod(d, k);
    if |d| % 2 == 1 {
      PrefixPeriod(d, k + |d|);
      PrefixPeriod(d, |d|);
    }
  }

  /** `fmodf`: the remainder has the sign of the dividend. */
  function Fmod(a: real, b: real): real
    requires b > 0.0
  {
    if a >= 0.0 then a - (a / b).Floor as real * b else a + (-a / b).Floor as real * b
  }

  lemma FloorTimes(a: real, b: real) returns (q: int, p: real)
    requires a >= 0.0 && b > 0.0
    ensures q == (a / b).Floor && p == q as real * b && p <= a < p + b
  {
    q := (a / b).Floor;
    p := q as real * b;
    var u := a / b;
    assert u * b == a;
    var low := Product(u - q as real, b);
    var high := Product((q + 1) as real - u, b);
    assert low == a - p && high == p + b - a;
    if a >= p + b {
      Positive((q + 1) as real - u, b);
    }
  }

  lemma Product(x: real, y: real) returns (p: real)
    requires x >= 0.0 && y >= 0.0
    ensures p == x * y && p >= 0.0
  {
    p := x * y;
  }

  lemma Positive(x: real, y: real)
    requires x > 0.0 && y > 0.0
    ensures x * y > 0.0
  {
  }

  /** The offset is brought into one cycle by whole cycles. */
  ghost predicate Reduced(d: seq<real>, offset: real, off: real)
    requires |d| > 0
  {
    exists q: int :: off == offset - Whole(q, CycleLength(d))
  }

  function Whole(q: int, cycle: real): real {
    q as real * cycle
  }

  lemma FmodIs(a: real, b: real) returns (q: int)
    requires b > 0.0
    ensures Fmod(a, b) == a - Whole(q, b) && Whole(q - 1, b) == Whole(q, b) - b
    ensures if a >= 0.0 then 0.0 <= Fmod(a, b) < b else -b < Fmod(a, b) <= 0.0
  {
    var f, p;
    if a >= 0.0 {
      f, p := FloorTimes(a, b);
      q := f;
    } else {
      f, p := FloorTimes(-a, b);
      q := -f;
    }
    WholeIs(f, b, p);
    hide Whole;
  }

  lemma FmodReduces(d: seq<real>, offset: real) returns (off: real)
    requires Pattern(d) && CycleLength(d) > 0.0
    ensures off == (var r := Fmod(offset, CycleLength(d)); if r < 0.0 then r + CycleLength(d) else r)
    ensures 0.0 <= off < CycleLength(d) && Reduced(d, offset, off)
  {
    var c := CycleLength(d);
    hide CycleLength, Pattern, Whole, Fmod;
    var r := Fmod(offset, c);
    var q := FmodIs(offset, c);
    off := if r < 0.0 then r + c else r;
    assert off == offset - Whole(if r < 0.0 then q - 1 else q, c);
  }

  lemma WholeIs(q: int, c: real, p: real)
    requires p == q as real * c
    ensures Whole(q, c) == p && Whole(-q, c) == -p
    ensures Whole(q - 1, c) == p - c && Whole(-q - 1, c) == -p - c
  {
  }

  /** `k` entries are skipped by the offset: it lies in entry `k`, at its end at the latest. */
  ghost predicate Skipped(d: seq<real>, off: real, k: nat)
    requires |d| > 0
  {
    off <= Prefix(d, k + 1) && (k > 0 ==> Prefix(d, k) < off)
  }

  ghost predicate Place(d: seq<real>, offset: real, idash: nat, dashOffset: real, off: real, k: nat)
    requires |d| > 0
  {
    && 0.0 <= off < CycleLength(d) && Reduced(d, offset, off) && Skipped(d, off, k)
    && idash == Slot(k, |d|) && dashOffset == off - Prefix(d, k)
  }

  /** Entry `idash` and the distance into it are those of the reduced offset. */
  ghost predicate InPlace(d: seq<real>, offset: real, idash: nat, dashOffset: real)
    requires |d| > 0
  {
    exists off, k :: Place(d, offset, idash, dashOffset, off, k)
  }

  method SumDashes(d: seq<real>) returns (all: real)
    requires |d| > 0
    ensures all == CycleLength(d)
  {
    all := 0.0;
    var j := 0;
    while j < |d|
      invariant 0 <= j <= |d| && all == Prefix(d, j)
    {
      SmallSlot(j, |d|);
      all := all + d[j];
      j := j + 1;
    }
    CycleTwice(d);
    if |d| % 2 == 1 {
      all := all * 2.0;
    }
  }

  lemma SmallSlot(j: nat, n: nat)
    requires j < n
    ensures Slot(j, n) == j
  {
  }

  lemma CyclePositive(d: seq<real>)
    requires Pattern(d)
    ensures CycleLength(d) > 0.0
  {
    CycleTwice(d);
  }

  /** Sums the dashes, reduces the offset and finds its place in the pattern. */
  method FindStart(d: seq<real>, offset: real)
    returns (idash: nat, dashOffset: real, ghost off: real, ghost k: nat)
    requires Pattern(d)
    ensures Place(d, offset, idash, dashOffset, off, k) && InPlace(d, offset, idash, dashOffset)
  {
    hide Slot;
    var allDashLen := SumDashes(d);
    CycleTwice(d);
    CyclePositive(d);
    off := FmodReduces(d, offset);
    dashOffset := Fmod(offset, allDashLen);
    if dashOffset < 0.0 {
      dashOffset := dashOffset + allDashLen;
    }
    hide Pattern, CycleLength, Reduced, Fmod;
    idash, k := 0, 0;
    SmallSlot(0, |d|);
    while dashOffset > d[idash]
      invariant idash == Slot(k, |d|) && dashOffset == off - Prefix(d, k)
      invariant k > 0 ==> Prefix(d, k) < off
      invariant k < Cycle(d)
      decreases Cycle(d) - k
    {
      BeforeCycleEnd(d, off, k);
      dashOffset := dashOffset - d[idash];
      SlotNext(k, |d|);
      idash := (idash + 1) % |d|;
      k := k + 1;
    }
  }

  lemma BeforeCycleEnd(d: seq<real>, off: real, k: nat)
    requires Pattern(d) && off < CycleLength(d) && Prefix(d, k + 1) < off
    ensures k + 1 < Cycle(d)
  {
    if k + 1 >= Cycle(d) {
      PrefixGrows(d, Cycle(d), k + 1);
    }
  }
}
