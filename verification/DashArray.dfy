/** Parsing of a `stroke-dasharray` attribute: `nsvg__getNextDashItem` and `nsvg__parseStrokeDashArray`. The value of
    one item with its unit is a parameter. */
module DashArray {
  import opened Bezier
  import opened Dashes
  import opened PathLexer

  /** What `nsvg__parseStrokeDashArray` keeps of the parsed lengths: the first eight, made positive, or nothing
      if they add up to hardly anything. */
  function DashesOf(lengths: seq<real>): seq<real> {
    var a := FirstDashes(lengths, |lengths|);
    if Total(a) <= 0.000001 then [] else a
  }

  function FirstDashes(lengths: seq<real>, n: nat): (a: seq<real>)
    requires n <= |lengths|
    ensures |a| == if n <= MAX_DASHES then n else MAX_DASHES
  {
    if n == 0 then []
    else
      var a := FirstDashes(lengths, n - 1);
      if |a| < MAX_DASHES then a + [Abs(lengths[n - 1])] else a
  }

  function Total(a: seq<real>): real {
    if a == [] then 0.0 else Total(a[..|a| - 1]) + a[|a| - 1]
  }

  /** Where the item at `i` ends. */
  function ItemEnd(s: string, i: nat): (j: nat)
    requires i <= |s|
    ensures i <= j <= |s|
    ensures i < |s| && !IsSpace(s[i]) && s[i] != ',' ==> i < j
    decreases |s| - i
  {
    if i < |s| && !IsSpace(s[i]) && s[i] != ',' then ItemEnd(s, i + 1) else i
  }

  /** The next item and where it ends; an empty item at the end of the string. */
  function DashItem(s: string, i: nat): (r: (string, nat))
    requires i <= |s|
    ensures i <= r.1 <= |s| && |r.0| < ITEM_SIZE && (r.0 == "" <==> SkipSpace(s, i) == |s|) && (r.0 != "" ==> i < r.1)
  {
    var j := SkipSpace(s, i);
    (Cut(s[j..ItemEnd(s, j)]), ItemEnd(s, j))
  }

  /** The values of all items from `i` on. */
  function Lengths(s: string, i: nat, coord: string -> real): seq<real>
    requires i <= |s|
    decreases |s| - i
  {
    var item := DashItem(s, i);
    if item.0 == "" then [] else [coord(item.0)] + Lengths(s, item.1, coord)
  }

  /** `nsvg__getNextDashItem`, whose buffer takes 63 characters. */
  method GetNextDashItem(s: string, i: nat) returns (item: string, p: nat)
    requires i <= |s|
    ensures (item, p) == DashItem(s, i)
  {
    hide IsSpace, Cut;
    p := i;
    while p < |s| && (IsSpace(s[p]) || s[p] == ',')
      invariant i <= p <= |s| && SkipSpace(s, i) == SkipSpace(s, p)
    {
      p := p + 1;
    }
    ghost var from := p;
    item := "";
    CutNothing();
    assert s[from..p] == "";
    while p < |s| && !IsSpace(s[p]) && s[p] != ','
      invariant from <= p <= |s| && ItemEnd(s, from) == ItemEnd(s, p)
      invariant item == Cut(s[from..p])
    {
      CutMore(s[from..p], s[p]);
      assert s[from..p + 1] == s[from..p] + [s[p]];
      if |item| < ITEM_SIZE - 1 {
        item := item + [s[p]];
      }
      p := p + 1;
    }
  }

  lemma CutNothing()
    ensures Cut("") == ""
  {
  }

  lemma CutMore(t: string, c: char)
    ensures Cut(t + [c]) == if |Cut(t)| < ITEM_SIZE - 1 then Cut(t) + [c] else Cut(t)
  {
  }

  /** `nsvg__parseStrokeDashArray`. */
  method ParseStrokeDashArray(s: string, coord: string -> real) returns (dashes: seq<real>)
    ensures dashes == if s != "" && s[0] == 'n' then [] else DashesOf(Lengths(s, 0, coord))
  {
    dashes := [];
    if s != "" && s[0] == 'n' {
      return;
    }
    dashes := CollectDashes(s, coord);
    var sum := Sum(dashes);
    if sum <= 0.000001 {
      dashes := [];
    }
  }

  /** Its first loop. */
  method CollectDashes(s: string, coord: string -> real) returns (dashes: seq<real>)
    ensures var lengths := Lengths(s, 0, coord); dashes == FirstDashes(lengths, |lengths|)
  {
    hide FirstDashes, DashItem, Lengths;
    dashes := [];
    ghost var lengths: seq<real> := [];
    var i := 0;
    NoDashes();
    assert [] + Lengths(s, 0, coord) == Lengths(s, 0, coord);
    while i < |s|
      invariant i <= |s| && lengths + Lengths(s, i, coord) == Lengths(s, 0, coord)
      invariant dashes == FirstDashes(lengths, |lengths|)
      decreases |s| - i
    {
      var item, next := GetNextDashItem(s, i);
      LengthsStep(s, i, coord);
      if item == "" {
        Drained(lengths, Lengths(s, i, coord));
        return;
      }
      FirstDashesMore(lengths, coord(item));
      Regrouped(lengths, coord(item), Lengths(s, next, coord));
      lengths := lengths + [coord(item)];
      if |dashes| < MAX_DASHES {
        dashes := dashes + [Abs(coord(item))];
      }
      i := next;
    }
    LengthsEnd(s, coord);
    Drained(lengths, Lengths(s, i, coord));
  }

  lemma Drained(a: seq<real>, b: seq<real>)
    requires b == []
    ensures a + b == a
  {
  }

  lemma Regrouped(a: seq<real>, x: real, b: seq<real>)
    ensures a + ([x] + b) == a + [x] + b
  {
  }

  /** Its second loop. */
  method Sum(dashes: seq<real>) returns (sum: real)
    ensures sum == Total(dashes)
  {
    sum := 0.0;
    var k := 0;
    while k < |dashes|
      invariant 0 <= k <= |dashes| && sum == Total(dashes[..k])
    {
      sum := sum + dashes[k];
      assert dashes[..k + 1][..k] == dashes[..k];
      k := k + 1;
    }
    assert dashes[..k] == dashes;
  }

  lemma LengthsStep(s: string, i: nat, coord: string -> real)
    requires i <= |s|
    ensures var item := DashItem(s, i);
            Lengths(s, i, coord) == if item.0 == "" then [] else [coord(item.0)] + Lengths(s, item.1, coord)
    ensures DashItem(s, i).0 != "" ==> i < DashItem(s, i).1
  {
    hide DashItem;
  }

  lemma LengthsEnd(s: string, coord: string -> real)
    ensures Lengths(s, |s|, coord) == []
  {
  }

  lemma NoDashes()
    ensures FirstDashes([], 0) == []
  {
  }

  lemma {:induction false} FirstDashesPrefix(a: seq<real>, b: seq<real>, n: nat)
    requires n <= |a|
    ensures FirstDashes(a + b, n) == FirstDashes(a, n)
  {
    if n > 0 {
      FirstDashesPrefix(a, b, n - 1);
    }
  }

  lemma FirstDashesMore(lengths: seq<real>, x: real)
    ensures var a := FirstDashes(lengths, |lengths|);
            FirstDashes(lengths + [x], |lengths| + 1) == if |a| < MAX_DASHES then a + [Abs(x)] else a
  {
    FirstDashesPrefix(lengths, [x], |lengths|);
  }

  /** An item as it may be written: short, without separators. */
  predicate IsItem(item: string) {
    0 < |item| < ITEM_SIZE && forall i :: 0 <= i < |item| ==> !IsSpace(item[i]) && item[i] != ','
  }

  /** The items of an attribute, each followed by a comma and a space. */
  function Written(items: seq<string>): string {
    if items == [] then "" else items[0] + ", " + Written(items[1..])
  }

  function ValuesOf(items: seq<string>, coord: string -> real): seq<real> {
    if items == [] then [] else [coord(items[0])] + ValuesOf(items[1..], coord)
  }

  lemma {:induction false} TotalIsPrefix(d: seq<real>, n: nat)
    requires n <= |d| && |d| > 0
    ensures Total(d[..n]) == Prefix(d, n)
  {
    if n > 0 {
      TotalIsPrefix(d, n - 1);
      assert d[..n][..n - 1] == d[..n - 1];
      SmallSlot(n - 1, |d|);
      hide Slot;
    }
  }

  lemma {:induction false} FirstDashesPositive(lengths: seq<real>, n: nat)
    requires n <= |lengths|
    ensures forall i :: 0 <= i < |FirstDashes(lengths, n)| ==> FirstDashes(lengths, n)[i] >= 0.0
  {
    if n > 0 {
      FirstDashesPositive(lengths, n - 1);
    }
  }

  /** A dash array that the parser lets through is a pattern the walk can follow. */
  lemma ParsedIsPattern(lengths: seq<real>)
    requires DashesOf(lengths) != []
    ensures Pattern(DashesOf(lengths)) && |DashesOf(lengths)| <= MAX_DASHES
  {
    var d := DashesOf(lengths);
    FirstDashesPositive(lengths, |lengths|);
    TotalIsPrefix(d, |d|);
    assert d[..|d|] == d;
  }

  lemma {:induction false} ItemEndsAt(before: string, item: string, rest: string, k: nat)
    requires IsItem(item) && k <= |item| && rest != "" && rest[0] == ','
    ensures ItemEnd(before + item + rest, |before| + k) == |before| + |item|
    decreases |item| - k
  {
    var s := before + item + rest;
    if k < |item| {
      assert s[|before| + k] == item[k];
      ItemEndsAt(before, item, rest, k + 1);
    } else {
      assert s[|before| + k] == rest[0];
    }
  }

  /** The items that are written are read back. */
  lemma {:induction false} LengthsOfWritten(before: string, items: seq<string>, coord: string -> real)
    requires forall k :: 0 <= k < |items| ==> IsItem(items[k])
    ensures Lengths(before + Written(items), |before|, coord) == ValuesOf(items, coord)
    decreases |items|
  {
    hide IsItem, Lengths;
    if items == [] {
      LengthsEnd(before + Written(items), coord);
      assert before + "" == before;
    } else {
      var next := before + items[0] + ", ";
      WrittenItem(before, items[0], Written(items[1..]), coord);
      assert before + (items[0] + ", " + Written(items[1..])) == next + Written(items[1..]);
      LengthsOfWritten(next, items[1..], coord);
    }
  }

  lemma WrittenItem(before: string, item: string, rest: string, coord: string -> real)
    requires IsItem(item)
    ensures var s := before + item + ", " + rest;
            && |before| + |item| + 2 <= |s|
            && Lengths(s, |before|, coord) == [coord(item)] + Lengths(s, |before| + |item| + 2, coord)
  {
    hide Lengths, IsItem, IsSpace, ItemEnd;
    WrittenText(before, item, rest);
    ItemRead(before + item + ", " + rest, |before|, |before| + |item|, item, coord);
  }

  lemma ItemRead(s: string, i: nat, e: nat, item: string, coord: string -> real)
    requires IsItem(item) && i <= e && e + 2 <= |s| && s[i] == item[0]
    requires ItemEnd(s, i) == e && s[i..e] == item && s[e] == ',' && s[e + 1] == ' '
    ensures Lengths(s, i, coord) == [coord(item)] + Lengths(s, e + 2, coord)
  {
    assert !IsSpace(item[0]) && item[0] != ',' && Cut(item) == item;
    hide IsItem, IsSpace, Cut, Lengths, ItemEnd;
    SkipNothing(s, i);
    LengthsStep(s, i, coord);
    hide SkipSpace;
    SkipSeparator(s, e, coord);
  }

  lemma WrittenText(before: string, item: string, rest: string)
    requires IsItem(item)
    ensures var s := before + item + ", " + rest;
            && |before| + |item| + 2 <= |s| && ItemEnd(s, |before|) == |before| + |item|
            && s[|before|] == item[0] && s[|before|..|before| + |item|] == item
            && s[|before| + |item|] == ',' && s[|before| + |item| + 1] == ' '
  {
    var s := before + item + ", " + rest;
    assert s == before + item + (", " + rest);
    ItemEndsAt(before, item, ", " + rest, 0);
    hide IsItem, ItemEnd;
    assert s[|before|] == item[0];
    assert s[|before|..|before| + |item|] == item;
  }

  lemma SkipNothing(s: string, i: nat)
    requires i < |s| && !IsSpace(s[i]) && s[i] != ','
    ensures SkipSpace(s, i) == i
  {
  }

  lemma SkipSeparator(s: string, i: nat, coord: string -> real)
    requires i + 2 <= |s| && s[i] == ',' && s[i + 1] == ' '
    ensures Lengths(s, i, coord) == Lengths(s, i + 2, coord)
  {
    assert SkipSpace(s, i) == SkipSpace(s, i + 1) == SkipSpace(s, i + 2);
  }

  /** What is written is parsed as the values of the items. */
  lemma WrittenDashes(items: seq<string>, coord: string -> real)
    requires forall k :: 0 <= k < |items| ==> IsItem(items[k])
    ensures DashesOf(Lengths(Written(items), 0, coord)) == DashesOf(ValuesOf(items, coord))
  {
    LengthsOfWritten("", items, coord);
    assert "" + Written(items) == Written(items);
  }

  function Positive(x: real): real {
    if x >= 0.0 then x else -x
  }

  /** What becomes of a list of lengths: the first eight, made positive, in order, if they add up to more than 1e-6;
      else nothing. */
  lemma DashesAre(lengths: seq<real>)
    ensures var d, n := DashesOf(lengths), if |lengths| < 8 then |lengths| else 8;
            && (d == [] || (|d| == n && forall i :: 0 <= i < n ==> d[i] == Positive(lengths[i])))
            && (d == [] && n > 0 <==> n > 0 && SumOfFirst(lengths, n) <= 0.000001)
  {
    var n := if |lengths| < 8 then |lengths| else 8;
    FirstDashesAre(lengths, |lengths|);
    var a := FirstDashes(lengths, |lengths|);
    SumIsTotal(lengths, a, n);
    hide FirstDashes, Total, SumOfFirst;
    assert a[..n] == a;
    if n == 0 {
      assert a == [];
    }
  }

  function SumOfFirst(lengths: seq<real>, n: nat): real
    requires n <= |lengths|
  {
    if n == 0 then 0.0 else SumOfFirst(lengths, n - 1) + Positive(lengths[n - 1])
  }

  lemma {:induction false} FirstDashesAre(lengths: seq<real>, n: nat)
    requires n <= |lengths|
    ensures var a := FirstDashes(lengths, n);
            |a| == (if n < 8 then n else 8) && forall i :: 0 <= i < |a| ==> a[i] == Positive(lengths[i])
  {
    if n > 0 {
      FirstDashesAre(lengths, n - 1);
    }
  }

  lemma {:induction false} SumIsTotal(lengths: seq<real>, a: seq<real>, n: nat)
    requires n <= |a| && n <= |lengths| && forall i :: 0 <= i < n ==> a[i] == Positive(lengths[i])
    ensures Total(a[..n]) == SumOfFirst(lengths, n)
  {
    if n > 0 {
      SumIsTotal(lengths, a, n - 1);
      assert a[..n][..n - 1] == a[..n - 1];
    }
  }
}
