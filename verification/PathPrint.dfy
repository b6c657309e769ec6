/** Round trip of path data: writing the items of legal data with any blanks between them, or none where the lexer can
    tell the items apart, and parsing the text performs exactly that data. */
module PathPrint {
  import opened PathLexer
  import opened PathNumbers
  import opened PathData
  import opened PathGrammar

  /** White space of the grammar, or a comma. */
  predicate IsBlank(c: char) {
    c == ' ' || c == '\t' || c == '\n' || c == '\r' || c == ','
  }

  /** Blanks and commas, or nothing. */
  ghost predicate IsGap(gap: string) {
    forall i :: 0 <= i < |gap| ==> IsBlank(gap[i])
  }

  /** The items, each with its gap behind it. */
  function Text(items: seq<string>, gaps: seq<string>): string
    requires |gaps| == |items|
  {
    if items == [] then "" else items[0] + (gaps[0] + Text(items[1..], gaps[1..]))
  }

  predicate IsMark(c: char) {
    c == 'e' || c == 'E'
  }

  ghost predicate HasMark(item: string) {
    exists i :: 0 <= i < |item| && (item[i] == '.' || IsMark(item[i]))
  }

  /** An item ends in front of character `c`: a letter always does, a number unless `c` could be part of it. */
  ghost predicate EndsBefore(item: string, c: char)
    requires item != ""
  {
    StartsNumber(item[0]) ==>
      !IsDigit(c) && !IsMark(c) && (c == '.' ==> HasMark(item))
  }

  /** The next argument is one of the two flags of an arc. */
  predicate AtFlag(st: PathState) {
    st.cmd in "aA" && (|st.args| == 3 || |st.args| == 4)
  }

  predicate IsLetter(item: string) {
    |item| == 1 && ('a' <= item[0] <= 'z' || 'A' <= item[0] <= 'Z')
  }

  /** A number of the grammar, or a letter. */
  ghost predicate Readable(item: string) {
    |item| < ITEM_SIZE && (IsNumber(item) || IsLetter(item))
  }

  /** In the place of an arc flag only the digits 0 and 1 are read as they stand. */
  predicate FitsPlace(st: PathState, item: string) {
    AtFlag(st) ==> item == "0" || item == "1"
  }

  lemma AtShift(a: string, b: string, i: nat)
    ensures At(a + b, |a| + i) == At(b, i)
  {
  }

  lemma {:induction false} DigitsShift(a: string, b: string, i: nat)
    requires i <= |b|
    ensures DigitsEnd(a + b, |a| + i) == |a| + DigitsEnd(b, i)
    decreases |b| - i
  {
    if i < |b| && IsDigit(b[i]) {
      DigitsShift(a, b, i + 1);
    }
  }

  lemma {:induction false} SpaceShift(a: string, b: string, i: nat)
    requires i <= |b|
    ensures SkipSpace(a + b, |a| + i) == |a| + SkipSpace(b, i)
    decreases |b| - i
  {
    if i < |b| && (IsSpace(b[i]) || b[i] == ',') {
      SpaceShift(a, b, i + 1);
    }
  }

  lemma SignShift(a: string, b: string, i: nat)
    ensures SignEnd(a + b, |a| + i) == |a| + SignEnd(b, i)
  {
    AtShift(a, b, i);
  }

  lemma NumberShift(a: string, b: string, i: nat)
    requires i <= |b|
    ensures NumberEnd(a + b, |a| + i) == |a| + NumberEnd(b, i)
  {
    hide At, SignEnd, DigitsEnd;
    SignShift(a, b, i);
    SignBound(b, i);
    SignBound(a + b, |a| + i);
    var j := SignEnd(b, i);
    DigitsShift(a, b, j);
    DigitsBound(b, j);
    var k := DigitsEnd(b, j);
    FractionShift(a, b, k);
    FractionBound(b, k);
    ExponentShift(a, b, FractionEnd(b, k));
  }

  lemma SignBound(s: string, i: nat)
    requires i <= |s|
    ensures SignEnd(s, i) <= |s|
  {
  }

  lemma DigitsBound(s: string, i: nat)
    requires i <= |s|
    ensures DigitsEnd(s, i) <= |s|
  {
  }

  lemma FractionBound(s: string, i: nat)
    requires i <= |s|
    ensures FractionEnd(s, i) <= |s|
  {
  }

  lemma FractionShift(a: string, b: string, i: nat)
    requires i <= |b|
    ensures FractionEnd(a + b, |a| + i) == |a| + FractionEnd(b, i)
  {
    AtShift(a, b, i);
    if At(b, i) == '.' {
      DigitsShift(a, b, i + 1);
    }
  }

  lemma ExponentShift(a: string, b: string, i: nat)
    requires i <= |b|
    ensures ExponentEnd(a + b, |a| + i) == |a| + ExponentEnd(b, i)
  {
    AtShift(a, b, i);
    AtShift(a, b, i + 1);
    if StartsExponent(b, i) {
      SignShift(a, b, i + 1);
      SignBound(b, i + 1);
      DigitsShift(a, b, SignEnd(b, i + 1));
    }
  }

  /** The next item depends on the rest of the string only. */
  lemma NextShift(a: string, b: string, i: nat)
    requires i <= |b|
    ensures NextItem(a + b, |a| + i) == (NextItem(b, i).0, |a| + NextItem(b, i).1)
  {
    hide NumberEnd, Cut, SkipSpace;
    SpaceShift(a, b, i);
    SpaceBound(b, i);
    var j := SkipSpace(b, i);
    if j < |b| && StartsNumber(b[j]) {
      NumberShift(a, b, j);
      NumberBound(b, j);
      NumberBound(a + b, |a| + j);
      SliceShift(a, b, j, NumberEnd(b, j));
    }
  }

  lemma SliceShift(a: string, b: string, i: nat, j: nat)
    requires i <= j <= |b|
    ensures (a + b)[|a| + i..|a| + j] == b[i..j]
  {
  }

  lemma SpaceBound(s: string, i: nat)
    requires i <= |s|
    ensures i <= SkipSpace(s, i) <= |s|
  {
  }

  lemma NumberBound(s: string, i: nat)
    requires i <= |s|
    ensures i <= NumberEnd(s, i) <= |s|
  {
  }

  lemma FlagShift(a: string, b: string, i: nat)
    requires i <= |b|
    ensures NextFlag(a + b, |a| + i) == (NextFlag(b, i).0, |a| + NextFlag(b, i).1)
  {
    hide SkipSpace;
    SpaceShift(a, b, i);
    SpaceBound(b, i);
  }

  lemma FlagBound(s: string, i: nat)
    requires i <= |s|
    ensures i <= NextFlag(s, i).1 <= |s|
  {
  }

  lemma ItemShift(st: PathState, a: string, b: string, i: nat)
    requires i <= |b|
    ensures ItemFor(st, a + b, |a| + i) == (ItemFor(st, b, i).0, |a| + ItemFor(st, b, i).1)
  {
    FlagBound(b, i);
    hide NextItem, NextFlag;
    FlagShift(a, b, i);
    NextShift(a, b, i);
    NextShift(a, b, NextFlag(b, i).1);
  }

  /** So does all that follows. */
  lemma {:induction false} ParsedShift(env: Env, st: PathState, a: string, b: string, i: nat)
    requires i <= |b|
    ensures Parsed(env, st, a + b, |a| + i) == Parsed(env, st, b, i)
    decreases |b| - i
  {
    hide Feed, ItemFor, Parsed;
    if i == |b| {
      ParsedEnd(env, st, a + b);
      ParsedEnd(env, st, b);
    } else {
      ItemShift(st, a, b, i);
      ItemBounds(st, b, i);
      ParsedStep(env, st, a + b, |a| + i);
      ParsedStep(env, st, b, i);
      var item := ItemFor(st, b, i);
      if item.0 != "" {
        ParsedShift(env, Feed(env, st, item.0), a, b, item.1);
      }
    }
  }

  lemma {:induction false} DigitsBefore(item: string, tail: string, i: nat)
    requires i <= |item| && !IsDigit(At(tail, 0))
    ensures DigitsEnd(item + tail, i) == DigitsEnd(item, i)
    decreases |item| - i
  {
    if i < |item| && IsDigit(item[i]) {
      DigitsBefore(item, tail, i + 1);
    }
  }

  lemma {:induction false} AllDigits(item: string, i: nat)
    requires i <= |item| && DigitsEnd(item, i) == |item|
    ensures forall k :: i <= k < |item| ==> IsDigit(item[k])
    decreases |item| - i
  {
    if i < |item| {
      AllDigits(item, i + 1);
    }
  }

  /** A number that is nothing but a sign and digits has neither a point nor an exponent. */
  lemma PlainHasNoMark(item: string)
    requires item != "" && DigitsEnd(item, SignEnd(item, 0)) == |item|
    ensures !HasMark(item)
  {
    SignBound(item, 0);
    AllDigits(item, SignEnd(item, 0));
    hide DigitsEnd;
    forall i | 0 <= i < |item| ensures item[i] != '.' && !IsMark(item[i]) {
    }
  }

  /** A number ends in front of what cannot be part of it as it would at the end of the string. */
  lemma NumberBefore(item: string, tail: string)
    requires item != "" && StartsNumber(item[0]) && NumberEnd(item, 0) == |item| && EndsBefore(item, At(tail, 0))
    requires !IsMark(item[|item| - 1])
    ensures NumberEnd(item + tail, 0) == |item|
  {
    var c := At(tail, 0);
    assert !IsDigit(c) && !IsMark(c) && (c == '.' ==> HasMark(item));
    hide DigitsEnd, FractionEnd, ExponentEnd, EndsBefore, IsMark, HasMark, IsDigit;
    SignBound(item, 0);
    var j := SignEnd(item, 0);
    assert SignEnd(item + tail, 0) == j;
    hide SignEnd;
    DigitsBefore(item, tail, j);
    DigitsBound(item, j);
    var k := DigitsEnd(item, j);
    if c == '.' && k == |item| {
      PlainHasNoMark(item);
      assert false;
    }
    FractionBefore(item, tail, k);
    FractionBound(item, k);
    var f := FractionEnd(item, k);
    ExponentBefore(item, tail, f);
  }

  lemma FractionBefore(item: string, tail: string, i: nat)
    requires i <= |item| && !IsDigit(At(tail, 0)) && (At(tail, 0) == '.' ==> i < |item|)
    ensures FractionEnd(item + tail, i) == FractionEnd(item, i)
  {
    AtBefore(item, tail, i);
    if At(item, i) == '.' {
      DigitsBefore(item, tail, i + 1);
    }
  }

  lemma AtBefore(item: string, tail: string, i: nat)
    requires i <= |item|
    ensures At(item + tail, i) == if i < |item| then item[i] else At(tail, 0)
    ensures At(item, i) == if i < |item| then item[i] else '\0'
  {
  }

  lemma ExponentBefore(item: string, tail: string, i: nat)
    requires i <= |item| && ExponentEnd(item, i) == |item|
    requires !IsDigit(At(tail, 0)) && !IsMark(At(tail, 0)) && (item != "" ==> !IsMark(item[|item| - 1]))
    ensures ExponentEnd(item + tail, i) == |item|
  {
    AtBefore(item, tail, i);
    if i < |item| {
      AtBefore(item, tail, i + 1);
      assert StartsExponent(item, i) && StartsExponent(item + tail, i);
      SignBound(item, i + 1);
      SignBefore(item, tail, i + 1);
      DigitsBefore(item, tail, SignEnd(item, i + 1));
    }
  }

  lemma SignBefore(item: string, tail: string, i: nat)
    requires i <= |item| && (i == |item| ==> !IsSign(At(tail, 0)))
    ensures SignEnd(item + tail, i) == SignEnd(item, i)
  {
    AtBefore(item, tail, i);
  }

  /** A written item is read back as it is. */
  lemma ReadBack(st: PathState, item: string, tail: string)
    requires Readable(item) && FitsPlace(st, item) && (AtFlag(st) || EndsBefore(item, At(tail, 0)))
    ensures ItemFor(st, item + tail, 0) == (item, |item|)
  {
    var s := item + tail;
    FirstIsPlain(item);
    if IsNumber(item) {
      NumberIsRead(item);
      if !AtFlag(st) {
        NumberBefore(item, tail);
      }
    }
    hide IsNumber;
    assert SkipSpace(s, 0) == 0;
    assert s[0] == item[0] && s[0..|item|] == item;
    hide NumberEnd, SkipSpace, EndsBefore;
    if AtFlag(st) {
      assert item == [item[0]];
    } else if !StartsNumber(item[0]) {
      assert item == [item[0]];
    }
  }

  lemma FirstIsPlain(item: string)
    requires Readable(item)
    ensures item != "" && !IsSpace(item[0]) && item[0] != ','
  {
    if IsNumber(item) {
      NumberIsRead(item);
    }
    hide IsNumber;
  }

  /** Gaps behind an item do not matter. */
  lemma {:induction false} LeadingGap(env: Env, st: PathState, gap: string, s: string)
    requires IsGap(gap)
    ensures Parsed(env, st, gap + s, 0) == Parsed(env, st, s, 0)
    decreases |gap|
  {
    hide Feed, Parsed;
    if gap == "" {
      assert gap + s == s;
    } else {
      LeadingGap(env, st, gap[1..], s);
      LeadingBlank(env, st, gap[0], gap[1..] + s);
      assert [gap[0]] + (gap[1..] + s) == gap + s;
    }
  }

  lemma LeadingBlank(env: Env, st: PathState, c: char, s: string)
    requires IsBlank(c)
    ensures Parsed(env, st, [c] + s, 0) == Parsed(env, st, s, 0)
  {
    hide Feed;
    ParsedShift(env, st, [c], s, 0);
    BlankFirst(st, [c] + s);
    if s == "" {
      assert NextItem([c], 0).0 == "";
    }
  }

  lemma BlankFirst(st: PathState, s: string)
    requires s != "" && IsBlank(s[0])
    ensures ItemFor(st, s, 0) == ItemFor(st, s, 1)
  {
    assert SkipSpace(s, 0) == SkipSpace(s, 1);
    hide NumberEnd, Cut, SkipSpace;
  }

  ghost predicate AllReadable(items: seq<string>) {
    forall i :: 0 <= i < |items| ==> Readable(items[i])
  }

  /** Every item fits the place at which the machine will be when it comes, and those that are marked come at the place
      of a flag. */
  ghost predicate AllFit(env: Env, st: PathState, items: seq<string>, flags: seq<bool>)
    requires |flags| == |items|
    decreases |items|
  {
    items == [] || (items[0] != "" && FitsPlace(st, items[0]) && (flags[0] ==> AtFlag(st))
                    && AllFit(env, Feed(env, st, items[0]), items[1..], flags[1..]))
  }

  /** A gap may be empty behind a flag, and where the item ends in front of the next one. */
  ghost predicate GapOk(item: string, flag: bool, gap: string, next: string)
    requires item != ""
  {
    IsGap(gap) && (gap == "" ==> flag || EndsBefore(item, At(next, 0)))
  }

  ghost predicate GapsOk(items: seq<string>, flags: seq<bool>, gaps: seq<string>)
    requires |items| == |flags| == |gaps| && Items(items)
  {
    forall i :: 0 <= i < |items| ==> GapOk(items[i], flags[i], gaps[i], NextOf(items, i))
  }

  function NextOf(items: seq<string>, i: nat): string {
    if i + 1 < |items| then items[i + 1] else ""
  }

  lemma GapsOkRest(items: seq<string>, flags: seq<bool>, gaps: seq<string>)
    requires |items| == |flags| == |gaps| && Items(items) && GapsOk(items, flags, gaps) && items != []
    ensures GapOk(items[0], flags[0], gaps[0], NextOf(items, 0)) && GapsOk(items[1..], flags[1..], gaps[1..])
  {
    hide GapOk;
    forall i | 0 <= i < |items| - 1
      ensures GapOk(items[1..][i], flags[1..][i], gaps[1..][i], NextOf(items[1..], i))
    {
      assert NextOf(items[1..], i) == NextOf(items, i + 1);
      assert GapOk(items[i + 1], flags[i + 1], gaps[i + 1], NextOf(items, i + 1));
    }
  }

  /** Parsing the text is feeding the items. */
  lemma {:induction false} ParsedText(env: Env, st: PathState, items: seq<string>, flags: seq<bool>, gaps: seq<string>)
    requires |items| == |flags| == |gaps| && Items(items) && GapsOk(items, flags, gaps)
    requires AllReadable(items) && AllFit(env, st, items, flags)
    ensures Parsed(env, st, Text(items, gaps), 0) == FeedAll(env, st, items)
    decreases |items|
  {
    hide Feed, FitsPlace, Readable, GapOk, GapsOk, AtFlag, Parsed;
    if items == [] {
      ParsedEnd(env, st, "");
    } else {
      var rest := Text(items[1..], gaps[1..]);
      TextStarts(items[1..], gaps[1..]);
      GapsOkRest(items, flags, gaps);
      ParsedText(env, Feed(env, st, items[0]), items[1..], flags[1..], gaps[1..]);
      ParsedFirst(env, st, items[0], flags[0], gaps[0], NextOf(items, 0), rest);
    }
  }

  lemma TextStarts(items: seq<string>, gaps: seq<string>)
    requires |gaps| == |items| && Items(items)
    ensures At(Text(items, gaps), 0) == At(if items == [] then "" else items[0], 0)
  {
  }

  lemma ParsedFirst(env: Env, st: PathState, item: string, flag: bool, gap: string, next: string, rest: string)
    requires Readable(item) && FitsPlace(st, item) && item != "" && (flag ==> AtFlag(st))
    requires GapOk(item, flag, gap, next) && At(rest, 0) == At(next, 0)
    ensures Parsed(env, st, item + (gap + rest), 0) == Parsed(env, Feed(env, st, item), rest, 0)
  {
    hide Feed, ItemFor, Parsed, EndsBefore, Readable, FitsPlace, AtFlag, IsBlank;
    if gap == "" {
      assert gap + rest == rest;
    } else {
      assert At(gap + rest, 0) == gap[0];
      BlankEnds(item, gap[0]);
    }
    ReadBack(st, item, gap + rest);
    ParsedStep(env, st, item + (gap + rest), 0);
    ParsedShift(env, Feed(env, st, item), item, gap + rest, 0);
    LeadingGap(env, Feed(env, st, item), gap, rest);
  }

  lemma BlankEnds(item: string, c: char)
    requires item != "" && IsBlank(c)
    ensures EndsBefore(item, c)
  {
  }

  /** How many numbers a command takes, by the grammar. */
  function Arity(letter: char): int {
    match letter
    case 'Z' => 0 case 'z' => 0
    case 'H' => 1 case 'h' => 1 case 'V' => 1 case 'v' => 1
    case 'M' => 2 case 'm' => 2 case 'L' => 2 case 'l' => 2 case 'T' => 2 case 't' => 2
    case 'S' => 4 case 's' => 4 case 'Q' => 4 case 'q' => 4
    case 'C' => 6 case 'c' => 6
    case 'A' => 7 case 'a' => 7
    case _ => -1
  }

  /** A command of the grammar: a letter with groups of as many numbers as it takes, at least one unless it takes none,
      with digits 0 and 1 for the flags of an arc. */
  ghost predicate Printable(c: Command) {
    && Arity(c.letter) >= 0 && (Arity(c.letter) == 0 <==> c.groups == [])
    && forall i :: 0 <= i < |c.groups| ==>
         |c.groups[i]| == Arity(c.letter) && AllNumbers(c.groups[i]) && FlagsOk(c.letter, c.groups[i])
  }

  ghost predicate AllNumbers(g: seq<string>) {
    forall i :: 0 <= i < |g| ==> IsNumber(g[i]) && |g[i]| < ITEM_SIZE
  }

  lemma ArityAgrees(letter: char)
    ensures ArgsPerElement(letter) == Arity(letter)
    ensures Arity(letter) >= 0 ==> IsLetter([letter])
  {
  }

  lemma NumbersAreReadable(g: seq<string>)
    requires AllNumbers(g)
    ensures AllReadable(g) && NumberGroup(g, |g|)
  {
    hide IsNumber, IsCoordinate, NumberEnd;
    forall i | 0 <= i < |g| ensures Readable(g[i]) && g[i] != "" && IsCoordinate(g[i]) {
      NumberIsRead(g[i]);
    }
  }

  lemma PrintableIsLegal(c: Command)
    requires Printable(c)
    ensures Legal(c) && forall i :: 0 <= i < |c.groups| ==> AllReadable(c.groups[i])
  {
    ArityAgrees(c.letter);
    hide Arity, ArgsPerElement, AllNumbers, NumberGroup, AllReadable;
    forall i | 0 <= i < |c.groups|
      ensures NumberGroup(c.groups[i], ArgsPerElement(c.letter)) && AllReadable(c.groups[i])
    {
      NumbersAreReadable(c.groups[i]);
    }
  }

  predicate FlagsOk(letter: char, g: seq<string>) {
    letter in "aA" ==> |g| >= 5 && IsFlag(g[3]) && IsFlag(g[4])
  }

  predicate IsFlag(item: string) {
    item == "0" || item == "1"
  }

  /** Which of its arguments are the flags of an arc. */
  function GroupFlags(letter: char, g: seq<string>): (r: seq<bool>)
    ensures |r| == |g| && forall i :: 0 <= i < |g| ==> r[i] == (letter in "aA" && (i == 3 || i == 4))
  {
    seq(|g|, i requires 0 <= i < |g| => letter in "aA" && (i == 3 || i == 4))
  }

  function FlatFlags(letter: char, groups: seq<seq<string>>): (r: seq<bool>)
    ensures |r| == |Flat(groups)|
  {
    if groups == [] then [] else GroupFlags(letter, groups[0]) + FlatFlags(letter, groups[1..])
  }

  function CommandFlags(c: Command): (r: seq<bool>)
    ensures |r| == |Tokens(c)|
  {
    [false] + FlatFlags(c.letter, c.groups)
  }

  /** For all items of the data, whether they are flags of an arc. */
  function AllFlags(doc: seq<Command>): (r: seq<bool>)
    ensures |r| == |AllTokens(doc)|
  {
    if doc == [] then [] else CommandFlags(doc[0]) + AllFlags(doc[1..])
  }

  lemma {:induction false} FitConcat(env: Env, st: PathState, a: seq<string>, b: seq<string>, fa: seq<bool>,
                                     fb: seq<bool>)
    requires |a| == |fa| && |b| == |fb|
    requires AllFit(env, st, a, fa) && Items(a) && AllFit(env, FeedAll(env, st, a), b, fb)
    ensures AllFit(env, st, a + b, fa + fb)
    decreases |a|
  {
    hide Feed, FitsPlace, AtFlag;
    if a == [] {
      assert a + b == b && fa + fb == fb;
    } else {
      assert (a + b)[1..] == a[1..] + b && (fa + fb)[1..] == fa[1..] + fb;
      FitConcat(env, Feed(env, st, a[0]), a[1..], b, fa[1..], fb);
    }
  }

  /** The flags of an arc come when three and four arguments have been collected. */
  lemma {:induction false} FitGroup(env: Env, st: PathState, letter: char, g: seq<string>, k: nat)
    requires st.cmd != '\0' && Rargs(st.cmd) == |g| && k <= |g| && NumberGroup(g, |g|) && |g| > 0
    requires st.args == Values(env, g)[..k] && (st.cmd in "aA" <==> letter in "aA")
    requires FlagsOk(letter, g)
    ensures k < |g| ==> AllFit(env, st, g[k..], GroupFlags(letter, g)[k..])
    decreases |g| - k
  {
    hide Execute, Rargs;
    if k < |g| {
      var flags := GroupFlags(letter, g);
      var a := st.args + [env.atof(g[k])];
      assert a == Values(env, g)[..k + 1];
      assert g[k..][1..] == g[k + 1..] && flags[k..][1..] == flags[k + 1..];
      assert Feed(env, st, g[k]) == if |a| >= Rargs(st.cmd) then Execute(env, st, a) else st.(args := a);
      PlaceOfFlag(st, letter, g, k);
      hide FitsPlace, AtFlag, FlagsOk, GroupFlags;
      if k + 1 < |g| {
        FitGroup(env, st.(args := a), letter, g, k + 1);
      }
    }
  }

  lemma PlaceOfFlag(st: PathState, letter: char, g: seq<string>, k: nat)
    requires |st.args| == k < |g| && (st.cmd in "aA" <==> letter in "aA") && FlagsOk(letter, g)
    ensures FitsPlace(st, g[k]) && (GroupFlags(letter, g)[k] ==> AtFlag(st))
  {
  }

  lemma {:induction false} FitGroups(env: Env, st: PathState, letter: char, groups: seq<seq<string>>)
    requires st.cmd != '\0' && Rargs(st.cmd) > 0 && st.args == [] && (st.cmd in "aA" <==> letter in "aA")
    requires forall i :: 0 <= i < |groups| ==> NumberGroup(groups[i], Rargs(st.cmd))
    requires forall i :: 0 <= i < |groups| ==> FlagsOk(letter, groups[i])
    ensures AllFit(env, st, Flat(groups), FlatFlags(letter, groups))
    decreases |groups|
  {
    hide Feed, Execute, FitsPlace, AtFlag, FlagsOk;
    if groups != [] {
      var g := groups[0];
      ExecuteArity(env, st, Values(env, g));
      FeedGroup(env, st, g, 0);
      FitGroup(env, st, letter, g, 0);
      assert g[0..] == g && GroupFlags(letter, g)[0..] == GroupFlags(letter, g) && st.(args := []) == st;
      SameLetter(env, st, Values(env, g));
      hide GroupFlags, FeedAll;
      FitGroups(env, Execute(env, st, Values(env, g)), letter, groups[1..]);
      FitConcat(env, st, g, Flat(groups[1..]), GroupFlags(letter, g), FlatFlags(letter, groups[1..]));
    }
  }

  lemma SameLetter(env: Env, st: PathState, a: seq<real>)
    requires |a| >= Rargs(st.cmd)
    ensures Execute(env, st, a).cmd in "aA" <==> st.cmd in "aA"
  {
    hide Drawn;
  }

  lemma FitCommand(env: Env, st: PathState, c: Command)
    requires Printable(c) && st.args == [] && (st.started || c.letter in "mM")
    ensures AllFit(env, st, Tokens(c), CommandFlags(c)) && AllReadable(Tokens(c))
  {
    PrintableIsLegal(c);
    ArityAgrees(c.letter);
    hide Arity, IsLetter, AllNumbers;
    BeginLegal(env, st, c);
    FlatReadable(c.groups);
    hide Begin, IsNumber;
    var next := Begin(env, st, c.letter);
    assert Feed(env, st, [c.letter]) == next;
    FitLetter(st, c.letter);
    if c.groups != [] {
      FitGroups(env, next, c.letter, c.groups);
    }
    assert Tokens(c)[1..] == Flat(c.groups) && CommandFlags(c)[1..] == FlatFlags(c.letter, c.groups);
  }

  lemma FitLetter(st: PathState, letter: char)
    requires st.args == []
    ensures FitsPlace(st, [letter])
  {
  }

  lemma {:induction false} FlatReadable(groups: seq<seq<string>>)
    requires forall i :: 0 <= i < |groups| ==> AllReadable(groups[i])
    ensures AllReadable(Flat(groups))
  {
    hide Readable;
    if groups != [] {
      FlatReadable(groups[1..]);
    }
  }

  lemma {:induction false} FitAll(env: Env, st: PathState, doc: seq<Command>)
    requires (forall i :: 0 <= i < |doc| ==> Printable(doc[i])) && Continues(st, doc) && st.args == []
    ensures AllFit(env, st, AllTokens(doc), AllFlags(doc)) && AllReadable(AllTokens(doc))
    decreases |doc|
  {
    hide Feed, Begin, Tokens, CommandFlags, Readable, FitsPlace, AtFlag;
    if doc != [] {
      var c := doc[0];
      PrintableIsLegal(c);
      hide Printable, Legal;
      BeginLegal(env, st, c);
      FeedCommand(env, st, c);
      FitCommand(env, st, c);
      PerformKeeps(env, Begin(env, st, c.letter), c.groups);
      var next := Perform(env, Begin(env, st, c.letter), c.groups);
      FitAll(env, next, doc[1..]);
      FitConcat(env, st, Tokens(c), AllTokens(doc[1..]), CommandFlags(c), AllFlags(doc[1..]));
    }
  }

  /** The gaps keep the items of the data apart. */
  ghost predicate GapsFit(doc: seq<Command>, gaps: seq<string>) {
    |gaps| == |AllTokens(doc)| && Items(AllTokens(doc)) && GapsOk(AllTokens(doc), AllFlags(doc), gaps)
  }

  /** Writing legal path data and parsing the text performs exactly the data. */
  lemma PrintedDataIsPerformed(env: Env, paths: seq<StoredPath>, doc: seq<Command>, gaps: seq<string>)
    requires (forall i :: 0 <= i < |doc| ==> Printable(doc[i])) && (doc == [] || doc[0].letter in "mM")
    requires GapsFit(doc, gaps)
    ensures forall i :: 0 <= i < |doc| ==> Legal(doc[i])
    ensures Parsed(env, Start(paths), Text(AllTokens(doc), gaps), 0) == PerformAll(env, Start(paths), doc)
  {
    hide Readable, Legal, GapsOk, Printable;
    forall i | 0 <= i < |doc| ensures Legal(doc[i]) {
      PrintableIsLegal(doc[i]);
    }
    FitAll(env, Start(paths), doc);
    ParsedText(env, Start(paths), AllTokens(doc), AllFlags(doc), gaps);
    MachinePerformsGrammar(env, Start(paths), doc);
  }

  /** A blank behind every item always keeps them apart. */
  lemma BlanksFit(doc: seq<Command>, gaps: seq<string>)
    requires |gaps| == |AllTokens(doc)| && Items(AllTokens(doc))
    requires forall i :: 0 <= i < |gaps| ==> gaps[i] != "" && IsGap(gaps[i])
    ensures GapsFit(doc, gaps)
  {
    hide IsGap, EndsBefore;
  }

  /** "M1-2a1 1 0 0110 4": no gap in front of a sign, before and behind a letter, nor behind the flags of an arc. */
  const COMPACT := [Command('M', [["1", "-2"]]), Command('a', [["1", "1", "0", "0", "1", "10", "4"]])]
  const COMPACT_GAPS := ["", "", "", "", " ", " ", " ", "", "", " ", ""]

  lemma CompactItems()
    ensures AllTokens(COMPACT) == ["M", "1", "-2", "a", "1", "1", "0", "0", "1", "10", "4"]
    ensures AllFlags(COMPACT) == [false, false, false, false, false, false, false, true, true, false, false]
  {
    var c, d := COMPACT[0], COMPACT[1];
    assert c.groups[1..] == [] && d.groups[1..] == [];
    assert COMPACT[1..] == [d] && COMPACT[1..][1..] == [];
    assert Tokens(c) == ["M", "1", "-2"];
    assert Tokens(d) == ["a", "1", "1", "0", "0", "1", "10", "4"];
    assert GroupFlags('M', c.groups[0]) == [false, false];
    assert GroupFlags('a', d.groups[0]) == [false, false, false, true, true, false, false];
    assert CommandFlags(c) == [false, false, false];
    assert CommandFlags(d) == [false, false, false, false, true, true, false, false];
  }

  lemma CompactGapsFit()
    ensures GapsFit(COMPACT, COMPACT_GAPS)
  {
    CompactItems();
    hide AllTokens, AllFlags, EndsBefore;
    EndsAtPlain("1", "-2");
    EndsAtPlain("-2", "a");
    EndsAtPlain("4", "");
    LetterEnds("M");
    LetterEnds("a");
  }

  lemma EndsAtPlain(item: string, next: string)
    requires item == "1" || item == "-2" || item == "4"
    requires next == "-2" || next == "a" || next == ""
    ensures EndsBefore(item, At(next, 0))
  {
  }

  lemma LetterEnds(item: string)
    requires item == "M" || item == "a"
    ensures forall c :: EndsBefore(item, c)
  {
  }

  lemma CompactText()
    ensures GapsFit(COMPACT, COMPACT_GAPS)
    ensures Text(AllTokens(COMPACT), COMPACT_GAPS) == "M1-2a1 1 0 0110 4"
  {
    CompactGapsFit();
    CompactItems();
    hide GapsFit, AllTokens;
    CompactSteps(AllTokens(COMPACT), COMPACT_GAPS);
  }

  predicate CompactParts(items: seq<string>, gaps: seq<string>) {
    && items == ["M", "1", "-2", "a", "1", "1", "0", "0", "1", "10", "4"]
    && gaps == ["", "", "", "", " ", " ", " ", "", "", " ", ""]
  }

  lemma CompactSteps(items: seq<string>, gaps: seq<string>)
    requires CompactParts(items, gaps)
    ensures Text(items, gaps) == "M1-2a1 1 0 0110 4"
  {
    CompactEnd(items, gaps);
    CompactMiddle(items, gaps);
    CompactLetter(items, gaps);
    CompactSecond(items, gaps);
    CompactStart(items, gaps);
    assert items[0..] == items && gaps[0..] == gaps;
    hide CompactParts, Text;
  }

  lemma CompactStart(items: seq<string>, gaps: seq<string>)
    requires CompactParts(items, gaps)
    requires Text(items[1..], gaps[1..]) == "1-2a1 1 0 0110 4"
    ensures Text(items[0..], gaps[0..]) == "M1-2a1 1 0 0110 4"
  {
    assert |items| == |gaps| == 11 && items[0] == "M" && gaps[0] == "";
    hide Text, CompactParts;
    TextFirst(items, gaps, "1-2a1 1 0 0110 4");
  }

  lemma CompactSecond(items: seq<string>, gaps: seq<string>)
    requires CompactParts(items, gaps)
    requires Text(items[2..], gaps[2..]) == "-2a1 1 0 0110 4"
    ensures Text(items[1..], gaps[1..]) == "1-2a1 1 0 0110 4"
  {
    assert |items| == |gaps| == 11 && items[1] == "1" && gaps[1] == "";
    hide Text, CompactParts;
    TextStep(items, gaps, 1, "-2a1 1 0 0110 4", "1-2a1 1 0 0110 4");
  }

  lemma TextFirst(items: seq<string>, gaps: seq<string>, rest: string)
    requires |items| == |gaps| > 0 && items[0] == "M" && gaps[0] == "" && Text(items[1..], gaps[1..]) == rest
    ensures Text(items[0..], gaps[0..]) == ['M'] + rest
  {
    assert "M" + "" + rest == ['M'] + rest;
    hide Text;
    TextStep(items, gaps, 0, rest, ['M'] + rest);
  }

  lemma CompactLetter(items: seq<string>, gaps: seq<string>)
    requires CompactParts(items, gaps)
    requires Text(items[4..], gaps[4..]) == "1 1 0 0110 4"
    ensures Text(items[2..], gaps[2..]) == "-2a1 1 0 0110 4"
  {
    assert |items| == |gaps| == 11 && items[2] == "-2" && items[3] == "a" && gaps[2] == gaps[3] == "";
    hide Text, CompactParts;
    TextStep(items, gaps, 3, "1 1 0 0110 4", "a1 1 0 0110 4");
    TextStep(items, gaps, 2, "a1 1 0 0110 4", "-2a1 1 0 0110 4");
  }

  lemma CompactMiddle(items: seq<string>, gaps: seq<string>)
    requires CompactParts(items, gaps)
    requires Text(items[6..], gaps[6..]) == "0 0110 4"
    ensures Text(items[4..], gaps[4..]) == "1 1 0 0110 4"
  {
    assert |items| == |gaps| == 11 && items[4] == items[5] == "1" && gaps[4] == gaps[5] == " ";
    hide Text, CompactParts;
    TextStep(items, gaps, 5, "0 0110 4", "1 0 0110 4");
    TextStep(items, gaps, 4, "1 0 0110 4", "1 1 0 0110 4");
  }

  lemma CompactEnd(items: seq<string>, gaps: seq<string>)
    requires CompactParts(items, gaps)
    ensures Text(items[6..], gaps[6..]) == "0 0110 4"
  {
    assert Text(items[11..], gaps[11..]) == "";
    assert |items| == |gaps| == 11;
    assert items[6] == items[7] == "0" && items[8] == "1" && items[9] == "10" && items[10] == "4";
    assert gaps[6] == gaps[9] == " " && gaps[7] == gaps[8] == gaps[10] == "";
    hide Text, CompactParts;
    TextStep(items, gaps, 10, "", "4");
    TextStep(items, gaps, 9, "4", "10 4");
    TextStep(items, gaps, 8, "10 4", "110 4");
    TextStep(items, gaps, 7, "110 4", "0110 4");
    TextStep(items, gaps, 6, "0110 4", "0 0110 4");
  }

  lemma TextStep(items: seq<string>, gaps: seq<string>, i: nat, rest: string, whole: string)
    requires |items| == |gaps| && i < |items| && Text(items[i + 1..], gaps[i + 1..]) == rest
    requires items[i] + gaps[i] + rest == whole
    ensures Text(items[i..], gaps[i..]) == whole
  {
    assert items[i..][1..] == items[i + 1..] && gaps[i..][1..] == gaps[i + 1..];
    assert items[i] + (gaps[i] + rest) == items[i] + gaps[i] + rest;
  }
}
