/** The numbers of path data as section 8.3.9 of SVG 1.1 writes them, and that the scanner reads each of them whole. */
module PathNumbers {
  import opened PathLexer

  ghost predicate Digits(t: string) {
    forall i :: 0 <= i < |t| ==> '0' <= t[i] <= '9'
  }

  ghost predicate OptionalSign(t: string) {
    t == "" || t == "+" || t == "-"
  }

  /** Sign, whole part, point, fraction, and exponent with its mark, sign and digits. */
  datatype Parts = Parts(sign: string, whole: string, dot: string, fraction: string, mark: string, expSign: string,
                         power: string)
  {
    ghost predicate Ok() {
      && OptionalSign(sign) && Digits(whole) && Digits(fraction) && whole + fraction != ""
      && (dot == "." || (dot == "" && fraction == "")) && ExponentOk()
    }

    ghost predicate ExponentOk() {
      if mark == "" then expSign == "" && power == ""
      else (mark == "e" || mark == "E") && OptionalSign(expSign) && Digits(power) && power != ""
    }

    function Text(): string {
      sign + whole + dot + fraction + mark + expSign + power
    }
  }

  ghost predicate IsNumber(t: string) {
    exists p: Parts :: p.Ok() && p.Text() == t
  }

  /** A run of digits that nothing prolongs. */
  lemma {:induction false} DigitsRun(s: string, i: nat, j: nat)
    requires i <= j <= |s| && Digits(s[i..j]) && (j < |s| ==> !IsDigit(s[j]))
    ensures DigitsEnd(s, i) == j
    decreases j - i
  {
    if i < j {
      assert s[i] == s[i..j][0];
      assert s[i..j][1..] == s[i + 1..j];
      DigitsRun(s, i + 1, j);
    }
  }

  /** The text from where a part begins. */
  lemma Tails(p: Parts)
    ensures var s := p.Text();
            var i := |p.sign|;
            var j := i + |p.whole|;
            var k := j + |p.dot|;
            var l := k + |p.fraction|;
            var m := l + |p.mark|;
            var n := m + |p.expSign|;
            && n + |p.power| == |s| && s[..i] == p.sign && s[i..j] == p.whole && s[j..k] == p.dot
            && s[k..l] == p.fraction && s[l..m] == p.mark && s[m..n] == p.expSign && s[n..] == p.power
  {
  }

  lemma SignPart(p: Parts)
    requires p.Ok()
    ensures SignEnd(p.Text(), 0) == |p.sign|
  {
    Tails(p);
    var s := p.Text();
    var i := |p.sign|;
    var j := i + |p.whole|;
    hide Parts.Text, Parts.ExponentOk;
    assert p.sign != "" ==> s[0] == s[..i][0];
    assert p.whole != "" ==> s[i] == s[i..j][0];
    assert p.dot != "" ==> s[j] == s[j..j + |p.dot|][0];
  }

  lemma BehindWhole(p: Parts)
    requires p.Ok()
    ensures var j := |p.sign| + |p.whole|; j <= |p.Text()| && (j < |p.Text()| ==> !IsDigit(p.Text()[j]))
  {
    Tails(p);
    var s := p.Text();
    var j := |p.sign| + |p.whole|;
    hide Parts.Text;
    assert p.dot != "" ==> s[j] == s[j..j + |p.dot|][0];
    assert p.mark != "" && p.dot == "" ==> s[j] == s[j..j + |p.mark|][0];
  }

  lemma WholePart(p: Parts)
    requires p.Ok()
    ensures var i := |p.sign|; var j := i + |p.whole|; j <= |p.Text()| && DigitsEnd(p.Text(), i) == j
  {
    BehindWhole(p);
    Tails(p);
    hide Parts.Text, Parts.ExponentOk;
    DigitsRun(p.Text(), |p.sign|, |p.sign| + |p.whole|);
  }

  lemma FractionPart(p: Parts)
    requires p.Ok()
    ensures var j := |p.sign| + |p.whole|; var l := j + |p.dot| + |p.fraction|;
            j <= |p.Text()| && FractionEnd(p.Text(), j) == l
  {
    Tails(p);
    var s := p.Text();
    var j := |p.sign| + |p.whole|;
    var k := j + |p.dot|;
    var l := k + |p.fraction|;
    hide Parts.Text;
    assert p.dot == "." ==> s[j] == s[j..k][0];
    assert p.mark != "" ==> s[l] == s[l..l + |p.mark|][0];
    DigitsRun(s, k, l);
  }

  lemma ExponentWhole(p: Parts)
    requires p.Ok()
    ensures var l := |p.sign| + |p.whole| + |p.dot| + |p.fraction|;
            l <= |p.Text()| && ExponentEnd(p.Text(), l) == |p.Text()|
  {
    Tails(p);
    var s := p.Text();
    var l := |p.sign| + |p.whole| + |p.dot| + |p.fraction|;
    var m := l + |p.mark|;
    var n := m + |p.expSign|;
    hide Parts.Text;
    if p.mark != "" {
      assert s[l] == s[l..m][0];
      assert p.expSign != "" ==> s[m] == s[m..n][0];
      assert s[n] == s[n..][0];
      assert s[n..] == s[n..|s|];
      DigitsRun(s, n, |s|);
    }
  }

  lemma FirstOfNumber(p: Parts)
    requires p.Ok()
    ensures p.Text() != "" && StartsNumber(p.Text()[0]) && IsCoordinate(p.Text())
  {
    Tails(p);
    var s := p.Text();
    var i := |p.sign|;
    var j := i + |p.whole|;
    hide Parts.Text, Parts.ExponentOk;
    assert p.sign != "" ==> s[0] == s[..i][0];
    assert p.whole != "" ==> s[i] == s[i..j][0];
    assert p.dot != "" ==> s[j] == s[j..j + |p.dot|][0];
  }

  lemma LastOfNumber(p: Parts)
    requires p.Ok()
    ensures !IsMarkOfExponent(p.Text())
  {
    Tails(p);
    var s := p.Text();
    var j := |p.sign| + |p.whole|;
    var l := j + |p.dot| + |p.fraction|;
    hide Parts.Text;
    assert p.power != "" ==> s[|s| - 1] == p.power[|p.power| - 1];
    assert p.fraction != "" ==> s[l - 1] == p.fraction[|p.fraction| - 1];
    assert p.dot != "" ==> s[j] == s[j..j + |p.dot|][0];
    assert p.whole != "" ==> s[j - 1] == p.whole[|p.whole| - 1];
  }

  /** The text ends in the mark of an exponent. */
  predicate IsMarkOfExponent(t: string) {
    t != "" && (t[|t| - 1] == 'e' || t[|t| - 1] == 'E')
  }

  /** Every number of the grammar is read to its end, and counts as one. */
  lemma NumberIsRead(t: string)
    requires IsNumber(t)
    ensures t != "" && StartsNumber(t[0]) && IsCoordinate(t) && !IsMarkOfExponent(t) && NumberEnd(t, 0) == |t|
  {
    hide Parts.Ok, Parts.Text, NumberEnd, IsCoordinate, IsMarkOfExponent;
    var p: Parts :| p.Ok() && p.Text() == t;
    PartsAreRead(p);
    FirstOfNumber(p);
    LastOfNumber(p);
  }

  lemma PartsAreRead(p: Parts)
    requires p.Ok()
    ensures NumberEnd(p.Text(), 0) == |p.Text()|
  {
    hide Parts.Ok, Parts.Text, SignEnd, DigitsEnd, FractionEnd, ExponentEnd;
    SignPart(p);
    WholePart(p);
    FractionPart(p);
    ExponentWhole(p);
  }

  /** For instance "1.5" and "-.5e+3". */
  lemma DecimalNumber()
    ensures IsNumber("1.5")
  {
    SomeNumber(Parts("", "1", ".", "5", "", "", ""), "1.5");
  }

  lemma ExponentNumber()
    ensures IsNumber("-.5e+3")
  {
    SomeNumber(Parts("-", "", ".", "5", "e", "+", "3"), "-.5e+3");
  }

  lemma SomeNumber(p: Parts, t: string)
    requires p.Ok() && p.Text() == t
    ensures IsNumber(t)
  {
  }
}
