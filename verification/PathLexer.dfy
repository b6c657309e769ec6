/** The lexer of SVG path data: `nsvg__parseNumber`, `nsvg__getNextPathItem` and its variant for arc flags. The
    source is a C string without its terminator; reading behind its end gives the terminator. */
module PathLexer {
  import opened CStrings

  const ITEM_SIZE := 64

  function At(s: string, i: nat): char {
    if i < |s| then s[i] else '\0'
  }

  predicate IsDigit(c: char) {
    '0' <= c <= '9'
  }

  /** `nsvg__isspace`, which also accepts the terminator. */
  predicate IsSpace(c: char) {
    c in " \t\n\r\0" || c as int == 11 || c as int == 12
  }

  predicate IsSign(c: char) {
    c == '-' || c == '+'
  }

  predicate StartsNumber(c: char) {
    IsSign(c) || c == '.' || IsDigit(c)
  }

  /** `nsvg__isCoordinate`. */
  predicate IsCoordinate(item: string) {
    var first := if IsSign(At(item, 0)) then 1 else 0;
    IsDigit(At(item, first)) || At(item, first) == '.'
  }

  function SignEnd(s: string, i: nat): nat {
    if IsSign(At(s, i)) then i + 1 else i
  }

  function DigitsEnd(s: string, i: nat): (j: nat)
    requires i <= |s|
    ensures i <= j <= |s| && (i < |s| && IsDigit(s[i]) ==> i < j)
    decreases |s| - i
  {
    if i < |s| && IsDigit(s[i]) then DigitsEnd(s, i + 1) else i
  }

  function FractionEnd(s: string, i: nat): (j: nat)
    requires i <= |s|
    ensures i <= j <= |s| && (At(s, i) == '.' ==> i < j)
  {
    if At(s, i) == '.' then DigitsEnd(s, i + 1) else i
  }

  /** An exponent, unless it is the beginning of the unit "em" or "ex". */
  predicate StartsExponent(s: string, i: nat) {
    (At(s, i) == 'e' || At(s, i) == 'E') && At(s, i + 1) != 'm' && At(s, i + 1) != 'x'
  }

  function ExponentEnd(s: string, i: nat): (j: nat)
    requires i <= |s|
    ensures i <= j <= |s|
  {
    if StartsExponent(s, i) then DigitsEnd(s, SignEnd(s, i + 1)) else i
  }

  /** Where the number that starts at `i` ends. */
  function NumberEnd(s: string, i: nat): (j: nat)
    requires i <= |s|
    ensures i <= j <= |s|
    ensures StartsNumber(At(s, i)) ==> i < j
  {
    ExponentEnd(s, FractionEnd(s, DigitsEnd(s, SignEnd(s, i))))
  }

  /** What fits into the item buffer. */
  function Cut(t: string): (r: string)
    ensures |r| < ITEM_SIZE
  {
    if |t| < ITEM_SIZE then t else t[..ITEM_SIZE - 1]
  }

  function SkipSpace(s: string, i: nat): (j: nat)
    requires i <= |s|
    ensures i <= j <= |s| && (j < |s| ==> !IsSpace(s[j]) && s[j] != ',')
    decreases |s| - i
  {
    if i < |s| && (IsSpace(s[i]) || s[i] == ',') then SkipSpace(s, i + 1) else i
  }

  /** The next item and where it ends; an empty item at the end of the string. */
  function NextItem(s: string, i: nat): (r: (string, nat))
    requires i <= |s|
    ensures i <= r.1 <= |s| && |r.0| < ITEM_SIZE && (r.0 != "" ==> i < r.1)
  {
    var j := SkipSpace(s, i);
    if j == |s| then ("", j)
    else if StartsNumber(s[j]) then (Cut(s[j..NumberEnd(s, j)]), NumberEnd(s, j))
    else ([s[j]], j + 1)
  }

  /** The variant for the two flags of an arc, which need no separator: "0" or "1", or else an empty item. */
  function NextFlag(s: string, i: nat): (r: (string, nat))
    requires i <= |s|
    ensures i <= r.1 <= |s| && |r.0| < ITEM_SIZE && (r.0 != "" ==> i < r.1)
  {
    var j := SkipSpace(s, i);
    if j < |s| && (s[j] == '0' || s[j] == '1') then ([s[j]], j + 1) else ("", j)
  }

  /** `if (i < last) it[i++] = *s; s++`, where `s[from..p]` has been read. */
  method Put(it: array<char>, n: nat, s: string, ghost from: nat, p: nat) returns (n': nat, p': nat)
    requires it.Length == ITEM_SIZE && from <= p < |s| && n < ITEM_SIZE && it[..n] == Cut(s[from..p])
    modifies it
    ensures p' == p + 1 && n' < ITEM_SIZE && it[..n'] == Cut(s[from..p'])
  {
    n', p' := n, p + 1;
    assert s[from..p + 1] == s[from..p] + [s[p]];
    if n' < ITEM_SIZE - 1 {
      it[n'] := s[p];
      n' := n' + 1;
    }
  }

  method PutDigits(it: array<char>, n: nat, s: string, ghost from: nat, p: nat) returns (n': nat, p': nat)
    requires it.Length == ITEM_SIZE && from <= p <= |s| && n < ITEM_SIZE && it[..n] == Cut(s[from..p])
    modifies it
    ensures p' == DigitsEnd(s, p) && n' < ITEM_SIZE && it[..n'] == Cut(s[from..p'])
  {
    hide Cut;
    n', p' := n, p;
    while p' < |s| && IsDigit(s[p'])
      invariant p <= p' <= |s| && DigitsEnd(s, p') == DigitsEnd(s, p)
      invariant n' < ITEM_SIZE && it[..n'] == Cut(s[from..p'])
    {
      n', p' := Put(it, n', s, from, p');
    }
  }

  method PutSign(it: array<char>, n: nat, s: string, ghost from: nat, p: nat) returns (n': nat, p': nat)
    requires it.Length == ITEM_SIZE && from <= p <= |s| && n < ITEM_SIZE && it[..n] == Cut(s[from..p])
    modifies it
    ensures p' == SignEnd(s, p) <= |s| && n' < ITEM_SIZE && it[..n'] == Cut(s[from..p'])
  {
    hide Cut;
    n', p' := n, p;
    if IsSign(At(s, p)) {
      n', p' := Put(it, n, s, from, p);
    }
  }

  /** `nsvg__parseNumber` with `size` 64. No store is out of the buffer, however long the number. */
  method ParseNumber(s: string, i: nat, it: array<char>) returns (p: nat)
    requires i <= |s| && it.Length == ITEM_SIZE
    modifies it
    ensures p == NumberEnd(s, i) && Holds(it[..], Cut(s[i..p]))
  {
    hide Cut;
    var n := 0;
    p := i;
    NothingCut(s, i);
    n, p := PutSign(it, n, s, i, p);
    n, p := PutDigits(it, n, s, i, p);
    if At(s, p) == '.' {
      n, p := Put(it, n, s, i, p);
      n, p := PutDigits(it, n, s, i, p);
    }
    if StartsExponent(s, p) {
      n, p := Put(it, n, s, i, p);
      n, p := PutSign(it, n, s, i, p);
      n, p := PutDigits(it, n, s, i, p);
    }
    ghost var text := it[..n];
    it[n] := '\0';
    assert it[..n] == text;
  }

  lemma NothingCut(s: string, i: nat)
    requires i <= |s|
    ensures Cut(s[i..i]) == ""
  {
  }

  method Skip(s: string, i: nat) returns (p: nat)
    requires i <= |s|
    ensures p == SkipSpace(s, i)
  {
    p := i;
    while p < |s| && (IsSpace(s[p]) || s[p] == ',')
      invariant i <= p <= |s| && SkipSpace(s, p) == SkipSpace(s, i)
    {
      p := p + 1;
    }
  }

  method PutChar(it: array<char>, c: char)
    requires it.Length == ITEM_SIZE
    modifies it
    ensures Holds(it[..], [c])
  {
    it[0], it[1] := c, '\0';
  }

  method PutNothing(it: array<char>)
    requires it.Length == ITEM_SIZE
    modifies it
    ensures Holds(it[..], "")
  {
    it[0] := '\0';
  }

  /** `nsvg__getNextPathItem`. */
  method GetNextPathItem(s: string, i: nat, it: array<char>) returns (p: nat)
    requires i <= |s| && it.Length == ITEM_SIZE
    modifies it
    ensures p == NextItem(s, i).1 && Holds(it[..], NextItem(s, i).0)
  {
    hide Holds, Cut, NumberEnd;
    PutNothing(it);
    p := Skip(s, i);
    if p == |s| {
      return;
    }
    if StartsNumber(s[p]) {
      p := ParseNumber(s, p, it);
    } else {
      PutChar(it, s[p]);
      p := p + 1;
    }
  }

  /** `nsvg__getNextPathItemWhenArcFlag`. */
  method GetNextPathItemWhenArcFlag(s: string, i: nat, it: array<char>) returns (p: nat)
    requires i <= |s| && it.Length == ITEM_SIZE
    modifies it
    ensures p == NextFlag(s, i).1 && Holds(it[..], NextFlag(s, i).0)
  {
    hide Holds;
    PutNothing(it);
    p := Skip(s, i);
    if p < |s| && (s[p] == '0' || s[p] == '1') {
      PutChar(it, s[p]);
      p := p + 1;
    }
  }
}
