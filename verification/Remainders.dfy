/** Division with remainder, with the multiples kept out of the solver's sight. */
module Remainders {

  function Rounds(q: int, n: int): int {
    q * n
  }

  lemma Multiple(n: int, e: int) returns (p: int)
    requires n > 0
    ensures p == n * e && (e >= 1 ==> p >= n) && (e <= -1 ==> p <= -n) && (e == 0 ==> p == 0)
  {
    p := n * e;
    if e >= 1 {
      assert n * (e - 1) >= 0;
    } else if e <= -1 {
      assert n * (-e - 1) >= 0;
    }
  }

  lemma RemainderIs(k: int, n: nat, q: int, i: nat)
    requires n > 0 && i < n && k == Rounds(q, n) + i
    ensures k % n == i && k / n == q
  {
    var p := Multiple(n, q - k / n);
    assert p == k % n - i;
  }

  lemma Divided(k: int, n: nat) returns (q: int)
    requires n > 0
    ensures q == k / n && k == Rounds(q, n) + k % n && 0 <= k % n < n
    ensures Rounds(q + 1, n) == Rounds(q, n) + n && Rounds(q - 1, n) == Rounds(q, n) - n
  {
    q := k / n;
  }

  lemma RoundsSum(a: int, b: int, n: int)
    ensures Rounds(a + b, n) == Rounds(a, n) + Rounds(b, n)
  {
  }

  /** Adding to a remainder and reducing again is reducing the sum. */
  lemma RemainderSum(x: int, d: int, n: nat)
    requires n > 0
    ensures (x % n + d) % n == (x + d) % n
  {
    hide Rounds;
    var q := Divided(x, n);
    var r := Divided(x % n + d, n);
    RoundsSum(q, r, n);
    RemainderIs(x + d, n, q + r, (x % n + d) % n);
  }

  /** Two numbers have the same remainder exactly when their difference has none. */
  lemma SameRemainderIff(x: int, y: int, n: nat)
    requires n > 0
    ensures x % n == y % n <==> (x - y) % n == 0
  {
    hide Rounds;
    var a := Divided(x, n);
    var b := Divided(y, n);
    var c := Divided(x - y, n);
    if x % n == y % n {
      RoundsSum(a - b, b, n);
      RemainderIs(x - y, n, a - b, 0);
    }
    if (x - y) % n == 0 {
      RoundsSum(b, c, n);
      RemainderIs(x, n, b + c, y % n);
    }
  }
}
