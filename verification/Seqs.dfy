/** Facts about sequences that several modules need. */
module Seqs {

  /** In two permutations, the last element of one is found in the other, and leaving it out of both
      leaves permutations. */
  lemma MatchLast<T>(a: seq<T>, b: seq<T>) returns (k: nat)
    requires a != [] && multiset(a) == multiset(b)
    ensures k < |b| && b[k] == a[|a| - 1]
    ensures multiset(a[..|a| - 1]) == multiset(b[..k] + b[k + 1..])
  {
    var e := a[|a| - 1];
    assert a == a[..|a| - 1] + [e];
    assert e in multiset(b);
    k :| 0 <= k < |b| && b[k] == e;
    assert b == b[..k] + [e] + b[k + 1..];
    calc {
      multiset(a[..|a| - 1]);
      multiset(a[..|a| - 1]) + multiset{e} - multiset{e};
      multiset(b) - multiset{e};
      multiset(b[..k]) + multiset{e} + multiset(b[k + 1..]) - multiset{e};
      multiset(b[..k]) + multiset(b[k + 1..]);
    }
  }

  lemma PermutationLength<T>(a: seq<T>, b: seq<T>)
    requires multiset(a) == multiset(b)
    ensures |a| == |b|
  {
    assert |multiset(a)| == |a| && |multiset(b)| == |b|;
  }
}
