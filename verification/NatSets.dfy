/** Finite sets of natural numbers and their sizes. */
module NatSets {

  /** The entries of a sequence. */
  function Elements(xs: seq<nat>): set<nat> {
    if xs == [] then {} else {xs[0]} + Elements(xs[1..])
  }

  lemma {:induction false} ElementAt(xs: seq<nat>, x: nat)
    ensures x in Elements(xs) <==> exists i :: 0 <= i < |xs| && xs[i] == x
  {
    if xs != [] {
      ElementAt(xs[1..], x);
      if x in Elements(xs[1..]) {
        var i :| 0 <= i < |xs| - 1 && xs[1..][i] == x;
        assert xs[i + 1] == x;
      }
      if i :| 0 < i < |xs| && xs[i] == x {
        assert xs[1..][i - 1] == x;
      }
    }
  }

  /** Distinct entries are as many as the sequence is long. */
  lemma {:induction false} SizeOfDistinct(xs: seq<nat>)
    requires forall i, j :: 0 <= i < j < |xs| ==> xs[i] != xs[j]
    ensures |Elements(xs)| == |xs|
  {
    if xs != [] {
      SizeOfDistinct(xs[1..]);
      ElementAt(xs[1..], xs[0]);
    }
  }

  function UpTo(n: nat): (s: set<nat>)
    ensures forall x: nat :: x in s <==> x < n
  {
    if n == 0 then {} else UpTo(n - 1) + {n - 1}
  }

  lemma {:induction false} SizeUpTo(n: nat)
    ensures |UpTo(n)| == n
  {
    if n > 0 { SizeUpTo(n - 1); }
  }

  lemma Subset(a: set<nat>, b: set<nat>)
    requires a <= b
    ensures |a| <= |b|
  {
    assert b == a + (b - a);
  }

  /** Distinct numbers below `n` are at most `n`. */
  lemma DistinctBelow(xs: seq<nat>, n: nat)
    requires forall i, j :: 0 <= i < j < |xs| ==> xs[i] != xs[j]
    requires forall i :: 0 <= i < |xs| ==> xs[i] < n
    ensures |xs| <= n
  {
    SizeOfDistinct(xs);
    SizeUpTo(n);
    forall x | x in Elements(xs) ensures x in UpTo(n) { ElementAt(xs, x); }
    Subset(Elements(xs), UpTo(n));
  }
}
