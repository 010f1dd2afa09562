/** Distinct numbers below a bound are no more than the bound. */
module Counting {

  function Elements(s: seq<nat>): set<nat> {
    set x | x in s
  }

  ghost predicate AllDistinct(s: seq<nat>) {
    forall i, j :: 0 <= i < j < |s| ==> s[i] != s[j]
  }

  lemma {:induction false} DistinctElements(s: seq<nat>)
    requires AllDistinct(s)
    ensures |Elements(s)| == |s|
  {
    if s == [] {
      assert Elements(s) == {};
    } else {
      var last := s[|s| - 1];
      var t := s[..|s| - 1];
      DistinctElements(t);
      assert last !in t;
      assert Elements(s) == Elements(t) + {last} by { assert s == t + [last]; }
    }
  }

  lemma {:induction false} BoundedSet(a: set<nat>, n: nat)
    requires forall x :: x in a ==> x < n
    ensures |a| <= n
  {
    if n == 0 {
      assert a == {};
    } else {
      BoundedSet(a - {n - 1}, n - 1);
    }
  }

  lemma DistinctNumbersFit(s: seq<nat>, n: nat)
    requires AllDistinct(s) && forall i :: 0 <= i < |s| ==> s[i] < n
    ensures |s| <= n
  {
    DistinctElements(s);
    BoundedSet(Elements(s), n);
  }
}
