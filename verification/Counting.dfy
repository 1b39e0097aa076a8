/** How many different numbers there can be below a bound. */
module Counting {

  function Below(n: nat): (r: set<int>)
    ensures |r| == n && forall b :: b in r <==> 0 <= b < n
  {
    if n == 0 then {} else Below(n - 1) + {n - 1}
  }

  function Elements(q: seq<int>): (r: set<int>)
    ensures forall b :: b in r <==> b in q
  {
    if q == [] then {} else Elements(q[..|q| - 1]) + {q[|q| - 1]}
  }

  predicate Different(q: seq<int>) {
    forall i, j :: 0 <= i < j < |q| ==> q[i] != q[j]
  }

  lemma {:induction false} DifferentCount(q: seq<int>)
    requires Different(q)
    ensures |Elements(q)| == |q|
  {
    if q != [] { DifferentCount(q[..|q| - 1]); }
  }

  lemma Fewer(a: set<int>, b: set<int>)
    requires a <= b
    ensures |a| <= |b|
  {
    assert a + (b - a) == b;
  }

  /** There are at most `n` different numbers below `n`. */
  lemma DifferentBelow(q: seq<int>, n: nat)
    requires Different(q) && forall i :: 0 <= i < |q| ==> 0 <= q[i] < n
    ensures |q| <= n
  {
    DifferentCount(q);
    Fewer(Elements(q), Below(n));
  }
}
