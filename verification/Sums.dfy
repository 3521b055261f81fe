/** Sums over integer sequences: concatenation, point update and order. */
module Sums {

  function Sum(s: seq<int>): int {
    if s == [] then 0 else Sum(s[..|s| - 1]) + s[|s| - 1]
  }

  lemma {:induction false} SumConcat(a: seq<int>, b: seq<int>)
    ensures Sum(a + b) == Sum(a) + Sum(b)
    decreases |b|
  {
    if b == [] {
      assert a + b == a;
    } else {
      SumConcat(a, b[..|b| - 1]);
      assert (a + b)[..|a + b| - 1] == a + b[..|b| - 1];
    }
  }

  lemma SumUpdate(s: seq<int>, i: nat, v: int)
    requires i < |s|
    ensures Sum(s[i := v]) == Sum(s) - s[i] + v
  {
    var a, b := s[..i], s[i + 1..];
    assert s == a + ([s[i]] + b);
    assert s[i := v] == a + ([v] + b);
    SumConcat(a, [s[i]] + b);
    SumConcat([s[i]], b);
    SumConcat(a, [v] + b);
    SumConcat([v], b);
  }

  lemma SumInsert(s: seq<int>, k: nat, v: int)
    requires k <= |s|
    ensures Sum(s[..k] + [v] + s[k..]) == Sum(s) + v
  {
    assert s == s[..k] + s[k..];
    SumConcat(s[..k], s[k..]);
    SumConcat(s[..k] + [v], s[k..]);
    SumConcat(s[..k], [v]);
  }

  /** Halving with rounding up adds at most one half per element. */
  lemma {:induction false} SumHalves(s: seq<int>, h: seq<int>)
    requires |s| == |h|
    requires forall i :: 0 <= i < |s| ==> h[i] == (s[i] + 1) / 2
    ensures 2 * Sum(h) <= Sum(s) + |s|
    decreases |s|
  {
    if s == [] {
    } else {
      var n := |s| - 1;
      SumHalves(s[..n], h[..n]);
      assert h[n] == (s[n] + 1) / 2;
    }
  }
}
