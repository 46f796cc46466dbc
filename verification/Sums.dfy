/** Finite sums over a sequence, and how one changed or added element changes them. */
module Sums {

  function Sum<T>(s: seq<T>, f: T -> int): int {
    if s == [] then 0 else Sum(s[..|s| - 1], f) + f(s[|s| - 1])
  }

  lemma SumAppend<T>(s: seq<T>, x: T, f: T -> int)
    ensures Sum(s + [x], f) == Sum(s, f) + f(x)
  {
    assert (s + [x])[..|s|] == s;
  }

  lemma {:induction false} SumUpdate<T>(s: seq<T>, k: int, x: T, f: T -> int)
    requires 0 <= k < |s|
    ensures Sum(s[k := x], f) == Sum(s, f) - f(s[k]) + f(x)
  {
    var last := |s| - 1;
    if k == last {
      assert s[k := x][..last] == s[..last];
    } else {
      SumUpdate(s[..last], k, x, f);
      assert s[k := x][..last] == s[..last][k := x];
    }
  }

  /** A pointwise bound carries over to the sum. */
  lemma {:induction false} SumBounds<T>(s: seq<T>, f: T -> int, lo: int, hi: int)
    requires forall k :: 0 <= k < |s| ==> lo <= f(s[k]) <= hi
    ensures |s| * lo <= Sum(s, f) <= |s| * hi
  {
    if s != [] {
      SumBounds(s[..|s| - 1], f, lo, hi);
    }
  }

  /** One element below the bound makes the sum strictly smaller. */
  lemma {:induction false} SumStrictlyBelow<T>(s: seq<T>, f: T -> int, hi: int, k: int)
    requires forall j :: 0 <= j < |s| ==> f(s[j]) <= hi
    requires 0 <= k < |s| && f(s[k]) < hi
    ensures Sum(s, f) < |s| * hi
  {
    var last := |s| - 1;
    if k < last {
      SumStrictlyBelow(s[..last], f, hi, k);
    } else {
      SumAtMost(s[..last], f, hi);
    }
  }

  lemma {:induction false} SumAtMost<T>(s: seq<T>, f: T -> int, hi: int)
    requires forall j :: 0 <= j < |s| ==> f(s[j]) <= hi
    ensures Sum(s, f) <= |s| * hi
  {
    if s != [] {
      SumAtMost(s[..|s| - 1], f, hi);
    }
  }

  /** Sequences that agree pointwise under their two measures have the same sum. */
  lemma {:induction false} SumCongruent<T, U>(s: seq<T>, f: T -> int, t: seq<U>, g: U -> int)
    requires |s| == |t|
    requires forall k :: 0 <= k < |s| ==> f(s[k]) == g(t[k])
    ensures Sum(s, f) == Sum(t, g)
  {
    if s != [] {
      SumCongruent(s[..|s| - 1], f, t[..|t| - 1], g);
    }
  }

  /** A pointwise order gives the same order of the sums, and equal sums force equality everywhere. */
  lemma {:induction false} SumOrdered<T, U>(s: seq<T>, f: T -> int, t: seq<U>, g: U -> int)
    requires |s| == |t|
    requires forall k :: 0 <= k < |s| ==> f(s[k]) <= g(t[k])
    ensures Sum(s, f) <= Sum(t, g)
    ensures Sum(s, f) == Sum(t, g) <==> forall k :: 0 <= k < |s| ==> f(s[k]) == g(t[k])
  {
    if s != [] {
      var last := |s| - 1;
      SumOrdered(s[..last], f, t[..last], g);
      if Sum(s, f) == Sum(t, g) {
        forall k | 0 <= k < |s| ensures f(s[k]) == g(t[k]) {
          if k < last {
            assert s[..last][k] == s[k] && t[..last][k] == t[k];
          }
        }
      } else {
        if f(s[last]) == g(t[last]) {
          var k :| 0 <= k < last && f(s[..last][k]) != g(t[..last][k]);
          assert f(s[k]) != g(t[k]);
        }
      }
    }
  }

  function Itself(x: int): int { x }

  lemma ZeroSum<T>(s: seq<T>, f: T -> int)
    requires forall k :: 0 <= k < |s| ==> f(s[k]) == 0
    ensures Sum(s, f) == 0
  {
    SumBounds(s, f, 0, 0);
  }

  /** One measure is a multiple of the other. */
  lemma {:induction false} SumScaled<T, U>(s: seq<T>, f: T -> int, t: seq<U>, g: U -> int, factor: int)
    requires |s| == |t|
    requires forall k :: 0 <= k < |s| ==> g(t[k]) == if f(s[k]) == 0 then 0 else factor
    requires forall k :: 0 <= k < |s| ==> 0 <= f(s[k]) <= 1
    ensures Sum(t, g) == Sum(s, f) * factor
  {
    if s != [] {
      SumScaled(s[..|s| - 1], f, t[..|t| - 1], g, factor);
    }
  }

  /** No term of a sum without negative terms exceeds it; together with the last one, not either. */
  lemma SumOfTwo<T>(s: seq<T>, f: T -> int, k: int)
    requires forall j :: 0 <= j < |s| ==> f(s[j]) >= 0
    requires 0 <= k < |s| - 1
    ensures f(s[k]) + f(s[|s| - 1]) <= Sum(s, f)
  {
    SumOfOne(s[..|s| - 1], f, k);
  }

  lemma {:induction false} SumOfOne<T>(s: seq<T>, f: T -> int, k: int)
    requires forall j :: 0 <= j < |s| ==> f(s[j]) >= 0
    requires 0 <= k < |s|
    ensures f(s[k]) <= Sum(s, f)
  {
    var last := |s| - 1;
    if k < last {
      SumOfOne(s[..last], f, k);
    } else {
      SumNotNegative(s[..last], f);
    }
  }

  lemma {:induction false} SumNotNegative<T>(s: seq<T>, f: T -> int)
    requires forall j :: 0 <= j < |s| ==> f(s[j]) >= 0
    ensures Sum(s, f) >= 0
  {
    if s != [] {
      SumNotNegative(s[..|s| - 1], f);
    }
  }
}
