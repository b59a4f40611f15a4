/** Sums over a sequence, with the effect of changing or adding one element. */
module Sums {

  datatype Option<+T> = None | Some(value: T)

  function Sum<T>(f: T -> int, s: seq<T>): int {
    if |s| == 0 then 0 else Sum(f, s[..|s| - 1]) + f(s[|s| - 1])
  }

  lemma {:induction false} SumUpdate<T>(f: T -> int, s: seq<T>, i: nat, x: T)
    requires i < |s|
    ensures Sum(f, s[i := x]) == Sum(f, s) - f(s[i]) + f(x)
  {
    var n := |s| - 1;
    if i < n {
      SumUpdate(f, s[..n], i, x);
      assert s[i := x][..n] == s[..n][i := x];
    } else {
      assert s[i := x][..n] == s[..n];
    }
  }

  lemma SumAppend<T>(f: T -> int, s: seq<T>, x: T)
    ensures Sum(f, s + [x]) == Sum(f, s) + f(x)
  {
    assert (s + [x])[..|s|] == s;
  }

  /** A non-negative summand is at most the whole sum. */
  lemma {:induction false} SumAtLeast<T>(f: T -> int, s: seq<T>, i: nat)
    requires i < |s|
    requires forall k :: 0 <= k < |s| ==> f(s[k]) >= 0
    ensures Sum(f, s) >= f(s[i]) && Sum(f, s) >= 0
  {
    var n := |s| - 1;
    SumNonNegative(f, s[..n]);
    if i < n {
      SumAtLeast(f, s[..n], i);
    }
  }

  lemma {:induction false} SumNonNegative<T>(f: T -> int, s: seq<T>)
    requires forall k :: 0 <= k < |s| ==> f(s[k]) >= 0
    ensures Sum(f, s) >= 0
  {
    if |s| > 0 {
      SumNonNegative(f, s[..|s| - 1]);
    }
  }

  /** Two sums whose paired summands never exceed one together, and vanish at one place. */
  lemma {:induction false} SumsAtMost<T, U>(f: T -> int, s: seq<T>, g: U -> int, u: seq<U>)
    requires |s| == |u|
    requires forall k :: 0 <= k < |s| ==> f(s[k]) + g(u[k]) <= 1
    ensures Sum(f, s) + Sum(g, u) <= |s|
  {
    if |s| > 0 {
      SumsAtMost(f, s[..|s| - 1], g, u[..|s| - 1]);
    }
  }

  lemma {:induction false} SumsBelow<T, U>(f: T -> int, s: seq<T>, g: U -> int, u: seq<U>, i: nat)
    requires i < |s| == |u|
    requires forall k :: 0 <= k < |s| ==> f(s[k]) + g(u[k]) <= 1
    requires f(s[i]) + g(u[i]) <= 0
    ensures Sum(f, s) + Sum(g, u) < |s|
  {
    var n := |s| - 1;
    if i < n {
      SumsBelow(f, s[..n], g, u[..n], i);
    } else {
      SumsAtMost(f, s[..n], g, u[..n]);
    }
  }

  /** A sum of summands that are at most one, and not all one. */
  lemma {:induction false} SumBelow<T>(f: T -> int, s: seq<T>, i: nat)
    requires i <= |s|
    requires forall k :: 0 <= k < |s| ==> f(s[k]) <= 1
    ensures Sum(f, s) <= |s|
    ensures i < |s| && f(s[i]) <= 0 ==> Sum(f, s) < |s|
  {
    if |s| > 0 {
      SumBelow(f, s[..|s| - 1], if i < |s| - 1 then i else 0);
    }
  }

  /** A positive sum of non-negative summands has a positive summand. */
  lemma {:induction false} SumWitness<T>(f: T -> int, s: seq<T>) returns (i: nat)
    requires Sum(f, s) > 0
    ensures i < |s| && f(s[i]) > 0
  {
    var n := |s| - 1;
    if f(s[n]) > 0 {
      i := n;
    } else {
      i := SumWitness(f, s[..n]);
    }
  }

  /** A sum all of whose summands are zero is zero. */
  lemma {:induction false} SumZero<T>(f: T -> int, s: seq<T>)
    requires forall k :: 0 <= k < |s| ==> f(s[k]) == 0
    ensures Sum(f, s) == 0
  {
    if |s| > 0 {
      SumZero(f, s[..|s| - 1]);
    }
  }
}
