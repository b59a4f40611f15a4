/** The comb sort of the support library (ustd/algorithm.hh). */
module CombSort {
  import opened Sums

  /** What the callers' comparison stands for: "greater" in a total preorder. */
  ghost predicate TotalPreorder<T(!new)>(gt: (T, T) -> bool) {
    && (forall x, y :: gt(x, y) ==> !gt(y, x))
    && (forall x, y, z :: !gt(x, y) && !gt(y, z) ==> !gt(x, z))
  }

  ghost predicate Sorted<T>(gt: (T, T) -> bool, s: seq<T>) {
    forall i, j :: 0 <= i < j < |s| ==> !gt(s[i], s[j])
  }

  // ----- inversions -----

  // Whether an element is greater than x.
  function Greater<T>(gt: (T, T) -> bool, x: T): T -> int {
    y => if gt(y, x) then 1 else 0
  }

  /** The number of pairs that stand in the wrong order. */
  ghost function Inversions<T>(gt: (T, T) -> bool, s: seq<T>): nat {
    if |s| == 0 then 0
    else
      var init, last := s[..|s| - 1], s[|s| - 1];
      SumNonNegative(Greater(gt, last), init);
      Inversions(gt, init) + Sum(Greater(gt, last), init)
  }

  function Swapped<T>(s: seq<T>, i: nat, j: nat): (r: seq<T>)
    requires i < |s| && j < |s|
    ensures |r| == |s|
  {
    s[i := s[j]][j := s[i]]
  }

  lemma SumSwapped<T>(f: T -> int, s: seq<T>, i: nat, j: nat)
    requires i < j < |s|
    ensures Sum(f, Swapped(s, i, j)) == Sum(f, s)
  {
    SumUpdate(f, s, i, s[j]);
    SumUpdate(f, s[i := s[j]], j, s[i]);
  }

  /** Swapping two neighbours in the wrong order leaves one inversion less. */
  lemma {:induction false} SwapNeighbours<T(!new)>(gt: (T, T) -> bool, s: seq<T>, i: nat)
    requires TotalPreorder(gt) && i + 1 < |s| && gt(s[i], s[i + 1])
    ensures Inversions(gt, Swapped(s, i, i + 1)) == Inversions(gt, s) - 1
  {
    hide Inversions, Sum, TotalPreorder, Swapped;
    var n, t := |s| - 1, Swapped(s, i, i + 1);
    if i + 1 < n {
      SwapNeighbours(gt, s[..n], i);
      SumSwapped(Greater(gt, s[n]), s[..n], i, i + 1);
      SwapInInit(s, i, i + 1);
      InversionsAppend(gt, s[..n], s[n]);
      InversionsAppend(gt, Swapped(s[..n], i, i + 1), s[n]);
    } else {
      SwapLast(gt, s[..i], s[i], s[n]);
      SwapAtEnd(s);
    }
  }

  lemma SwapInInit<T>(s: seq<T>, i: nat, j: nat)
    requires i < j < |s| - 1
    ensures var n := |s| - 1; s == s[..n] + [s[n]] && Swapped(s, i, j) == Swapped(s[..n], i, j) + [s[n]]
  {
  }

  lemma SwapAtEnd<T>(s: seq<T>)
    requires |s| >= 2
    ensures var i := |s| - 2; s == s[..i] + [s[i]] + [s[i + 1]] && Swapped(s, i, i + 1) == s[..i] + [s[i + 1]] + [s[i]]
  {
  }

  lemma InversionsAppend<T>(gt: (T, T) -> bool, s: seq<T>, x: T)
    ensures Inversions(gt, s + [x]) == Inversions(gt, s) + Sum(Greater(gt, x), s)
  {
    assert (s + [x])[..|s|] == s;
  }

  lemma SwapLast<T(!new)>(gt: (T, T) -> bool, p: seq<T>, x: T, y: T)
    requires TotalPreorder(gt) && gt(x, y)
    ensures Inversions(gt, p + [y] + [x]) == Inversions(gt, p + [x] + [y]) - 1
  {
    hide Inversions, Sum;
    assert !gt(y, x);
    InversionsAppend(gt, p, x);
    InversionsAppend(gt, p, y);
    InversionsAppend(gt, p + [x], y);
    InversionsAppend(gt, p + [y], x);
    SumAppend(Greater(gt, y), p, x);
    SumAppend(Greater(gt, x), p, y);
  }

  lemma SwapPermutes<T>(s: seq<T>, i: nat, j: nat)
    requires i < j < |s|
    ensures multiset(Swapped(s, i, j)) == multiset(s)
  {
  }

  /** Neighbours in order make the whole sequence sorted. */
  lemma {:induction false} NeighboursSorted<T(!new)>(gt: (T, T) -> bool, s: seq<T>)
    requires TotalPreorder(gt)
    requires forall i :: 0 <= i < |s| - 1 ==> !gt(s[i], s[i + 1])
    ensures Sorted(gt, s)
  {
    if |s| > 1 {
      var n := |s| - 1;
      NeighboursSorted(gt, s[..n]);
      forall i | 0 <= i < n ensures !gt(s[i], s[n]) {
        assert !gt(s[n - 1], s[n]);
        if i < n - 1 {
          assert !gt(s[..n][i], s[..n][n - 1]);
        }
      }
    }
  }

  // ----- the gap -----

  /** The next gap, computed in an unsigned type of the given width. */
  function NextGap(gap: nat, modulus: nat): nat
    requires modulus > 0
  {
    var g := gap * 10 % modulus / 13;
    if g == 9 || g == 10 then 11 else if g < 1 then 1 else g
  }

  /** Despite the step up to 11, and despite any wrap-around, the gap falls until it is 1. */
  lemma GapFalls(gap: nat, modulus: nat)
    requires gap > 0 && modulus > 0
    ensures 1 <= NextGap(gap, modulus) <= gap
    ensures gap > 1 ==> NextGap(gap, modulus) < gap
    ensures gap == 1 ==> NextGap(gap, modulus) == 1
  {
    Remainder(gap * 10, modulus);
  }

  /** The gap shrinks by 1.3, rounded down, but never to 9 or 10, for which it takes 11, nor below 1. */
  lemma GapShrinks(gap: nat, modulus: nat)
    requires modulus > 0
    ensures var tenfold, next := gap * 10 % modulus, NextGap(gap, modulus);
      && next != 9 && next != 10
      && (if 117 <= tenfold < 156 then next == 11 else if tenfold < 13 then next == 1
          else 13 * next <= tenfold < 13 * next + 13)
  {
  }

  lemma Remainder(x: nat, m: nat)
    requires m > 0
    ensures 0 <= x % m <= x
  {
    if x >= m {
      assert 0 <= x % m < m;
    } else {
      assert x % m == x;
    }
  }

  // ----- the sort -----

  method SwapAt<T>(a: array<T>, i: nat, j: nat)
    requires i < j < a.Length
    modifies a
    ensures a[..] == Swapped(old(a[..]), i, j)
  {
    a[i], a[j] := a[j], a[i];
  }

  /** One pass with a gap. With gap 1 every swap takes away an inversion. */
  method Pass<T(!new)>(a: array<T>, gt: (T, T) -> bool, gap: nat) returns (swapped: bool)
    requires TotalPreorder(gt) && 1 <= gap <= a.Length
    modifies a
    ensures multiset(a[..]) == multiset(old(a[..]))
    ensures gap == 1 && swapped ==> Inversions(gt, a[..]) < Inversions(gt, old(a[..]))
    ensures !swapped ==> a[..] == old(a[..]) && forall i :: 0 <= i < a.Length - gap ==> !gt(a[i], a[i + gap])
  {
    hide TotalPreorder, Inversions, Swapped;
    swapped := false;
    for i := 0 to a.Length - gap
      invariant multiset(a[..]) == multiset(old(a[..]))
      invariant gap == 1 && swapped ==> Inversions(gt, a[..]) < Inversions(gt, old(a[..]))
      invariant !swapped ==> a[..] == old(a[..]) && forall k :: 0 <= k < i ==> !gt(a[k], a[k + gap])
    {
      var j := i + gap;
      if gt(a[i], a[j]) {
        ghost var s := a[..];
        if gap == 1 {
          SwapNeighbours(gt, s, i);
        }
        SwapPermutes(s, i, j);
        SwapAt(a, i, j);
        swapped := true;
      }
    }
  }

  /** sort: a sorted permutation, for every total preorder, any length and any width of the size type. */
  method Sort<T(!new)>(a: array<T>, gt: (T, T) -> bool, modulus: nat)
    requires TotalPreorder(gt) && a.Length < modulus
    modifies a
    ensures Sorted(gt, a[..]) && multiset(a[..]) == multiset(old(a[..]))
  {
    if a.Length == 0 {
      return;
    }
    var gap, swapped := a.Length, true;
    while gap > 1 || swapped
      invariant 1 <= gap <= a.Length && multiset(a[..]) == multiset(old(a[..]))
      invariant gap == 1 && !swapped ==> forall i :: 0 <= i < a.Length - 1 ==> !gt(a[..][i], a[..][i + 1])
      decreases gap, Inversions(gt, a[..]), swapped
    {
      hide TotalPreorder, Inversions;
      GapFalls(gap, modulus);
      gap := NextGap(gap, modulus);
      swapped := Pass(a, gt, gap);
    }
    NeighboursSorted(gt, a[..]);
  }
}
