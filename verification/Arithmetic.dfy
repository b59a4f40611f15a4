/** Division, remainder and rounding up (ustd/numeric.hh). */
module Arithmetic {

  lemma MulAtLeast(k: int, a: int)
    requires k >= 1 && a > 0
    ensures k * a >= a
  {
  }

  lemma MulLess(p: int, q: int, a: int)
    requires p < q && a > 0
    ensures p * a + a <= q * a
  {
    MulAtLeast(q - p, a);
    assert (q - p) * a == q * a - p * a;
  }

  lemma Euclid(x: int, a: int)
    requires a > 0
    ensures x == x / a * a + x % a && 0 <= x % a < a
  {
  }

  lemma DivModUnique(x: int, a: int, q: int, r: int)
    requires a > 0 && x == q * a + r && 0 <= r < a
    ensures x / a == q && x % a == r
  {
    Euclid(x, a);
    if q < x / a {
      MulLess(q, x / a, a);
    } else if q > x / a {
      MulLess(x / a, q, a);
    }
  }

  lemma ModOfMod(x: int, a: int, k: int)
    requires a > 0 && k > 0
    ensures a * k > 0 && x % (a * k) % a == x % a
  {
    MulAtLeast(k, a);
    var q, r := x / (a * k), x % (a * k);
    Euclid(x, a * k);
    Euclid(r, a);
    assert q * (a * k) == (q * k) * a;
    assert x == (q * k + r / a) * a + r % a;
    DivModUnique(x, a, q * k + r / a, r % a);
  }

  lemma ModAdd(x: int, y: int, i: int, a: int)
    requires a > 0 && x % a == y % a
    ensures (x + i) % a == (y + i) % a
  {
    Euclid(x, a);
    Euclid(y, a);
    Euclid(y + i, a);
    var q := (y + i) / a - y / a + x / a;
    assert q * a == (y + i) / a * a - y / a * a + x / a * a;
    DivModUnique(x + i, a, q, (y + i) % a);
  }

  lemma ModStep(x: int, a: int)
    requires a > 0
    ensures (x + a) % a == x % a
  {
    Euclid(x, a);
    assert (x / a + 1) * a == x / a * a + a;
    DivModUnique(x + a, a, x / a + 1, x % a);
  }

  /** align_up: the least multiple of the alignment that is not below the value. */
  function AlignUp(value: nat, alignment: nat): nat
    requires alignment > 0
  {
    (value + alignment - 1) / alignment * alignment
  }

  lemma AlignUpBounds(value: nat, alignment: nat)
    requires alignment > 0
    ensures AlignUp(value, alignment) % alignment == 0
    ensures value <= AlignUp(value, alignment) < value + alignment
  {
    var q := (value + alignment - 1) / alignment;
    Euclid(value + alignment - 1, alignment);
    DivModUnique(q * alignment, alignment, q, 0);
  }

  lemma AlignUpIsLeast(value: nat, alignment: nat, m: nat)
    requires alignment > 0 && m >= value && m % alignment == 0
    ensures AlignUp(value, alignment) <= m
  {
    var q := (value + alignment - 1) / alignment;
    Euclid(value + alignment - 1, alignment);
    Euclid(m, alignment);
    if m / alignment < q {
      MulLess(m / alignment, q, alignment);
    }
  }

  // Zero is the only multiple of zero.
  predicate Multiple(i: nat, n: nat) {
    if n == 0 then i == 0 else i % n == 0
  }

  lemma NextMultiple(i: nat, n: nat)
    requires n > 0 && Multiple(i, n)
    ensures Multiple(i + n, n)
  {
    Euclid(i, n);
    assert i / n * n + n == (i / n + 1) * n;
    DivModUnique(i + n, n, i / n + 1, 0);
  }

  lemma NoMultipleBetween(i: nat, j: nat, n: nat)
    requires n > 0 && Multiple(i, n) && Multiple(j, n) && j < i + n
    ensures j <= i
  {
    Euclid(i, n);
    Euclid(j, n);
    if i / n < j / n {
      MulLess(i / n, j / n, n);
    }
  }

  function Min(a: nat, b: nat): nat { if a < b then a else b }
}
