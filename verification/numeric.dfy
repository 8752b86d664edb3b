/** Python numeric conversions the scripts rely on, stated over Dafny's
    unbounded `int` and exact `real`. */
module Numeric {

  /** Python's `int(x)` for a float `x`: truncation toward zero. */
  function Trunc(x: real): (n: int)
    ensures 0.0 <= x ==> 0 <= n && n as real <= x < n as real + 1.0
    ensures x < 0.0 ==> n <= 0 && n as real - 1.0 < x <= n as real
  {
    if x >= 0.0 then x.Floor else -((-x).Floor)
  }

  /** A real with no fractional part, such as a JSON integer read as a number. */
  predicate Integral(x: real) {
    x.Floor as real == x
  }

  /** Truncation leaves a whole number where it is. */
  lemma TruncOfIntegral(x: real)
    requires Integral(x)
    ensures Trunc(x) as real == x
  {
    if x < 0.0 {
      assert (-x).Floor == -(x.Floor);
    }
  }

  /** A whole number times a whole scale factor is whole, so `int()` of the
      product is exact. */
  lemma ScaleOfIntegral(x: real, k: int)
    requires Integral(x)
    ensures Trunc(x * k as real) as real == x * k as real
  {
    var n := x.Floor;
    assert x * k as real == (n * k) as real;
    assert ((n * k) as real).Floor == n * k;
    TruncOfIntegral(x * k as real);
  }

  /** Truncating a value at least a whole number `k` keeps it at least `k`. */
  lemma TruncAtLeast(x: real, k: int)
    requires x >= k as real
    ensures Trunc(x) >= k
  {
  }

  /** Truncating a whole number leaves it unchanged. */
  lemma TruncOfWhole(k: int)
    ensures Trunc(k as real) == k
  {
    assert (k as real).Floor == k;
  }

  /** Multiplying by a non-negative factor keeps the order. */
  lemma MulWeak(a: real, b: real, c: real)
    requires a >= 0.0 && b <= c
    ensures a * b <= a * c
  {
    assert a * (c - b) >= 0.0;
  }

  /** Multiplying by a positive factor keeps the strict order. */
  lemma MulStrict(a: real, b: real, c: real)
    requires a > 0.0 && b < c
    ensures a * b < a * c
  {
    assert a * (c - b) > 0.0;
  }

  /** A ratio of a smaller non-negative number to a larger one is in [0, 1). */
  lemma RatioBelowOne(a: real, b: real)
    requires 0.0 <= a < b
    ensures 0.0 <= a / b < 1.0
  {
  }

  /** A fraction in [0, 1) of a positive number is non-negative and smaller. */
  lemma FractionBelow(x: real, r: real)
    requires x > 0.0 && 0.0 <= r < 1.0
    ensures 0.0 <= x * r < x
  {
    MulStrict(x, r, 1.0);
    MulWeak(x, 0.0, r);
  }

  function MaxR(a: real, b: real): real { if a >= b then a else b }

  function MinR(a: real, b: real): real { if a <= b then a else b }

  function Max(a: int, b: int): int { if a >= b then a else b }
}
