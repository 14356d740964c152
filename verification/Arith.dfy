/** Machine integers, and facts about division that the other modules rest on. */
module Arith {

  const TWO_63 := 0x8000_0000_0000_0000
  const TWO_64 := 0x1_0000_0000_0000_0000

  /** What fits an int. */
  type Int32 = x: int | -0x8000_0000 <= x < 0x8000_0000

  /** The assignment of a wider integer to an int. */
  function ToInt32(x: int): Int32 {
    (x + 0x8000_0000) % 0x1_0000_0000 - 0x8000_0000
  }

  lemma MulMonotone(a: int, b: int, f: int)
    requires a <= b && f >= 0
    ensures a * f <= b * f
  {
    assert (b - a) * f >= 0;
    assert (b - a) * f == b * f - a * f;
  }

  /** Quotient and remainder are unique. */
  lemma DivModUnique(x: int, f: int, n: int, r: int)
    requires f > 0 && 0 <= r < f && x == n * f + r
    ensures x / f == n && x % f == r
  {
    var q := x / f;
    assert x == q * f + x % f;
    assert (q + 1) * f == q * f + f;
    assert (n + 1) * f == n * f + f;
    if q < n {
      MulMonotone(q + 1, n, f);
    } else if q > n {
      MulMonotone(n + 1, q, f);
    }
  }

  /** The multiples of `f` beyond `x` start at the one after `x / f`; the one after that is another
      `f` away. */
  lemma NextMultiple(x: int, f: int, k: int)
    requires f > 0
    ensures x + (f - x % f) == (x / f + 1) * f
    ensures k * f > x ==> k >= x / f + 1 && k * f >= x + (f - x % f)
    ensures k * f > x + (f - x % f) ==> k * f >= x + (f - x % f) + f
  {
    var n := x / f;
    assert x == n * f + x % f;
    assert (n + 1) * f == n * f + f;
    assert (n + 2) * f == n * f + f + f;
    if k <= n {
      MulMonotone(k, n, f);
    } else if k > n + 1 {
      MulMonotone(n + 2, k, f);
    }
  }

  /** Dividing by a product is dividing twice. */
  lemma DivTwice(x: int, a: int, b: int)
    requires a > 0 && b > 0
    ensures a * b > 0 && x / (a * b) == x / a / b
  {
    var y := x / a;
    var n, m := y / b, y % b;
    var r := m * a + x % a;
    assert x == y * a + x % a;
    assert y == n * b + m;
    assert y * a == n * (a * b) + m * a by {
      assert (n * b + m) * a == n * b * a + m * a;
      assert n * b * a == n * (a * b);
    }
    MulMonotone(m, b - 1, a);
    MulMonotone(0, m, a);
    assert (b - 1) * a == a * b - a;
    assert a * b > 0 by { MulMonotone(1, b, a); }
    DivModUnique(x, a * b, n, r);
  }
}
