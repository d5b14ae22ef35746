/** Division facts the solver does not find by itself. */
module Arithmetic {

  function Min(a: int, b: int): int {
    if a < b then a else b
  }

  function Max(a: int, b: int): int {
    if a < b then b else a
  }

  function DivCeil(a: nat, b: nat): nat
    requires b > 0
  {
    (a + b - 1) / b
  }

  lemma MulMonotone(a: int, b: int, d: nat)
    requires a <= b
    ensures a * d <= b * d
  {
    assert b * d - a * d == (b - a) * d;
  }

  /** Quotient and remainder are unique. */
  lemma DivUnique(x: int, d: nat, q: int, r: int)
    requires d > 0 && x == q * d + r && 0 <= r < d
    ensures x / d == q && x % d == r
  {
    var q' := x / d;
    assert x == q' * d + x % d;
    assert (q + 1) * d == q * d + d && (q' + 1) * d == q' * d + d;
    if q < q' {
      MulMonotone(q + 1, q', d);
    } else if q' < q {
      MulMonotone(q' + 1, q, d);
    }
  }

  lemma MultipleMod(q: int, d: nat)
    requires d > 0
    ensures (q * d) % d == 0 && (q * d) / d == q
  {
    DivUnique(q * d, d, q, 0);
  }

  lemma ModShift(x: int, d: nat)
    requires d > 0
    ensures (x + d) % d == x % d && (x + d) / d == x / d + 1
  {
    var q := x / d;
    assert x + d == (q + 1) * d + x % d by {
      assert (q + 1) * d == q * d + d;
    }
    DivUnique(x + d, d, q + 1, x % d);
  }

  /** Multiples of `d` that are not equal are at least `d` apart. */
  lemma MultiplesApart(x: int, y: int, d: nat)
    requires d > 0 && x % d == 0 && y % d == 0 && x < y
    ensures x + d <= y
    ensures x / d < y / d
  {
    assert x == (x / d) * d && y == (y / d) * d;
    if y / d <= x / d {
      MulMonotone(y / d, x / d, d);
    }
    MulMonotone(x / d + 1, y / d, d);
    assert (x / d + 1) * d == (x / d) * d + d;
  }
}
