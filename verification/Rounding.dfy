/** Integer division that rounds down, and up. */
module Rounding {

  /** ceil(x / y). */
  function CeilDiv(x: int, y: int): int
    requires y > 0
  {
    x / y + if x % y > 0 then 1 else 0
  }

  lemma MulMono(a: int, b: int, c: int)
    requires a <= b && c >= 0
    ensures a * c <= b * c
  {
  }

  lemma DivNonNegative(a: int, d: int)
    requires a >= 0 && d > 0
    ensures a / d >= 0
  {
  }

  /** floor(a/b) >= q exactly when a >= q*b. */
  lemma FloorAtLeast(a: int, b: int, q: int)
    requires b > 0
    ensures a / b >= q <==> a >= q * b
  {
    assert a == a / b * b + a % b;
    if a / b >= q {
      MulMono(q, a / b, b);
    } else {
      MulMono(a / b + 1, q, b);
    }
  }

  lemma DivMono(a: int, b: int, d: int)
    requires a <= b && d > 0
    ensures a / d <= b / d
  {
    FloorAtLeast(a, d, a / d);
    FloorAtLeast(b, d, a / d);
  }

  /** Fractions compare as cross products, floors follow. */
  lemma FractionMono(a: int, b: int, c: int, d: int)
    requires b > 0 && d > 0 && a * d <= c * b && a >= 0
    ensures a / b <= c / d
  {
    var q := a / b;
    FloorAtLeast(a, b, q);
    MulMono(q * b, a, d);
    assert q * d * b == q * b * d;
    if q * d > c {
      MulMono(c + 1, q * d, b);
    }
    FloorAtLeast(c, d, q);
  }

  /** ceil(x/y) <= q exactly when x <= q*y. */
  lemma CeilAtMost(x: int, y: int, q: int)
    requires y > 0
    ensures CeilDiv(x, y) <= q <==> x <= q * y
  {
    assert x == x / y * y + x % y;
    if x % y > 0 {
      FloorAtLeast(x, y, q);
    } else {
      FloorAtLeast(x, y, q + 1);
      if x / y <= q {
        MulMono(x / y, q, y);
      } else {
        MulMono(q + 1, x / y, y);
      }
    }
  }

  /** q is n / d rounded down. */
  predicate IsFloor(q: int, n: int, d: int) {
    q * d <= n < (q + 1) * d
  }

  lemma FloorIs(n: int, d: int)
    requires d > 0
    ensures IsFloor(n / d, n, d)
  {
    assert n == n / d * d + n % d;
  }

  lemma FloorIsUnique(q: int, n: int, d: int)
    requires d > 0 && IsFloor(q, n, d)
    ensures n / d == q
  {
    FloorAtLeast(n, d, q);
    FloorAtLeast(n, d, q + 1);
  }

  /** n/d reaches x exactly when n reaches x*d. */
  lemma FloorReaches(q: int, n: int, d: int, x: int)
    requires d > 0 && IsFloor(q, n, d)
    ensures q >= x <==> n >= x * d
  {
    FloorIsUnique(q, n, d);
    FloorAtLeast(n, d, x);
  }
}
