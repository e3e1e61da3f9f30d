/** Facts about integer division that the solver does not find alone. */
module Arith {

  /** Division is determined by the quotient/remainder decomposition. */
  lemma DivModUnique(a: int, d: int, q: int, r: int)
    requires d > 0 && 0 <= r < d && a == q * d + r
    ensures a / d == q && a % d == r
  {
    var q', r' := a / d, a % d;
    assert a == q' * d + r' && 0 <= r' < d;
    assert (q - q') * d == r' - r;
    if q < q' {
      MulMonotone(1, q' - q, d);
      assert false;
    } else if q > q' {
      MulMonotone(1, q - q', d);
      assert false;
    }
  }

  lemma MulMonotone(a: int, b: int, c: int)
    requires a <= b && 0 <= c
    ensures a * c <= b * c
  {
    assert b * c - a * c == (b - a) * c;
  }

  lemma DivMonotone(a: int, b: int, d: int)
    requires a <= b && d > 0
    ensures a / d <= b / d
  {
    if a / d > b / d {
      MulMonotone(b / d + 1, a / d, d);
      assert false;
    }
  }

  /** For a non-negative numerator: a / d < q exactly when a < q * d. */
  lemma DivBelow(a: int, d: int, q: int)
    requires 0 <= a && d > 0
    ensures a / d < q <==> a < q * d
  {
    var a' := a / d;
    assert a == a' * d + a % d;
    if a' < q {
      MulMonotone(a' + 1, q, d);
    } else {
      MulMonotone(q, a', d);
    }
  }
}
