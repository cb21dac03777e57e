/** Facts about products and quotients that the solver does not find by itself. */
module Arithmetic {

  lemma DivBounds(a: int, b: int)
    requires b >= 1
    ensures a / b * b <= a < a / b * b + b
  {
    assert a == a / b * b + a % b;
  }

  lemma DivMonotone(a: int, c: int, b: int)
    requires b >= 1 && a <= c
    ensures a / b <= c / b
  {
    DivBounds(a, b);
    DivBounds(c, b);
    if a / b > c / b {
      MulMonotone(c / b + 1, a / b, b);
      assert false;
    }
  }

  lemma MulMonotone(a: int, c: int, b: int)
    requires a <= c && b >= 0
    ensures a * b <= c * b
  {
    assert (c - a) * b >= 0;
  }

  lemma DivExact(a: int, b: int)
    requires b >= 1 && a % b == 0
    ensures a == a / b * b
  {
  }

  lemma MulNext(a: int, b: int)
    ensures (a + 1) * b == a * b + b
  {
  }
}
