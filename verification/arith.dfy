/** Small facts about products and quotients of reals, stated one at a time so
    that the solver never has to find them inside a larger proof. */
module RealArith {

  lemma ZeroProduct(a: real, b: real)
    ensures a * b == 0.0 ==> a == 0.0 || b == 0.0
  {
  }

  lemma MulZero(a: real, b: real)
    ensures a == 0.0 ==> a * b == 0.0
  {
  }

  lemma MulDiv(x: real, s: real)
    requires s != 0.0
    ensures (x / s) * s == x
  {
  }

  lemma DivUnique(a: real, b: real, c: real)
    requires b != 0.0
    requires a * b == c
    ensures a == c / b
  {
  }

  lemma DivAdd(a: real, b: real, d: real)
    requires d != 0.0
    ensures a / d + b / d == (a + b) / d
  {
  }

  lemma Regroup(y: real, s: real, x: real)
    requires y * s == x
    ensures (y * y) * (s * s) == x * x
  {
    assert (y * y) * (s * s) == (y * s) * (y * s);
  }

  lemma QuotientSquared(x: real, s: real)
    requires s != 0.0
    ensures s * s != 0.0
    ensures (x / s) * (x / s) == (x * x) / (s * s)
  {
    var y := x / s;
    MulDiv(x, s);
    Regroup(y, s, x);
    ZeroProduct(s, s);
    DivUnique(y * y, s * s, x * x);
  }

  /** The non-negative root of v is 0 exactly when v is. */
  lemma RootZero(v: real, r: real)
    requires r >= 0.0 && r * r == v
    ensures r == 0.0 <==> v == 0.0
    ensures v > 0.0 ==> r > 0.0
  {
    ZeroProduct(r, r);
    MulZero(r, r);
  }

  lemma SquareNonNegative(x: real)
    ensures x * x >= 0.0
  {
    if x < 0.0 {
      assert x * x == (-x) * (-x);
    }
  }

  lemma MulCancel(a: real, b: real, s: real)
    requires s != 0.0 && a * s == b * s
    ensures a == b
  {
    assert (a - b) * s == 0.0;
    ZeroProduct(a - b, s);
  }
}
