/** Feature-vector arithmetic for cosine similarity over exact reals. The
    square root is not computed: every operation that needs one takes a
    function `sqrt` constrained by `IsSquareRoot`. */
module Vectors {

  /** `sqrt` returns the non-negative square root of every non-negative real. */
  ghost predicate IsSquareRoot(sqrt: real -> real)
  {
    forall x :: 0.0 <= x ==> 0.0 <= sqrt(x) && sqrt(x) * sqrt(x) == x
  }

  function Dot(a: seq<real>, b: seq<real>): real
    requires |a| == |b|
  {
    if |a| == 0 then 0.0 else a[0] * b[0] + Dot(a[1..], b[1..])
  }

  lemma {:induction false} DotSymmetric(a: seq<real>, b: seq<real>)
    requires |a| == |b|
    ensures Dot(a, b) == Dot(b, a)
  {
    if |a| > 0 {
      DotSymmetric(a[1..], b[1..]);
    }
  }

  /** A vector with a coordinate equal to 1 has squared length at least 1. */
  lemma {:induction false} DotSelfAtLeastOne(a: seq<real>, j: nat)
    requires j < |a| && a[j] == 1.0
    ensures Dot(a, a) >= 1.0
  {
    DotSelfNonNegative(a[1..]);
    if j > 0 {
      DotSelfAtLeastOne(a[1..], j - 1);
      assert a[0] * a[0] >= 0.0;
    }
  }

  lemma {:induction false} DotSelfNonNegative(a: seq<real>)
    ensures Dot(a, a) >= 0.0
  {
    if |a| > 0 {
      DotSelfNonNegative(a[1..]);
    }
  }

  /** The vector t*b. */
  function Scaled(b: seq<real>, t: real): (c: seq<real>)
    ensures |c| == |b|
  {
    seq(|b|, i requires 0 <= i < |b| => t * b[i])
  }

  /** The vector a - e. */
  function Minus(a: seq<real>, e: seq<real>): (c: seq<real>)
    requires |a| == |e|
    ensures |c| == |a|
  {
    seq(|a|, i requires 0 <= i < |a| => a[i] - e[i])
  }

  lemma ScaledTail(b: seq<real>, t: real)
    requires |b| > 0
    ensures Scaled(b, t)[0] == t * b[0]
    ensures Scaled(b, t)[1..] == Scaled(b[1..], t)
  {
    var c, d := Scaled(b, t), Scaled(b[1..], t);
    assert forall i :: 0 <= i < |d| ==> c[1..][i] == d[i];
  }

  lemma MinusTail(a: seq<real>, e: seq<real>)
    requires |a| == |e| && |a| > 0
    ensures Minus(a, e)[0] == a[0] - e[0]
    ensures Minus(a, e)[1..] == Minus(a[1..], e[1..])
  {
    var c, d := Minus(a, e), Minus(a[1..], e[1..]);
    assert forall i :: 0 <= i < |d| ==> c[1..][i] == d[i];
  }

  lemma ScaleStep(x: real, y: real, rest: real, t: real, sum: real)
    requires sum == x * y + rest
    ensures x * (t * y) + t * rest == t * sum
  {
  }

  /** Scaling one side scales the dot product. */
  lemma {:induction false} DotScaledRight(a: seq<real>, b: seq<real>, t: real)
    requires |a| == |b|
    ensures Dot(a, Scaled(b, t)) == t * Dot(a, b)
  {
    if |a| > 0 {
      ScaledTail(b, t);
      DotScaledRight(a[1..], b[1..], t);
      ScaleStep(a[0], b[0], Dot(a[1..], b[1..]), t, Dot(a, b));
    }
  }

  lemma DotScaledBoth(b: seq<real>, t: real)
    ensures Dot(Scaled(b, t), Scaled(b, t)) == t * t * Dot(b, b)
  {
    var e := Scaled(b, t);
    DotScaledRight(e, b, t);
    DotSymmetric(e, b);
    DotScaledRight(b, b, t);
  }

  lemma DifferenceStep(x: real, y: real, xs: real, ys: real, zs: real, rest: real,
                       sx: real, sy: real, sz: real)
    requires rest == xs - 2.0 * ys + zs
    requires sx == x * x + xs && sy == x * y + ys && sz == y * y + zs
    ensures (x - y) * (x - y) + rest == sx - 2.0 * sy + sz
  {
  }

  /** The squared length of a difference: |a - e|^2 = |a|^2 - 2 a.e + |e|^2. */
  lemma {:induction false} DotOfDifference(a: seq<real>, e: seq<real>)
    requires |a| == |e|
    ensures var c := Minus(a, e); Dot(c, c) == Dot(a, a) - 2.0 * Dot(a, e) + Dot(e, e)
  {
    if |a| > 0 {
      MinusTail(a, e);
      DotOfDifference(a[1..], e[1..]);
      DifferenceStep(a[0], e[0], Dot(a[1..], a[1..]), Dot(a[1..], e[1..]), Dot(e[1..], e[1..]),
                     Dot(Minus(a[1..], e[1..]), Minus(a[1..], e[1..])), Dot(a, a), Dot(a, e), Dot(e, e));
    }
  }

  /** The squared length of a - t*b, expanded in t. */
  lemma DotExpand(a: seq<real>, b: seq<real>, t: real)
    requires |a| == |b|
    ensures var c := Minus(a, Scaled(b, t));
      Dot(c, c) == Quadratic(Dot(a, a), Dot(a, b), Dot(b, b), t)
  {
    DotOfDifference(a, Scaled(b, t));
    DotScaledRight(a, b, t);
    DotScaledBoth(b, t);
  }

  /** aa - 2 t ab + t^2 bb. */
  function Quadratic(aa: real, ab: real, bb: real, t: real): real
  {
    aa - 2.0 * t * ab + t * t * bb
  }

  /** The Cauchy-Schwarz inequality, squared. */
  lemma CauchySchwarz(a: seq<real>, b: seq<real>)
    requires |a| == |b| && Dot(b, b) > 0.0
    ensures Dot(a, b) * Dot(a, b) <= Dot(a, a) * Dot(b, b)
  {
    var aa, ab, bb := Dot(a, a), Dot(a, b), Dot(b, b);
    var t := ab / bb;
    QuadraticNonNegative(a, b, t);
    assert t * bb == ab;
    assert t * t * bb == t * ab;
    assert 0.0 <= aa - t * ab;
    assert (aa - t * ab) * bb == aa * bb - ab * ab;
  }

  /** |a - t*b|^2 >= 0, expanded in t. */
  lemma QuadraticNonNegative(a: seq<real>, b: seq<real>, t: real)
    requires |a| == |b|
    ensures Quadratic(Dot(a, a), Dot(a, b), Dot(b, b), t) >= 0.0
  {
    DotExpand(a, b, t);
    DotSelfNonNegative(Minus(a, Scaled(b, t)));
  }

  lemma SquareGrows(x: real, p: real)
    requires p >= 0.0
    ensures x > p ==> x * x > p * p
  {
    if x > p {
      var d := x - p;
      assert x * x == p * p + 2.0 * p * d + d * d;
      assert d * d > 0.0;
      assert p * d >= 0.0;
    }
  }

  lemma BoundFromSquares(x: real, p: real)
    requires p >= 0.0 && x * x <= p * p
    ensures -p <= x <= p
  {
    SquareGrows(x, p);
    SquareGrows(-x, p);
    assert (-x) * (-x) == x * x;
  }

  /** Cosine similarity: the dot product divided by the product of the two
      norms, and 0 when either vector is zero (scikit-learn leaves a zero row
      unnormalised, so its similarity to anything is 0). */
  function Cosine(a: seq<real>, b: seq<real>, sqrt: real -> real): (c: real)
    requires |a| == |b| && IsSquareRoot(sqrt)
    ensures -1.0 <= c <= 1.0
    ensures Dot(a, a) == 0.0 || Dot(b, b) == 0.0 ==> c == 0.0
  {
    var aa, bb := Dot(a, a), Dot(b, b);
    if aa == 0.0 || bb == 0.0 then 0.0
    else
      DotSelfNonNegative(a);
      DotSelfNonNegative(b);
      var na, nb := sqrt(aa), sqrt(bb);
      assert na > 0.0 && nb > 0.0;
      CauchySchwarz(a, b);
      assert (na * nb) * (na * nb) == aa * bb;
      BoundFromSquares(Dot(a, b), na * nb);
      Dot(a, b) / (na * nb)
  }

  /** A non-zero vector is perfectly similar to itself. */
  lemma CosineSelf(a: seq<real>, sqrt: real -> real)
    requires IsSquareRoot(sqrt) && Dot(a, a) > 0.0
    ensures Cosine(a, a, sqrt) == 1.0
  {
    var n := sqrt(Dot(a, a));
    assert n * n == Dot(a, a);
  }

  lemma CosineSymmetric(a: seq<real>, b: seq<real>, sqrt: real -> real)
    requires |a| == |b| && IsSquareRoot(sqrt)
    ensures Cosine(a, b, sqrt) == Cosine(b, a, sqrt)
  {
    DotSymmetric(a, b);
  }
}
