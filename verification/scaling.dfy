/** scikit-learn's `StandardScaler` on one column, over exact reals: the mean
    and the population standard deviation (divisor n) are taken over every row,
    and a column whose deviation is 0 is divided by 1 instead. */
module Scaling {
  import opened Seqs
  import opened Vectors
  import opened RealArith

  function Mean(col: seq<real>): real
    requires |col| > 0
  {
    Sum(col) / (|col| as real)
  }

  /** The column mapped by v |-> (v - c) / d. */
  function Affine(col: seq<real>, c: real, d: real): (r: seq<real>)
    requires d != 0.0
    ensures |r| == |col|
  {
    seq(|col|, i requires 0 <= i < |col| => (col[i] - c) / d)
  }

  function SquaredDeviations(col: seq<real>, c: real): (r: seq<real>)
    ensures |r| == |col|
  {
    seq(|col|, i requires 0 <= i < |col| => (col[i] - c) * (col[i] - c))
  }

  /** Population variance, as `StandardScaler` computes it (ddof = 0). */
  function Variance(col: seq<real>): real
    requires |col| > 0
  {
    Sum(SquaredDeviations(col, Mean(col))) / (|col| as real)
  }

  /** The divisor `StandardScaler` uses: the standard deviation, or 1 when it is 0. */
  function Scale(col: seq<real>, sqrt: real -> real): (s: real)
    requires |col| > 0 && IsSquareRoot(sqrt)
    ensures s > 0.0
  {
    var v := Variance(col);
    VarianceNonNegative(col);
    var sigma := sqrt(v);
    if sigma == 0.0 then 1.0 else sigma
  }

  /** The scale squares to the population variance, and is 1 exactly when
      the variance is 0. */
  lemma ScaleIsDeviation(col: seq<real>, sqrt: real -> real)
    requires |col| > 0 && IsSquareRoot(sqrt)
    ensures Variance(col) > 0.0 ==> Scale(col, sqrt) * Scale(col, sqrt) == Variance(col)
    ensures Variance(col) == 0.0 <==> Scale(col, sqrt) == 1.0 && sqrt(Variance(col)) == 0.0
  {
    var v := Variance(col);
    VarianceNonNegative(col);
    var sigma := sqrt(v);
    assert 0.0 <= sigma && sigma * sigma == v;
    RootZero(v, sigma);
  }

  /** The column standardised: each value v becomes (v - mean) / scale, and
      `inverse_transform` (z * scale + mean) gives every value back. */
  function Standardize(col: seq<real>, sqrt: real -> real): (z: seq<real>)
    requires |col| > 0 && IsSquareRoot(sqrt)
    ensures |z| == |col|
    ensures forall i :: 0 <= i < |z| ==> z[i] * Scale(col, sqrt) + Mean(col) == col[i]
  {
    var s := Scale(col, sqrt);
    Invertible(col, Mean(col), s);
    Affine(col, Mean(col), s)
  }

  /** A standardised column has mean 0, and is all zeros when the raw column
      is constant (`StandardScaler` divides by 1 there). */
  lemma StandardizeCentred(col: seq<real>, sqrt: real -> real)
    requires |col| > 0 && IsSquareRoot(sqrt)
    ensures var z := Standardize(col, sqrt);
      && Mean(z) == 0.0
      && (Variance(col) == 0.0 ==> forall i :: 0 <= i < |z| ==> z[i] == 0.0)
  {
    var s := Scale(col, sqrt);
    CenteredMeanZero(col, s);
    if Variance(col) == 0.0 {
      ZeroSpread(col, s);
    }
  }

  /** A standardised column of a non-constant raw column has variance 1. */
  lemma StandardizeUnitVariance(col: seq<real>, sqrt: real -> real)
    requires |col| > 0 && IsSquareRoot(sqrt) && Variance(col) > 0.0
    ensures Variance(Standardize(col, sqrt)) == 1.0
  {
    ScaleIsDeviation(col, sqrt);
    UnitVariance(col, Scale(col, sqrt));
  }

  /** A constant column standardises to all zeros. */
  lemma ZeroSpread(col: seq<real>, s: real)
    requires |col| > 0 && s != 0.0 && Variance(col) == 0.0
    ensures forall i :: 0 <= i < |col| ==> Affine(col, Mean(col), s)[i] == 0.0
  {
    ConstantWhenNoVariance(col);
    forall i | 0 <= i < |col|
      ensures Affine(col, Mean(col), s)[i] == 0.0
    {
      assert col[i] - Mean(col) == 0.0;
    }
  }

  function Shifted(col: seq<real>, c: real): (r: seq<real>)
    ensures |r| == |col|
  {
    seq(|col|, i requires 0 <= i < |col| => col[i] - c)
  }

  function Divided(col: seq<real>, d: real): (r: seq<real>)
    requires d != 0.0
    ensures |r| == |col|
  {
    seq(|col|, i requires 0 <= i < |col| => col[i] / d)
  }

  lemma {:induction false} SumShifted(col: seq<real>, c: real)
    ensures Sum(Shifted(col, c)) == Sum(col) - (|col| as real) * c
  {
    if |col| > 0 {
      var r, t := Shifted(col, c), Shifted(col[1..], c);
      assert r[1..] == t;
      SumShifted(col[1..], c);
      var k := |col[1..]| as real;
      assert (k + 1.0) * c == k * c + c;
    }
  }

  lemma {:induction false} SumDivided(col: seq<real>, d: real)
    requires d != 0.0
    ensures Sum(Divided(col, d)) == Sum(col) / d
  {
    if |col| > 0 {
      var r, t := Divided(col, d), Divided(col[1..], d);
      assert r[1..] == t;
      SumDivided(col[1..], d);
      DivAdd(col[0], Sum(col[1..]), d);
    }
  }

  lemma AffineSplit(col: seq<real>, c: real, d: real)
    requires d != 0.0
    ensures Affine(col, c, d) == Divided(Shifted(col, c), d)
  {
    var a, b := Affine(col, c, d), Divided(Shifted(col, c), d);
    forall i | 0 <= i < |col|
      ensures a[i] == b[i]
    {
      assert Shifted(col, c)[i] == col[i] - c;
    }
  }

  lemma SumAffine(col: seq<real>, c: real, d: real)
    requires d != 0.0
    ensures Sum(Affine(col, c, d)) == (Sum(col) - (|col| as real) * c) / d
  {
    AffineSplit(col, c, d);
    SumShifted(col, c);
    SumDivided(Shifted(col, c), d);
  }

  lemma CenteredMeanZero(col: seq<real>, d: real)
    requires |col| > 0 && d != 0.0
    ensures Mean(Affine(col, Mean(col), d)) == 0.0
  {
    SumAffine(col, Mean(col), d);
    assert (|col| as real) * Mean(col) == Sum(col);
  }

  lemma Invertible(col: seq<real>, c: real, d: real)
    requires d != 0.0
    ensures forall i :: 0 <= i < |col| ==> Affine(col, c, d)[i] * d + c == col[i]
  {
    forall i | 0 <= i < |col|
      ensures Affine(col, c, d)[i] * d + c == col[i]
    {
      MulDiv(col[i] - c, d);
    }
  }

  lemma {:induction false} SumNonNegative(s: seq<real>)
    requires forall i :: 0 <= i < |s| ==> s[i] >= 0.0
    ensures Sum(s) >= 0.0
    ensures Sum(s) == 0.0 ==> forall i :: 0 <= i < |s| ==> s[i] == 0.0
  {
    if |s| > 0 {
      SumNonNegative(s[1..]);
      assert forall i :: 1 <= i < |s| ==> s[i] == s[1..][i - 1];
    }
  }

  lemma SquaredDeviationsNonNegative(col: seq<real>, c: real)
    ensures forall i :: 0 <= i < |col| ==> SquaredDeviations(col, c)[i] >= 0.0
  {
    forall i | 0 <= i < |col|
      ensures SquaredDeviations(col, c)[i] >= 0.0
    {
      SquareNonNegative(col[i] - c);
    }
  }

  lemma VarianceNonNegative(col: seq<real>)
    requires |col| > 0
    ensures Variance(col) >= 0.0
  {
    SquaredDeviationsNonNegative(col, Mean(col));
    SumNonNegative(SquaredDeviations(col, Mean(col)));
  }

  /** A column without spread is constant: every value equals the mean. */
  lemma ConstantWhenNoVariance(col: seq<real>)
    requires |col| > 0 && Variance(col) == 0.0
    ensures forall i :: 0 <= i < |col| ==> col[i] == Mean(col)
  {
    var q := SquaredDeviations(col, Mean(col));
    SquaredDeviationsNonNegative(col, Mean(col));
    SumNonNegative(q);
    assert Sum(q) == 0.0;
    forall i | 0 <= i < |col|
      ensures col[i] == Mean(col)
    {
      assert q[i] == 0.0;
      ZeroProduct(col[i] - Mean(col), col[i] - Mean(col));
    }
  }

  lemma RatioOfRatios(a: real, b: real, ss: real, n: real)
    requires ss > 0.0 && n > 0.0
    requires b == a / ss && a / n == ss
    ensures b / n == 1.0
  {
    assert a == ss * n;
    assert b == n;
  }

  lemma SquaredStandardized(col: seq<real>, mu: real, s: real, ss: real)
    requires s != 0.0 && ss == s * s && ss != 0.0
    ensures SquaredDeviations(Affine(col, mu, s), 0.0)
         == Affine(SquaredDeviations(col, mu), 0.0, ss)
  {
    var lhs := SquaredDeviations(Affine(col, mu, s), 0.0);
    var rhs := Affine(SquaredDeviations(col, mu), 0.0, ss);
    forall i | 0 <= i < |col|
      ensures lhs[i] == rhs[i]
    {
      SquaredStandardizedAt(col, mu, s, ss, i);
    }
  }

  lemma SquaredStandardizedAt(col: seq<real>, mu: real, s: real, ss: real, i: nat)
    requires s != 0.0 && ss == s * s && ss != 0.0 && i < |col|
    ensures SquaredDeviations(Affine(col, mu, s), 0.0)[i]
         == Affine(SquaredDeviations(col, mu), 0.0, ss)[i]
  {
    var x := col[i] - mu;
    var z := Affine(col, mu, s)[i];
    var q := SquaredDeviations(col, mu)[i];
    assert z == x / s;
    assert q == x * x;
    SquaredQuotientCell(x, s, ss, z);
  }

  lemma SquaredQuotientCell(x: real, s: real, ss: real, z: real)
    requires s != 0.0 && ss == s * s && ss != 0.0 && z == x / s
    ensures (z - 0.0) * (z - 0.0) == (x * x - 0.0) / ss
  {
    QuotientSquared(x, s);
  }

  /** Dividing the centred column by the standard deviation gives variance 1. */
  lemma UnitVariance(col: seq<real>, s: real)
    requires |col| > 0 && Variance(col) > 0.0 && s > 0.0 && s * s == Variance(col)
    ensures Variance(Affine(col, Mean(col), s)) == 1.0
  {
    var mu := Mean(col);
    var n := |col| as real;
    var z := Affine(col, mu, s);
    CenteredMeanZero(col, s);
    var q := SquaredDeviations(col, mu);
    var v := Variance(col);
    SquaredStandardized(col, mu, s, v);
    SumAffine(q, 0.0, v);
    RatioOfRatios(Sum(q), Sum(SquaredDeviations(z, 0.0)), v, n);
  }

  lemma MeanZeroSum(col: seq<real>)
    requires |col| > 0 && Mean(col) == 0.0
    ensures Sum(col) == 0.0
  {
    MulDiv(Sum(col), |col| as real);
  }
}
