/**
 The linear Kalman filter of example 4 in exact real arithmetic: the matrices the program builds, one pass
 of its loop, and what every run of the loop keeps, for every noise and every choice of measurement
 variance.
 */
module Kalman {
  import opened Matrices
  import opened RealArithmetic

  const GRAVITY: real := 9.80665
  const SLICE: real := 0.005            // H
  const MODEL_NOISE: real := 0.00001    // the diagonal of Mat_Q
  const SENSOR_VARIANCE: real := 0.01   // the diagonal of Mat_R
  const TREE_VARIANCE: real := 1.0      // the diagonal of Mat_R behind the tree
  const START_VX: real := 0.5 * 3.8
  const START_VY: real := 0.86 * 3.8

  function MatH(): (m: Matrix)
    ensures Is(m, 2, 4)
  {
    [[1.0, 0.0, 0.0, 0.0], [0.0, 1.0, 0.0, 0.0]]
  }

  function MatA(): (m: Matrix)
    ensures Is(m, 4, 4)
  {
    [[1.0, 0.0, SLICE, 0.0], [0.0, 1.0, 0.0, SLICE], [0.0, 0.0, 1.0, 0.0], [0.0, 0.0, 0.0, 1.0]]
  }

  function MatB(): (m: Matrix)
    ensures Is(m, 4, 2)
  {
    [[0.0, 0.0], [0.0, 0.5 * SLICE * SLICE], [0.0, 0.0], [0.0, SLICE]]
  }

  function VecU(): (m: Matrix)
    ensures Is(m, 2, 1)
  {
    [[0.0], [-GRAVITY]]
  }

  function MatQ(): (m: Matrix)
    ensures Is(m, 4, 4)
  {
    Combine(MODEL_NOISE, Identity(4), 0.0, Identity(4), 4, 4)
  }

  function MatR(variance: real): (m: Matrix)
    ensures Is(m, 2, 2)
  {
    [[variance, 0.0], [0.0, variance]]
  }

  // ---------------------------------------------------------------- one pass of the loop

  function HT(): (m: Matrix)
    ensures Is(m, 4, 2)
  {
    Transpose(MatH(), 2, 4)
  }

  /** Mat_2_2: R + H P H^T, the matrix that is inverted. */
  function Innovation(p: Matrix, r: Matrix): (m: Matrix)
    requires Is(p, 4, 4) && Is(r, 2, 2)
    ensures Is(m, 2, 2)
  {
    Gemm(MatH(), Mul(p, HT(), 4, 4, 2), 1.0, r, 1.0, 2, 4, 2)
  }

  /** Mat_K. */
  function Gain(p: Matrix, r: Matrix): (m: Matrix)
    requires Is(p, 4, 4) && Is(r, 2, 2)
    ensures Is(m, 4, 2)
  {
    Mul(p, Mul(HT(), Invert2(Innovation(p, r)), 4, 2, 2), 4, 4, 2)
  }

  /** I - K H. */
  function Shrink(k: Matrix): (m: Matrix)
    requires Is(k, 4, 2)
    ensures Is(m, 4, 4)
  {
    Gemm(k, MatH(), -1.0, Identity(4), 1.0, 4, 2, 4)
  }

  /** Mat_Pp. */
  function Posterior(p: Matrix, k: Matrix): (m: Matrix)
    requires Is(p, 4, 4) && Is(k, 4, 2)
    ensures Is(m, 4, 4)
  {
    Mul(Shrink(k), p, 4, 4, 4)
  }

  /** The next Mat_Pm: A Pp A^T + Q. */
  function Predicted(pp: Matrix): (m: Matrix)
    requires Is(pp, 4, 4)
    ensures Is(m, 4, 4)
  {
    Gemm(MatA(), Mul(pp, Transpose(MatA(), 4, 4), 4, 4, 4), 1.0, MatQ(), 1.0, 4, 4, 4)
  }

  /** Vec_Xp. */
  function Corrected(xm: Matrix, k: Matrix, y: Matrix): (m: Matrix)
    requires Is(xm, 4, 1) && Is(k, 4, 2) && Is(y, 2, 1)
    ensures Is(m, 4, 1)
  {
    Gemm(k, Gemm(MatH(), xm, -1.0, y, 1.0, 2, 4, 1), 1.0, xm, 1.0, 4, 2, 1)
  }

  /** The next Vec_Xm: B u + A Xp. */
  function Advanced(xp: Matrix): (m: Matrix)
    requires Is(xp, 4, 1)
    ensures Is(m, 4, 1)
  {
    Gemm(MatB(), VecU(), 1.0, Mul(MatA(), xp, 4, 4, 1), 1.0, 4, 2, 1)
  }

  // ---------------------------------------------------------------- the Joseph form

  function Diff(a: Matrix, b: Matrix, rows: nat, cols: nat): (m: Matrix)
    requires Is(a, rows, cols) && Is(b, rows, cols)
    ensures Is(m, rows, cols)
  {
    Combine(1.0, a, -1.0, b, rows, cols)
  }

  function Sum(a: Matrix, b: Matrix, rows: nat, cols: nat): (m: Matrix)
    requires Is(a, rows, cols) && Is(b, rows, cols)
    ensures Is(m, rows, cols)
  {
    Combine(1.0, a, 1.0, b, rows, cols)
  }

  /** (I - K H) P (I - K H)^T + K R K^T. */
  function Joseph(p: Matrix, k: Matrix, r: Matrix): (m: Matrix)
    requires Is(p, 4, 4) && Is(k, 4, 2) && Is(r, 2, 2)
    ensures Is(m, 4, 4)
  {
    Sum(Mul(Mul(Shrink(k), p, 4, 4, 4), Transpose(Shrink(k), 4, 4), 4, 4, 4),
        Mul(Mul(k, r, 4, 2, 2), Transpose(k, 4, 2), 4, 2, 4), 4, 4)
  }

  /** K S = P H^T, because S^-1 S = I. */
  lemma GainSolves(p: Matrix, r: Matrix)
    requires Is(p, 4, 4) && Is(r, 2, 2) && Det2(Innovation(p, r)) != 0.0
    ensures Mul(Gain(p, r), Innovation(p, r), 4, 2, 2) == Mul(p, HT(), 4, 4, 2)
  {
    var s := Innovation(p, r);
    var inv := Invert2(s);
    Invert2IsInverse(s);
    MulAssociates(p, Mul(HT(), inv, 4, 2, 2), s, 4, 4, 2, 2);
    MulAssociates(HT(), inv, s, 4, 2, 2, 2);
    MulIdentityRight(HT(), 4, 2);
  }

  /** (I - K H) P H^T = K R. */
  lemma ShrunkCrossCovariance(p: Matrix, r: Matrix)
    requires Is(p, 4, 4) && Is(r, 2, 2) && Det2(Innovation(p, r)) != 0.0
    ensures Mul(Posterior(p, Gain(p, r)), HT(), 4, 4, 2) == Mul(Gain(p, r), r, 4, 2, 2)
  {
    var k := Gain(p, r);
    var pht := Mul(p, HT(), 4, 4, 2);
    var hpht := Mul(MatH(), pht, 2, 4, 2);
    MulAssociates(Shrink(k), p, HT(), 4, 4, 4, 2);
    ShrinkMul(k, pht, 2);
    GainSolves(p, r);
    MulCombineRight(k, 1.0, hpht, 1.0, r, 4, 2, 2);
    Equal(Diff(pht, Mul(k, hpht, 4, 2, 2), 4, 2), Mul(k, r, 4, 2, 2), 4, 2);
  }

  /** (I - K H) x = x - K (H x). */
  lemma ShrinkMul(k: Matrix, x: Matrix, cols: nat)
    requires Is(k, 4, 2) && Is(x, 4, cols)
    ensures Mul(Shrink(k), x, 4, 4, cols) == Diff(x, Mul(k, Mul(MatH(), x, 2, 4, cols), 4, 2, cols), 4, cols)
  {
    MulCombineLeft(-1.0, Mul(k, MatH(), 4, 2, 4), 1.0, Identity(4), x, 4, 4, cols);
    MulAssociates(k, MatH(), x, 4, 2, 4, cols);
    MulIdentityLeft(x, 4, cols);
    Equal(Mul(Shrink(k), x, 4, 4, cols), Diff(x, Mul(k, Mul(MatH(), x, 2, 4, cols), 4, 2, cols), 4, cols), 4, cols);
  }

  lemma ShrinkTransposed(k: Matrix)
    requires Is(k, 4, 2)
    ensures Transpose(Shrink(k), 4, 4) == Diff(Identity(4), Mul(HT(), Transpose(k, 4, 2), 4, 2, 4), 4, 4)
  {
    TransposeCombine(-1.0, Mul(k, MatH(), 4, 2, 4), 1.0, Identity(4), 4, 4);
    TransposeMul(k, MatH(), 4, 2, 4);
    Equal(Transpose(Shrink(k), 4, 4), Diff(Identity(4), Mul(HT(), Transpose(k, 4, 2), 4, 2, 4), 4, 4), 4, 4);
  }

  /** The short covariance update the loop computes equals the Joseph form whenever the inverted matrix is
      not singular. */
  lemma ShortUpdateIsJoseph(p: Matrix, r: Matrix)
    requires Is(p, 4, 4) && Is(r, 2, 2) && Det2(Innovation(p, r)) != 0.0
    ensures Posterior(p, Gain(p, r)) == Joseph(p, Gain(p, r), r)
  {
    var k := Gain(p, r);
    var kt := Transpose(k, 4, 2);
    var mp := Posterior(p, k);
    ShrinkTransposed(k);
    MulCombineRight(mp, 1.0, Identity(4), -1.0, Mul(HT(), kt, 4, 2, 4), 4, 4, 4);
    MulIdentityRight(mp, 4, 4);
    MulAssociates(mp, HT(), kt, 4, 4, 2, 4);
    ShrunkCrossCovariance(p, r);
    Equal(mp, Joseph(p, k, r), 4, 4);
  }

  // ---------------------------------------------------------------- entries

  lemma Dot4(a: Matrix, b: Matrix, i: nat, j: nat)
    requires i < |a| && |a[i]| == 4 && |b| == 4 && forall k :: 0 <= k < 4 ==> j < |b[k]|
    ensures Dot(a, b, i, j, 4) ==
            a[i][0] * b[0][j] + a[i][1] * b[1][j] + a[i][2] * b[2][j] + a[i][3] * b[3][j]
  {
    assert Dot(a, b, i, j, 2) == Dot(a, b, i, j, 1) + a[i][1] * b[1][j];
    assert Dot(a, b, i, j, 3) == Dot(a, b, i, j, 2) + a[i][2] * b[2][j];
  }

  lemma Dot2(a: Matrix, b: Matrix, i: nat, j: nat)
    requires i < |a| && |a[i]| == 2 && |b| == 2 && forall k :: 0 <= k < 2 ==> j < |b[k]|
    ensures Dot(a, b, i, j, 2) == a[i][0] * b[0][j] + a[i][1] * b[1][j]
  {
    assert Dot(a, b, i, j, 1) == Dot(a, b, i, j, 0) + a[i][0] * b[0][j];
  }

  /** H x is the two upper rows of x. */
  lemma HMul(x: Matrix, cols: nat, i: nat, j: nat)
    requires Is(x, 4, cols) && i < 2 && j < cols
    ensures Mul(MatH(), x, 2, 4, cols)[i][j] == x[i][j]
  {
    Dot4(MatH(), x, i, j);
  }

  /** x H^T is the two left columns of x. */
  lemma MulHT(x: Matrix, i: nat, j: nat)
    requires Is(x, 4, 4) && i < 4 && j < 2
    ensures Mul(x, HT(), 4, 4, 2)[i][j] == x[i][j]
  {
    Dot4(x, HT(), i, j);
  }

  /** The inverted matrix is the position block of P plus the measurement variance. */
  lemma InnovationEntry(p: Matrix, r: Matrix, i: nat, j: nat)
    requires Is(p, 4, 4) && Is(r, 2, 2) && i < 2 && j < 2
    ensures Innovation(p, r)[i][j] == p[i][j] + r[i][j]
  {
    HMul(Mul(p, HT(), 4, 4, 2), 2, i, j);
    MulHT(p, i, j);
  }

  lemma GainEntry(p: Matrix, r: Matrix, i: nat, j: nat)
    requires Is(p, 4, 4) && Is(r, 2, 2) && i < 4 && j < 2
    ensures var inv := Invert2(Innovation(p, r)); Gain(p, r)[i][j] == p[i][0] * inv[0][j] + p[i][1] * inv[1][j]
  {
    var inv := Invert2(Innovation(p, r));
    MulAssociates(p, HT(), inv, 4, 4, 2, 2);
    Dot2(Mul(p, HT(), 4, 4, 2), inv, i, j);
    MulHT(p, i, 0);
    MulHT(p, i, 1);
  }

  lemma PosteriorEntry(p: Matrix, k: Matrix, i: nat, j: nat)
    requires Is(p, 4, 4) && Is(k, 4, 2) && i < 4 && j < 4
    ensures Posterior(p, k)[i][j] == p[i][j] - (k[i][0] * p[0][j] + k[i][1] * p[1][j])
  {
    ShrinkMul(k, p, 4);
    Dot2(k, Mul(MatH(), p, 2, 4, 4), i, j);
    HMul(p, 4, 0, j);
    HMul(p, 4, 1, j);
  }

  /** The two left columns of the posterior are the gain scaled by the measurement variance. */
  lemma PosteriorLeft(p: Matrix, variance: real, i: nat, j: nat)
    requires Is(p, 4, 4) && Det2(Innovation(p, MatR(variance))) != 0.0 && i < 4 && j < 2
    ensures Posterior(p, Gain(p, MatR(variance)))[i][j] == variance * Gain(p, MatR(variance))[i][j]
  {
    var r := MatR(variance);
    var k := Gain(p, r);
    ShrunkCrossCovariance(p, r);
    MulHT(Posterior(p, k), i, j);
    Dot2(k, r, i, j);
  }

  lemma PredictedEntry(x: Matrix, i: nat, j: nat)
    requires Is(x, 4, 4) && i < 4 && j < 4
    ensures Predicted(x)[i][j] ==
            Drift(x, i, j) + (if i < 2 then SLICE * Drift(x, i + 2, j) else 0.0) + (if i == j then MODEL_NOISE else 0.0)
  {
    var y := Mul(x, Transpose(MatA(), 4, 4), 4, 4, 4);
    AMul(y, i, j);
    MulAT(x, i, j);
    if i < 2 { MulAT(x, i + 2, j); }
    var z := Mul(MatA(), y, 4, 4, 4)[i][j];
    assert Predicted(x)[i][j] == 1.0 * z + 1.0 * MatQ()[i][j];
  }

  lemma AMul(y: Matrix, i: nat, j: nat)
    requires Is(y, 4, 4) && i < 4 && j < 4
    ensures Mul(MatA(), y, 4, 4, 4)[i][j] == y[i][j] + if i < 2 then SLICE * y[i + 2][j] else 0.0
  {
    Dot4(MatA(), y, i, j);
  }

  lemma MulAT(x: Matrix, i: nat, j: nat)
    requires Is(x, 4, 4) && i < 4 && j < 4
    ensures Mul(x, Transpose(MatA(), 4, 4), 4, 4, 4)[i][j] == Drift(x, i, j)
  {
    Dot4(x, Transpose(MatA(), 4, 4), i, j);
  }

  /** Entry (i, j) of x A^T. */
  function Drift(x: Matrix, i: nat, j: nat): real
    requires Is(x, 4, 4) && i < 4 && j < 4
  {
    x[i][j] + if j < 2 then SLICE * x[i][j + 2] else 0.0
  }

  // ---------------------------------------------------------------- positive definiteness

  /** (w, x, y, z) P (w, x, y, z)^T */
  function Quad(p: Matrix, w: real, x: real, y: real, z: real): real
    requires Is(p, 4, 4)
  {
    w * (p[0][0] * w + p[0][1] * x + p[0][2] * y + p[0][3] * z)
    + x * (p[1][0] * w + p[1][1] * x + p[1][2] * y + p[1][3] * z)
    + y * (p[2][0] * w + p[2][1] * x + p[2][2] * y + p[2][3] * z)
    + z * (p[3][0] * w + p[3][1] * x + p[3][2] * y + p[3][3] * z)
  }

  ghost predicate Symmetric(p: Matrix)
    requires Is(p, 4, 4)
  {
    forall i, j :: 0 <= i < 4 && 0 <= j < 4 ==> p[i][j] == p[j][i]
  }

  ghost predicate PositiveDefinite(p: Matrix)
    requires Is(p, 4, 4)
  {
    Symmetric(p) && forall w, x, y, z :: !(w == x == y == z == 0.0) ==> Quad(p, w, x, y, z) > 0.0
  }

  lemma PositionBlockPositive(p: Matrix)
    requires Is(p, 4, 4) && PositiveDefinite(p)
    ensures p[0][0] > 0.0 && p[1][1] > 0.0
    ensures p[0][0] * p[1][1] - p[0][1] * p[0][1] > 0.0
  {
    var a, b, c := p[0][0], p[0][1], p[1][1];
    assert p[1][0] == b;
    assert Quad(p, 1.0, 0.0, 0.0, 0.0) == a;
    assert Quad(p, 0.0, 1.0, 0.0, 0.0) == c;
    assert Quad(p, b, -a, 0.0, 0.0) == a * (a * c - b * b) by {
      assert Quad(p, b, -a, 0.0, 0.0) == b * (a * b + b * -a) + -a * (b * b + c * -a);
    }
    assert a * (a * c - b * b) > 0.0;
  }

  /** For every positive definite covariance and positive variance the inverted matrix is regular, so the
      program never takes the singular branch of cvInvert. */
  lemma InnovationIsRegular(p: Matrix, variance: real)
    requires Is(p, 4, 4) && PositiveDefinite(p) && variance > 0.0
    ensures Det2(Innovation(p, MatR(variance))) ==
            p[0][0] * p[1][1] - p[0][1] * p[0][1] + variance * (p[0][0] + p[1][1]) + variance * variance
    ensures Det2(Innovation(p, MatR(variance))) > 0.0
  {
    var r := MatR(variance);
    PositionBlockPositive(p);
    InnovationEntry(p, r, 0, 0);
    InnovationEntry(p, r, 0, 1);
    InnovationEntry(p, r, 1, 0);
    InnovationEntry(p, r, 1, 1);
    var a, b, c := p[0][0], p[0][1], p[1][1];
    assert (a + variance) * (c + variance) - b * b == a * c - b * b + variance * (a + c) + variance * variance;
    assert variance * (a + c) > 0.0 && variance * variance > 0.0;
  }

  /** A measurement makes each position variance strictly smaller than it was and than the variance of the
      sensor. */
  lemma MeasurementHelps(p: Matrix, variance: real)
    requires Is(p, 4, 4) && PositiveDefinite(p) && variance > 0.0
    ensures var post := Posterior(p, Gain(p, MatR(variance)));
            && 0.0 < post[0][0] < p[0][0] && post[0][0] < variance
            && 0.0 < post[1][1] < p[1][1] && post[1][1] < variance
  {
    VarianceShrinks0(p, variance);
    VarianceShrinks1(p, variance);
  }

  lemma VarianceShrinks0(p: Matrix, variance: real)
    requires Is(p, 4, 4) && PositiveDefinite(p) && variance > 0.0
    ensures var post := Posterior(p, Gain(p, MatR(variance))); 0.0 < post[0][0] < p[0][0] && post[0][0] < variance
  {
    GainAt0(p, variance);
    InnovationIsRegular(p, variance);
    PositionBlockPositive(p);
    PosteriorLeft(p, variance, 0, 0);
    var k := Gain(p, MatR(variance));
    GainDiagonal(p[0][0], p[0][1], p[1][1], variance, Det2(Innovation(p, MatR(variance))), k[0][0],
                 Posterior(p, k)[0][0]);
  }

  lemma VarianceShrinks1(p: Matrix, variance: real)
    requires Is(p, 4, 4) && PositiveDefinite(p) && variance > 0.0
    ensures var post := Posterior(p, Gain(p, MatR(variance))); 0.0 < post[1][1] < p[1][1] && post[1][1] < variance
  {
    GainAt1(p, variance);
    InnovationIsRegular(p, variance);
    PositionBlockPositive(p);
    PosteriorLeft(p, variance, 1, 1);
    var k := Gain(p, MatR(variance));
    GainDiagonal(p[1][1], p[0][1], p[0][0], variance, Det2(Innovation(p, MatR(variance))), k[1][1],
                 Posterior(p, k)[1][1]);
  }

  lemma GainAt0(p: Matrix, variance: real)
    requires Is(p, 4, 4) && PositiveDefinite(p) && variance > 0.0
    ensures var det := Det2(Innovation(p, MatR(variance)));
            && det != 0.0
            && Gain(p, MatR(variance))[0][0] == p[0][0] * ((p[1][1] + variance) / det) + p[0][1] * (-p[0][1] / det)
  {
    var r := MatR(variance);
    InnovationIsRegular(p, variance);
    GainEntry(p, r, 0, 0);
    InnovationEntry(p, r, 1, 1);
    InnovationEntry(p, r, 1, 0);
    assert p[1][0] == p[0][1];
  }

  lemma GainAt1(p: Matrix, variance: real)
    requires Is(p, 4, 4) && PositiveDefinite(p) && variance > 0.0
    ensures var det := Det2(Innovation(p, MatR(variance)));
            && det != 0.0
            && Gain(p, MatR(variance))[1][1] == p[1][1] * ((p[0][0] + variance) / det) + p[0][1] * (-p[0][1] / det)
  {
    var r := MatR(variance);
    InnovationIsRegular(p, variance);
    GainEntry(p, r, 1, 1);
    InnovationEntry(p, r, 0, 0);
    InnovationEntry(p, r, 0, 1);
    assert p[1][0] == p[0][1];
  }

  /** The diagonal entry k of the gain for position block (a b; b c), and the bounds of v = variance k. */
  lemma GainDiagonal(a: real, b: real, c: real, variance: real, det: real, k: real, v: real)
    requires a > 0.0 && c > 0.0 && variance > 0.0 && a * c - b * b > 0.0
    requires det == a * c - b * b + variance * (a + c) + variance * variance && det > 0.0
    requires k == a * ((c + variance) / det) + b * (-b / det) && v == variance * k
    ensures 0.0 < v < a && v < variance
  {
    var n := a * (c + variance) - b * b;
    assert k * det == n by {
      assert a * ((c + variance) / det) * det == a * (c + variance);
      assert b * (-b / det) * det == b * -b;
    }
    assert n == a * c - b * b + a * variance;
    assert 0.0 < a * variance && 0.0 < c * variance && 0.0 < variance * variance;
    assert n < det;
    QuotientBelow(k, det, n, 1.0);
    assert v < variance;
    assert a * det - variance * n == a * (a * c - b * b) + variance * (a * a) + variance * (b * b) by {
      assert a * det == a * (a * c - b * b) + a * variance * (a + c) + a * variance * variance;
      assert a * variance * (a + c) == variance * (a * a) + variance * (a * c);
      assert variance * n == variance * (a * c - b * b) + variance * a * variance;
    }
    assert variance * (a * a) > 0.0 && variance * (b * b) >= 0.0 && a * (a * c - b * b) > 0.0;
    assert v * det == variance * n;
    QuotientBelow(v, det, variance * n, a);
  }

  // ---------------------------------------------------------------- the two axes decouple

  /** No cross terms between the axes, and the same block (a b; b d) for x and for y. */
  predicate Decoupled(p: Matrix, a: real, b: real, d: real)
    requires Is(p, 4, 4)
  {
    && p[0][0] == a && p[0][1] == 0.0 && p[0][2] == b && p[0][3] == 0.0
    && p[1][0] == 0.0 && p[1][1] == a && p[1][2] == 0.0 && p[1][3] == b
    && p[2][0] == b && p[2][1] == 0.0 && p[2][2] == d && p[2][3] == 0.0
    && p[3][0] == 0.0 && p[3][1] == b && p[3][2] == 0.0 && p[3][3] == d
  }

  lemma AxisQuad(a: real, b: real, d: real, u: real, v: real)
    requires a > 0.0 && a * d - b * b > 0.0
    ensures u * (a * u + b * v) + v * (b * u + d * v) >= 0.0
    ensures !(u == v == 0.0) ==> u * (a * u + b * v) + v * (b * u + d * v) > 0.0
  {
    var q := u * (a * u + b * v) + v * (b * u + d * v);
    var w, det := a * u + b * v, a * d - b * b;
    CompleteTheSquare(a, b, d, u, v);
    SquaresPositive(w, det, v, a * q);
    if v != 0.0 {
      PositiveFactor(q, a);
    } else if u != 0.0 {
      assert q == a * Square(u);
      PositiveProduct(a, Square(u), q);
    }
  }

  lemma CompleteTheSquare(a: real, b: real, d: real, u: real, v: real)
    ensures a * (u * (a * u + b * v) + v * (b * u + d * v)) == Square(a * u + b * v) + (a * d - b * b) * Square(v)
  { }

  lemma SquaresPositive(w: real, det: real, v: real, sum: real)
    requires det > 0.0 && sum == Square(w) + det * Square(v)
    ensures sum >= 0.0 && (v != 0.0 ==> sum > 0.0)
  { }

  /** A decoupled covariance is positive definite exactly when its axis block is. */
  lemma DecoupledPositiveIff(p: Matrix, a: real, b: real, d: real)
    requires Is(p, 4, 4) && Decoupled(p, a, b, d)
    ensures PositiveDefinite(p) <==> a > 0.0 && a * d - b * b > 0.0
  {
    if a > 0.0 && a * d - b * b > 0.0 { BlockPositive(p, a, b, d); }
    if PositiveDefinite(p) { PositiveBlock(p, a, b, d); }
  }

  lemma BlockPositive(p: Matrix, a: real, b: real, d: real)
    requires Is(p, 4, 4) && Decoupled(p, a, b, d) && a > 0.0 && a * d - b * b > 0.0
    ensures PositiveDefinite(p)
  {
    DecoupledSymmetric(p, a, b, d);
    forall w, x, y, z | !(w == x == y == z == 0.0) ensures Quad(p, w, x, y, z) > 0.0 {
      QuadDecoupled(p, a, b, d, w, x, y, z);
      AxisQuad(a, b, d, w, y);
      AxisQuad(a, b, d, x, z);
    }
  }

  lemma DecoupledSymmetric(p: Matrix, a: real, b: real, d: real)
    requires Is(p, 4, 4) && Decoupled(p, a, b, d)
    ensures Symmetric(p)
  { }

  lemma PositiveBlock(p: Matrix, a: real, b: real, d: real)
    requires Is(p, 4, 4) && Decoupled(p, a, b, d) && PositiveDefinite(p)
    ensures a > 0.0 && a * d - b * b > 0.0
  {
    assert Quad(p, 1.0, 0.0, 0.0, 0.0) == a;
    QuadDecoupled(p, a, b, d, b, 0.0, -a, 0.0);
    assert Quad(p, b, 0.0, -a, 0.0) > 0.0;
    assert b * (a * b + b * -a) + -a * (b * b + d * -a) == (a * d - b * b) * a;
    PositiveFactor(a * d - b * b, a);
  }

  lemma QuadDecoupled(p: Matrix, a: real, b: real, d: real, w: real, x: real, y: real, z: real)
    requires Is(p, 4, 4) && Decoupled(p, a, b, d)
    ensures Quad(p, w, x, y, z) ==
            (w * (a * w + b * y) + y * (b * w + d * y)) + (x * (a * x + b * z) + z * (b * x + d * z))
  { }

  /** The axis block after a measurement: the position gain is a / (a + r), the velocity gain b / (a + r). */
  lemma DecoupledGain(p: Matrix, a: real, b: real, d: real, r: real)
    requires Is(p, 4, 4) && Decoupled(p, a, b, d) && a + r != 0.0
    ensures var k := Gain(p, MatR(r));
            && k[0][0] == a / (a + r) && k[0][1] == 0.0 && k[1][0] == 0.0 && k[1][1] == a / (a + r)
            && k[2][0] == b / (a + r) && k[2][1] == 0.0 && k[3][0] == 0.0 && k[3][1] == b / (a + r)
  {
    DecoupledGainRow(p, a, b, d, r, 0, a, 0.0);
    DecoupledGainRow(p, a, b, d, r, 1, 0.0, a);
    DecoupledGainRow(p, a, b, d, r, 2, b, 0.0);
    DecoupledGainRow(p, a, b, d, r, 3, 0.0, b);
  }

  /** One row of the gain, from the two left entries of the same row of the covariance. */
  lemma DecoupledGainRow(p: Matrix, a: real, b: real, d: real, r: real, i: nat, left: real, right: real)
    requires Is(p, 4, 4) && Decoupled(p, a, b, d) && a + r != 0.0
    requires i < 4 && p[i][0] == left && p[i][1] == right
    ensures Gain(p, MatR(r))[i][0] == left / (a + r) && Gain(p, MatR(r))[i][1] == right / (a + r)
  {
    DecoupledInverse(p, a, b, d, r);
    GainEntry(p, MatR(r), i, 0);
    GainEntry(p, MatR(r), i, 1);
    Reciprocal(a + r, left);
    Reciprocal(a + r, right);
  }

  lemma DecoupledInverse(p: Matrix, a: real, b: real, d: real, r: real)
    requires Is(p, 4, 4) && Decoupled(p, a, b, d) && a + r != 0.0
    ensures (a + r) * (a + r) != 0.0
    ensures var inv := Invert2(Innovation(p, MatR(r)));
            inv[0][0] == inv[1][1] == (a + r) / ((a + r) * (a + r)) && inv[0][1] == inv[1][0] == 0.0
  {
    var s := Innovation(p, MatR(r));
    InnovationEntry(p, MatR(r), 0, 0);
    InnovationEntry(p, MatR(r), 0, 1);
    InnovationEntry(p, MatR(r), 1, 0);
    InnovationEntry(p, MatR(r), 1, 1);
    assert Det2(s) == (a + r) * (a + r) == Square(a + r);
  }

  lemma Reciprocal(s: real, x: real)
    requires s != 0.0
    ensures s * s != 0.0 && x * (s / (s * s)) == x / s
  { }

  lemma SwapFactors(a: real, b: real, s: real)
    requires s != 0.0
    ensures b / s * a == a / s * b
  { }

  /** The covariance after a measurement with position gain `g` and velocity gain `h` on both axes. */
  lemma PosteriorOfGain(p: Matrix, k: Matrix, a: real, b: real, d: real, g: real, h: real)
    requires Is(p, 4, 4) && Is(k, 4, 2) && Decoupled(p, a, b, d) && h * a == g * b
    requires k[0][0] == g && k[0][1] == 0.0 && k[1][0] == 0.0 && k[1][1] == g
    requires k[2][0] == h && k[2][1] == 0.0 && k[3][0] == 0.0 && k[3][1] == h
    ensures Decoupled(Posterior(p, k), a - g * a, b - g * b, d - h * b)
  {
    PosteriorEntry(p, k, 0, 0); PosteriorEntry(p, k, 0, 1); PosteriorEntry(p, k, 0, 2); PosteriorEntry(p, k, 0, 3);
    PosteriorEntry(p, k, 1, 0); PosteriorEntry(p, k, 1, 1); PosteriorEntry(p, k, 1, 2); PosteriorEntry(p, k, 1, 3);
    PosteriorEntry(p, k, 2, 0); PosteriorEntry(p, k, 2, 1); PosteriorEntry(p, k, 2, 2); PosteriorEntry(p, k, 2, 3);
    PosteriorEntry(p, k, 3, 0); PosteriorEntry(p, k, 3, 1); PosteriorEntry(p, k, 3, 2); PosteriorEntry(p, k, 3, 3);
  }

  lemma DecoupledPosterior(p: Matrix, a: real, b: real, d: real, r: real)
    requires Is(p, 4, 4) && Decoupled(p, a, b, d) && a + r != 0.0
    ensures Decoupled(Posterior(p, Gain(p, MatR(r))), a - a / (a + r) * a, b - a / (a + r) * b, d - b / (a + r) * b)
  {
    DecoupledGain(p, a, b, d, r);
    SwapFactors(a, b, a + r);
    PosteriorOfGain(p, Gain(p, MatR(r)), a, b, d, a / (a + r), b / (a + r));
  }

  lemma DecoupledPredicted(p: Matrix, a: real, b: real, d: real)
    requires Is(p, 4, 4) && Decoupled(p, a, b, d)
    ensures Decoupled(Predicted(p), a + SLICE * b + SLICE * (b + SLICE * d) + MODEL_NOISE, b + SLICE * d,
                      d + MODEL_NOISE)
  {
    PredictedEntry(p, 0, 0); PredictedEntry(p, 0, 1); PredictedEntry(p, 0, 2); PredictedEntry(p, 0, 3);
    PredictedEntry(p, 1, 0); PredictedEntry(p, 1, 1); PredictedEntry(p, 1, 2); PredictedEntry(p, 1, 3);
    PredictedEntry(p, 2, 0); PredictedEntry(p, 2, 1); PredictedEntry(p, 2, 2); PredictedEntry(p, 2, 3);
    PredictedEntry(p, 3, 0); PredictedEntry(p, 3, 1); PredictedEntry(p, 3, 2); PredictedEntry(p, 3, 3);
  }

  /** Equal blocks, no cross terms, and positive definite. */
  ghost predicate GoodCovariance(p: Matrix) {
    Is(p, 4, 4) && Decoupled(p, p[0][0], p[0][2], p[2][2]) && PositiveDefinite(p)
  }

  /** The determinant of the axis block shrinks by the factor r / (a + r) in a measurement. */
  lemma PosteriorBlock(a: real, b: real, d: real, r: real)
    requires a > 0.0 && r > 0.0 && a * d - b * b > 0.0
    ensures var a1, b1, d1 := a - a / (a + r) * a, b - a / (a + r) * b, d - b / (a + r) * b;
            a1 > 0.0 && a1 * d1 - b1 * b1 > 0.0
  { }

  /** Drift keeps the determinant of the axis block and the model noise raises it. */
  lemma PredictedBlock(a: real, b: real, d: real, h: real, q: real)
    requires a > 0.0 && a * d - b * b > 0.0 && q > 0.0
    ensures var a2, b2, d2 := a + h * b + h * (b + h * d) + q, b + h * d, d + q;
            a2 > 0.0 && a2 * d2 - b2 * b2 > 0.0
  {
    var p, b2 := a + h * b + h * (b + h * d), b + h * d;
    AxisQuad(a, b, d, 1.0, h);
    AxisQuad(a, b, d, 0.0, 1.0);
    assert p == 1.0 * (a * 1.0 + b * h) + h * (b * 1.0 + d * h);
    assert p * d - b2 * b2 == a * d - b * b by {
      assert p * d == a * d + h * b * d + h * d * b2;
      assert b2 * b2 == b * b + b * h * d + h * d * b2;
    }
    assert (p + q) * (d + q) - b2 * b2 == p * d - b2 * b2 + q * (p + d) + q * q;
    assert q * (p + d) > 0.0 && q * q > 0.0;
  }

  /** One pass of the loop keeps a good covariance good. */
  lemma PassKeepsGood(p: Matrix, variance: real)
    requires GoodCovariance(p) && variance > 0.0
    ensures GoodCovariance(Predicted(Posterior(p, Gain(p, MatR(variance)))))
  {
    var a, b, d := p[0][0], p[0][2], p[2][2];
    DecoupledPositiveIff(p, a, b, d);
    var post := Posterior(p, Gain(p, MatR(variance)));
    DecoupledPosterior(p, a, b, d, variance);
    PosteriorBlock(a, b, d, variance);
    PredictionIsGood(post, post[0][0], post[0][2], post[2][2]);
  }

  lemma PredictionIsGood(p: Matrix, a: real, b: real, d: real)
    requires Is(p, 4, 4) && Decoupled(p, a, b, d) && a > 0.0 && a * d - b * b > 0.0
    ensures GoodCovariance(Predicted(p))
  {
    DecoupledPredicted(p, a, b, d);
    PredictedBlock(a, b, d, SLICE, MODEL_NOISE);
    BlockIsGood(Predicted(p), a + SLICE * b + SLICE * (b + SLICE * d) + MODEL_NOISE, b + SLICE * d, d + MODEL_NOISE);
  }

  lemma BlockIsGood(p: Matrix, a: real, b: real, d: real)
    requires Is(p, 4, 4) && Decoupled(p, a, b, d) && a > 0.0 && a * d - b * b > 0.0
    ensures GoodCovariance(p)
  {
    DecoupledPositiveIff(p, a, b, d);
  }

  // ---------------------------------------------------------------- the loop

  /** What one iteration hands to the next: the ideal trajectory and the prediction for it. */
  datatype Filter = Filter(t: real, x: real, y: real, vx: real, vy: real, xm: Matrix, pm: Matrix) {
    predicate Valid() {
      Is(xm, 4, 1) && Is(pm, 4, 4)
    }
  }

  function Start(): (f: Filter)
    ensures f.Valid()
  {
    Filter(0.0, 0.0, 0.0, START_VX, START_VY, [[0.0], [0.0], [1.0], [1.0]], Identity(4))
  }

  predicate BehindTree(f: Filter) {
    0.7 < f.x < 0.8
  }

  function Variance(f: Filter): real {
    if BehindTree(f) then TREE_VARIANCE else SENSOR_VARIANCE
  }

  /** Vec_Y: the ideal position, with noise on its second coordinate; the tree hides the second coordinate. */
  function Measure(f: Filter, noise: real): (m: Matrix)
    ensures Is(m, 2, 1)
  {
    [[f.x], [(if BehindTree(f) then 0.1 else f.y) + noise]]
  }

  function Pass(f: Filter, noise: real): (f': Filter)
    requires f.Valid()
    ensures f'.Valid()
  {
    var k := Gain(f.pm, MatR(Variance(f)));
    Filter(f.t + SLICE,
           f.x + SLICE * f.vx,
           f.y + SLICE * f.vy - 0.5 * GRAVITY * SLICE * SLICE,
           f.vx,
           f.vy - GRAVITY * SLICE,
           Advanced(Corrected(f.xm, k, Measure(f, noise))),
           Predicted(Posterior(f.pm, k)))
  }

  function Run(noise: seq<real>): (f: Filter)
    ensures f.Valid()
    decreases |noise|
  {
    if noise == [] then Start() else Pass(Run(noise[..|noise| - 1]), noise[|noise| - 1])
  }

  /** Mat_Pm after one pass for each of the given measurement variances. */
  function Covariance(variances: seq<real>): (p: Matrix)
    ensures Is(p, 4, 4)
    decreases |variances|
  {
    if variances == [] then Identity(4)
    else
      var p := Covariance(variances[..|variances| - 1]);
      Predicted(Posterior(p, Gain(p, MatR(variances[|variances| - 1]))))
  }

  /** For any number of passes with any positive measurement variances the covariance has equal axis blocks,
      no cross terms and is positive definite, so the matrix to invert next is regular as well. */
  lemma {:induction false} CovarianceStaysPositive(variances: seq<real>, next: real)
    requires next > 0.0 && forall i :: 0 <= i < |variances| ==> variances[i] > 0.0
    ensures GoodCovariance(Covariance(variances))
    ensures Det2(Innovation(Covariance(variances), MatR(next))) > 0.0
    decreases |variances|
  {
    if variances == [] {
      DecoupledPositiveIff(Identity(4), 1.0, 0.0, 1.0);
    } else {
      var n := |variances| - 1;
      CovarianceStaysPositive(variances[..n], variances[n]);
      PassKeepsGood(Covariance(variances[..n]), variances[n]);
    }
    InnovationIsRegular(Covariance(variances), next);
  }

  /** The variances the loop uses along its run. */
  ghost function Variances(noise: seq<real>): (v: seq<real>)
    ensures |v| == |noise| && forall i :: 0 <= i < |v| ==> v[i] > 0.0
  {
    seq(|noise|, i requires 0 <= i < |noise| => Variance(Run(noise[..i])))
  }

  lemma {:induction false} RunCovariance(noise: seq<real>)
    ensures Run(noise).pm == Covariance(Variances(noise))
    decreases |noise|
  {
    if noise != [] {
      var n := |noise| - 1;
      RunCovariance(noise[..n]);
      VariancesPrefix(noise);
      CovarianceExtends(Variances(noise));
    }
  }

  lemma CovarianceExtends(variances: seq<real>)
    requires variances != []
    ensures var n := |variances| - 1;
            var p := Covariance(variances[..n]);
            Covariance(variances) == Predicted(Posterior(p, Gain(p, MatR(variances[n]))))
  { }

  lemma VariancesPrefix(noise: seq<real>)
    requires noise != []
    ensures Variances(noise)[..|noise| - 1] == Variances(noise[..|noise| - 1])
  {
    var front := noise[..|noise| - 1];
    forall i | 0 <= i < |front| ensures front[..i] == noise[..i] { }
  }

  /** A pass that inverts a regular matrix, updates the covariance as the Joseph form would, and makes both
      position variances smaller than they were and than that of the measurement. */
  ghost predicate SoundPass(p: Matrix, variance: real)
    requires Is(p, 4, 4)
  {
    var k := Gain(p, MatR(variance));
    var post := Posterior(p, k);
    && Det2(Innovation(p, MatR(variance))) > 0.0
    && post == Joseph(p, k, MatR(variance))
    && 0.0 < post[0][0] < p[0][0] && 0.0 < post[1][1] < p[1][1]
    && post[0][0] < variance && post[1][1] < variance
  }

  lemma GoodPassIsSound(p: Matrix, variance: real)
    requires GoodCovariance(p) && variance > 0.0
    ensures SoundPass(p, variance)
  {
    InnovationIsRegular(p, variance);
    ShortUpdateIsJoseph(p, MatR(variance));
    MeasurementHelps(p, variance);
  }

  /** Every pass of every run is sound, with the variance that belongs to it: 1.0 in the passes 74 to 84, in
      which the tree is in front of the sensor, and 0.01 in all others. */
  lemma EveryPassIsSound(noise: seq<real>)
    ensures var variance := if 74 <= |noise| <= 84 then 1.0 else 0.01;
            GoodCovariance(Run(noise).pm) && SoundPass(Run(noise).pm, variance)
  {
    var f := Run(noise);
    RunCovariance(noise);
    CovarianceStaysPositive(Variances(noise), Variance(f));
    GoodPassIsSound(f.pm, Variance(f));
    VarianceOfPass(noise);
  }

  // ---------------------------------------------------------------- the ideal trajectory

  function Ideal(f: Filter): (m: Matrix)
    ensures Is(m, 4, 1)
  {
    [[f.x], [f.y], [f.vx], [f.vy]]
  }

  /** The trajectory of a throw, in closed form. */
  lemma {:induction false} IdealClosedForm(noise: seq<real>)
    ensures OnParabola(Run(noise), |noise| as real * SLICE)
    decreases |noise|
  {
    if noise != [] {
      var n := |noise| - 1;
      IdealClosedForm(noise[..n]);
      assert |noise| as real == n as real + 1.0;
      var t := n as real * SLICE;
      assert t + SLICE == |noise| as real * SLICE;
      ParabolaStep(Run(noise[..n]), noise[n], t);
    }
  }

  predicate OnParabola(f: Filter, t: real) {
    && f.t == t && f.x == START_VX * t && f.vx == START_VX && f.vy == START_VY - GRAVITY * t
    && f.y == START_VY * t - 0.5 * GRAVITY * (t * t)
  }

  lemma ParabolaStep(f: Filter, noise: real, t: real)
    requires f.Valid() && OnParabola(f, t)
    ensures OnParabola(Pass(f, noise), t + SLICE)
  { }

  /** The throw in the numbers of the program, after k slices. */
  predicate ThrownFor(f: Filter, k: real) {
    && f.t == 0.005 * k && f.x == 0.0095 * k && f.y == 0.01634 * k - 0.000122583125 * (k * k)
    && f.vx == 1.9 && f.vy == 3.268 - 0.04903325 * k
  }

  lemma ParabolaInNumbers(f: Filter, k: real)
    requires OnParabola(f, k * SLICE)
    ensures ThrownFor(f, k)
  {
    Slices(k, k * SLICE);
  }

  lemma ThrowInNumbers(noise: seq<real>)
    ensures ThrownFor(Run(noise), |noise| as real)
  {
    IdealClosedForm(noise);
    ParabolaInNumbers(Run(noise), |noise| as real);
  }

  lemma Slices(k: real, t: real)
    requires t == k * SLICE
    ensures START_VX == 1.9 && t == 0.005 * k && START_VX * t == 0.0095 * k
    ensures START_VY * t == 0.01634 * k && START_VY - GRAVITY * t == 3.268 - 0.04903325 * k
    ensures 0.5 * GRAVITY * (t * t) == 0.000122583125 * (k * k)
  {
    SquareOfSlices(k, t, k * k, t * t);
  }

  lemma SquareOfSlices(k: real, t: real, kk: real, tt: real)
    requires t == 0.005 * k && kk == k * k && tt == t * t
    ensures tt == 0.000025 * kk
  {
    assert t * t == 0.005 * (k * t) == 0.005 * (0.005 * (k * k));
  }

  /** The object is behind the tree in the passes 74 to 84. */
  lemma VarianceOfPass(noise: seq<real>)
    ensures BehindTree(Run(noise)) <==> 74 <= |noise| <= 84
    ensures Variance(Run(noise)) == if 74 <= |noise| <= 84 then 1.0 else 0.01
  {
    ThrowInNumbers(noise);
    BehindTreeIff(Run(noise), |noise|);
  }

  lemma BehindTreeIff(f: Filter, k: nat)
    requires ThrownFor(f, k as real)
    ensures BehindTree(f) <==> 74 <= k <= 84
    ensures Variance(f) == if 74 <= k <= 84 then 1.0 else 0.01
  { }

  /** What the filter is given in pass k: the variance matrix and the measurement, in numbers. */
  ghost predicate GivenInPass(f: Filter, next: real, k: real, tree: bool) {
    && MatR(Variance(f)) == (if tree then [[1.0, 0.0], [0.0, 1.0]] else [[0.01, 0.0], [0.0, 0.01]])
    && Measure(f, next) == [[0.0095 * k], [(if tree then 0.1 else 0.01634 * k - 0.000122583125 * (k * k)) + next]]
  }

  lemma MeasurementInNumbers(noise: seq<real>, next: real)
    ensures GivenInPass(Run(noise), next, |noise| as real, 74 <= |noise| <= 84)
  {
    ThrowInNumbers(noise);
    MeasureIs(Run(noise), next, |noise|);
  }

  lemma MeasureIs(f: Filter, next: real, k: nat)
    requires ThrownFor(f, k as real)
    ensures GivenInPass(f, next, k as real, 74 <= k <= 84)
  {
    BehindTreeIff(f, k);
  }

  /** What it starts from, and how it models a slice: the entries of the next covariance in numbers. */
  lemma ModelInNumbers(p: Matrix, a: real, b: real, d: real)
    requires Is(p, 4, 4) && Decoupled(p, a, b, d)
    ensures Run([]).xm == [[0.0], [0.0], [1.0], [1.0]] && Decoupled(Run([]).pm, 1.0, 0.0, 1.0)
    ensures Decoupled(Predicted(p), a + 0.01 * b + 0.000025 * d + 0.00001, b + 0.005 * d, d + 0.00001)
  {
    DecoupledPredicted(p, a, b, d);
  }

  lemma AdvancedEntry(x: Matrix, i: nat)
    requires Is(x, 4, 1) && i < 4
    ensures Advanced(x)[i][0] ==
            x[i][0] + (if i < 2 then SLICE * x[i + 2][0] else 0.0)
            - (if i == 1 then 0.5 * SLICE * SLICE * GRAVITY else if i == 3 then SLICE * GRAVITY else 0.0)
  {
    Dot4(MatA(), x, i, 0);
    Dot2(MatB(), VecU(), i, 0);
  }

  lemma EqualColumns(a: Matrix, b: Matrix)
    requires Is(a, 4, 1) && Is(b, 4, 1)
    requires a[0][0] == b[0][0] && a[1][0] == b[1][0] && a[2][0] == b[2][0] && a[3][0] == b[3][0]
    ensures a == b
  {
    assert a[0] == b[0] && a[1] == b[1] && a[2] == b[2] && a[3] == b[3];
  }

  /** The matrices A, B and u advance a state exactly as the ideal trajectory advances. */
  lemma ModelIsIdeal(f: Filter, noise: real)
    requires f.Valid()
    ensures Ideal(Pass(f, noise)) == Advanced(Ideal(f))
  {
    AdvancedEntry(Ideal(f), 0);
    AdvancedEntry(Ideal(f), 1);
    AdvancedEntry(Ideal(f), 2);
    AdvancedEntry(Ideal(f), 3);
    EqualColumns(Ideal(Pass(f, noise)), Advanced(Ideal(f)));
  }

  // ---------------------------------------------------------------- the estimation error

  ghost function Error(f: Filter): (m: Matrix)
    requires f.Valid()
    ensures Is(m, 4, 1)
  {
    Diff(Ideal(f), f.xm, 4, 1)
  }

  /** What the measurement adds to the true position. */
  ghost function Disturbance(f: Filter, noise: real): (m: Matrix)
    requires f.Valid()
    ensures Is(m, 2, 1)
  {
    Diff(Measure(f, noise), Mul(MatH(), Ideal(f), 2, 4, 1), 2, 1)
  }

  /** e' = A ((I - K H) e - K w): the error of the next prediction depends on the current error and on the
      disturbance of the measurement only, not on the trajectory. */
  lemma ErrorDynamics(f: Filter, noise: real)
    requires f.Valid()
    ensures var k := Gain(f.pm, MatR(Variance(f)));
            Error(Pass(f, noise)) ==
            Mul(MatA(), Diff(Mul(Shrink(k), Error(f), 4, 4, 1), Mul(k, Disturbance(f, noise), 4, 2, 1), 4, 1), 4, 4, 1)
  {
    var k := Gain(f.pm, MatR(Variance(f)));
    var x, xp := Ideal(f), Corrected(f.xm, k, Measure(f, noise));
    ModelIsIdeal(f, noise);
    AdvancedDifference(x, xp);
    CorrectedDifference(f, k, noise);
  }

  lemma AdvancedDifference(x: Matrix, y: Matrix)
    requires Is(x, 4, 1) && Is(y, 4, 1)
    ensures Diff(Advanced(x), Advanced(y), 4, 1) == Mul(MatA(), Diff(x, y, 4, 1), 4, 4, 1)
  {
    MulCombineRight(MatA(), 1.0, x, -1.0, y, 4, 4, 1);
    Equal(Diff(Advanced(x), Advanced(y), 4, 1), Mul(MatA(), Diff(x, y, 4, 1), 4, 4, 1), 4, 1);
  }

  lemma CorrectedDifference(f: Filter, k: Matrix, noise: real)
    requires f.Valid() && Is(k, 4, 2)
    ensures Diff(Ideal(f), Corrected(f.xm, k, Measure(f, noise)), 4, 1) ==
            Diff(Mul(Shrink(k), Error(f), 4, 4, 1), Mul(k, Disturbance(f, noise), 4, 2, 1), 4, 1)
  {
    var x, y, e, w := Ideal(f), Measure(f, noise), Error(f), Disturbance(f, noise);
    var he, hx, hxm := Mul(MatH(), e, 2, 4, 1), Mul(MatH(), x, 2, 4, 1), Mul(MatH(), f.xm, 2, 4, 1);
    ShrinkMul(k, e, 1);
    MulCombineRight(MatH(), 1.0, x, -1.0, f.xm, 2, 4, 1);
    var residual := Gemm(MatH(), f.xm, -1.0, y, 1.0, 2, 4, 1);
    Equal(residual, Combine(1.0, he, 1.0, w, 2, 1), 2, 1);
    MulCombineRight(k, 1.0, he, 1.0, w, 4, 2, 1);
    Equal(Diff(x, Corrected(f.xm, k, y), 4, 1),
          Diff(Mul(Shrink(k), e, 4, 4, 1), Mul(k, w, 4, 2, 1), 4, 1), 4, 1);
  }

  /** A measurement is undisturbed exactly when it reports the true height. */
  lemma UndisturbedIff(f: Filter, noise: real)
    requires f.Valid()
    ensures Disturbance(f, noise) == Zero(2, 1) <==> (if BehindTree(f) then 0.1 else f.y) + noise == f.y
  {
    HMul(Ideal(f), 1, 0, 0);
    HMul(Ideal(f), 1, 1, 0);
    var w := Disturbance(f, noise);
    assert w[0][0] == 0.0 && w[1][0] == (if BehindTree(f) then 0.1 else f.y) + noise - f.y;
    if w[1][0] == 0.0 { assert w[0] == Zero(2, 1)[0] && w[1] == Zero(2, 1)[1]; }
  }

  lemma MulZero(a: Matrix, p: nat, q: nat, r: nat)
    requires Is(a, p, q)
    ensures Mul(a, Zero(q, r), p, q, r) == Zero(p, r)
  {
    MulCombineRight(a, 0.0, Zero(q, r), 0.0, Zero(q, r), p, q, r);
    Equal(Combine(0.0, Zero(q, r), 0.0, Zero(q, r), q, r), Zero(q, r), q, r);
    Equal(Mul(a, Zero(q, r), p, q, r), Zero(p, r), p, r);
  }

  /** With undisturbed measurements e' = A (I - K H) e, so a prediction without error stays without error. */
  lemma NoDisturbanceNoNewError(f: Filter, noise: real)
    requires f.Valid() && Disturbance(f, noise) == Zero(2, 1)
    ensures Error(Pass(f, noise)) ==
            Mul(MatA(), Mul(Shrink(Gain(f.pm, MatR(Variance(f)))), Error(f), 4, 4, 1), 4, 4, 1)
    ensures Error(f) == Zero(4, 1) ==> Error(Pass(f, noise)) == Zero(4, 1)
  {
    var k := Gain(f.pm, MatR(Variance(f)));
    ErrorDynamics(f, noise);
    MulZero(k, 4, 2, 1);
    var se := Mul(Shrink(k), Error(f), 4, 4, 1);
    Equal(Diff(se, Zero(4, 1), 4, 1), se, 4, 1);
    MulZero(Shrink(k), 4, 4, 1);
    MulZero(MatA(), 4, 4, 1);
  }

  // ---------------------------------------------------------------- the program

  /** The states and measurements of a run: each state is one pass further than the one before. */
  ghost predicate IsTrace(noise: seq<real>, fs: seq<Filter>, ys: seq<Matrix>) {
    && |fs| == |ys| + 1 <= |noise| + 1
    && fs[0] == Start()
    && forall i :: 0 <= i < |ys| ==> Linked(fs[i], noise[i], ys[i], fs[i + 1])
  }

  ghost predicate Linked(f: Filter, noise: real, y: Matrix, f': Filter) {
    f.Valid() && y == Measure(f, noise) && f' == Pass(f, noise)
  }

  lemma RunNext(noise: seq<real>, k: nat)
    requires 0 < k <= |noise|
    ensures Run(noise[..k]) == Pass(Run(noise[..k - 1]), noise[k - 1])
  {
    assert noise[..k][..k - 1] == noise[..k - 1];
  }

  lemma {:induction false} TraceIsRun(noise: seq<real>, fs: seq<Filter>, ys: seq<Matrix>, k: nat)
    requires IsTrace(noise, fs, ys) && k < |fs|
    ensures fs[k] == Run(noise[..k])
  {
    if k > 0 {
      TraceIsRun(noise, fs, ys, k - 1);
      assert Linked(fs[k - 1], noise[k - 1], ys[k - 1], fs[k]);
      RunNext(noise, k);
    }
  }

  lemma TraceExtends(noise: seq<real>, fs: seq<Filter>, ys: seq<Matrix>, y: Matrix, f: Filter)
    requires IsTrace(noise, fs, ys) && |ys| < |noise| && Linked(fs[|ys|], noise[|ys|], y, f)
    ensures IsTrace(noise, fs + [f], ys + [y])
  { }

  /** cvmGet(m, i, 0) */
  function At(m: Matrix, i: nat): real {
    if i < |m| && m[i] != [] then m[i][0] else 0.0
  }

  /** The six vectors the program keeps are these coordinates of the trace. */
  ghost predicate Recorded(fs: seq<Filter>, ys: seq<Matrix>, xIdeal: seq<real>, yIdeal: seq<real>,
                           xMes: seq<real>, yMes: seq<real>, xKal: seq<real>, yKal: seq<real>)
  {
    && |xIdeal| == |yIdeal| == |xKal| == |yKal| == |fs| && |xMes| == |yMes| == |ys| + 1
    && (forall i :: 0 <= i < |fs| ==> xIdeal[i] == fs[i].x && yIdeal[i] == fs[i].y)
    && (forall i :: 0 < i < |fs| ==> xKal[i] == At(fs[i].xm, 0) && yKal[i] == At(fs[i].xm, 1))
    && (forall i :: 0 < i <= |ys| ==> xMes[i] == At(ys[i - 1], 0) && yMes[i] == At(ys[i - 1], 1))
  }

  lemma RecordedExtends(fs: seq<Filter>, ys: seq<Matrix>, xIdeal: seq<real>, yIdeal: seq<real>,
                        xMes: seq<real>, yMes: seq<real>, xKal: seq<real>, yKal: seq<real>, f: Filter, y: Matrix)
    requires Recorded(fs, ys, xIdeal, yIdeal, xMes, yMes, xKal, yKal)
    ensures Recorded(fs + [f], ys + [y], xIdeal + [f.x], yIdeal + [f.y], xMes + [At(y, 0)], yMes + [At(y, 1)],
                     xKal + [At(f.xm, 0)], yKal + [At(f.xm, 1)])
  { }

  /** The body of the module: the loop runs once per noise value (133 times in the program) and records the
      ideal, measured and filtered positions. */
  method Body(noise: seq<real>)
    returns (xIdeal: seq<real>, yIdeal: seq<real>, xMes: seq<real>, yMes: seq<real>,
             xKal: seq<real>, yKal: seq<real>, pm: Matrix, ghost fs: seq<Filter>, ghost ys: seq<Matrix>,
             ghost rs: seq<Matrix>)
    ensures |fs| == |noise| + 1 && IsTrace(noise, fs, ys)
    ensures MeasuredWith(rs, |noise|)
    ensures forall k :: 0 <= k <= |noise| ==> fs[k] == Run(noise[..k])
    ensures Recorded(fs, ys, xIdeal, yIdeal, xMes, yMes, xKal, yKal)
    ensures pm == Run(noise).pm
  {
    var t, vx, vy := [0.0], [START_VX], [START_VY];
    xIdeal, yIdeal, xMes, yMes, xKal, yKal := [0.0], [0.0], [0.0], [0.0], [0.0], [0.0];
    pm := Identity(4);
    var xm: Matrix := [[0.0], [0.0], [1.0], [1.0]];
    fs, ys, rs := [Start()], [], [];
    for k := 0 to |noise|
      invariant MeasuredWith(rs, k)
      invariant |t| == |vx| == |vy| == |fs| == k + 1
      invariant IsTrace(noise, fs, ys)
      invariant Recorded(fs, ys, xIdeal, yIdeal, xMes, yMes, xKal, yKal)
      invariant fs[k].Valid() && fs[k] == Filter(t[k], xIdeal[k], yIdeal[k], vx[k], vy[k], xm, pm)
    {
      var t', x', y', vx', vy' := NextIdeal(fs[k], noise[k], t[k], xIdeal[k], yIdeal[k], vx[k], vy[k]);
      var y: Matrix, r: Matrix := TakeMeasurement(fs[k], xIdeal[k], yIdeal[k], noise[k]);
      VarianceOfTrace(noise, fs, ys, k, r);
      MeasuredExtends(rs, k, r);
      rs := rs + [r];
      xm, pm := ApplyFilter(fs[k], noise[k], xm, pm, y, r);

      ghost var f := Pass(fs[k], noise[k]);
      TraceExtends(noise, fs, ys, y, f);
      RecordedExtends(fs, ys, xIdeal, yIdeal, xMes, yMes, xKal, yKal, f, y);
      fs, ys := fs + [f], ys + [y];
      t, vx, vy := t + [t'], vx + [vx'], vy + [vy'];
      xIdeal, yIdeal := xIdeal + [x'], yIdeal + [y'];
      xMes, yMes := xMes + [At(y, 0)], yMes + [At(y, 1)];
      xKal, yKal := xKal + [At(xm, 0)], yKal + [At(xm, 1)];
    }
    TraceEnds(noise, fs, ys);
  }

  /** The variance matrices of the first n passes. */
  ghost predicate MeasuredWith(rs: seq<Matrix>, n: nat) {
    |rs| == n && forall k :: 0 <= k < n ==> IsVarianceOf(k, rs[k])
  }

  ghost predicate IsVarianceOf(k: nat, r: Matrix) {
    r == if 74 <= k <= 84 then [[1.0, 0.0], [0.0, 1.0]] else [[0.01, 0.0], [0.0, 0.01]]
  }

  lemma MeasuredExtends(rs: seq<Matrix>, n: nat, r: Matrix)
    requires MeasuredWith(rs, n) && IsVarianceOf(n, r)
    ensures MeasuredWith(rs + [r], n + 1)
  { }

  lemma VarianceOfTrace(noise: seq<real>, fs: seq<Filter>, ys: seq<Matrix>, k: nat, r: Matrix)
    requires IsTrace(noise, fs, ys) && k < |fs| && k <= |noise| && r == MatR(Variance(fs[k]))
    ensures IsVarianceOf(k, r)
  {
    TraceIsRun(noise, fs, ys, k);
    VarianceOfPass(noise[..k]);
  }

  lemma TraceEnds(noise: seq<real>, fs: seq<Filter>, ys: seq<Matrix>)
    requires IsTrace(noise, fs, ys) && |fs| == |noise| + 1
    ensures forall k :: 0 <= k <= |noise| ==> fs[k] == Run(noise[..k])
    ensures fs[|noise|] == Run(noise)
  {
    assert noise[..|noise|] == noise;
    forall k | 0 <= k <= |noise| ensures fs[k] == Run(noise[..k]) { TraceIsRun(noise, fs, ys, k); }
  }

  /** What the recorded vectors hold, in the numbers of the program: entry i of the ideal and the filtered
      positions belongs to slice i, that of the measured ones to the slice before. */
  lemma RecordedInNumbers(noise: seq<real>, fs: seq<Filter>, ys: seq<Matrix>, xIdeal: seq<real>, yIdeal: seq<real>,
                          xMes: seq<real>, yMes: seq<real>, xKal: seq<real>, yKal: seq<real>, i: nat)
    requires IsTrace(noise, fs, ys) && |fs| == |noise| + 1 && i <= |noise|
    requires Recorded(fs, ys, xIdeal, yIdeal, xMes, yMes, xKal, yKal)
    ensures IdealIn(i, xIdeal[i], yIdeal[i])
    ensures i > 0 ==> fs[i].Valid() && FilteredIn(fs[i], xKal[i], yKal[i])
    ensures i > 0 ==> MeasuredIn(i - 1, noise[i - 1], xMes[i], yMes[i])
  {
    TraceInNumbers(noise, fs, ys, i);
    IdealIs(fs[i], i);
    if i > 0 {
      TraceInNumbers(noise, fs, ys, i - 1);
      MeasuredIs(fs[i - 1], noise[i - 1], i - 1);
      LinkedAt(noise, fs, ys, i - 1);
    }
  }

  lemma TraceInNumbers(noise: seq<real>, fs: seq<Filter>, ys: seq<Matrix>, k: nat)
    requires IsTrace(noise, fs, ys) && k < |fs|
    ensures fs[k].Valid() && ThrownFor(fs[k], k as real)
  {
    TraceIsRun(noise, fs, ys, k);
    ThrowInNumbers(noise[..k]);
  }

  lemma LinkedAt(noise: seq<real>, fs: seq<Filter>, ys: seq<Matrix>, k: nat)
    requires IsTrace(noise, fs, ys) && k < |ys|
    ensures ys[k] == Measure(fs[k], noise[k])
  {
    assert Linked(fs[k], noise[k], ys[k], fs[k + 1]);
  }

  /** The position of the throw after k slices. */
  ghost predicate IdealIn(k: nat, x: real, y: real) {
    var t := k as real;
    x == 0.0095 * t && y == 0.01634 * t - 0.000122583125 * (t * t)
  }

  lemma IdealIs(f: Filter, k: nat)
    requires ThrownFor(f, k as real)
    ensures IdealIn(k, f.x, f.y)
  { }

  /** The position of the prediction. */
  ghost predicate FilteredIn(f: Filter, x: real, y: real)
    requires f.Valid()
  {
    x == f.xm[0][0] && y == f.xm[1][0]
  }

  /** The position measured in pass k. */
  ghost predicate MeasuredIn(k: nat, noise: real, x: real, y: real) {
    var t := k as real;
    x == 0.0095 * t && y == (if 74 <= k <= 84 then 0.1 else 0.01634 * t - 0.000122583125 * (t * t)) + noise
  }

  lemma MeasuredIs(f: Filter, noise: real, k: nat)
    requires ThrownFor(f, k as real)
    ensures MeasuredIn(k, noise, At(Measure(f, noise), 0), At(Measure(f, noise), 1))
  {
    MeasureIs(f, noise, k);
  }

  /** The ideal trajectory, one slice further. */
  method NextIdeal(ghost f: Filter, ghost noise: real, t: real, x: real, y: real, vx: real, vy: real)
    returns (t': real, x': real, y': real, vx': real, vy': real)
    requires f.Valid() && t == f.t && x == f.x && y == f.y && vx == f.vx && vy == f.vy
    ensures var f' := Pass(f, noise); t' == f'.t && x' == f'.x && y' == f'.y && vx' == f'.vx && vy' == f'.vy
  {
    t', vx', vy' := t + SLICE, vx, vy - GRAVITY * SLICE;
    x' := x + SLICE * vx;
    y' := y + SLICE * vy - 0.5 * GRAVITY * SLICE * SLICE;
  }

  /** The measurement and its variance, with the tree between the sensor and the thrown object. */
  method TakeMeasurement(ghost f: Filter, xIdeal: real, yIdeal: real, noise: real) returns (y: Matrix, r: Matrix)
    requires f.x == xIdeal && f.y == yIdeal
    ensures Is(y, 2, 1) && y == Measure(f, noise) && r == MatR(Variance(f))
    ensures y == [[xIdeal], [(if 0.7 < xIdeal < 0.8 then 0.1 else yIdeal) + noise]]
    ensures r == if 0.7 < xIdeal < 0.8 then [[1.0, 0.0], [0.0, 1.0]] else [[0.01, 0.0], [0.0, 0.01]]
  {
    if 0.7 < xIdeal < 0.8 {
      y, r := [[xIdeal], [0.1 + noise]], MatR(TREE_VARIANCE);
    } else {
      y, r := [[xIdeal], [yIdeal + noise]], MatR(SENSOR_VARIANCE);
    }
  }

  /** Gain, correction and prediction of one pass. */
  method ApplyFilter(ghost f: Filter, ghost noise: real, xm: Matrix, pm: Matrix, y: Matrix, r: Matrix)
    returns (xm': Matrix, pm': Matrix)
    requires f.Valid() && xm == f.xm && pm == f.pm && y == Measure(f, noise) && r == MatR(Variance(f))
    ensures xm' == Pass(f, noise).xm && pm' == Pass(f, noise).pm
    ensures Is(xm', 4, 1) && Is(pm', 4, 4)
  {
    var k := Gain(pm, r);
    var xp := Corrected(xm, k, y);
    var pp := Posterior(pm, k);
    xm' := Advanced(xp);
    pm' := Predicted(pp);
  }
}
