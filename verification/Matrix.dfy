/** The few facts about products of reals that the proofs about the filter rest on. */
module RealArithmetic {

  lemma PositiveProduct(x: real, y: real, product: real)
    requires (x > 0.0 && y > 0.0) || (x < 0.0 && y < 0.0)
    requires product == x * y
    ensures product > 0.0
  { }

  lemma PositiveFactor(x: real, y: real)
    requires y > 0.0 && x * y > 0.0
    ensures x > 0.0
  { }

  function Square(x: real): (s: real)
    ensures s >= 0.0
    ensures x != 0.0 ==> s > 0.0
  {
    var s := x * x;
    assert x != 0.0 ==> s > 0.0 by { if x != 0.0 { PositiveProduct(x, x, s); } }
    s
  }

  lemma QuotientBelow(k: real, det: real, n: real, bound: real)
    requires det > 0.0 && k * det == n && 0.0 < n < bound * det
    ensures 0.0 < k < bound
  { }
}

/**
 Real matrices with the two OpenCV operations the Kalman filter uses, `cvGEMM` and `cvInvert`, as exact
 mathematics, and the laws of matrix algebra they obey in every dimension.
 */
module Matrices {
  type Matrix = seq<seq<real>>

  predicate Is(m: Matrix, rows: nat, cols: nat) {
    |m| == rows && forall i :: 0 <= i < rows ==> |m[i]| == cols
  }

  /** The first `n` summands of entry (i, j) of a product. */
  function Dot(a: Matrix, b: Matrix, i: nat, j: nat, n: nat): real
    requires i < |a| && n <= |a[i]| && n <= |b| && forall k :: 0 <= k < n ==> j < |b[k]|
  {
    if n == 0 then 0.0 else Dot(a, b, i, j, n - 1) + a[i][n - 1] * b[n - 1][j]
  }

  function Mul(a: Matrix, b: Matrix, rows: nat, inner: nat, cols: nat): (m: Matrix)
    requires Is(a, rows, inner) && Is(b, inner, cols)
    ensures Is(m, rows, cols)
    ensures forall i, j :: 0 <= i < rows && 0 <= j < cols ==> m[i][j] == Dot(a, b, i, j, inner)
  {
    seq(rows, i requires 0 <= i < rows => seq(cols, j requires 0 <= j < cols => Dot(a, b, i, j, inner)))
  }

  function Transpose(a: Matrix, rows: nat, cols: nat): (m: Matrix)
    requires Is(a, rows, cols)
    ensures Is(m, cols, rows)
    ensures forall i, j :: 0 <= i < cols && 0 <= j < rows ==> m[i][j] == a[j][i]
  {
    seq(cols, i requires 0 <= i < cols => seq(rows, j requires 0 <= j < rows => a[j][i]))
  }

  /** alpha * a + beta * b. */
  function Combine(alpha: real, a: Matrix, beta: real, b: Matrix, rows: nat, cols: nat): (m: Matrix)
    requires Is(a, rows, cols) && Is(b, rows, cols)
    ensures Is(m, rows, cols)
    ensures forall i, j :: 0 <= i < rows && 0 <= j < cols ==> m[i][j] == alpha * a[i][j] + beta * b[i][j]
  {
    seq(rows, i requires 0 <= i < rows => seq(cols, j requires 0 <= j < cols => alpha * a[i][j] + beta * b[i][j]))
  }

  function Zero(rows: nat, cols: nat): (m: Matrix)
    ensures Is(m, rows, cols)
    ensures forall i, j :: 0 <= i < rows && 0 <= j < cols ==> m[i][j] == 0.0
  {
    seq(rows, i => seq(cols, j => 0.0))
  }

  function Identity(n: nat): (m: Matrix)
    ensures Is(m, n, n)
    ensures forall i, j :: 0 <= i < n && 0 <= j < n ==> m[i][j] == if i == j then 1.0 else 0.0
  {
    seq(n, i requires 0 <= i < n => seq(n, j requires 0 <= j < n => if i == j then 1.0 else 0.0))
  }

  /** cvGEMM without transposition: alpha * a * b + beta * c. */
  function Gemm(a: Matrix, b: Matrix, alpha: real, c: Matrix, beta: real, rows: nat, inner: nat, cols: nat): (m: Matrix)
    requires Is(a, rows, inner) && Is(b, inner, cols) && Is(c, rows, cols)
    ensures Is(m, rows, cols)
  {
    Combine(alpha, Mul(a, b, rows, inner, cols), beta, c, rows, cols)
  }

  function Det2(m: Matrix): real
    requires Is(m, 2, 2)
  {
    m[0][0] * m[1][1] - m[0][1] * m[1][0]
  }

  /** cvInvert on a 2x2 matrix: the inverse, or all zeros when the determinant vanishes. */
  function Invert2(m: Matrix): (inv: Matrix)
    requires Is(m, 2, 2)
    ensures Is(inv, 2, 2)
  {
    var d := Det2(m);
    if d == 0.0 then Zero(2, 2)
    else [[m[1][1] / d, -m[0][1] / d], [-m[1][0] / d, m[0][0] / d]]
  }

  // ---------------------------------------------------------------- laws

  lemma Equal(a: Matrix, b: Matrix, rows: nat, cols: nat)
    requires Is(a, rows, cols) && Is(b, rows, cols)
    requires forall i, j :: 0 <= i < rows && 0 <= j < cols ==> a[i][j] == b[i][j]
    ensures a == b
  {
    forall i | 0 <= i < rows ensures a[i] == b[i] { }
  }

  /** Multiplying out one summand of the outer sum. */
  lemma {:induction false} DotScale(a: Matrix, b: Matrix, x: real, i: nat, j: nat, n: nat, ax: Matrix)
    requires i < |a| && n <= |a[i]| && n <= |b| && forall k :: 0 <= k < n ==> j < |b[k]|
    requires |ax| == |a| && |ax[i]| == |a[i]| && forall k :: 0 <= k < n ==> ax[i][k] == a[i][k] * x
    ensures Dot(ax, b, i, j, n) == Dot(a, b, i, j, n) * x
  {
    if n > 0 {
      DotScale(a, b, x, i, j, n - 1, ax);
      assert a[i][n - 1] * x * b[n - 1][j] == a[i][n - 1] * b[n - 1][j] * x;
    }
  }

  /** The first `n` summands of (a b) c at (i, j), with all `inner` summands of each entry of a b. */
  lemma {:induction false} DotOfProduct(a: Matrix, b: Matrix, c: Matrix, i: nat, j: nat, p: nat, q: nat, r: nat, s: nat,
                                        n: nat)
    requires Is(a, p, q) && Is(b, q, r) && Is(c, r, s) && i < p && j < s && n <= r
    ensures Dot(Mul(a, b, p, q, r), c, i, j, n) == PartialTriple(a, b, c, i, j, q, n)
  {
    if n > 0 {
      DotOfProduct(a, b, c, i, j, p, q, r, s, n - 1);
    }
  }

  /** sum over k < n of (sum over l < q of a_il * b_lk) * c_kj */
  function PartialTriple(a: Matrix, b: Matrix, c: Matrix, i: nat, j: nat, q: nat, n: nat): real
    requires i < |a| && q <= |a[i]| && q <= |b| && n <= |c|
    requires forall l :: 0 <= l < q ==> n <= |b[l]|
    requires forall k :: 0 <= k < n ==> j < |c[k]|
  {
    if n == 0 then 0.0 else PartialTriple(a, b, c, i, j, q, n - 1) + Dot(a, b, i, n - 1, q) * c[n - 1][j]
  }

  lemma {:induction false} TripleSplit(a: Matrix, b: Matrix, c: Matrix, i: nat, j: nat, q: nat, n: nat)
    requires i < |a| && 0 < q <= |a[i]| && q <= |b| && n <= |c|
    requires forall l :: 0 <= l < q ==> n <= |b[l]|
    requires forall k :: 0 <= k < n ==> j < |c[k]|
    ensures PartialTriple(a, b, c, i, j, q, n) ==
            PartialTriple(a, b, c, i, j, q - 1, n) + a[i][q - 1] * Dot(b, c, q - 1, j, n)
  {
    if n > 0 {
      TripleSplit(a, b, c, i, j, q, n - 1);
      var x, y, z, w := Dot(a, b, i, n - 1, q - 1), a[i][q - 1], b[q - 1][n - 1], c[n - 1][j];
      assert (x + y * z) * w == x * w + y * (z * w);
      assert y * (Dot(b, c, q - 1, j, n - 1) + z * w) == y * Dot(b, c, q - 1, j, n - 1) + y * (z * w);
    }
  }

  lemma {:induction false} TripleZero(a: Matrix, b: Matrix, c: Matrix, i: nat, j: nat, n: nat)
    requires i < |a| && n <= |c|
    requires forall k :: 0 <= k < n ==> j < |c[k]|
    ensures PartialTriple(a, b, c, i, j, 0, n) == 0.0
  {
    if n > 0 { TripleZero(a, b, c, i, j, n - 1); }
  }

  lemma {:induction false} DotWithProduct(a: Matrix, b: Matrix, c: Matrix, i: nat, j: nat, p: nat, q: nat, r: nat,
                                          s: nat, n: nat)
    requires Is(a, p, q) && Is(b, q, r) && Is(c, r, s) && i < p && j < s && n <= q
    ensures Dot(a, Mul(b, c, q, r, s), i, j, n) == PartialTriple(a, b, c, i, j, n, r)
  {
    if n == 0 {
      TripleZero(a, b, c, i, j, r);
    } else {
      DotWithProduct(a, b, c, i, j, p, q, r, s, n - 1);
      TripleSplit(a, b, c, i, j, n, r);
    }
  }

  lemma MulAssociates(a: Matrix, b: Matrix, c: Matrix, p: nat, q: nat, r: nat, s: nat)
    requires Is(a, p, q) && Is(b, q, r) && Is(c, r, s)
    ensures Mul(Mul(a, b, p, q, r), c, p, r, s) == Mul(a, Mul(b, c, q, r, s), p, q, s)
  {
    var left, right := Mul(Mul(a, b, p, q, r), c, p, r, s), Mul(a, Mul(b, c, q, r, s), p, q, s);
    forall i, j | 0 <= i < p && 0 <= j < s ensures left[i][j] == right[i][j] {
      DotOfProduct(a, b, c, i, j, p, q, r, s, r);
      DotWithProduct(a, b, c, i, j, p, q, r, s, q);
    }
    Equal(left, right, p, s);
  }

  lemma CombineOneMore(x: real, s: real, y: real, t: real, u: real, v: real, w: real)
    ensures x * s + y * t + u * (x * v + y * w) == x * (s + u * v) + y * (t + u * w)
  { }

  lemma {:induction false} DotCombineRight(a: Matrix, x: real, b: Matrix, y: real, c: Matrix, i: nat, j: nat, p: nat,
                                           q: nat, r: nat, n: nat)
    requires Is(a, p, q) && Is(b, q, r) && Is(c, q, r) && i < p && j < r && n <= q
    ensures Dot(a, Combine(x, b, y, c, q, r), i, j, n) == x * Dot(a, b, i, j, n) + y * Dot(a, c, i, j, n)
  {
    if n > 0 {
      DotCombineRight(a, x, b, y, c, i, j, p, q, r, n - 1);
      CombineOneMore(x, Dot(a, b, i, j, n - 1), y, Dot(a, c, i, j, n - 1), a[i][n - 1], b[n - 1][j], c[n - 1][j]);
    }
  }

  lemma MulCombineRight(a: Matrix, x: real, b: Matrix, y: real, c: Matrix, p: nat, q: nat, r: nat)
    requires Is(a, p, q) && Is(b, q, r) && Is(c, q, r)
    ensures Mul(a, Combine(x, b, y, c, q, r), p, q, r) == Combine(x, Mul(a, b, p, q, r), y, Mul(a, c, p, q, r), p, r)
  {
    var left := Mul(a, Combine(x, b, y, c, q, r), p, q, r);
    var right := Combine(x, Mul(a, b, p, q, r), y, Mul(a, c, p, q, r), p, r);
    forall i, j | 0 <= i < p && 0 <= j < r ensures left[i][j] == right[i][j] {
      DotCombineRight(a, x, b, y, c, i, j, p, q, r, q);
    }
    Equal(left, right, p, r);
  }

  lemma {:induction false} DotTranspose(a: Matrix, b: Matrix, i: nat, j: nat, p: nat, q: nat, r: nat, n: nat)
    requires Is(a, p, q) && Is(b, q, r) && i < r && j < p && n <= q
    ensures Dot(Transpose(b, q, r), Transpose(a, p, q), i, j, n) == Dot(a, b, j, i, n)
  {
    if n > 0 { DotTranspose(a, b, i, j, p, q, r, n - 1); }
  }

  lemma TransposeMul(a: Matrix, b: Matrix, p: nat, q: nat, r: nat)
    requires Is(a, p, q) && Is(b, q, r)
    ensures Transpose(Mul(a, b, p, q, r), p, r) == Mul(Transpose(b, q, r), Transpose(a, p, q), r, q, p)
  {
    var left, right := Transpose(Mul(a, b, p, q, r), p, r), Mul(Transpose(b, q, r), Transpose(a, p, q), r, q, p);
    forall i, j | 0 <= i < r && 0 <= j < p ensures left[i][j] == right[i][j] { DotTranspose(a, b, i, j, p, q, r, q); }
    Equal(left, right, r, p);
  }

  lemma TransposeTwice(a: Matrix, rows: nat, cols: nat)
    requires Is(a, rows, cols)
    ensures Transpose(Transpose(a, rows, cols), cols, rows) == a
  {
    Equal(Transpose(Transpose(a, rows, cols), cols, rows), a, rows, cols);
  }

  lemma TransposeCombine(x: real, a: Matrix, y: real, b: Matrix, rows: nat, cols: nat)
    requires Is(a, rows, cols) && Is(b, rows, cols)
    ensures Transpose(Combine(x, a, y, b, rows, cols), rows, cols) ==
            Combine(x, Transpose(a, rows, cols), y, Transpose(b, rows, cols), cols, rows)
  {
    Equal(Transpose(Combine(x, a, y, b, rows, cols), rows, cols),
          Combine(x, Transpose(a, rows, cols), y, Transpose(b, rows, cols), cols, rows), cols, rows);
  }

  /** The mirror image of MulCombineRight, through transposition. */
  lemma MulCombineLeft(x: real, a: Matrix, y: real, b: Matrix, c: Matrix, p: nat, q: nat, r: nat)
    requires Is(a, p, q) && Is(b, p, q) && Is(c, q, r)
    ensures Mul(Combine(x, a, y, b, p, q), c, p, q, r) == Combine(x, Mul(a, c, p, q, r), y, Mul(b, c, p, q, r), p, r)
  {
    var sum := Combine(x, a, y, b, p, q);
    TransposeMul(sum, c, p, q, r);
    TransposeCombine(x, a, y, b, p, q);
    MulCombineRight(Transpose(c, q, r), x, Transpose(a, p, q), y, Transpose(b, p, q), r, q, p);
    TransposeMul(a, c, p, q, r);
    TransposeMul(b, c, p, q, r);
    TransposeCombine(x, Mul(a, c, p, q, r), y, Mul(b, c, p, q, r), p, r);
    TransposeTwice(Mul(sum, c, p, q, r), p, r);
    TransposeTwice(Combine(x, Mul(a, c, p, q, r), y, Mul(b, c, p, q, r), p, r), p, r);
  }

  lemma {:induction false} DotIdentityRight(a: Matrix, i: nat, j: nat, p: nat, q: nat, n: nat)
    requires Is(a, p, q) && i < p && j < q && n <= q
    ensures Dot(a, Identity(q), i, j, n) == if j < n then a[i][j] else 0.0
  {
    if n > 0 { DotIdentityRight(a, i, j, p, q, n - 1); }
  }

  lemma MulIdentityRight(a: Matrix, p: nat, q: nat)
    requires Is(a, p, q)
    ensures Mul(a, Identity(q), p, q, q) == a
  {
    forall i, j | 0 <= i < p && 0 <= j < q ensures Mul(a, Identity(q), p, q, q)[i][j] == a[i][j] {
      DotIdentityRight(a, i, j, p, q, q);
    }
    Equal(Mul(a, Identity(q), p, q, q), a, p, q);
  }

  lemma MulIdentityLeft(a: Matrix, p: nat, q: nat)
    requires Is(a, p, q)
    ensures Mul(Identity(p), a, p, p, q) == a
  {
    TransposeMul(Identity(p), a, p, p, q);
    Equal(Transpose(Identity(p), p, p), Identity(p), p, p);
    MulIdentityRight(Transpose(a, p, q), q, p);
    TransposeTwice(Mul(Identity(p), a, p, p, q), p, q);
    TransposeTwice(a, p, q);
  }

  /** A matrix with non-zero determinant times what cvInvert returns is the identity, on either side. */
  lemma Invert2IsInverse(m: Matrix)
    requires Is(m, 2, 2) && Det2(m) != 0.0
    ensures Mul(Invert2(m), m, 2, 2, 2) == Identity(2)
    ensures Mul(m, Invert2(m), 2, 2, 2) == Identity(2)
  {
    var inv := Invert2(m);
    InverseEntries(m[0][0], m[0][1], m[1][0], m[1][1], Det2(m));
    Product2(inv, m);
    Product2(m, inv);
    Equal2(Mul(inv, m, 2, 2, 2), Identity(2));
    Equal2(Mul(m, inv, 2, 2, 2), Identity(2));
  }

  lemma Equal2(x: Matrix, y: Matrix)
    requires Is(x, 2, 2) && Is(y, 2, 2)
    requires x[0][0] == y[0][0] && x[0][1] == y[0][1] && x[1][0] == y[1][0] && x[1][1] == y[1][1]
    ensures x == y
  {
    assert x[0] == y[0] && x[1] == y[1];
  }

  lemma Product2(x: Matrix, y: Matrix)
    requires Is(x, 2, 2) && Is(y, 2, 2)
    ensures var m := Mul(x, y, 2, 2, 2);
            && m[0][0] == x[0][0] * y[0][0] + x[0][1] * y[1][0]
            && m[0][1] == x[0][0] * y[0][1] + x[0][1] * y[1][1]
            && m[1][0] == x[1][0] * y[0][0] + x[1][1] * y[1][0]
            && m[1][1] == x[1][0] * y[0][1] + x[1][1] * y[1][1]
  {
    forall i, j | 0 <= i < 2 && 0 <= j < 2 ensures Dot(x, y, i, j, 2) == x[i][0] * y[0][j] + x[i][1] * y[1][j] {
      assert Dot(x, y, i, j, 1) == Dot(x, y, i, j, 0) + x[i][0] * y[0][j];
    }
  }

  lemma InverseEntries(a: real, b: real, c: real, e: real, d: real)
    requires d == a * e - b * c && d != 0.0
    ensures (e / d) * a + (-b / d) * c == 1.0 && (e / d) * b + (-b / d) * e == 0.0
    ensures (-c / d) * a + (a / d) * c == 0.0 && (-c / d) * b + (a / d) * e == 1.0
    ensures a * (e / d) + b * (-c / d) == 1.0 && a * (-b / d) + b * (a / d) == 0.0
    ensures c * (e / d) + e * (-c / d) == 0.0 && c * (-b / d) + e * (a / d) == 1.0
  { }
}
