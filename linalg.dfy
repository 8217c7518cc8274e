/**
 * Vectors and matrices over GF(2^8), as the key recovery uses them: row
 * vectors x, matrices M given as lists of rows, the product x * M, the
 * bilinear value x * M * y^T and the quadratic form x * M * x^T that a
 * public-key matrix defines.
 */
module LinAlg {
  import opened GF256

  type Vec = seq<Elem>
  type Mat = seq<Vec>

  /** M has r rows of c entries each. */
  predicate IsMat(M: Mat, r: nat, c: nat) {
    |M| == r && forall i :: 0 <= i < r ==> |M[i]| == c
  }

  function Zeros(k: nat): (z: Vec)
    ensures |z| == k && forall i :: 0 <= i < k ==> z[i] == Zero
  {
    seq(k, _ => Zero)
  }

  function VecAdd(x: Vec, y: Vec): (s: Vec)
    requires |x| == |y|
    ensures |s| == |x| && forall i :: 0 <= i < |x| ==> s[i] == Add(x[i], y[i])
  {
    seq(|x|, i requires 0 <= i < |x| => Add(x[i], y[i]))
  }

  function ScaleVec(c: Elem, x: Vec): (s: Vec)
    ensures |s| == |x| && forall i :: 0 <= i < |x| ==> s[i] == Mul(c, x[i])
  {
    seq(|x|, i requires 0 <= i < |x| => Mul(c, x[i]))
  }

  /** The inner product: the sum of x[i] * y[i]. */
  function Dot(x: Vec, y: Vec): Elem
    requires |x| == |y|
  {
    if |x| == 0 then Zero else Add(Mul(x[0], y[0]), Dot(x[1..], y[1..]))
  }

  /** Column j of M. */
  function Column(M: Mat, j: nat): (col: Vec)
    requires forall i :: 0 <= i < |M| ==> j < |M[i]|
    ensures |col| == |M| && forall i :: 0 <= i < |M| ==> col[i] == M[i][j]
  {
    seq(|M|, i requires 0 <= i < |M| => M[i][j])
  }

  /** The row vector x * M of a matrix with c columns. */
  function VecMat(x: Vec, M: Mat, c: nat): (r: Vec)
    requires IsMat(M, |x|, c)
    ensures |r| == c && forall j :: 0 <= j < c ==> r[j] == Dot(x, Column(M, j))
  {
    seq(c, j requires 0 <= j < c => Dot(x, Column(M, j)))
  }

  /** The column vector M * y^T, as a list. */
  function MatVec(M: Mat, y: Vec): (r: Vec)
    requires IsMat(M, |M|, |y|)
    ensures |r| == |M| && forall i :: 0 <= i < |M| ==> r[i] == Dot(M[i], y)
  {
    seq(|M|, i requires 0 <= i < |M| => Dot(M[i], y))
  }

  /** The transpose of an r x c matrix. */
  function Transpose(M: Mat, r: nat, c: nat): (T: Mat)
    requires IsMat(M, r, c)
    ensures IsMat(T, c, r)
    ensures forall i, j :: 0 <= i < c && 0 <= j < r ==> T[i][j] == M[j][i]
  {
    seq(c, j requires 0 <= j < c => Column(M, j))
  }

  function MatAdd(M: Mat, N: Mat, r: nat, c: nat): (S: Mat)
    requires IsMat(M, r, c) && IsMat(N, r, c)
    ensures IsMat(S, r, c)
    ensures forall i, j :: 0 <= i < r && 0 <= j < c ==> S[i][j] == Add(M[i][j], N[i][j])
  {
    seq(r, i requires 0 <= i < r => VecAdd(M[i], N[i]))
  }

  function MatScale(a: Elem, M: Mat, r: nat, c: nat): (S: Mat)
    requires IsMat(M, r, c)
    ensures IsMat(S, r, c)
    ensures forall i, j :: 0 <= i < r && 0 <= j < c ==> S[i][j] == Mul(a, M[i][j])
  {
    seq(r, i requires 0 <= i < r => ScaleVec(a, M[i]))
  }

  function Identity(k: nat): (I: Mat)
    ensures IsMat(I, k, k)
    ensures forall i, j :: 0 <= i < k && 0 <= j < k ==> I[i][j] == (if i == j then One else Zero)
  {
    seq(k, i => seq(k, j => if i == j then One else Zero))
  }

  /** The product of an r x s matrix and an s x c matrix. */
  function MatMul(M: Mat, N: Mat, r: nat, s: nat, c: nat): (P: Mat)
    requires IsMat(M, r, s) && IsMat(N, s, c)
    ensures IsMat(P, r, c)
    ensures forall i, j :: 0 <= i < r && 0 <= j < c ==> P[i][j] == Dot(M[i], Column(N, j))
  {
    seq(r, i requires 0 <= i < r => VecMat(M[i], N, c))
  }

  /** M^e for a square k x k matrix, M^0 being the identity. */
  function MatPow(M: Mat, k: nat, e: nat): (P: Mat)
    requires IsMat(M, k, k)
    ensures IsMat(P, k, k)
  {
    if e == 0 then Identity(k) else MatMul(MatPow(M, k, e - 1), M, k, k, k)
  }

  /** x * M * y^T for an |x| x |y| matrix M. */
  function Bilinear(x: Vec, M: Mat, y: Vec): Elem
    requires IsMat(M, |x|, |y|)
  {
    Dot(VecMat(x, M, |y|), y)
  }

  /** The quadratic form x * M * x^T. */
  function Quad(x: Vec, M: Mat): Elem
    requires IsMat(M, |x|, |x|)
  {
    Bilinear(x, M, x)
  }

  predicate Symmetric(M: Mat, k: nat)
    requires IsMat(M, k, k)
  {
    forall i, j :: 0 <= i < k && 0 <= j < k ==> M[i][j] == M[j][i]
  }

  predicate UpperTriangular(M: Mat, k: nat)
    requires IsMat(M, k, k)
  {
    forall i, j :: 0 <= j < i < k ==> M[i][j] == Zero
  }

  // ---------------------------------------------------------------------
  // The inner product

  lemma {:induction false} DotComm(x: Vec, y: Vec)
    requires |x| == |y|
    ensures Dot(x, y) == Dot(y, x)
    decreases |x|
  {
    if |x| > 0 {
      DotComm(x[1..], y[1..]);
      MulComm(x[0], y[0]);
    }
  }

  lemma {:induction false} DotZerosLeft(y: Vec)
    ensures Dot(Zeros(|y|), y) == Zero
    decreases |y|
  {
    if |y| > 0 {
      assert Zeros(|y|)[1..] == Zeros(|y| - 1);
      DotZerosLeft(y[1..]);
      MulUnitZero(y[0]);
      AddZeroSelf(Zero);
    }
  }

  /** The inner product is linear in its left argument. */
  lemma {:induction false} DotAddLeft(x: Vec, x': Vec, y: Vec)
    requires |x| == |x'| == |y|
    ensures Dot(VecAdd(x, x'), y) == Add(Dot(x, y), Dot(x', y))
    decreases |x|
  {
    if |x| > 0 {
      assert VecAdd(x, x')[1..] == VecAdd(x[1..], x'[1..]);
      DotAddLeft(x[1..], x'[1..], y[1..]);
      MulDistLeft(x[0], x'[0], y[0]);
      AddShuffle(Mul(x[0], y[0]), Mul(x'[0], y[0]), Dot(x[1..], y[1..]), Dot(x'[1..], y[1..]));
    }
  }

  /** The inner product is linear in its right argument. */
  lemma DotAddRight(x: Vec, y: Vec, y': Vec)
    requires |x| == |y| == |y'|
    ensures Dot(x, VecAdd(y, y')) == Add(Dot(x, y), Dot(x, y'))
  {
    DotComm(x, VecAdd(y, y'));
    DotAddLeft(y, y', x);
    DotComm(x, y);
    DotComm(x, y');
  }

  lemma {:induction false} DotScaleLeft(c: Elem, x: Vec, y: Vec)
    requires |x| == |y|
    ensures Dot(ScaleVec(c, x), y) == Mul(c, Dot(x, y))
    decreases |x|
  {
    if |x| > 0 {
      assert ScaleVec(c, x)[1..] == ScaleVec(c, x[1..]);
      DotScaleLeft(c, x[1..], y[1..]);
      MulAssoc(c, x[0], y[0]);
      MulDistRight(c, Mul(x[0], y[0]), Dot(x[1..], y[1..]));
    } else {
      MulUnitZero(c);
    }
  }

  // ---------------------------------------------------------------------
  // Products with a matrix

  /** x * M is x[0] times the first row plus the rest. */
  lemma VecMatStep(x: Vec, M: Mat, c: nat)
    requires |x| > 0 && IsMat(M, |x|, c)
    ensures VecMat(x, M, c) == VecAdd(ScaleVec(x[0], M[0]), VecMat(x[1..], M[1..], c))
  {
    forall j | 0 <= j < c
      ensures VecMat(x, M, c)[j] == VecAdd(ScaleVec(x[0], M[0]), VecMat(x[1..], M[1..], c))[j]
    {
      assert Column(M, j)[1..] == Column(M[1..], j);
    }
  }

  /** Summing x * M by rows or by columns gives the same value. */
  lemma {:induction false} Fubini(x: Vec, M: Mat, y: Vec)
    requires IsMat(M, |x|, |y|)
    ensures Dot(VecMat(x, M, |y|), y) == Dot(x, MatVec(M, y))
    decreases |x|
  {
    if |x| == 0 {
      assert VecMat(x, M, |y|) == Zeros(|y|);
      DotZerosLeft(y);
    } else {
      var c := |y|;
      assert MatVec(M, y)[1..] == MatVec(M[1..], y);
      Fubini(x[1..], M[1..], y);
      VecMatStep(x, M, c);
      DotAddLeft(ScaleVec(x[0], M[0]), VecMat(x[1..], M[1..], c), y);
      DotScaleLeft(x[0], M[0], y);
    }
  }

  /** M^T * y^T is the transpose of y * M. */
  lemma MatVecTranspose(M: Mat, r: nat, c: nat, y: Vec)
    requires IsMat(M, r, c) && |y| == r
    ensures MatVec(Transpose(M, r, c), y) == VecMat(y, M, c)
  {
    var T := Transpose(M, r, c);
    forall j | 0 <= j < c
      ensures MatVec(T, y)[j] == VecMat(y, M, c)[j]
    {
      assert T[j] == Column(M, j);
      DotComm(T[j], y);
    }
  }

  /** x * M^T * y^T == y * M * x^T */
  lemma BilinearTranspose(x: Vec, M: Mat, y: Vec)
    requires IsMat(M, |y|, |x|)
    ensures Bilinear(x, Transpose(M, |y|, |x|), y) == Bilinear(y, M, x)
  {
    Fubini(x, Transpose(M, |y|, |x|), y);
    FubiniSwap(x, M, y);
  }

  lemma FubiniSwap(x: Vec, M: Mat, y: Vec)
    requires IsMat(M, |y|, |x|)
    ensures Dot(x, MatVec(Transpose(M, |y|, |x|), y)) == Dot(VecMat(y, M, |x|), x)
  {
    MatVecTranspose(M, |y|, |x|, y);
    DotComm(x, VecMat(y, M, |x|));
  }

  // ---------------------------------------------------------------------
  // Bilinearity

  lemma VecMatAddLeft(x: Vec, x': Vec, M: Mat, c: nat)
    requires |x| == |x'| && IsMat(M, |x|, c)
    ensures VecMat(VecAdd(x, x'), M, c) == VecAdd(VecMat(x, M, c), VecMat(x', M, c))
  {
    forall j | 0 <= j < c
      ensures VecMat(VecAdd(x, x'), M, c)[j] == VecAdd(VecMat(x, M, c), VecMat(x', M, c))[j]
    {
      DotAddLeft(x, x', Column(M, j));
    }
  }

  lemma VecMatAddMatrix(x: Vec, M: Mat, N: Mat, c: nat)
    requires IsMat(M, |x|, c) && IsMat(N, |x|, c)
    ensures VecMat(x, MatAdd(M, N, |x|, c), c) == VecAdd(VecMat(x, M, c), VecMat(x, N, c))
  {
    var S := MatAdd(M, N, |x|, c);
    forall j | 0 <= j < c
      ensures VecMat(x, S, c)[j] == VecAdd(VecMat(x, M, c), VecMat(x, N, c))[j]
    {
      assert Column(S, j) == VecAdd(Column(M, j), Column(N, j));
      DotAddRight(x, Column(M, j), Column(N, j));
    }
  }

  lemma BilinearAddLeft(x: Vec, x': Vec, M: Mat, y: Vec)
    requires |x| == |x'| && IsMat(M, |x|, |y|)
    ensures Bilinear(VecAdd(x, x'), M, y) == Add(Bilinear(x, M, y), Bilinear(x', M, y))
  {
    VecMatAddLeft(x, x', M, |y|);
    DotAddLeft(VecMat(x, M, |y|), VecMat(x', M, |y|), y);
  }

  lemma BilinearAddRight(x: Vec, M: Mat, y: Vec, y': Vec)
    requires |y| == |y'| && IsMat(M, |x|, |y|)
    ensures Bilinear(x, M, VecAdd(y, y')) == Add(Bilinear(x, M, y), Bilinear(x, M, y'))
  {
    DotAddRight(VecMat(x, M, |y|), y, y');
  }

  lemma BilinearAddMatrix(x: Vec, M: Mat, N: Mat, y: Vec)
    requires IsMat(M, |x|, |y|) && IsMat(N, |x|, |y|)
    ensures Bilinear(x, MatAdd(M, N, |x|, |y|), y) == Add(Bilinear(x, M, y), Bilinear(x, N, y))
  {
    VecMatAddMatrix(x, M, N, |y|);
    DotAddLeft(VecMat(x, M, |y|), VecMat(x, N, |y|), y);
  }

  // ---------------------------------------------------------------------
  // The symmetric matrix P + P^T of a quadratic form

  /** P + P^T is symmetric and, in characteristic 2, has a zero diagonal. */
  lemma SymmetrizedShape(P: Mat, k: nat)
    requires IsMat(P, k, k)
    ensures Symmetric(MatAdd(P, Transpose(P, k, k), k, k), k)
    ensures forall i :: 0 <= i < k ==> MatAdd(P, Transpose(P, k, k), k, k)[i][i] == Zero
  {
    var S := MatAdd(P, Transpose(P, k, k), k, k);
    forall i, j | 0 <= i < k && 0 <= j < k
      ensures S[i][j] == S[j][i]
    {
      AddComm(P[i][j], P[j][i]);
    }
    forall i | 0 <= i < k
      ensures S[i][i] == Zero
    {
      AddZeroSelf(P[i][i]);
    }
  }

  /** x (P + P^T) y^T == y P x^T + x P y^T */
  lemma SymmetrizedBilinear(x: Vec, P: Mat, y: Vec)
    requires |x| == |y| && IsMat(P, |x|, |x|)
    ensures Bilinear(x, MatAdd(P, Transpose(P, |x|, |x|), |x|, |x|), y)
         == Add(Bilinear(x, P, y), Bilinear(y, P, x))
  {
    BilinearAddMatrix(x, P, Transpose(P, |x|, |x|), y);
    BilinearTranspose(x, P, y);
  }

  /**
   * Polarization: the bilinear form of P + P^T is the defect of the
   * quadratic form Q(x) = x P x^T, x (P + P^T) y^T == Q(x + y) + Q(x) + Q(y).
   */
  lemma Polarization(x: Vec, P: Mat, y: Vec)
    requires |x| == |y| && IsMat(P, |x|, |x|)
    ensures Bilinear(x, MatAdd(P, Transpose(P, |x|, |x|), |x|, |x|), y)
         == Add(Quad(VecAdd(x, y), P), Add(Quad(x, P), Quad(y, P)))
  {
    var s := VecAdd(x, y);
    SymmetrizedBilinear(x, P, y);
    BilinearAddLeft(x, y, P, s);
    BilinearAddRight(x, P, x, y);
    BilinearAddRight(y, P, x, y);
    PolarizationSum(Quad(x, P), Bilinear(x, P, y), Bilinear(y, P, x), Quad(y, P));
  }

  /** (a + b) + (c + d) + (a + d) == b + c, in characteristic 2. */
  lemma PolarizationSum(a: Elem, b: Elem, c: Elem, d: Elem)
    ensures Add(Add(Add(a, b), Add(c, d)), Add(a, d)) == Add(b, c)
  {
    AddShuffle(Add(a, b), Add(c, d), a, d);
    AddCancel(a, b);
    AddCancel(d, c);
  }

  /** The form of P + P^T vanishes on the diagonal: x (P + P^T) x^T == 0. */
  lemma SymmetrizedQuadZero(x: Vec, P: Mat)
    requires IsMat(P, |x|, |x|)
    ensures Quad(x, MatAdd(P, Transpose(P, |x|, |x|), |x|, |x|)) == Zero
  {
    SymmetrizedBilinear(x, P, x);
    AddZeroSelf(Bilinear(x, P, x));
  }

  // ---------------------------------------------------------------------
  // Matrix times column vector

  /** The inner product with a row that is zero except for a one at i picks out y[i]. */
  lemma {:induction false} DotUnitRow(e: Vec, y: Vec, i: nat)
    requires |e| == |y| && i < |e|
    requires forall j :: 0 <= j < |e| ==> e[j] == (if j == i then One else Zero)
    ensures Dot(e, y) == y[i]
    decreases |e|
  {
    if i == 0 {
      assert e[1..] == Zeros(|y| - 1);
      DotComm(e[1..], y[1..]);
      DotComm(Zeros(|y[1..]|), y[1..]);
      DotZerosLeft(y[1..]);
      MulUnitZero(y[0]);
      AddZeroSelf(y[0]);
      AddComm(y[0], Zero);
    } else {
      DotUnitRow(e[1..], y[1..], i - 1);
      MulUnitZero(y[0]);
      AddComm(Zero, y[i]);
      AddZeroSelf(y[i]);
    }
  }

  /** I y^T == y^T */
  lemma MatVecIdentity(y: Vec)
    ensures MatVec(Identity(|y|), y) == y
  {
    forall i | 0 <= i < |y|
      ensures Dot(Identity(|y|)[i], y) == y[i]
    {
      DotUnitRow(Identity(|y|)[i], y, i);
    }
  }

  /** (M N) y^T == M (N y^T) */
  lemma MatVecMul(M: Mat, N: Mat, r: nat, s: nat, y: Vec)
    requires IsMat(M, r, s) && IsMat(N, s, |y|)
    ensures MatVec(MatMul(M, N, r, s, |y|), y) == MatVec(M, MatVec(N, y))
  {
    forall i | 0 <= i < r
      ensures Dot(MatMul(M, N, r, s, |y|)[i], y) == Dot(M[i], MatVec(N, y))
    {
      assert MatMul(M, N, r, s, |y|)[i] == VecMat(M[i], N, |y|);
      Fubini(M[i], N, y);
    }
  }

  /** (M + N) y^T == M y^T + N y^T */
  lemma MatVecAdd(M: Mat, N: Mat, r: nat, y: Vec)
    requires IsMat(M, r, |y|) && IsMat(N, r, |y|)
    ensures MatVec(MatAdd(M, N, r, |y|), y) == VecAdd(MatVec(M, y), MatVec(N, y))
  {
    forall i | 0 <= i < r
      ensures Dot(MatAdd(M, N, r, |y|)[i], y) == Add(Dot(M[i], y), Dot(N[i], y))
    {
      assert MatAdd(M, N, r, |y|)[i] == VecAdd(M[i], N[i]);
      DotAddLeft(M[i], N[i], y);
    }
  }

  /** (a M) y^T == a (M y^T) */
  lemma MatVecScale(a: Elem, M: Mat, r: nat, y: Vec)
    requires IsMat(M, r, |y|)
    ensures MatVec(MatScale(a, M, r, |y|), y) == ScaleVec(a, MatVec(M, y))
  {
    forall i | 0 <= i < r
      ensures Dot(MatScale(a, M, r, |y|)[i], y) == Mul(a, Dot(M[i], y))
    {
      assert MatScale(a, M, r, |y|)[i] == ScaleVec(a, M[i]);
      DotScaleLeft(a, M[i], y);
    }
  }

  /** M (a y)^T == a (M y^T) */
  lemma MatVecScaleVec(a: Elem, M: Mat, y: Vec)
    requires IsMat(M, |M|, |y|)
    ensures MatVec(M, ScaleVec(a, y)) == ScaleVec(a, MatVec(M, y))
  {
    forall i | 0 <= i < |M|
      ensures Dot(M[i], ScaleVec(a, y)) == Mul(a, Dot(M[i], y))
    {
      DotComm(M[i], ScaleVec(a, y));
      DotScaleLeft(a, y, M[i]);
      DotComm(y, M[i]);
    }
  }

  /** a (b y) == (a b) y */
  lemma ScaleScale(a: Elem, b: Elem, y: Vec)
    ensures ScaleVec(a, ScaleVec(b, y)) == ScaleVec(Mul(a, b), y)
  {
    forall i | 0 <= i < |y|
      ensures Mul(a, Mul(b, y[i])) == Mul(Mul(a, b), y[i])
    {
      MulAssoc(a, b, y[i]);
    }
  }

  /** a y + b y == (a + b) y */
  lemma ScaleAdd(a: Elem, b: Elem, y: Vec)
    ensures VecAdd(ScaleVec(a, y), ScaleVec(b, y)) == ScaleVec(Add(a, b), y)
  {
    forall i | 0 <= i < |y|
      ensures Add(Mul(a, y[i]), Mul(b, y[i])) == Mul(Add(a, b), y[i])
    {
      MulDistLeft(a, b, y[i]);
    }
  }

  /** 1 y == y */
  lemma ScaleOne(y: Vec)
    ensures ScaleVec(One, y) == y
  {
    forall i | 0 <= i < |y|
      ensures Mul(One, y[i]) == y[i]
    {
      MulUnitZero(y[i]);
    }
  }

  /** 0 y == 0 */
  lemma ScaleZero(y: Vec)
    ensures ScaleVec(Zero, y) == Zeros(|y|)
  {
    forall i | 0 <= i < |y|
      ensures Mul(Zero, y[i]) == Zero
    {
      MulUnitZero(y[i]);
    }
  }

  // ---------------------------------------------------------------------
  // Eigenvectors: M y^T == mu y^T

  /** y is an eigenvector of the square matrix M for the eigenvalue mu (the zero vector included). */
  predicate Eigenvector(M: Mat, y: Vec, mu: Elem) {
    IsMat(M, |y|, |y|) && MatVec(M, y) == ScaleVec(mu, y)
  }

  /** A common eigenvector of M and N is one of M N, for the product of the eigenvalues. */
  lemma EigenMul(M: Mat, N: Mat, y: Vec, mu: Elem, nu: Elem)
    requires Eigenvector(M, y, mu) && Eigenvector(N, y, nu)
    ensures Eigenvector(MatMul(M, N, |y|, |y|, |y|), y, Mul(mu, nu))
  {
    var k := |y|;
    MatVecMul(M, N, k, k, y);
    MatVecScaleVec(nu, M, y);
    ScaleScale(nu, mu, y);
    MulComm(nu, mu);
  }

  /** ... and one of M + N, for their sum. */
  lemma EigenAdd(M: Mat, N: Mat, y: Vec, mu: Elem, nu: Elem)
    requires Eigenvector(M, y, mu) && Eigenvector(N, y, nu)
    ensures Eigenvector(MatAdd(M, N, |y|, |y|), y, Add(mu, nu))
  {
    MatVecAdd(M, N, |y|, y);
    ScaleAdd(mu, nu, y);
  }

  /** An eigenvector of M is one of a M, for a mu. */
  lemma EigenScale(a: Elem, M: Mat, y: Vec, mu: Elem)
    requires Eigenvector(M, y, mu)
    ensures Eigenvector(MatScale(a, M, |y|, |y|), y, Mul(a, mu))
  {
    MatVecScale(a, M, |y|, y);
    ScaleScale(a, mu, y);
  }

  /** Every vector is an eigenvector of the identity, for 1. */
  lemma EigenIdentity(y: Vec)
    ensures Eigenvector(Identity(|y|), y, One)
  {
    MatVecIdentity(y);
    ScaleOne(y);
  }
}
