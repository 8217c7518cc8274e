/**
 * The matrix normalisations of the key recovery and the evaluation of a
 * list of matrices as bilinear forms.
 *
 * A public-key equation is a quadratic form x * M * x^T; any matrix M
 * can be folded into an upper triangular one with the same form
 * (RandomToUpper), and the symmetric matrix P + P^T of an upper
 * triangular P is the matrix of the form's polar bilinear map
 * (UpperToSymmetric).  Eval and Evalleft evaluate a whole list of
 * matrices at once.
 */
module Normalise {
  import opened GF256
  import opened LinAlg

  /** Eval(F, x, y): the list of x * M * y^T for the matrices M of F. */
  function Eval(F: seq<Mat>, x: Vec, y: Vec): seq<Elem>
    requires forall l :: 0 <= l < |F| ==> IsMat(F[l], |x|, |y|)
  {
    seq(|F|, l requires 0 <= l < |F| => Bilinear(x, F[l], y))
  }

  /** Evalleft(F, x): the list of row vectors x * M for the matrices M of F. */
  function Evalleft(F: seq<Mat>, x: Vec, c: nat): seq<Vec>
    requires forall l :: 0 <= l < |F| ==> IsMat(F[l], |x|, c)
  {
    seq(|F|, l requires 0 <= l < |F| => VecMat(x, F[l], c))
  }

  /** UpperToSymmetric(P) = P + P^T. */
  function UpperToSymmetric(P: Mat, k: nat): (S: Mat)
    requires IsMat(P, k, k)
    ensures IsMat(S, k, k) && Symmetric(S, k)
    ensures forall i :: 0 <= i < k ==> S[i][i] == Zero
  {
    SymmetrizedShape(P, k);
    MatAdd(P, Transpose(P, k, k), k, k)
  }

  /**
   * The matrix RandomToUpper leaves: above the diagonal the sum of an
   * entry and its mirror image, the diagonal as it was, zeros below.
   */
  function ToUpper(M: Mat, k: nat): (U: Mat)
    requires IsMat(M, k, k)
    ensures IsMat(U, k, k)
  {
    seq(k, i requires 0 <= i < k =>
      seq(k, j requires 0 <= j < k =>
        if i < j then Add(M[i][j], M[j][i]) else if i == j then M[i][i] else Zero))
  }

  /** The entries of a two-dimensional array, row by row. */
  function Contents(A: array2<Elem>): (M: Mat)
    reads A
    ensures IsMat(M, A.Length0, A.Length1)
    ensures forall i, j :: 0 <= i < A.Length0 && 0 <= j < A.Length1 ==> M[i][j] == A[i, j]
  {
    seq(A.Length0, i requires 0 <= i < A.Length0 reads A =>
      seq(A.Length1, j requires 0 <= j < A.Length1 reads A => A[i, j]))
  }

  /**
   * Pair (p, q), p < q, has been folded once the double loop has gone past
   * row p, or is in row p = i before column j.
   */
  predicate Folded(p: nat, q: nat, i: nat, j: nat) {
    p < i || (p == i && q < j)
  }

  /** Entry (p, q) of the array while the loop is at (i, j). */
  function Partial(M: Mat, k: nat, p: nat, q: nat, i: nat, j: nat): Elem
    requires IsMat(M, k, k) && p < k && q < k
  {
    if p < q && Folded(p, q, i, j) then Add(M[p][q], M[q][p])
    else if q < p && Folded(q, p, i, j) then Zero
    else M[p][q]
  }

  /**
   * RandomToUpper works in place: the matrix it returns is its argument,
   * so the caller's matrix is the one folded.
   */
  method RandomToUpper(A: array2<Elem>)
    requires A.Length0 == A.Length1
    modifies A
    ensures Contents(A) == ToUpper(old(Contents(A)), A.Length0)
  {
    ghost var M0 := Contents(A);
    var n := A.Length1;
    var i := 0;
    while i < n
      invariant 0 <= i <= n
      invariant forall p, q :: 0 <= p < n && 0 <= q < n ==> A[p, q] == Partial(M0, n, p, q, i, i + 1)
    {
      var j := i + 1;
      while j < n
        invariant i + 1 <= j <= n
        invariant forall p, q :: 0 <= p < n && 0 <= q < n ==> A[p, q] == Partial(M0, n, p, q, i, j)
      {
        A[i, j] := Add(A[i, j], A[j, i]);
        A[j, i] := Zero;
        j := j + 1;
      }
      i := i + 1;
    }
    MatEq(Contents(A), ToUpper(M0, n), n);
  }

  // ---------------------------------------------------------------------
  // Properties

  /** Two k x k matrices with the same entries are equal. */
  lemma MatEq(A: Mat, B: Mat, k: nat)
    requires IsMat(A, k, k) && IsMat(B, k, k)
    requires forall i, j :: 0 <= i < k && 0 <= j < k ==> A[i][j] == B[i][j]
    ensures A == B
  {
    forall i | 0 <= i < k
      ensures A[i] == B[i]
    {}
  }

  /** The folded matrix is upper triangular and keeps the diagonal. */
  lemma ToUpperShape(M: Mat, k: nat)
    requires IsMat(M, k, k)
    ensures UpperTriangular(ToUpper(M, k), k)
    ensures forall i :: 0 <= i < k ==> ToUpper(M, k)[i][i] == M[i][i]
  {}

  /** The upper part of M, diagonal included. */
  function UpperPart(M: Mat, k: nat): (U: Mat)
    requires IsMat(M, k, k)
    ensures IsMat(U, k, k)
  {
    seq(k, i requires 0 <= i < k => seq(k, j requires 0 <= j < k => if i <= j then M[i][j] else Zero))
  }

  /** The part of M strictly below the diagonal. */
  function LowerPart(M: Mat, k: nat): (L: Mat)
    requires IsMat(M, k, k)
    ensures IsMat(L, k, k)
  {
    seq(k, i requires 0 <= i < k => seq(k, j requires 0 <= j < k => if j < i then M[i][j] else Zero))
  }

  lemma SplitParts(M: Mat, k: nat)
    requires IsMat(M, k, k)
    ensures M == MatAdd(UpperPart(M, k), LowerPart(M, k), k, k)
    ensures ToUpper(M, k) == MatAdd(UpperPart(M, k), Transpose(LowerPart(M, k), k, k), k, k)
  {
    MatEq(M, MatAdd(UpperPart(M, k), LowerPart(M, k), k, k), k);
    MatEq(ToUpper(M, k), MatAdd(UpperPart(M, k), Transpose(LowerPart(M, k), k, k), k, k), k);
  }

  /** Folding keeps the quadratic form: x * ToUpper(M) * x^T == x * M * x^T for every x. */
  lemma ToUpperQuad(x: Vec, M: Mat)
    requires IsMat(M, |x|, |x|)
    ensures Quad(x, ToUpper(M, |x|)) == Quad(x, M)
  {
    var k := |x|;
    var U, L := UpperPart(M, k), LowerPart(M, k);
    SplitParts(M, k);
    BilinearAddMatrix(x, U, Transpose(L, k, k), x);
    BilinearTranspose(x, L, x);
    BilinearAddMatrix(x, U, L, x);
  }

  /** A symmetric matrix is its own transpose. */
  lemma SymmetricTranspose(S: Mat, k: nat)
    requires IsMat(S, k, k) && Symmetric(S, k)
    ensures Transpose(S, k, k) == S
  {
    MatEq(Transpose(S, k, k), S, k);
  }

  /** Evaluating symmetric matrices does not depend on the order of the two vectors. */
  lemma EvalSymmetric(F: seq<Mat>, x: Vec, y: Vec)
    requires |x| == |y|
    requires forall l :: 0 <= l < |F| ==> IsMat(F[l], |x|, |x|) && Symmetric(F[l], |x|)
    ensures Eval(F, x, y) == Eval(F, y, x)
  {
    forall l | 0 <= l < |F|
      ensures Bilinear(x, F[l], y) == Bilinear(y, F[l], x)
    {
      SymmetricTranspose(F[l], |x|);
      BilinearTranspose(x, F[l], y);
    }
  }

  /** Each value of Eval is the corresponding row of Evalleft times y^T. */
  lemma EvalFromEvalleft(F: seq<Mat>, x: Vec, y: Vec)
    requires forall l :: 0 <= l < |F| ==> IsMat(F[l], |x|, |y|)
    ensures |Evalleft(F, x, |y|)| == |Eval(F, x, y)| == |F|
    ensures forall l :: 0 <= l < |F| ==> Eval(F, x, y)[l] == Dot(Evalleft(F, x, |y|)[l], y)
  {}

  /** Eval is linear in its first vector. */
  lemma EvalAddLeft(F: seq<Mat>, x: Vec, x': Vec, y: Vec)
    requires |x| == |x'|
    requires forall l :: 0 <= l < |F| ==> IsMat(F[l], |x|, |y|)
    ensures Eval(F, VecAdd(x, x'), y) == VecAdd(Eval(F, x, y), Eval(F, x', y))
  {
    forall l | 0 <= l < |F|
      ensures Bilinear(VecAdd(x, x'), F[l], y) == Add(Bilinear(x, F[l], y), Bilinear(x', F[l], y))
    {
      BilinearAddLeft(x, x', F[l], y);
    }
  }

  /**
   * The symmetric form of the folded public key is its polar form:
   * x (P + P^T) y^T == Q(x + y) + Q(x) + Q(y) with Q(x) = x P x^T, and so
   * x (P + P^T) x^T == 0.
   */
  lemma UpperToSymmetricPolar(P: Mat, x: Vec, y: Vec)
    requires |x| == |y| && IsMat(P, |x|, |x|)
    ensures Bilinear(x, UpperToSymmetric(P, |x|), y) == Add(Quad(VecAdd(x, y), P), Add(Quad(x, P), Quad(y, P)))
    ensures Quad(x, UpperToSymmetric(P, |x|)) == Zero
  {
    Polarization(x, P, y);
    SymmetrizedQuadZero(x, P);
  }
}
