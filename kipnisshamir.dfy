/**
 * The candidate search of the Kipnis-Shamir step (FindOilKipnisShamir).
 * From the symmetric matrices S_j of the reduced system it draws random
 * combinations M0 = S_0 + sum r_j S_j and M1 = S_1 + sum r'_j S_j until M0
 * is invertible, factors the characteristic polynomial of M = M0^-1 M1,
 * and for each factor f, last to first, takes the first basis vector b of
 * the kernel of f(M); b is accepted when every quadratic form of the
 * system vanishes on it, and the oil vector is var_change * b.
 *
 * The random elements, the invertibility test and inverse, the factors of
 * the characteristic polynomial and the kernel basis come from the
 * computer algebra system and are parameters.
 */
module KipnisShamir {
  import opened GF256
  import opened LinAlg
  import opened Params
  import opened Normalise

  /** The computations delegated to the computer algebra system. */
  datatype Algebra = Algebra(
    rand: nat -> Elem,              // the value of the r-th call of K.random_element()
    isInvertible: Mat -> bool,
    inverse: Mat -> Mat,
    factors: Mat -> seq<Vec>,       // the factors of charpoly(M), coefficients in ascending degree
    kernel: Mat -> seq<Vec>)        // the rows of the basis matrix of the right kernel

  /** The shapes the search relies on: the inverse and the kernel vectors are 48 x 48 and of length 48. */
  ghost predicate Sound(A: Algebra) {
    (forall X {:trigger A.inverse(X)} :: IsMat(X, KsDim, KsDim) && A.isInvertible(X) ==>
       IsMat(A.inverse(X), KsDim, KsDim)) &&
    (forall X, i {:trigger A.kernel(X)[i]} :: IsMat(X, KsDim, KsDim) && 0 <= i < |A.kernel(X)| ==>
       |A.kernel(X)[i]| == KsDim)
  }

  /** What the computations mean: a two-sided inverse, and kernel vectors that the matrix sends to zero. */
  ghost predicate Exact(A: Algebra)
    requires Sound(A)
  {
    (forall X {:trigger A.inverse(X)} :: IsMat(X, KsDim, KsDim) && A.isInvertible(X) ==>
       MatMul(A.inverse(X), X, KsDim, KsDim, KsDim) == Identity(KsDim) &&
       MatMul(X, A.inverse(X), KsDim, KsDim, KsDim) == Identity(KsDim)) &&
    (forall X, i {:trigger A.kernel(X)[i]} :: IsMat(X, KsDim, KsDim) && 0 <= i < |A.kernel(X)| ==>
       MatVec(X, A.kernel(X)[i]) == Zeros(KsDim))
  }

  /** m matrices of size 48 x 48. */
  predicate Forms(F: seq<Mat>) {
    |F| >= M && forall l :: 0 <= l < |F| ==> IsMat(F[l], KsDim, KsDim)
  }

  // ---------------------------------------------------------------------
  // The random combinations

  /** The random element that multiplies S_j (j >= 1) in the pass starting at draw r; which = 0 for M0, 1 for M1. */
  function Coef(A: Algebra, r: nat, which: nat, j: nat): Elem
    requires j >= 1
  {
    A.rand(r + 2 * (j - 1) + which)
  }

  /** X + sum over 1 <= j' < j of Coef(j') * S_j', added in order. */
  function Mix(A: Algebra, S: seq<Mat>, X: Mat, r: nat, which: nat, j: nat): (Y: Mat)
    requires Forms(S) && IsMat(X, KsDim, KsDim) && j <= M
    ensures IsMat(Y, KsDim, KsDim)
  {
    if j <= 1 then X
    else MatAdd(Mix(A, S, X, r, which, j - 1), MatScale(Coef(A, r, which, j - 1), S[j - 1], KsDim, KsDim), KsDim, KsDim)
  }

  /** The for loop over j = 1 .. m - 1: M0 and M1 each get a random multiple of S_j, M0 first. */
  method MixPass(A: Algebra, S: seq<Mat>, M0: Mat, M1: Mat, r: nat) returns (M0': Mat, M1': Mat, r': nat)
    requires Forms(S) && IsMat(M0, KsDim, KsDim) && IsMat(M1, KsDim, KsDim)
    ensures M0' == Mix(A, S, M0, r, 0, M) && M1' == Mix(A, S, M1, r, 1, M)
    ensures r' == r + 2 * (M - 1)
  {
    M0', M1', r' := M0, M1, r;
    var j := 1;
    while j < M
      invariant 1 <= j <= M && r' == r + 2 * (j - 1)
      invariant M0' == Mix(A, S, M0, r, 0, j) && M1' == Mix(A, S, M1, r, 1, j)
    {
      M0' := MatAdd(M0', MatScale(A.rand(r'), S[j], KsDim, KsDim), KsDim, KsDim);
      M1' := MatAdd(M1', MatScale(A.rand(r' + 1), S[j], KsDim, KsDim), KsDim, KsDim);
      r' := r' + 2;
      j := j + 1;
    }
  }

  /** The result of the invertibility loop: the matrices, the next draw and the bound left, or the bound ran out. */
  datatype Draw = Draw(M0: Mat, M1: Mat, r: nat, fuel: nat) | Exhausted

  /** Passes until M0 is invertible; each pass adds to the matrices of the previous one. */
  function Randomize(A: Algebra, S: seq<Mat>, M0: Mat, M1: Mat, r: nat, fuel: nat): (d: Draw)
    requires Forms(S) && IsMat(M0, KsDim, KsDim) && IsMat(M1, KsDim, KsDim)
    ensures d.Draw? ==> d.fuel < fuel && A.isInvertible(d.M0) && IsMat(d.M0, KsDim, KsDim) && IsMat(d.M1, KsDim, KsDim)
    decreases fuel
  {
    if fuel == 0 then Exhausted
    else
      var M0', M1' := Mix(A, S, M0, r, 0, M), Mix(A, S, M1, r, 1, M);
      if A.isInvertible(M0') then Draw(M0', M1', r + 2 * (M - 1), fuel - 1)
      else Randomize(A, S, M0', M1', r + 2 * (M - 1), fuel - 1)
  }

  /** The loop `while flag_inv`, bounded by fuel. */
  method RandomizeLoop(A: Algebra, S: seq<Mat>, r: nat, fuel: nat) returns (d: Draw)
    requires Forms(S)
    ensures d == Randomize(A, S, S[0], S[1], r, fuel)
  {
    var M0, M1 := S[0], S[1];
    var r': nat, fuel': nat := r, fuel;
    ghost var goal := Randomize(A, S, M0, M1, r', fuel');
    var flagInv := true;
    while flagInv
      invariant IsMat(M0, KsDim, KsDim) && IsMat(M1, KsDim, KsDim)
      invariant flagInv ==> Randomize(A, S, M0, M1, r', fuel') == goal
      invariant !flagInv ==> Draw(M0, M1, r', fuel') == goal
      decreases fuel', flagInv
    {
      if fuel' == 0 {
        return Exhausted;
      }
      M0, M1, r' := MixPass(A, S, M0, M1, r');
      fuel' := fuel' - 1;
      if A.isInvertible(M0) {
        flagInv := false;
      }
    }
    d := Draw(M0, M1, r', fuel');
  }

  // ---------------------------------------------------------------------
  // Matrix polynomials

  /** PP_M = c_0 I + c_1 M + ... + c_(j-1) M^(j-1), for 1 <= j <= |c|. */
  function PolyMat(c: Vec, X: Mat, j: nat): (Y: Mat)
    requires IsMat(X, KsDim, KsDim) && 1 <= j <= |c|
    ensures IsMat(Y, KsDim, KsDim)
  {
    if j == 1 then MatScale(c[0], Identity(KsDim), KsDim, KsDim)
    else MatAdd(PolyMat(c, X, j - 1), MatScale(c[j - 1], MatPow(X, KsDim, j - 1), KsDim, KsDim), KsDim, KsDim)
  }

  /** The loop building PP_M from the coefficients of a factor. */
  method PolyMatrix(c: Vec, X: Mat) returns (PP: Mat)
    requires IsMat(X, KsDim, KsDim) && |c| >= 1
    ensures PP == PolyMat(c, X, |c|)
  {
    PP := MatScale(c[0], Identity(KsDim), KsDim, KsDim);
    var ii := 1;
    while ii < |c|
      invariant 1 <= ii <= |c| && PP == PolyMat(c, X, ii)
    {
      PP := MatAdd(PP, MatScale(c[ii], MatPow(X, KsDim, ii), KsDim, KsDim), KsDim, KsDim);
      ii := ii + 1;
    }
  }

  /** lambda^e */
  function Pow(x: Elem, e: nat): Elem {
    if e == 0 then One else Mul(Pow(x, e - 1), x)
  }

  /** The factor evaluated at a field element: c_0 + c_1 x + ... + c_(j-1) x^(j-1). */
  function PolyEval(c: Vec, x: Elem, j: nat): Elem
    requires 1 <= j <= |c|
  {
    if j == 1 then c[0] else Add(PolyEval(c, x, j - 1), Mul(c[j - 1], Pow(x, j - 1)))
  }

  // ---------------------------------------------------------------------
  // The candidate test

  /** Every quadratic form of the system vanishes on b: all m values of Eval(matrices, b, b) are zero. */
  predicate Accepted(Q: seq<Mat>, b: Vec)
    requires Forms(Q) && |b| == KsDim
  {
    forall l :: 0 <= l < M ==> Bilinear(b, Q[l], b) == Zero
  }

  /** The count flag1 of the zero values among the first m; it reaches m iff all are zero. */
  method CountZeros(check: seq<Elem>) returns (flag1: nat)
    requires |check| >= M
    ensures flag1 <= M
    ensures flag1 == M <==> forall l :: 0 <= l < M ==> check[l] == Zero
  {
    flag1 := 0;
    var l := 0;
    while l < M
      invariant l <= M && flag1 <= l
      invariant flag1 == l <==> forall l' :: 0 <= l' < l ==> check[l'] == Zero
    {
      if check[l] == Zero {
        flag1 := flag1 + 1;
      }
      l := l + 1;
    }
  }

  /** The outcome of the loop over the factors. */
  datatype Trial = Accept(b: Vec) | RejectAll | Failure

  /** The kernel basis of f(M) for a factor f. */
  function Candidate(A: Algebra, X: Mat, f: Vec): seq<Vec>
    requires IsMat(X, KsDim, KsDim) && |f| >= 1
  {
    A.kernel(PolyMat(f, X, |f|))
  }

  /**
   * The test of one factor: a factor without coefficients or an empty
   * kernel basis is an IndexError; otherwise the first basis vector is
   * accepted or the factor rejected.
   */
  function FactorOutcome(A: Algebra, Q: seq<Mat>, X: Mat, f: Vec): (t: Trial)
    requires Sound(A) && Forms(Q) && IsMat(X, KsDim, KsDim)
    ensures t.Accept? ==> |f| >= 1 && |Candidate(A, X, f)| > 0 && t.b == Candidate(A, X, f)[0]
    ensures t.Accept? ==> |t.b| == KsDim && Accepted(Q, t.b)
  {
    if |f| == 0 then Failure
    else
      var basis := Candidate(A, X, f);
      if |basis| == 0 then Failure
      else if Accepted(Q, basis[0]) then Accept(basis[0])
      else RejectAll
  }

  /** The outcome of every factor, in the order of the factorisation. */
  function Outcomes(A: Algebra, Q: seq<Mat>, X: Mat, fs: seq<Vec>): (os: seq<Trial>)
    requires Sound(A) && Forms(Q) && IsMat(X, KsDim, KsDim)
    ensures |os| == |fs|
  {
    seq(|fs|, t requires 0 <= t < |fs| => FactorOutcome(A, Q, X, fs[t]))
  }

  /** The outcomes below i, from i - 1 down to 0, until one is not a rejection. */
  function LastStop(os: seq<Trial>, i: nat): Trial
    requires i <= |os|
  {
    if i == 0 then RejectAll
    else if os[i - 1].RejectAll? then LastStop(os, i - 1) else os[i - 1]
  }

  /** Where the scan ends when it does not run to the end: the last outcome k that is not a rejection. */
  function StopIndex(os: seq<Trial>, i: nat): (k: nat)
    requires i <= |os| && LastStop(os, i) != RejectAll
    ensures k < i && os[k] == LastStop(os, i)
    ensures forall t :: k < t < i ==> os[t] == RejectAll
  {
    if os[i - 1].RejectAll? then StopIndex(os, i - 1) else i - 1
  }

  /** The loop over the factors, from the last to the first, until one is accepted or fails. */
  function TryFactors(A: Algebra, Q: seq<Mat>, X: Mat, fs: seq<Vec>): (t: Trial)
    requires Sound(A) && Forms(Q) && IsMat(X, KsDim, KsDim)
    ensures t.Accept? ==> |t.b| == KsDim && Accepted(Q, t.b)
  {
    var os := Outcomes(A, Q, X, fs);
    var t := LastStop(os, |fs|);
    if t == RejectAll then t else os[StopIndex(os, |fs|)]
  }

  /** The body of the loop over the factors. */
  method TestFactor(A: Algebra, Q: seq<Mat>, X: Mat, coef: Vec) returns (t: Trial)
    requires Sound(A) && Forms(Q) && IsMat(X, KsDim, KsDim)
    ensures t == FactorOutcome(A, Q, X, coef)
  {
    if |coef| == 0 {
      return Failure;
    }
    var PP := PolyMatrix(coef, X);
    var basis := A.kernel(PP);
    if |basis| == 0 {
      return Failure;
    }
    var b := basis[0];
    var check := Eval(Q, b, b);
    var flag1 := CountZeros(check);
    if flag1 == M {
      assert Accepted(Q, b) by {
        forall l | 0 <= l < M
          ensures Bilinear(b, Q[l], b) == Zero
        {
          assert check[l] == Bilinear(b, Q[l], b);
        }
      }
      return Accept(b);
    }
    return RejectAll;
  }

  /** The loop `for i in range(len(P)-1, -1, -1)` with its break. */
  method TestFactors(A: Algebra, Q: seq<Mat>, X: Mat, fs: seq<Vec>) returns (t: Trial)
    requires Sound(A) && Forms(Q) && IsMat(X, KsDim, KsDim)
    ensures t == TryFactors(A, Q, X, fs)
  {
    ghost var os := Outcomes(A, Q, X, fs);
    var i: nat := |fs|;
    while i > 0
      invariant i <= |fs| && LastStop(os, i) == LastStop(os, |fs|)
    {
      t := TestFactor(A, Q, X, fs[i - 1]);
      assert t == os[i - 1];
      if !t.RejectAll? {
        return;
      }
      i := i - 1;
    }
    return RejectAll;
  }

  // ---------------------------------------------------------------------
  // The search

  /** What FindOilKipnisShamir ends with: the oil vector, the bound ran out, or an IndexError. */
  datatype Result = Oil(oil: Vec) | OutOfFuel | IndexError

  /** The matrix M = M0^-1 M1 of one draw. */
  function Pencil(A: Algebra, d: Draw): (X: Mat)
    requires Sound(A) && d.Draw? && IsMat(d.M0, KsDim, KsDim) && IsMat(d.M1, KsDim, KsDim) && A.isInvertible(d.M0)
    ensures IsMat(X, KsDim, KsDim)
  {
    MatMul(A.inverse(d.M0), d.M1, KsDim, KsDim, KsDim)
  }

  /** M = M0.inverse() * M1, its factors, and the loop over them. */
  method TryDraw(A: Algebra, Q: seq<Mat>, d: Draw) returns (t: Trial)
    requires Sound(A) && Forms(Q) && d.Draw? && IsMat(d.M0, KsDim, KsDim) && IsMat(d.M1, KsDim, KsDim) && A.isInvertible(d.M0)
    ensures t == TryFactors(A, Q, Pencil(A, d), A.factors(Pencil(A, d)))
  {
    var X := MatMul(A.inverse(d.M0), d.M1, KsDim, KsDim, KsDim);
    var P := A.factors(X);
    t := TestFactors(A, Q, X, P);
  }

  /** The loop `while flag_found`, bounded by fuel (shared with the invertibility loop). */
  function Search(A: Algebra, S: seq<Mat>, Q: seq<Mat>, varChange: Mat, r: nat, fuel: nat): Result
    requires Sound(A) && Forms(S) && Forms(Q) && IsMat(varChange, N, KsDim)
    decreases fuel
  {
    var d := Randomize(A, S, S[0], S[1], r, fuel);
    if d.Exhausted? then OutOfFuel
    else
      var X := Pencil(A, d);
      var t := TryFactors(A, Q, X, A.factors(X));
      if t.Accept? then Oil(MatVec(varChange, t.b))
      else if t.Failure? then IndexError
      else Search(A, S, Q, varChange, d.r, d.fuel)
  }

  /**
   * FindOilKipnisShamir(m, matrices_sym, matrices, var_change), with the
   * random elements drawn from number r on; trial is counted and never read.
   */
  method FindOil(A: Algebra, S: seq<Mat>, Q: seq<Mat>, varChange: Mat, r: nat, fuel: nat) returns (res: Result)
    requires Sound(A) && Forms(S) && Forms(Q) && IsMat(varChange, N, KsDim)
    ensures res == Search(A, S, Q, varChange, r, fuel)
  {
    var flagFound := true;
    var trial := 0;
    var r', fuel' := r, fuel;
    while flagFound
      invariant Search(A, S, Q, varChange, r', fuel') == Search(A, S, Q, varChange, r, fuel)
      decreases fuel'
    {
      var d := RandomizeLoop(A, S, r', fuel');
      if d.Exhausted? {
        return OutOfFuel;
      }
      var t := TryDraw(A, Q, d);
      if t.Failure? {
        return IndexError;
      }
      if t.Accept? {
        flagFound := false;
        res := Oil(MatVec(varChange, t.b));
        return;
      }
      trial := trial + 1;
      r', fuel' := d.r, d.fuel;
    }
    assert false;
  }

  // ---------------------------------------------------------------------
  // Why the kernel of f(M) holds the candidates

  /** An eigenvector of M with eigenvalue lambda is one of M^e with eigenvalue lambda^e. */
  lemma {:induction false} MatPowEigen(X: Mat, v: Vec, lambda: Elem, e: nat)
    requires Eigenvector(X, v, lambda)
    ensures Eigenvector(MatPow(X, |v|, e), v, Pow(lambda, e))
  {
    if e == 0 {
      EigenIdentity(v);
      assert MatPow(X, |v|, e) == Identity(|v|);
    } else {
      MatPowEigen(X, v, lambda, e - 1);
      MatPowEigenStep(X, v, lambda, e);
    }
  }

  /** One factor more: M^e = M^(e-1) M. */
  lemma MatPowEigenStep(X: Mat, v: Vec, lambda: Elem, e: nat)
    requires e >= 1 && Eigenvector(X, v, lambda)
    requires Eigenvector(MatPow(X, |v|, e - 1), v, Pow(lambda, e - 1))
    ensures Eigenvector(MatPow(X, |v|, e), v, Pow(lambda, e))
  {
    EigenMul(MatPow(X, |v|, e - 1), X, v, Pow(lambda, e - 1), lambda);
  }

  /** f(M) v == f(lambda) v for an eigenvector v of M with eigenvalue lambda. */
  lemma {:induction false} PolyMatEigen(c: Vec, X: Mat, v: Vec, lambda: Elem, j: nat)
    requires 1 <= j <= |c| && |v| == KsDim && Eigenvector(X, v, lambda)
    ensures Eigenvector(PolyMat(c, X, j), v, PolyEval(c, lambda, j))
  {
    if j == 1 {
      PolyMatEigenBase(c, X, v, lambda);
    } else {
      PolyMatEigen(c, X, v, lambda, j - 1);
      PolyMatEigenStep(c, X, v, lambda, j);
    }
  }

  /** The constant term: f_1(M) = c_0 I. */
  lemma PolyMatEigenBase(c: Vec, X: Mat, v: Vec, lambda: Elem)
    requires IsMat(X, KsDim, KsDim) && 1 <= |c| && |v| == KsDim
    ensures Eigenvector(PolyMat(c, X, 1), v, PolyEval(c, lambda, 1))
  {
    EigenIdentity(v);
    EigenScale(c[0], Identity(KsDim), v, One);
    MulUnitZero(c[0]);
  }

  /** One term more: f_j(M) = f_(j-1)(M) + c_(j-1) M^(j-1). */
  lemma PolyMatEigenStep(c: Vec, X: Mat, v: Vec, lambda: Elem, j: nat)
    requires 2 <= j <= |c| && |v| == KsDim && Eigenvector(X, v, lambda)
    requires Eigenvector(PolyMat(c, X, j - 1), v, PolyEval(c, lambda, j - 1))
    ensures Eigenvector(PolyMat(c, X, j), v, PolyEval(c, lambda, j))
  {
    var Pw := MatPow(X, KsDim, j - 1);
    var T := MatScale(c[j - 1], Pw, KsDim, KsDim);
    assert PolyMat(c, X, j) == MatAdd(PolyMat(c, X, j - 1), T, KsDim, KsDim);
    MatPowEigen(X, v, lambda, j - 1);
    EigenScale(c[j - 1], Pw, v, Pow(lambda, j - 1));
    EigenAdd(PolyMat(c, X, j - 1), T, v, PolyEval(c, lambda, j - 1), Mul(c[j - 1], Pow(lambda, j - 1)));
  }

  /**
   * The kernel of f(M) contains every eigenvector of M whose eigenvalue is
   * a root of f, so the basis the search tests spans such eigenvectors.
   */
  lemma RootInKernel(c: Vec, X: Mat, v: Vec, lambda: Elem)
    requires |c| >= 1 && |v| == KsDim && Eigenvector(X, v, lambda)
    requires PolyEval(c, lambda, |c|) == Zero
    ensures MatVec(PolyMat(c, X, |c|), v) == Zeros(KsDim)
  {
    PolyMatEigen(c, X, v, lambda, |c|);
    ScaleZero(v);
  }

  // ---------------------------------------------------------------------
  // What the loop over the factors finds

  /** The scan runs to the end exactly when every outcome is a rejection. */
  lemma {:induction false} LastStopRejectAll(os: seq<Trial>, i: nat)
    requires i <= |os|
    ensures LastStop(os, i) == RejectAll <==> forall t :: 0 <= t < i ==> os[t] == RejectAll
  {
    if i > 0 {
      LastStopRejectAll(os, i - 1);
    }
  }

  /**
   * The loop goes on past every factor exactly when each one is rejected;
   * otherwise it stops at the last factor that was not, and the ones after
   * it, tested first, were all rejected.
   */
  lemma TryFactorsOutcome(A: Algebra, Q: seq<Mat>, X: Mat, fs: seq<Vec>)
    requires Sound(A) && Forms(Q) && IsMat(X, KsDim, KsDim)
    ensures TryFactors(A, Q, X, fs) == RejectAll <==>
            forall t :: 0 <= t < |fs| ==> Outcomes(A, Q, X, fs)[t] == RejectAll
    ensures TryFactors(A, Q, X, fs) != RejectAll ==>
            TryFactors(A, Q, X, fs) == Outcomes(A, Q, X, fs)[StopIndex(Outcomes(A, Q, X, fs), |fs|)]
  {
    LastStopRejectAll(Outcomes(A, Q, X, fs), |fs|);
  }

  /** An accepted vector lies in the kernel of f(M) for the factor f it came from. */
  lemma AcceptedInKernel(A: Algebra, Q: seq<Mat>, X: Mat, f: Vec)
    requires Sound(A) && Exact(A) && Forms(Q) && IsMat(X, KsDim, KsDim)
    requires FactorOutcome(A, Q, X, f).Accept?
    ensures |f| >= 1 && MatVec(PolyMat(f, X, |f|), FactorOutcome(A, Q, X, f).b) == Zeros(KsDim)
  {
  }

  // ---------------------------------------------------------------------
  // What the search ends with

  /** Without an invertible combination the invertibility loop never ends. */
  lemma {:induction false} RandomizeExhausted(A: Algebra, S: seq<Mat>, M0: Mat, M1: Mat, r: nat, fuel: nat)
    requires Forms(S) && IsMat(M0, KsDim, KsDim) && IsMat(M1, KsDim, KsDim)
    requires forall X :: IsMat(X, KsDim, KsDim) ==> !A.isInvertible(X)
    ensures Randomize(A, S, M0, M1, r, fuel) == Exhausted
    decreases fuel
  {
    if fuel > 0 {
      RandomizeExhausted(A, S, Mix(A, S, M0, r, 0, M), Mix(A, S, M1, r, 1, M), r + 2 * (M - 1), fuel - 1);
    }
  }

  /** Hence whatever the bound, the search finds nothing. */
  lemma NoInverseNoEnd(A: Algebra, S: seq<Mat>, Q: seq<Mat>, varChange: Mat, r: nat, fuel: nat)
    requires Sound(A) && Forms(S) && Forms(Q) && IsMat(varChange, N, KsDim)
    requires forall X :: IsMat(X, KsDim, KsDim) ==> !A.isInvertible(X)
    ensures Search(A, S, Q, varChange, r, fuel) == OutOfFuel
  {
    RandomizeExhausted(A, S, S[0], S[1], r, fuel);
  }

  /** If every factor of every pencil is rejected, the search runs until the bound is used up. */
  lemma {:induction false} AllRejectedNoEnd(A: Algebra, S: seq<Mat>, Q: seq<Mat>, varChange: Mat, r: nat, fuel: nat)
    requires Sound(A) && Forms(S) && Forms(Q) && IsMat(varChange, N, KsDim)
    requires forall X, f :: IsMat(X, KsDim, KsDim) && f in A.factors(X) ==> FactorOutcome(A, Q, X, f) == RejectAll
    ensures Search(A, S, Q, varChange, r, fuel) == OutOfFuel
    decreases fuel
  {
    var d := Randomize(A, S, S[0], S[1], r, fuel);
    if d.Draw? {
      var X := Pencil(A, d);
      var fs := A.factors(X);
      assert forall t :: 0 <= t < |fs| ==> fs[t] in fs && Outcomes(A, Q, X, fs)[t] == FactorOutcome(A, Q, X, fs[t]);
      TryFactorsOutcome(A, Q, X, fs);
      AllRejectedNoEnd(A, S, Q, varChange, d.r, d.fuel);
    }
  }

  /**
   * How an oil vector is certified: b is the first kernel vector of f(M)
   * for a factor f of the characteristic polynomial of the matrix M of a
   * draw, every form vanishes on it, and the oil vector is var_change * b.
   */
  predicate Certified(A: Algebra, Q: seq<Mat>, varChange: Mat, o: Vec, X: Mat, f: Vec, b: Vec)
    requires Sound(A) && Forms(Q) && IsMat(varChange, N, KsDim)
  {
    IsMat(X, KsDim, KsDim) && f in A.factors(X) && |f| >= 1 && |b| == KsDim &&
    |Candidate(A, X, f)| > 0 && b == Candidate(A, X, f)[0] &&
    Accepted(Q, b) && MatVec(PolyMat(f, X, |f|), b) == Zeros(KsDim) &&
    o == MatVec(varChange, b)
  }

  /**
   * X is the matrix M = M0^-1 M1 of a draw: of the invertibility loop
   * started from matrices_sym[0] and matrices_sym[1], at some position r of
   * the random draws and with some bound left.
   */
  ghost predicate DrawPencil(A: Algebra, S: seq<Mat>, X: Mat)
    requires Sound(A) && Forms(S)
  {
    exists r: nat, fuel: nat ::
      Randomize(A, S, S[0], S[1], r, fuel).Draw? && X == Pencil(A, Randomize(A, S, S[0], S[1], r, fuel))
  }

  /** Every oil vector the search returns is certified, by a factor of a draw's pencil. */
  lemma {:induction false} SearchOil(A: Algebra, S: seq<Mat>, Q: seq<Mat>, varChange: Mat, r: nat, fuel: nat)
    requires Sound(A) && Exact(A) && Forms(S) && Forms(Q) && IsMat(varChange, N, KsDim)
    requires Search(A, S, Q, varChange, r, fuel).Oil?
    ensures exists X, f, b :: DrawPencil(A, S, X) && Certified(A, Q, varChange, Search(A, S, Q, varChange, r, fuel).oil, X, f, b)
    decreases fuel
  {
    var d := Randomize(A, S, S[0], S[1], r, fuel);
    var X := Pencil(A, d);
    var fs := A.factors(X);
    var t := TryFactors(A, Q, X, fs);
    if t.Accept? {
      var os := Outcomes(A, Q, X, fs);
      TryFactorsOutcome(A, Q, X, fs);
      var k := StopIndex(os, |fs|);
      assert os[k] == FactorOutcome(A, Q, X, fs[k]);
      AcceptedInKernel(A, Q, X, fs[k]);
      assert DrawPencil(A, S, X);
      assert Certified(A, Q, varChange, Search(A, S, Q, varChange, r, fuel).oil, X, fs[k], t.b);
    } else {
      SearchOil(A, S, Q, varChange, d.r, d.fuel);
    }
  }
}
