/**
 * The oil-membership tests check_oil and check_vin.  A vector o lies in
 * the secret oil space only if every public quadratic form vanishes on
 * it, o * P_k * o^T == 0 for k < m; both tests evaluate the m forms in
 * turn and give up at the first that does not vanish.  Python returns the
 * integer 0 for a refused vector; that is None here.
 */
module OilCheck {
  import opened Wrappers
  import opened GF256
  import opened LinAlg
  import opened Params

  /** P is a public key: m matrices of size n x n. */
  predicate IsKey(P: seq<Mat>) {
    |P| >= M && forall k :: 0 <= k < |P| ==> IsMat(P[k], N, N)
  }

  /** Every public form vanishes on o. */
  predicate Isotropic(o: Vec, P: seq<Mat>)
    requires |o| == N && IsKey(P)
  {
    forall k :: 0 <= k < M ==> Quad(o, P[k]) == Zero
  }

  /**
   * The evaluation loop shared by both tests: eval[k] = o * P[k] * o^T for
   * k = 0, 1, ..., stopping at the first nonzero value.
   */
  method Vanishes(o: Vec, P: seq<Mat>) returns (ok: bool, ghost stop: nat)
    requires |o| == N && IsKey(P)
    ensures ok <==> Isotropic(o, P)
    ensures !ok ==> stop < M && Quad(o, P[stop]) != Zero &&
                    forall k :: 0 <= k < stop ==> Quad(o, P[k]) == Zero
  {
    var k := 0;
    while k < M
      invariant 0 <= k <= M
      invariant forall k' :: 0 <= k' < k ==> Quad(o, P[k']) == Zero
    {
      var e := Quad(o, P[k]);
      if e != Zero {
        return false, k;
      }
      k := k + 1;
    }
    return true, 0;
  }

  /**
   * check_oil: copies the first n coordinates of the candidate into a
   * fresh vector and accepts it iff every form vanishes on it.
   */
  method CheckOil(oilIn: Vec, P: seq<Mat>) returns (r: Option<Vec>)
    requires |oilIn| >= N && IsKey(P)
    ensures r.None? <==> exists k :: 0 <= k < M && Quad(oilIn[..N], P[k]) != Zero
    ensures r.Some? ==> r.value == oilIn[..N]
  {
    var oil := Zeros(N);
    var i := 0;
    while i < N
      invariant 0 <= i <= N && |oil| == N
      invariant oil[..i] == oilIn[..i] && oil[i..] == Zeros(N - i)
    {
      oil := oil[i := oilIn[i]];
      i := i + 1;
    }
    assert oil == oilIn[..N];
    var ok, stop := Vanishes(oil, P);
    if !ok {
      return None;
    }
    return Some(oil);
  }

  /**
   * main's entry check: Oilspace = check_oil(OIL, PK), then a stop with
   * "Invalid oil vector" when Oilspace == 0.  In Sage a vector compares
   * equal to 0 when all its entries are zero, so the all-zero candidate,
   * which check_oil itself accepts, is refused too.
   */
  method ValidateOil(oilIn: Vec, P: seq<Mat>) returns (r: Option<Vec>)
    requires |oilIn| >= N && IsKey(P)
    ensures r.Some? <==> Isotropic(oilIn[..N], P) && oilIn[..N] != Zeros(N)
    ensures r.Some? ==> r.value == oilIn[..N]
  {
    r := CheckOil(oilIn, P);
    if r.Some? && r.value == Zeros(N) {
      r := None;
    }
  }

  /** The candidate check_vin tests: sig[i] + vin[i] on the vinegar coordinates, sig[i] on the rest. */
  function VinegarSum(vin: Vec, sig: Vec): (o: Vec)
    requires |vin| >= V && |sig| >= N
    ensures |o| == N
  {
    seq(N, i requires 0 <= i < N => if i < V then Add(sig[i], vin[i]) else sig[i])
  }

  /** check_vin: the same test as check_oil, on sig + vin. */
  method CheckVin(vin: Vec, P: seq<Mat>, sig: Vec) returns (r: Option<Vec>)
    requires |vin| >= V && |sig| >= N && IsKey(P)
    ensures r.None? <==> exists k :: 0 <= k < M && Quad(VinegarSum(vin, sig), P[k]) != Zero
    ensures r.Some? ==> r.value == VinegarSum(vin, sig)
  {
    var oil := Zeros(N);
    var i := 0;
    while i < N
      invariant 0 <= i <= N && |oil| == N
      invariant forall i' :: 0 <= i' < i ==> oil[i'] == VinegarSum(vin, sig)[i']
    {
      if i < V {
        oil := oil[i := Add(sig[i], vin[i])];
      } else {
        oil := oil[i := sig[i]];
      }
      i := i + 1;
    }
    assert oil == VinegarSum(vin, sig);
    var ok, stop := Vanishes(oil, P);
    if !ok {
      return None;
    }
    return Some(oil);
  }

  // ---------------------------------------------------------------------
  // What acceptance means

  lemma {:induction false} DotScaleBoth(c: Elem, x: Vec, y: Vec)
    requires |x| == |y|
    ensures Dot(ScaleVec(c, x), ScaleVec(c, y)) == Mul(Mul(c, c), Dot(x, y))
    decreases |x|
  {
    if |x| > 0 {
      assert ScaleVec(c, x)[1..] == ScaleVec(c, x[1..]);
      assert ScaleVec(c, y)[1..] == ScaleVec(c, y[1..]);
      DotScaleBoth(c, x[1..], y[1..]);
      ScaleProduct(c, x[0], y[0]);
      MulDistRight(Mul(c, c), Mul(x[0], y[0]), Dot(x[1..], y[1..]));
    } else {
      MulUnitZero(Mul(c, c));
    }
  }

  /** (c a)(c b) == (c c)(a b) */
  lemma ScaleProduct(c: Elem, a: Elem, b: Elem)
    ensures Mul(Mul(c, a), Mul(c, b)) == Mul(Mul(c, c), Mul(a, b))
  {
    MulAssoc(Mul(c, a), c, b);
    MulAssoc(c, a, c);
    MulComm(a, c);
    MulAssoc(c, c, a);
    MulAssoc(Mul(c, c), a, b);
  }

  lemma VecMatScale(c: Elem, x: Vec, P: Mat, cols: nat)
    requires IsMat(P, |x|, cols)
    ensures VecMat(ScaleVec(c, x), P, cols) == ScaleVec(c, VecMat(x, P, cols))
  {
    forall j | 0 <= j < cols
      ensures Dot(ScaleVec(c, x), Column(P, j)) == Mul(c, Dot(x, Column(P, j)))
    {
      DotScaleLeft(c, x, Column(P, j));
    }
  }

  /** Q(c x) == c^2 Q(x) */
  lemma QuadScale(c: Elem, x: Vec, P: Mat)
    requires IsMat(P, |x|, |x|)
    ensures Quad(ScaleVec(c, x), P) == Mul(Mul(c, c), Quad(x, P))
  {
    VecMatScale(c, x, P, |x|);
    DotScaleBoth(c, VecMat(x, P, |x|), x);
  }

  /** Every multiple of an accepted vector is accepted as well. */
  lemma IsotropicScale(c: Elem, o: Vec, P: seq<Mat>)
    requires |o| == N && IsKey(P) && Isotropic(o, P)
    ensures Isotropic(ScaleVec(c, o), P)
  {
    forall k | 0 <= k < M
      ensures Quad(ScaleVec(c, o), P[k]) == Zero
    {
      QuadScale(c, o, P[k]);
      MulUnitZero(Mul(c, c));
    }
  }

  /**
   * The sum of two accepted vectors is accepted exactly when the polar
   * forms o (P_k + P_k^T) o'^T vanish as well: the oil space is the set of
   * vectors on which all forms and all polar forms vanish.
   */
  lemma IsotropicSum(o: Vec, o': Vec, P: seq<Mat>)
    requires |o| == |o'| == N && IsKey(P) && Isotropic(o, P) && Isotropic(o', P)
    ensures Isotropic(VecAdd(o, o'), P) <==>
            forall k :: 0 <= k < M ==> Bilinear(o, MatAdd(P[k], Transpose(P[k], N, N), N, N), o') == Zero
  {
    forall k | 0 <= k < M
      ensures Bilinear(o, MatAdd(P[k], Transpose(P[k], N, N), N, N), o') == Quad(VecAdd(o, o'), P[k])
    {
      Polarization(o, P[k], o');
      AddZeroSelf(Zero);
      AddZeroSelf(Quad(VecAdd(o, o'), P[k]));
    }
  }

  /** The zero vector passes both tests. */
  lemma ZeroIsotropic(P: seq<Mat>)
    requires IsKey(P)
    ensures Isotropic(Zeros(N), P)
  {
    forall k | 0 <= k < M
      ensures Quad(Zeros(N), P[k]) == Zero
    {
      QuadScale(Zero, Zeros(N), P[k]);
      assert ScaleVec(Zero, Zeros(N)) == Zeros(N);
      MulUnitZero(Zero);
      MulUnitZero(Quad(Zeros(N), P[k]));
    }
  }
}
