/**
 * The index structure of the equation system of the reconciliation
 * (InitialSystem).  For the vectors a_0 .. a_(c-1) of a_full the system
 * holds, in this order,
 *   - one block x (P_l + P_l^T) y^T, l < m, for every pair j < k < c with
 *     k >= known, the pairs in lexicographic order (the linear part), and
 *   - one block a_j P_l a_j^T, l < m, for every j >= known (the quadratic
 *     part).
 * The vectors of a_full hold polynomials in the unknowns; the model takes
 * them at an assignment of the unknowns, so that the system here is the
 * list of values of its polynomials at that point.
 */
module EquationSystem {
  import opened GF256
  import opened LinAlg
  import opened Params
  import opened ListOps
  import opened Normalise
  import OilCheck

  /** The index pair (j, k) of a block. */
  type Pair = (nat, nat)

  /** Every vector has n entries. */
  predicate Vectors(a: seq<Vec>) {
    forall i :: 0 <= i < |a| ==> |a[i]| == N
  }

  /** Every matrix is n x n. */
  predicate Forms(F: seq<Mat>) {
    forall l :: 0 <= l < |F| ==> IsMat(F[l], N, N)
  }

  function Max(x: nat, y: nat): nat {
    if x < y then y else x
  }

  /** The pairs (j, lo), (j, lo + 1), .., (j, count - 1). */
  function RowPairs(j: nat, lo: nat, count: nat): (ps: seq<Pair>)
    ensures |ps| == if lo <= count then count - lo else 0
  {
    if count <= lo then [] else seq(count - lo, q requires 0 <= q < count - lo => (j, lo + q))
  }

  /** The pairs of the first double loop for j < rows: k runs from max(known, j + 1) to count - 1. */
  function LinPairs(rows: nat, count: nat, known: nat): seq<Pair> {
    if rows == 0 then [] else LinPairs(rows - 1, count, known) + RowPairs(rows - 1, Max(known, rows), count)
  }

  /** The pairs (j, j), known <= j < count, of the second loop. */
  function QuadPairs(count: nat, known: nat): seq<Pair> {
    if count <= known then [] else seq(count - known, q requires 0 <= q < count - known => (known + q, known + q))
  }

  /** The pairs index vectors of a. */
  predicate InRange(ps: seq<Pair>, a: seq<Vec>) {
    forall q :: 0 <= q < |ps| ==> ps[q].0 < |a| && ps[q].1 < |a|
  }

  /** The blocks Eval(F, a_j, a_k) of the pairs, concatenated. */
  function Blocks(F: seq<Mat>, a: seq<Vec>, ps: seq<Pair>): seq<Elem>
    requires Vectors(a) && Forms(F) && InRange(ps, a)
  {
    if ps == [] then []
    else
      var p := ps[|ps| - 1];
      Blocks(F, a, ps[..|ps| - 1]) + Eval(F, a[p.0], a[p.1])
  }

  /** InitialSystem(a_full, PublicKey, PublicKeySymm, known). */
  function InitialSystem(a: seq<Vec>, P: seq<Mat>, S: seq<Mat>, known: nat): seq<Elem>
    requires Vectors(a) && Forms(P) && Forms(S)
  {
    LinPairsRange(a, known);
    Blocks(S, a, LinPairs(|a|, |a|, known)) + Blocks(P, a, QuadPairs(|a|, known))
  }

  predicate AllZero(s: seq<Elem>) {
    forall i :: 0 <= i < |s| ==> s[i] == Zero
  }

  // ---------------------------------------------------------------------
  // The pairs

  /** The first loop visits exactly the pairs j < k < count, j < rows, with k >= known. */
  lemma {:induction false} LinPairsMember(rows: nat, count: nat, known: nat, p: Pair)
    ensures p in LinPairs(rows, count, known) <==> p.0 < rows && p.0 < p.1 < count && known <= p.1
  {
    if rows > 0 {
      LinPairsMember(rows - 1, count, known, p);
      var row := RowPairs(rows - 1, Max(known, rows), count);
      if p.0 == rows - 1 && p.0 < p.1 < count && known <= p.1 {
        assert row[p.1 - Max(known, rows)] == p;
      }
    }
  }

  lemma LinPairsRange(a: seq<Vec>, known: nat)
    ensures InRange(LinPairs(|a|, |a|, known), a)
    ensures InRange(QuadPairs(|a|, known), a)
  {
    var ps := LinPairs(|a|, |a|, known);
    forall q | 0 <= q < |ps|
      ensures ps[q].0 < |a| && ps[q].1 < |a|
    {
      LinPairsMember(|a|, |a|, known, ps[q]);
    }
  }

  /** (j, k) strictly before (j', k') in lexicographic order. */
  predicate LexLess(p: Pair, p': Pair) {
    p.0 < p'.0 || (p.0 == p'.0 && p.1 < p'.1)
  }

  predicate Increasing(ps: seq<Pair>) {
    forall q, q' :: 0 <= q < q' < |ps| ==> LexLess(ps[q], ps[q'])
  }

  /** The pairs come in strictly increasing lexicographic order, so none is visited twice. */
  lemma {:induction false} LinPairsSorted(rows: nat, count: nat, known: nat)
    ensures Increasing(LinPairs(rows, count, known))
  {
    if rows > 0 {
      LinPairsSorted(rows - 1, count, known);
      var front := LinPairs(rows - 1, count, known);
      var row := RowPairs(rows - 1, Max(known, rows), count);
      var ps := front + row;
      forall q, q' | 0 <= q < q' < |ps|
        ensures LexLess(ps[q], ps[q'])
      {
        var lo := Max(known, rows);
        if q' < |front| {
          assert ps[q] == front[q] && ps[q'] == front[q'];
        } else if q < |front| {
          LinPairsMember(rows - 1, count, known, front[q]);
          assert ps[q] == front[q] && ps[q'] == row[q' - |front|];
          assert row[q' - |front|] == (rows - 1, lo + q' - |front|);
        } else {
          assert ps[q] == row[q - |front|] && ps[q'] == row[q' - |front|];
          assert row[q - |front|] == (rows - 1, lo + q - |front|);
          assert row[q' - |front|] == (rows - 1, lo + q' - |front|);
        }
      }
    }
  }

  /** The shape main uses, known = count - 1: the new vector with each earlier one, then its own quadratic block. */
  lemma {:induction false} LastVectorPairs(rows: nat, count: nat)
    requires 0 < count && rows < count
    ensures LinPairs(rows, count, count - 1) == seq(rows, j requires 0 <= j < rows => (j, count - 1))
  {
    if rows > 0 {
      LastVectorPairs(rows - 1, count);
      assert RowPairs(rows - 1, Max(count - 1, rows), count) == [(rows - 1, count - 1)];
    }
  }

  lemma MainShape(count: nat)
    requires 0 < count
    ensures LinPairs(count, count, count - 1) == seq(count - 1, j requires 0 <= j < count - 1 => (j, count - 1))
    ensures QuadPairs(count, count - 1) == [(count - 1, count - 1)]
  {
    LastVectorPairs(count - 1, count);
  }

  // ---------------------------------------------------------------------
  // The blocks

  lemma {:induction false} BlocksLength(F: seq<Mat>, a: seq<Vec>, ps: seq<Pair>)
    requires Vectors(a) && Forms(F) && InRange(ps, a)
    ensures |Blocks(F, a, ps)| == |ps| * |F|
  {
    if ps != [] {
      BlocksLength(F, a, ps[..|ps| - 1]);
      MulStep(|ps| - 1, |F|);
    }
  }

  /** Entry l of block b is the form l evaluated at the pair b. */
  lemma {:induction false} BlocksIndex(F: seq<Mat>, a: seq<Vec>, ps: seq<Pair>, b: nat, l: nat)
    requires Vectors(a) && Forms(F) && InRange(ps, a)
    requires b < |ps| && l < |F|
    ensures b * |F| + l < |Blocks(F, a, ps)|
    ensures Blocks(F, a, ps)[b * |F| + l] == Bilinear(a[ps[b].0], F[l], a[ps[b].1])
  {
    var front := ps[..|ps| - 1];
    BlocksLength(F, a, ps);
    BlocksLength(F, a, front);
    MulStep(b, |F|);
    if b < |front| {
      BlocksIndex(F, a, front, b, l);
      MulBound(b, |F|, |front|);
    }
  }

  /** Every form of F vanishes at the pair p. */
  predicate Vanish(F: seq<Mat>, a: seq<Vec>, p: Pair)
    requires Vectors(a) && Forms(F) && p.0 < |a| && p.1 < |a|
  {
    forall l :: 0 <= l < |F| ==> Bilinear(a[p.0], F[l], a[p.1]) == Zero
  }

  /** Every equation of the blocks vanishes iff every form vanishes at every pair. */
  lemma {:induction false} BlocksZero(F: seq<Mat>, a: seq<Vec>, ps: seq<Pair>)
    requires Vectors(a) && Forms(F) && InRange(ps, a)
    ensures AllZero(Blocks(F, a, ps)) <==> forall q :: 0 <= q < |ps| ==> Vanish(F, a, ps[q])
  {
    if ps != [] {
      var front, p := ps[..|ps| - 1], ps[|ps| - 1];
      BlocksZero(F, a, front);
      AllZeroConcat(Blocks(F, a, front), Eval(F, a[p.0], a[p.1]));
      EvalVanish(F, a, p);
      assert forall q :: 0 <= q < |front| ==> front[q] == ps[q];
    }
  }

  /** The block of one pair vanishes iff every form vanishes at the pair. */
  lemma EvalVanish(F: seq<Mat>, a: seq<Vec>, p: Pair)
    requires Vectors(a) && Forms(F) && p.0 < |a| && p.1 < |a|
    ensures AllZero(Eval(F, a[p.0], a[p.1])) <==> Vanish(F, a, p)
  {
    var Y := Eval(F, a[p.0], a[p.1]);
    forall l | 0 <= l < |F|
      ensures Y[l] == Bilinear(a[p.0], F[l], a[p.1])
    {}
  }

  lemma AllZeroConcat(X: seq<Elem>, Y: seq<Elem>)
    ensures AllZero(X + Y) <==> AllZero(X) && AllZero(Y)
  {
    if AllZero(X + Y) {
      assert forall i :: 0 <= i < |X| ==> X[i] == (X + Y)[i];
      assert forall i :: 0 <= i < |Y| ==> Y[i] == (X + Y)[|X| + i];
    }
  }

  /** The linear part vanishes iff every symmetric form vanishes at every pair j < k with k >= known. */
  lemma LinearZero(a: seq<Vec>, S: seq<Mat>, known: nat)
    requires Vectors(a) && Forms(S)
    ensures InRange(LinPairs(|a|, |a|, known), a)
    ensures AllZero(Blocks(S, a, LinPairs(|a|, |a|, known))) <==>
            forall j, k :: 0 <= j < k < |a| && known <= k ==> Vanish(S, a, (j, k))
  {
    LinPairsRange(a, known);
    var lin := LinPairs(|a|, |a|, known);
    BlocksZero(S, a, lin);
    if AllZero(Blocks(S, a, lin)) {
      forall j, k | 0 <= j < k < |a| && known <= k
        ensures Vanish(S, a, (j, k))
      {
        LinPairsMember(|a|, |a|, known, (j, k));
        var q :| 0 <= q < |lin| && lin[q] == (j, k);
      }
    } else {
      var q :| 0 <= q < |lin| && !Vanish(S, a, lin[q]);
      LinPairsMember(|a|, |a|, known, lin[q]);
    }
  }

  /** A property holds at every pair of QuadPairs iff it holds at (j, j) for every j >= known. */
  lemma QuadPairsCover(count: nat, known: nat, f: Pair -> bool)
    ensures (forall q :: 0 <= q < |QuadPairs(count, known)| ==> f(QuadPairs(count, known)[q])) <==>
            forall j :: known <= j < count ==> f((j, j))
  {
    var quad := QuadPairs(count, known);
    if forall q :: 0 <= q < |quad| ==> f(quad[q]) {
      forall j | known <= j < count
        ensures f((j, j))
      {
        assert quad[j - known] == (j, j);
      }
    }
  }

  /** Every public form vanishes at every pair of QuadPairs iff it vanishes at every a_j with j >= known. */
  lemma QuadPairsVanish(a: seq<Vec>, P: seq<Mat>, known: nat)
    requires Vectors(a) && Forms(P) && InRange(QuadPairs(|a|, known), a)
    ensures (forall q :: 0 <= q < |QuadPairs(|a|, known)| ==> Vanish(P, a, QuadPairs(|a|, known)[q])) <==>
            forall j :: known <= j < |a| ==> Vanish(P, a, (j, j))
  {
    var quad := QuadPairs(|a|, known);
    var f := (p: Pair) => p.0 < |a| && p.1 < |a| && Vanish(P, a, p);
    QuadPairsCover(|a|, known, f);
    assert (forall q :: 0 <= q < |quad| ==> f(quad[q])) <==> forall q :: 0 <= q < |quad| ==> Vanish(P, a, quad[q]);
    assert (forall j :: known <= j < |a| ==> f((j, j))) <==> forall j :: known <= j < |a| ==> Vanish(P, a, (j, j));
  }

  /** The quadratic part vanishes iff every public form vanishes at every a_j with j >= known. */
  lemma QuadraticZero(a: seq<Vec>, P: seq<Mat>, known: nat)
    requires Vectors(a) && Forms(P)
    ensures InRange(QuadPairs(|a|, known), a)
    ensures AllZero(Blocks(P, a, QuadPairs(|a|, known))) <==>
            forall j :: known <= j < |a| ==> Vanish(P, a, (j, j))
  {
    LinPairsRange(a, known);
    BlocksZero(P, a, QuadPairs(|a|, known));
    QuadPairsVanish(a, P, known);
  }

  /**
   * The whole system vanishes at the point iff every symmetric form
   * vanishes at every pair j < k with k >= known and every quadratic form
   * at every a_j with j >= known.
   */
  lemma SystemZero(a: seq<Vec>, P: seq<Mat>, S: seq<Mat>, known: nat)
    requires Vectors(a) && Forms(P) && Forms(S)
    ensures AllZero(InitialSystem(a, P, S, known)) <==>
            (forall j, k :: 0 <= j < k < |a| && known <= k ==> Vanish(S, a, (j, k))) &&
            (forall j :: known <= j < |a| ==> Vanish(P, a, (j, j)))
  {
    LinearZero(a, S, known);
    QuadraticZero(a, P, known);
    AllZeroConcat(Blocks(S, a, LinPairs(|a|, |a|, known)), Blocks(P, a, QuadPairs(|a|, known)));
  }

  /**
   * Soundness of the system: when the symmetric forms are P_l + P_l^T and
   * the vectors and their pairwise sums all lie in the zero set of every
   * public form, as vectors of the oil space do, the system vanishes.
   */
  lemma OilSolves(a: seq<Vec>, P: seq<Mat>, known: nat)
    requires Vectors(a) && OilCheck.IsKey(P) && |P| == M
    requires forall j :: 0 <= j < |a| ==> OilCheck.Isotropic(a[j], P)
    requires forall j, k :: 0 <= j < k < |a| ==> OilCheck.Isotropic(VecAdd(a[j], a[k]), P)
    ensures Forms(Symmetrized(P))
    ensures AllZero(InitialSystem(a, P, Symmetrized(P), known))
  {
    var S := Symmetrized(P);
    forall j, k, l | 0 <= j < k < |a| && known <= k && 0 <= l < |S|
      ensures Bilinear(a[j], S[l], a[k]) == Zero
    {
      UpperToSymmetricPolar(P[l], a[j], a[k]);
      AddZeroSelf(Zero);
    }
    SystemZero(a, P, S, known);
  }

  /** [UpperToSymmetric(j) for j in PK] */
  function Symmetrized(P: seq<Mat>): (S: seq<Mat>)
    requires Forms(P)
    ensures |S| == |P| && Forms(S)
  {
    seq(|P|, l requires 0 <= l < |P| => UpperToSymmetric(P[l], N))
  }
}
