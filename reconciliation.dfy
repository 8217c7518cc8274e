/**
 * The reconciliation driver: starting from the two oil vectors of the
 * Kipnis-Shamir step, each round of the main loop builds a_full from the
 * vectors found so far and the unknowns x_0 .. x_(v-1), forms the equation
 * system, and lets SolveSystem read a Groebner basis of it.  A basis of v
 * polynomials x_i - s_i gives the new oil vector s, prefixed with the unit
 * vector e_(w+found); any other basis gives nothing.
 *
 * Polynomials are a type parameter; the ring operations the bookkeeping
 * uses (0, 1, the generators, subtraction), the construction of the system
 * from a_full (InitialSystem on polynomial entries, whose index structure
 * EquationSystem models) and the Groebner basis are parameters.
 */
module Reconciliation {
  import opened Params
  import opened ListOps

  /** w: the number of oil vectors known when the reconciliation starts. */
  const W: nat := 2

  /** The polynomial ring as far as the bookkeeping needs it. */
  datatype Ring<!P> = Ring(zero: P, one: P, gen: nat -> P, sub: (P, P) -> P)

  /** The two computations delegated to the computer algebra system. */
  datatype Oracles<!P> = Oracles(system: (seq<seq<P>>, nat) -> seq<P>, groebner: seq<P> -> seq<P>)

  /** The three outcomes SolveSystem distinguishes. */
  datatype Outcome<P> = Found(solution: seq<P>) | NeedsRandomization | NeedsMoreVectors

  /**
   * A reduced Groebner basis of v polynomials is read as x_i - s_i, so the
   * solution is s_i = x_i - g_i; a basis of one polynomial (the ideal of a
   * system without solution) asks for randomization, any other size for
   * more vectors.
   */
  function Classify<P>(R: Ring<P>, gr: seq<P>): (o: Outcome<P>)
    ensures o.Found? <==> |gr| == V
    ensures o.NeedsRandomization? <==> |gr| == 1
    ensures o.Found? ==> |o.solution| == V && forall i :: 0 <= i < V ==> o.solution[i] == R.sub(R.gen(i), gr[i])
  {
    if |gr| == V then Found(seq(V, i requires 0 <= i < V => R.sub(R.gen(i), gr[i])))
    else if |gr| == 1 then NeedsRandomization
    else NeedsMoreVectors
  }

  /** The list of recovered oil vectors, which SolveSystem extends in place. */
  class OilSpace<P> {
    var vectors: seq<seq<P>>

    constructor (vs: seq<seq<P>>)
      ensures vectors == vs
    {
      vectors := vs;
    }
  }

  /**
   * SolveSystem: on a solution s, the new vector AppendIndependent([s], m,
   * w + found) is appended to the caller's oil list, and the solution and
   * the new vector are returned; otherwise both lists are empty and the
   * oil list is left as it was.
   */
  method SolveSystem<P>(R: Ring<P>, groebner: seq<P> -> seq<P>, system: seq<P>, recoveredOil: OilSpace<P>, w: nat, found: nat)
    returns (solutionFull: seq<seq<P>>, solutionSplit: seq<seq<P>>)
    requires w + found < N
    modifies recoveredOil
    ensures var o := Classify(R, groebner(system));
            if o.Found? then solutionSplit == [o.solution] && solutionFull == Augmented([o.solution], M, w + found, R.zero, R.one)
            else solutionSplit == [] && solutionFull == []
    ensures recoveredOil.vectors == old(recoveredOil.vectors) + solutionFull
  {
    var gr := groebner(system);
    solutionFull := [];
    solutionSplit := [];
    var o := Classify(R, gr);
    if o.Found? {
      var solution := o.solution;
      solutionSplit := SplitInto(solution, 1);
      SplitOne(solution);
      solutionFull := AppendIndependent(solutionSplit, M, w + found, R.zero, R.one);
      recoveredOil.vectors := recoveredOil.vectors + solutionFull;
    }
  }

  // ---------------------------------------------------------------------
  // The main loop

  /** The state the loop carries: Oilspace, solution_split and found. */
  datatype State<P> = State(oil: seq<seq<P>>, split: seq<seq<P>>, found: nat)

  /** The unknowns x_0 .. x_(v-1). */
  function Unknowns<P>(R: Ring<P>): (xs: seq<P>)
    ensures |xs| == V
  {
    seq(V, i requires 0 <= i < V => R.gen(i))
  }

  /**
   * The loop invariant: one oil vector and one solution per known vector,
   * each oil vector of length n ending in its solution, and each vector
   * found by the loop beginning with its unit vector e_j.
   */
  ghost predicate Inv<P>(R: Ring<P>, st: State<P>) {
    |st.oil| == |st.split| == W + st.found && st.found <= M - W &&
    forall j :: 0 <= j < |st.oil| ==>
      |st.oil[j]| == N && st.oil[j][M..] == st.split[j] && (W <= j ==> st.oil[j][..M] == Unit(M, j, R.zero, R.one))
  }

  /** a_full: AppendIndependent(solution_split + a, m, 0), then ReplaceWithSCAoil(a_full, Oilspace). */
  function AFull<P>(R: Ring<P>, st: State<P>): seq<seq<P>>
    requires |st.oil| <= |st.split| < M
  {
    var aFull := Augmented(st.split + [Unknowns(R)], M, 0, R.zero, R.one);
    st.oil + aFull[|st.oil|..]
  }

  /** What one round makes of the Groebner basis of its system. */
  function RoundOutcome<P>(R: Ring<P>, O: Oracles<P>, st: State<P>): Outcome<P>
    requires |st.oil| <= |st.split| < M
  {
    Classify(R, O.groebner(O.system(AFull(R, st), W + st.found)))
  }

  /** One round of the loop. */
  function Step<P>(R: Ring<P>, O: Oracles<P>, st: State<P>): State<P>
    requires |st.oil| <= |st.split| < M && W + st.found < N
  {
    var o := RoundOutcome(R, O, st);
    if o.Found? then
      State(st.oil + Augmented([o.solution], M, W + st.found, R.zero, R.one), st.split + [o.solution], st.found + 1)
    else st
  }

  /** How the loop stops: found reaches m - w, or the bound on the rounds runs out. */
  datatype Stop = Done | OutOfFuel

  /** The loop, for at most fuel rounds. */
  function Run<P>(R: Ring<P>, O: Oracles<P>, st: State<P>, fuel: nat): (State<P>, Stop)
    requires Inv(R, st)
    decreases fuel
  {
    if st.found >= M - W then (st, Done)
    else if fuel == 0 then (st, OutOfFuel)
    else
      StepInv(R, O, st);
      Run(R, O, Step(R, O, st), fuel - 1)
  }

  /** The state main sets up: the two Kipnis-Shamir vectors and their last v entries. */
  function Init<P>(oil0: seq<seq<P>>): State<P>
    requires |oil0| == W && |oil0[0]| == |oil0[1]| == N
  {
    State(oil0, [oil0[0][M..N], oil0[1][M..N]], 0)
  }

  method ToArray<T>(s: seq<T>) returns (a: array<T>)
    ensures fresh(a) && a[..] == s
  {
    a := new T[|s|](i requires 0 <= i < |s| => s[i]);
  }

  /** a_aug = solution_split + a; a_full = AppendIndependent(a_aug, m, 0); ReplaceWithSCAoil(a_full, Oilspace). */
  method BuildAFull<P>(R: Ring<P>, a: seq<seq<P>>, oil: seq<seq<P>>, solutionSplit: seq<seq<P>>, found: nat)
    returns (aFull: seq<seq<P>>)
    requires a == [Unknowns(R)]
    requires |oil| <= |solutionSplit| < M
    ensures aFull == AFull(R, State(oil, solutionSplit, found))
  {
    var aAug := solutionSplit + a;
    var aFullList := AppendIndependent(aAug, M, 0, R.zero, R.one);
    var arr := ToArray(aFullList);
    ReplaceWithSCAoil(arr, oil);
    aFull := arr[..];
  }

  /** The body of main's loop: one round, in place on the oil list. */
  method Round<P>(R: Ring<P>, O: Oracles<P>, a: seq<seq<P>>, oil: OilSpace<P>, solutionSplit: seq<seq<P>>, found: nat)
    returns (split': seq<seq<P>>, found': nat)
    requires a == [Unknowns(R)]
    requires Inv(R, State(oil.vectors, solutionSplit, found)) && found < M - W
    modifies oil
    ensures State(oil.vectors, split', found') == Step(R, O, old(State(oil.vectors, solutionSplit, found)))
  {
    ghost var st := State(oil.vectors, solutionSplit, found);
    var w := W;
    var aFull := BuildAFull(R, a, oil.vectors, solutionSplit, found);
    var system := O.system(aFull, w + found);
    var solutionFull, solutionSplitFound := SolveSystem(R, O.groebner, system, oil, w, found);
    split' := solutionSplit + solutionSplitFound;
    found' := found + |solutionFull|;
  }

  /**
   * main's reconciliation loop, while found < m - w; the source's loop has
   * no bound, here at most fuel rounds run.
   */
  method Reconcile<P>(R: Ring<P>, O: Oracles<P>, oil0: seq<seq<P>>, fuel: nat)
    returns (oilspace: seq<seq<P>>, found: nat, stop: Stop)
    requires |oil0| == W && |oil0[0]| == |oil0[1]| == N
    ensures var r := Run(R, O, Init(oil0), fuel);
            oilspace == r.0.oil && found == r.0.found && stop == r.1
  {
    InitInv(R, oil0);
    var oil := new OilSpace(oil0);
    var w := W;
    found := 0;
    var a := SplitInto(Unknowns(R), 1);
    SplitOne(Unknowns(R));
    var solutionSplit := [oil0[0][M..N], oil0[1][M..N]];
    var fuelLeft := fuel;
    while found < M - w
      invariant Inv(R, State(oil.vectors, solutionSplit, found))
      invariant Run(R, O, Init(oil0), fuel) == Run(R, O, State(oil.vectors, solutionSplit, found), fuelLeft)
      decreases fuelLeft
    {
      if fuelLeft == 0 {
        return oil.vectors, found, OutOfFuel;
      }
      StepInv(R, O, State(oil.vectors, solutionSplit, found));
      fuelLeft := fuelLeft - 1;
      solutionSplit, found := Round(R, O, a, oil, solutionSplit, found);
    }
    return oil.vectors, found, Done;
  }

  // ---------------------------------------------------------------------
  // Properties of the loop

  lemma InitInv<P>(R: Ring<P>, oil0: seq<seq<P>>)
    requires |oil0| == W && |oil0[0]| == |oil0[1]| == N
    ensures Inv(R, Init(oil0))
  {}

  /**
   * A round keeps the invariant, found grows by one exactly when the
   * Groebner basis has v elements, and then the new oil vector is the
   * unit vector e_(w+found) followed by the solution.
   */
  lemma StepInv<P>(R: Ring<P>, O: Oracles<P>, st: State<P>)
    requires Inv(R, st) && st.found < M - W
    ensures |st.oil| <= |st.split| < M && W + st.found < N
    ensures Inv(R, Step(R, O, st))
    ensures Step(R, O, st).found == st.found + 1 <==> RoundOutcome(R, O, st).Found?
    ensures Step(R, O, st).found == st.found ==> Step(R, O, st) == st
    ensures RoundOutcome(R, O, st).Found? ==>
              Step(R, O, st).oil == st.oil + [Unit(M, W + st.found, R.zero, R.one) + RoundOutcome(R, O, st).solution]
  {
    var o := RoundOutcome(R, O, st);
    if o.Found? {
      AugmentedUnit([o.solution], M, W + st.found, R.zero, R.one, 0);
      ExtendInv(R, st, o.solution);
    }
  }

  /** Appending e_(w+found) followed by a solution of v entries keeps the invariant. */
  lemma ExtendInv<P>(R: Ring<P>, st: State<P>, sol: seq<P>)
    requires Inv(R, st) && st.found < M - W && |sol| == V
    ensures Inv(R, State(st.oil + [Unit(M, W + st.found, R.zero, R.one) + sol], st.split + [sol], st.found + 1))
  {
    var v := Unit(M, W + st.found, R.zero, R.one) + sol;
    assert v[M..] == sol && v[..M] == Unit(M, W + st.found, R.zero, R.one);
    var st' := State(st.oil + [v], st.split + [sol], st.found + 1);
    forall j | 0 <= j < |st'.oil|
      ensures |st'.oil[j]| == N && st'.oil[j][M..] == st'.split[j] &&
              (W <= j ==> st'.oil[j][..M] == Unit(M, j, R.zero, R.one))
    {
      if j < |st.oil| {
        assert st'.oil[j] == st.oil[j] && st'.split[j] == st.split[j];
      }
    }
  }

  /**
   * A round that finds nothing leaves the whole state as it was; the
   * oracles being functions, the next round poses the same system, so the
   * loop never ends: whatever the bound, it runs out.
   */
  lemma {:induction false} StuckForever<P>(R: Ring<P>, O: Oracles<P>, st: State<P>, fuel: nat)
    requires Inv(R, st) && st.found < M - W
    requires !RoundOutcome(R, O, st).Found?
    ensures Run(R, O, st, fuel) == (st, OutOfFuel)
  {
    if fuel > 0 {
      StepInv(R, O, st);
      StuckForever(R, O, st, fuel - 1);
    }
  }

  /** Every state the loop reaches keeps the invariant, and a loop that ends has found all m - w vectors. */
  lemma {:induction false} RunInv<P>(R: Ring<P>, O: Oracles<P>, st: State<P>, fuel: nat)
    requires Inv(R, st)
    ensures Inv(R, Run(R, O, st, fuel).0)
    ensures Run(R, O, st, fuel).0.found >= st.found
    ensures Run(R, O, st, fuel).1 == Done <==> Run(R, O, st, fuel).0.found == M - W
    decreases fuel
  {
    if st.found < M - W && fuel > 0 {
      StepInv(R, O, st);
      RunInv(R, O, Step(R, O, st), fuel - 1);
    }
  }

  /**
   * When the loop ends, the oil list holds m vectors of length n, and
   * vector j >= w starts with the unit vector e_j: the basis printed at the
   * end is in echelon form on its first m coordinates.
   */
  lemma Recovered<P>(R: Ring<P>, O: Oracles<P>, oil0: seq<seq<P>>, fuel: nat)
    requires |oil0| == W && |oil0[0]| == |oil0[1]| == N
    requires Run(R, O, Init(oil0), fuel).1 == Done
    ensures var oil := Run(R, O, Init(oil0), fuel).0.oil;
            |oil| == M && oil[..W] == oil0 &&
            forall j :: 0 <= j < M ==> |oil[j]| == N && (W <= j ==> oil[j][..M] == Unit(M, j, R.zero, R.one))
  {
    InitInv(R, oil0);
    RunInv(R, O, Init(oil0), fuel);
    RunPrefix(R, O, Init(oil0), fuel);
  }

  /** The loop only appends to the oil list. */
  lemma {:induction false} RunPrefix<P>(R: Ring<P>, O: Oracles<P>, st: State<P>, fuel: nat)
    requires Inv(R, st)
    ensures |st.oil| <= |Run(R, O, st, fuel).0.oil| && Run(R, O, st, fuel).0.oil[..|st.oil|] == st.oil
    decreases fuel
  {
    if st.found < M - W && fuel > 0 {
      StepInv(R, O, st);
      var st' := Step(R, O, st);
      RunPrefix(R, O, st', fuel - 1);
      var oil := Run(R, O, st', fuel - 1).0.oil;
      assert oil[..|st.oil|] == oil[..|st'.oil|][..|st.oil|];
    }
  }
}
