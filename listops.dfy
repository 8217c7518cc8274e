/**
 * The list surgery of the reconciliation: cutting a list into equal
 * sublists (SplitInto_k), prefixing every vector with k coordinates that
 * hold a unit vector (AppendIndependent), and overwriting the first rows of
 * a list with known oil vectors (ReplaceWithSCAoil).  The entry type is a
 * parameter: the lists hold field elements as well as polynomials in the
 * unknowns.
 */
module ListOps {

  /** The concatenation of a list of lists. */
  function Flatten<T>(ss: seq<seq<T>>): seq<T> {
    if ss == [] then [] else Flatten(ss[..|ss| - 1]) + ss[|ss| - 1]
  }

  lemma MulBound(i: nat, w: nat, c: nat)
    requires i < c
    ensures (i + 1) * w <= c * w
  {}

  lemma MulStep(i: nat, w: nat)
    ensures (i + 1) * w == i * w + w
  {}

  /** The first c consecutive slices of length w of L. */
  function Chunks<T>(L: seq<T>, w: nat, c: nat): (r: seq<seq<T>>)
    requires c * w <= |L|
    ensures |r| == c
  {
    seq(c, i requires 0 <= i < c => MulBound(i, w, c); L[i * w..(i + 1) * w])
  }

  /**
   * SplitInto_k(L, k): k consecutive sublists of length |L| / k each; the
   * |L| % k entries at the end are dropped.
   */
  function SplitInto<T>(L: seq<T>, k: nat): (r: seq<seq<T>>)
    requires k > 0
    ensures |r| == k
  {
    DivBound(|L|, k);
    Chunks(L, |L| / k, k)
  }

  /** k * (l / k) is l without its remainder. */
  lemma DivBound(l: nat, k: nat)
    requires k > 0
    ensures k * (l / k) == l - l % k <= l
  {}

  lemma {:induction false} FlattenChunks<T>(L: seq<T>, w: nat, c: nat)
    requires c * w <= |L|
    ensures Flatten(Chunks(L, w, c)) == L[..c * w]
    decreases c
  {
    if c > 0 {
      var r := Chunks(L, w, c);
      assert r[..c - 1] == Chunks(L, w, c - 1);
      MulBound(c - 1, w, c);
      FlattenChunks(L, w, c - 1);
      assert L[..(c - 1) * w] + L[(c - 1) * w..c * w] == L[..c * w];
    }
  }

  /** The sublists, put back together, are L without its last |L| % k entries. */
  lemma SplitFlatten<T>(L: seq<T>, k: nat)
    requires k > 0
    ensures Flatten(SplitInto(L, k)) == L[..|L| - |L| % k]
  {
    DivBound(|L|, k);
    FlattenChunks(L, |L| / k, k);
  }

  /** Each sublist is the matching slice of L. */
  lemma SplitSlices<T>(L: seq<T>, k: nat, i: nat)
    requires 0 < k && i < k
    ensures (i + 1) * (|L| / k) <= |L|
    ensures SplitInto(L, k)[i] == L[i * (|L| / k)..(i + 1) * (|L| / k)]
    ensures |SplitInto(L, k)[i]| == |L| / k
  {
    DivBound(|L|, k);
    MulBound(i, |L| / k, k);
    MulStep(i, |L| / k);
  }

  /** SplitInto_k(L, 1) == [L], the only way the reconciliation uses it. */
  lemma SplitOne<T>(L: seq<T>)
    ensures SplitInto(L, 1) == [L]
  {
    SplitSlices(L, 1, 0);
    assert |L| / 1 == |L|;
    assert L[0..|L|] == L;
  }

  // ---------------------------------------------------------------------
  // AppendIndependent

  /** k zeros in front of every vector, then a one written at index i + first of vector i. */
  function Augmented<T>(L: seq<seq<T>>, k: nat, first: nat, zero: T, one: T): (r: seq<seq<T>>)
    requires forall i :: 0 <= i < |L| ==> i + first < k + |L[i]|
    ensures |r| == |L| && forall i :: 0 <= i < |L| ==> |r[i]| == k + |L[i]|
  {
    seq(|L|, i requires 0 <= i < |L| =>
      seq(k + |L[i]|, c requires 0 <= c < k + |L[i]| =>
        if c == i + first then one else if c < k then zero else L[i][c - k]))
  }

  /** The unit vector of length k with its one at p. */
  function Unit<T>(k: nat, p: nat, zero: T, one: T): (u: seq<T>)
    ensures |u| == k
  {
    seq(k, c => if c == p then one else zero)
  }

  method AppendIndependent<T>(L: seq<seq<T>>, k: nat, first: nat, zero: T, one: T) returns (aug: seq<seq<T>>)
    requires forall i :: 0 <= i < |L| ==> i + first < k + |L[i]|
    ensures aug == Augmented(L, k, first, zero, one)
  {
    aug := seq(|L|, i requires 0 <= i < |L| => seq(k, _ => zero) + L[i]);
    var i := 0;
    while i < |L|
      invariant 0 <= i <= |L| && |aug| == |L|
      invariant forall i' :: 0 <= i' < i ==> aug[i'] == Augmented(L, k, first, zero, one)[i']
      invariant forall i' :: i <= i' < |L| ==> aug[i'] == seq(k, _ => zero) + L[i']
    {
      aug := aug[i := aug[i][i + first := one]];
      i := i + 1;
    }
  }

  /** While i + first < k, vector i gets the unit vector e_(i+first) in front of it. */
  lemma AugmentedUnit<T>(L: seq<seq<T>>, k: nat, first: nat, zero: T, one: T, i: nat)
    requires forall i :: 0 <= i < |L| ==> i + first < k + |L[i]|
    requires i < |L| && i + first < k
    ensures Augmented(L, k, first, zero, one)[i] == Unit(k, i + first, zero, one) + L[i]
  {
    assert Augmented(L, k, first, zero, one)[i] == Unit(k, i + first, zero, one) + L[i];
  }

  /** From i + first >= k on, the one overwrites an entry of vector i itself. */
  lemma AugmentedOverwrite<T>(L: seq<seq<T>>, k: nat, first: nat, zero: T, one: T, i: nat)
    requires forall i :: 0 <= i < |L| ==> i + first < k + |L[i]|
    requires i < |L| && k <= i + first
    ensures Augmented(L, k, first, zero, one)[i] == seq(k, _ => zero) + L[i][i + first - k := one]
  {
    assert Augmented(L, k, first, zero, one)[i] == seq(k, _ => zero) + L[i][i + first - k := one];
  }

  // ---------------------------------------------------------------------
  // ReplaceWithSCAoil

  /** The first |recovered| rows of the caller's list become the recovered oil vectors, in place. */
  method ReplaceWithSCAoil<T>(aFull: array<T>, recovered: seq<T>)
    requires |recovered| <= aFull.Length
    modifies aFull
    ensures aFull[..] == recovered + old(aFull[..])[|recovered|..]
  {
    var i := 0;
    while i < |recovered|
      invariant 0 <= i <= |recovered|
      invariant forall j :: 0 <= j < i ==> aFull[j] == recovered[j]
      invariant forall j :: i <= j < aFull.Length ==> aFull[j] == old(aFull[j])
    {
      aFull[i] := recovered[i];
      i := i + 1;
    }
  }
}
