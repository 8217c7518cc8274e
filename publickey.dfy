/**
 * The layout of the public key (readPK).  The key file is a list of hex
 * tokens in the order of the three blocks of a UOV public key: P1 (the
 * vinegar x vinegar upper triangles, 103224 tokens), P2 (the vinegar x oil
 * blocks, 131648 tokens) and P3 (the oil x oil upper triangles, the rest).
 * readPK interleaves them row by row -- row i of P1, then row i of P2, for
 * the 68 vinegar rows -- and appends P3, which gives the tokens of the full
 * n x n upper triangles in row-major order, m tokens per position (one for
 * each of the m equations).  A triple loop then fills the m matrices.
 *
 * The file read and the split on ", " are I/O and come before the model:
 * readPK starts here from the list of tokens.
 */
module PublicKey {
  import opened Wrappers
  import opened GF256
  import opened LinAlg
  import opened Params
  import opened ListOps
  import HexData

  /** Tokens of P1: m * v(v+1)/2. */
  const P1Len: nat := 103224
  /** Where P3 starts: P1 and the m * m tokens of each of the v rows of P2. */
  const P2End: nat := 234872
  /** Tokens of one row of P2: m * m. */
  const RowLen: nat := 1936
  /** Tokens of the whole key: m * n(n+1)/2. */
  const Total: nat := 278432

  /** len_old: the number of P1 tokens of each vinegar row. */
  const LenOld: seq<nat> :=
    [2992, 2948, 2904, 2860, 2816, 2772, 2728, 2684, 2640, 2596, 2552, 2508, 2464, 2420, 2376, 2332] +
    [2288, 2244, 2200, 2156, 2112, 2068, 2024, 1980, 1936, 1892, 1848, 1804, 1760, 1716, 1672, 1628] +
    [1584, 1540, 1496, 1452, 1408, 1364, 1320, 1276, 1232, 1188, 1144, 1100, 1056, 1012, 968, 924, 880] +
    [836, 792, 748, 704, 660, 616, 572, 528, 484, 440, 396, 352, 308, 264, 220, 176, 132, 88, 44]

  /** Python's s[a:b] for 0 <= a <= b: the bounds are clamped to the list. */
  function Slice<T>(s: seq<T>, a: nat, b: nat): (r: seq<T>)
    requires a <= b
    ensures |r| <= b - a
  {
    if a >= |s| then [] else if b >= |s| then s[a..] else s[a..b]
  }

  /** Python's s[a:]. */
  function Drop<T>(s: seq<T>, a: nat): seq<T> {
    if a >= |s| then [] else s[a..]
  }

  /** summe before iteration i: the P1 tokens of the rows before row i, m per position of the v x v triangle. */
  function Offset(i: nat): nat
    requires i <= V
  {
    M * RowStart(V, i)
  }

  /** Row i of P1 and row i of P2 as the interleaving loop cuts them. */
  function P1Row<T>(P1: seq<T>, i: nat): seq<T>
    requires i < 68
  {
    Slice(P1, Offset(i), Offset(i + 1))
  }

  function P2Row<T>(P2: seq<T>, i: nat): seq<T> {
    Slice(P2, i * RowLen, (i + 1) * RowLen)
  }

  /** The list `interleaved` after i iterations. */
  function Interleaved<T>(P1: seq<T>, P2: seq<T>, i: nat): (r: seq<seq<T>>)
    requires i <= 68
    ensures |r| == 2 * i
  {
    if i == 0 then [] else Interleaved(P1, P2, i - 1) + [P1Row(P1, i - 1), P2Row(P2, i - 1)]
  }

  /** The flattened, reordered token list. */
  function Flat<T>(pk: seq<T>): seq<T> {
    Flatten(Interleaved(Slice(pk, 0, P1Len), Slice(pk, P1Len, P2End), 68) + [Drop(pk, P2End)])
  }

  /** Sum over rows r < i of (w - r) positions: the start of row i of a w x w upper triangle. */
  function RowStart(w: nat, i: nat): nat
    requires i <= w
  {
    if i == 0 then 0 else RowStart(w, i - 1) + (w - (i - 1))
  }

  /** The index of P[k][i, j], i <= j, in the flattened token list. */
  function Pos(i: nat, j: nat, k: nat): nat
    requires i <= j < N
  {
    44 * RowStart(N, i) + (j - i) * 44 + k
  }

  /**
   * int(token, 16) followed by K(ZZ(.).digits(base=2)): the token, stripped
   * and with an optional 0x or 0X prefix removed, must be a non-empty string
   * of hex digits, and its value must fit the eight coefficients of the
   * field (a longer list of binary digits makes K raise).
   */
  function ParseToken(tok: string): (t: Option<nat>)
    ensures t.Some? ==> t.value < 256
  {
    var d := Digits16(HexData.Strip(tok));
    if d == [] || !HexData.AllHex(d) || HexValue(d) >= 256 then None else Some(HexValue(d))
  }

  /** The digits after an optional 0x or 0X base prefix. */
  function Digits16(s: string): string {
    if |s| >= 2 && s[0] == '0' && (s[1] == 'x' || s[1] == 'X') then s[2..] else s
  }

  function HexValue(s: string): nat
    requires HexData.AllHex(s)
  {
    if s == [] then 0 else 16 * HexValue(s[..|s| - 1]) + HexData.HexDigit(s[|s| - 1]).value
  }

  /** The field element of flat token p, K(ZZ(int(token, 16)).digits(base=2)). */
  function Entry(flat: seq<string>, p: nat): Elem {
    if p < |flat| && ParseToken(flat[p]).Some? then FromInt(ParseToken(flat[p]).value) else Zero
  }

  /** readPK succeeds iff the first Total tokens exist and all parse. */
  predicate WellFormed(flat: seq<string>) {
    |flat| >= Total && forall t :: 0 <= t < Total ==> ParseToken(flat[t]).Some?
  }

  /** The m matrices readPK fills: token Pos(i, j, k) at (i, j) of matrix k, zero below the diagonal. */
  function Key(flat: seq<string>): (P: seq<Mat>)
    ensures |P| == M && forall k :: 0 <= k < M ==> IsMat(P[k], N, N)
  {
    seq(M, k requires 0 <= k < M =>
      seq(N, i requires 0 <= i < N =>
        seq(N, j requires 0 <= j < N => if i <= j then Entry(flat, Pos(i, j, k)) else Zero)))
  }

  // ---------------------------------------------------------------------
  // The method

  /** The matrices held by a three-dimensional array, P[k][i][j] == A[k, i, j]. */
  function Matrices(A: array3<Elem>): (P: seq<Mat>)
    reads A
    ensures |P| == A.Length0
    ensures forall k :: 0 <= k < A.Length0 ==>
              IsMat(P[k], A.Length1, A.Length2) &&
              (forall i, j :: 0 <= i < A.Length1 && 0 <= j < A.Length2 ==> P[k][i][j] == A[k, i, j])
  {
    seq(A.Length0, k requires 0 <= k < A.Length0 reads A =>
      seq(A.Length1, i requires 0 <= i < A.Length1 reads A =>
        seq(A.Length2, j requires 0 <= j < A.Length2 reads A => A[k, i, j])))
  }

  /** (i', j', k') comes before (i, j, k) in the order of the triple loop. */
  predicate Before(i': nat, j': nat, k': nat, i: nat, j: nat, k: nat) {
    i' < i || (i' == i && (j' < j || (j' == j && k' < k)))
  }

  /** The tokens split into P1, P2, P3 and interleaved, as the first loop does it. */
  method Interleave(pk: seq<string>) returns (flat: seq<string>)
    ensures flat == Flat(pk)
  {
    var P1 := Slice(pk, 0, P1Len);
    var P2 := Slice(pk, P1Len, P2End);
    var P3 := Drop(pk, P2End);
    var interleaved: seq<seq<string>> := [];
    var summe := 0;
    var i := 0;
    while i < 68
      invariant i <= 68 && summe == Offset(i)
      invariant interleaved == Interleaved(P1, P2, i)
    {
      SummeStep(i);
      interleaved := interleaved + [Slice(P1, summe, summe + LenOld[i])];
      interleaved := interleaved + [Slice(P2, i * RowLen, (i + 1) * RowLen)];
      summe := summe + LenOld[i];
      i := i + 1;
    }
    interleaved := interleaved + [P3];
    flat := Flatten(interleaved);
  }

  /** The tokens a <= t < b exist and parse. */
  predicate Parses(flat: seq<string>, a: nat, b: nat) {
    (a < b ==> b <= |flat|) && forall t :: a <= t < b ==> ParseToken(flat[t]).Some?
  }

  /** The innermost loop: the m tokens of position (i, j), one for each matrix. */
  method FillCell(P: array3<Elem>, flat: seq<string>, i: nat, j: nat) returns (ok: bool)
    requires P.Length0 == M && P.Length1 == N && P.Length2 == N && i <= j < N
    modifies P
    ensures ok <==> Parses(flat, Pos(i, j, 0), Pos(i, j, 0) + M)
    ensures ok ==> forall k, i', j' :: 0 <= k < M && 0 <= i' < N && 0 <= j' < N ==>
                     P[k, i', j'] == if i' == i && j' == j then Entry(flat, Pos(i, j, k)) else old(P[k, i', j'])
  {
    var k := 0;
    while k < M
      invariant k <= M && Parses(flat, Pos(i, j, 0), Pos(i, j, k))
      invariant forall k', i', j' :: 0 <= k' < M && 0 <= i' < N && 0 <= j' < N ==>
                  P[k', i', j'] == if i' == i && j' == j && k' < k then Entry(flat, Pos(i, j, k')) else old(P[k', i', j'])
    {
      ok := StoreToken(P, flat, i, j, k);
      if !ok {
        return;
      }
      k := k + 1;
    }
    return true;
  }

  /** P[k][i, j] = K(ZZ(int(pk[t], 16)).digits(base=2)) for t == Pos(i, j, k), when the token parses. */
  method StoreToken(P: array3<Elem>, flat: seq<string>, i: nat, j: nat, k: nat) returns (ok: bool)
    requires P.Length0 == M && P.Length1 == N && P.Length2 == N && i <= j < N && k < M
    modifies P
    ensures ok <==> Pos(i, j, k) < |flat| && ParseToken(flat[Pos(i, j, k)]).Some?
    ensures !ok ==> !Parses(flat, Pos(i, j, 0), Pos(i, j, 0) + M)
    ensures forall k', i', j' :: 0 <= k' < M && 0 <= i' < N && 0 <= j' < N ==>
              P[k', i', j'] == if ok && k' == k && i' == i && j' == j then Entry(flat, Pos(i, j, k)) else old(P[k', i', j'])
  {
    var t := Pos(i, j, k);
    if t >= |flat| {
      assert Pos(i, j, 0) <= t < Pos(i, j, 0) + M;
      return false;
    }
    var v := ParseToken(flat[t]);
    if v.None? {
      assert Pos(i, j, 0) <= t < Pos(i, j, 0) + M;
      return false;
    }
    P[k, i, j] := FromInt(v.value);
    return true;
  }

  /** The middle loop: the positions (i, i) .. (i, n - 1) of row i. */
  method FillRow(P: array3<Elem>, flat: seq<string>, i: nat) returns (ok: bool)
    requires P.Length0 == M && P.Length1 == N && P.Length2 == N && i < N
    modifies P
    ensures ok <==> Parses(flat, Pos(i, i, 0), 44 * RowStart(N, i + 1))
    ensures ok ==> forall k, i', j' :: 0 <= k < M && 0 <= i' < N && 0 <= j' < N ==>
                     P[k, i', j'] == if i' == i && i <= j' then Entry(flat, Pos(i, j', k)) else old(P[k, i', j'])
  {
    var j := i;
    while j < N
      invariant i <= j <= N
      invariant Parses(flat, Pos(i, i, 0), Pos(i, i, 0) + (j - i) * M)
      invariant forall k', i', j' :: 0 <= k' < M && 0 <= i' < N && 0 <= j' < N ==>
                  P[k', i', j'] == if i' == i && i <= j' < j then Entry(flat, Pos(i, j', k')) else old(P[k', i', j'])
    {
      ok := FillCell(P, flat, i, j);
      if !ok {
        return;
      }
      j := j + 1;
    }
    return true;
  }

  /** readPK: the token at position t of the flattened list goes to the t-th position of the triple loop. */
  method ReadPK(pk: seq<string>) returns (r: Result<seq<Mat>>)
    ensures r.Err? <==> !WellFormed(Flat(pk))
    ensures r.Ok? ==> r.value == Key(Flat(pk))
  {
    var flat := Interleave(pk);
    var P := new Elem[M, N, N]((_, _, _) => Zero);
    var i := 0;
    while i < N
      invariant i <= N && Parses(flat, 0, 44 * RowStart(N, i))
      invariant forall k', i', j' :: 0 <= k' < M && 0 <= i' < N && 0 <= j' < N ==>
                  P[k', i', j'] == if i' <= j' && i' < i then Entry(flat, Pos(i', j', k')) else Zero
    {
      var ok := FillRow(P, flat, i);
      if !ok {
        RowFails(flat, i);
        return Err("list index out of range or invalid literal for int() with base 16");
      }
      i := i + 1;
    }
    RowStartTotal();
    ArrayIsKey(P, flat);
    r := Ok(Matrices(P));
  }

  /** The array the triple loop has filled holds the key. */
  lemma ArrayIsKey(P: array3<Elem>, flat: seq<string>)
    requires P.Length0 == M && P.Length1 == N && P.Length2 == N
    requires forall k', i', j' :: 0 <= k' < M && 0 <= i' < N && 0 <= j' < N ==>
               P[k', i', j'] == if i' <= j' && i' < N then Entry(flat, Pos(i', j', k')) else Zero
    ensures Matrices(P) == Key(flat)
  {
    KeyEq(Matrices(P), Key(flat));
  }

  /** A row that does not parse, after rows that do, makes the key ill-formed. */
  lemma RowFails(flat: seq<string>, i: nat)
    requires i < N && Parses(flat, 0, 44 * RowStart(N, i)) && !Parses(flat, Pos(i, i, 0), 44 * RowStart(N, i + 1))
    ensures !WellFormed(flat)
  {
    RowStartMonotone(N, i + 1, N);
    RowStartTotal();
  }

  // ---------------------------------------------------------------------
  // The constants

  /** len_old[i] == (68 - i) * 44: row i of P1 holds positions (i, i) .. (i, 67), m tokens each. */
  lemma LenOldFormula(i: nat)
    requires i < 68
    ensures |LenOld| == 68 && LenOld[i] == (V - i) * M
  {
    match i
      case 0 => {}
      case 1 => {}
      case 2 => {}
      case 3 => {}
      case 4 => {}
      case 5 => {}
      case 6 => {}
      case 7 => {}
      case 8 => {}
      case 9 => {}
      case 10 => {}
      case 11 => {}
      case 12 => {}
      case 13 => {}
      case 14 => {}
      case 15 => {}
      case 16 => {}
      case 17 => {}
      case 18 => {}
      case 19 => {}
      case 20 => {}
      case 21 => {}
      case 22 => {}
      case 23 => {}
      case 24 => {}
      case 25 => {}
      case 26 => {}
      case 27 => {}
      case 28 => {}
      case 29 => {}
      case 30 => {}
      case 31 => {}
      case 32 => {}
      case 33 => {}
      case 34 => {}
      case 35 => {}
      case 36 => {}
      case 37 => {}
      case 38 => {}
      case 39 => {}
      case 40 => {}
      case 41 => {}
      case 42 => {}
      case 43 => {}
      case 44 => {}
      case 45 => {}
      case 46 => {}
      case 47 => {}
      case 48 => {}
      case 49 => {}
      case 50 => {}
      case 51 => {}
      case 52 => {}
      case 53 => {}
      case 54 => {}
      case 55 => {}
      case 56 => {}
      case 57 => {}
      case 58 => {}
      case 59 => {}
      case 60 => {}
      case 61 => {}
      case 62 => {}
      case 63 => {}
      case 64 => {}
      case 65 => {}
      case 66 => {}
      case _ => {}
  }

  /** summe, the running sum of len_old, reaches the start of the next row of P1. */
  lemma SummeStep(i: nat)
    requires i < 68
    ensures Offset(i) + LenOld[i] == Offset(i + 1)
  {
    LenOldFormula(i);
  }

  /** 2 * RowStart(w, i) == i * (2w - i + 1) */
  lemma {:induction false} RowStartClosed(w: nat, i: nat)
    requires i <= w
    ensures 2 * RowStart(w, i) == i * (2 * w - i + 1)
  {
    if i > 0 {
      RowStartClosed(w, i - 1);
      assert (i - 1) * (2 * w - (i - 1) + 1) + 2 * (w - (i - 1)) == i * (2 * w - i + 1);
    }
  }

  /** The rows of P1 end at len(P1) == 103224. */
  lemma LenOldSum()
    ensures Offset(68) == P1Len
  {
    RowStartClosed(V, 68);
  }

  lemma RowStartTotal()
    ensures 44 * RowStart(N, N) == Total
  {
    RowStartClosed(N, N);
  }

  lemma {:induction false} RowStartMonotone(w: nat, i: nat, i': nat)
    requires i <= i' <= w
    ensures RowStart(w, i) + (i' - i) <= RowStart(w, i')
    decreases i' - i
  {
    if i < i' {
      RowStartMonotone(w, i, i' - 1);
    }
  }

  /** Every position of the triple loop reads a token of the key. */
  lemma PosBound(i: nat, j: nat, k: nat)
    requires i <= j < N && k < M
    ensures Pos(i, j, k) < Total
  {
    RowStartMonotone(N, i + 1, N);
    RowStartTotal();
  }

  /**
   * The triple loop reads every token once and in order: Pos is strictly
   * increasing in the order of the loop.
   */
  lemma PosIncreasing(i: nat, j: nat, k: nat, i': nat, j': nat, k': nat)
    requires i <= j < N && k < M && i' <= j' < N && k' < M
    requires Before(i, j, k, i', j', k')
    ensures Pos(i, j, k) < Pos(i', j', k')
  {
    if i < i' {
      RowStartMonotone(N, i + 1, i');
    }
  }

  /** Below the diagonal every matrix is zero. */
  lemma KeyUpper(flat: seq<string>)
    ensures forall k :: 0 <= k < M ==> UpperTriangular(Key(flat)[k], N)
  {}

  /** The closed form of the index: P[k][i, j] is token m * sum_{r<i} (n - r) + (j - i) * m + k. */
  lemma KeyIndex(flat: seq<string>, k: nat, i: nat, j: nat)
    requires WellFormed(flat) && k < M && i <= j < N
    ensures 2 * RowStart(N, i) == i * (2 * N - i + 1)
    ensures Pos(i, j, k) < Total
    ensures Key(flat)[k][i][j] == FromInt(ParseToken(flat[Pos(i, j, k)]).value)
    ensures Rank(Key(flat)[k][i][j]) == ParseToken(flat[Pos(i, j, k)]).value
  {
    RowStartClosed(N, i);
    PosBound(i, j, k);
    FromIntRank(ParseToken(flat[Pos(i, j, k)]).value);
  }

  /**
   * Tokens as the key generator writes them ("0x%02X") and as plain hex
   * parse to their byte; a value of nine or more binary digits does not
   * parse, so a key holding it is not well formed; nor does a bare prefix.
   */
  lemma PrefixedTokenExample()
    ensures ParseToken("0x1B") == Some(0x1B)
  {
    assert HexData.Strip("0x1B") == "0x1B" && Digits16("0x1B") == "1B";
    assert "1B"[..1] == "1" && "1"[..0] == "";
    assert HexValue("1B") == 16 * HexValue("1") + 11 && HexValue("1") == 1;
  }

  lemma PaddedTokenExample()
    ensures ParseToken(" ff\n") == Some(0xFF)
  {
    assert HexData.TrimStart(" ff\n") == "ff\n" && HexData.TrimEnd("ff\n") == "ff";
    assert Digits16("ff") == "ff" && HexData.AllHex("ff");
    assert "ff"[..1] == "f" && "f"[..0] == "";
    assert HexValue("ff") == 16 * HexValue("f") + 15 && HexValue("f") == 15;
  }

  lemma WideTokenExample()
    ensures ParseToken("100") == None
  {
    assert HexData.Strip("100") == "100";
    assert "100"[..2] == "10" && "10"[..1] == "1" && "1"[..0] == "";
    assert HexValue("100") == 16 * HexValue("10") && HexValue("10") == 16 * HexValue("1");
  }

  lemma BarePrefixExample()
    ensures ParseToken("0x") == None
  {
    assert HexData.Strip("0x") == "0x";
  }

  lemma KeyEq(A: seq<Mat>, B: seq<Mat>)
    requires |A| == |B| == M
    requires forall k :: 0 <= k < M ==>
               IsMat(A[k], N, N) && IsMat(B[k], N, N) &&
               (forall i, j :: 0 <= i < N && 0 <= j < N ==> A[k][i][j] == B[k][i][j])
    ensures A == B
  {
    forall k | 0 <= k < M
      ensures A[k] == B[k]
    {
      forall i | 0 <= i < N
        ensures A[k][i] == B[k][i]
      {}
    }
  }

  // ---------------------------------------------------------------------
  // The interleaving is a permutation

  /** Slicing at nondecreasing offsets cuts a list into consecutive pieces. */
  lemma SliceJoin<T>(s: seq<T>, a: nat, b: nat, c: nat)
    requires a <= b <= c
    ensures Slice(s, a, b) + Slice(s, b, c) == Slice(s, a, c)
  {}

  /** The P1 rows, in order, make up P1: the 68 slices tile it. */
  lemma {:induction false} P1RowsTile<T>(P1: seq<T>, i: nat)
    requires i <= 68
    ensures Flatten(seq(i, r requires 0 <= r < i => P1Row(P1, r))) == Slice(P1, 0, Offset(i))
  {
    if i > 0 {
      var rows := seq(i, r requires 0 <= r < i => P1Row(P1, r));
      assert rows[..i - 1] == seq(i - 1, r requires 0 <= r < i - 1 => P1Row(P1, r));
      P1RowsTile(P1, i - 1);
      SliceJoin(P1, 0, Offset(i - 1), Offset(i));
    }
  }

  /** The 68 slices of 1936 tokens tile P2. */
  lemma {:induction false} P2RowsTile<T>(P2: seq<T>, i: nat)
    ensures Flatten(seq(i, r requires 0 <= r < i => P2Row(P2, r))) == Slice(P2, 0, i * RowLen)
  {
    if i > 0 {
      var rows := seq(i, r requires 0 <= r < i => P2Row(P2, r));
      assert rows[..i - 1] == seq(i - 1, r requires 0 <= r < i - 1 => P2Row(P2, r));
      P2RowsTile(P2, i - 1);
      SliceJoin(P2, 0, (i - 1) * RowLen, i * RowLen);
    }
  }

  /** When the P1 and P2 parts are no longer than 103224 and 131648 tokens, the rows cover them entirely. */
  lemma RowsTile<T>(P1: seq<T>, P2: seq<T>)
    requires |P1| <= P1Len && |P2| <= 68 * RowLen
    ensures Flatten(seq(68, r requires 0 <= r < 68 => P1Row(P1, r))) == P1
    ensures Flatten(seq(68, r requires 0 <= r < 68 => P2Row(P2, r))) == P2
  {
    P1RowsTile(P1, 68);
    LenOldSum();
    P2RowsTile(P2, 68);
  }

  lemma FlattenAppend<T>(ss: seq<seq<T>>, a: seq<T>, b: seq<T>)
    ensures Flatten(ss + [a, b]) == Flatten(ss) + a + b
    ensures Flatten(ss + [a]) == Flatten(ss) + a
  {
    assert (ss + [a, b])[..|ss| + 1] == ss + [a];
    assert (ss + [a])[..|ss|] == ss;
  }

  lemma {:induction false} InterleavedMultiset<T>(P1: seq<T>, P2: seq<T>, i: nat)
    requires i <= 68
    ensures multiset(Flatten(Interleaved(P1, P2, i))) == multiset(Slice(P1, 0, Offset(i))) + multiset(Slice(P2, 0, i * RowLen))
  {
    if i > 0 {
      InterleavedMultiset(P1, P2, i - 1);
      InterleavedStep(P1, P2, i);
      MultisetShuffle(Flatten(Interleaved(P1, P2, i - 1)), P1Row(P1, i - 1), P2Row(P2, i - 1),
                      Slice(P1, 0, Offset(i - 1)), Slice(P2, 0, (i - 1) * RowLen));
    }
  }

  /** One more iteration of the interleaving loop appends one row of P1 and one of P2. */
  lemma InterleavedStep<T>(P1: seq<T>, P2: seq<T>, i: nat)
    requires 0 < i <= 68
    ensures Flatten(Interleaved(P1, P2, i)) == Flatten(Interleaved(P1, P2, i - 1)) + P1Row(P1, i - 1) + P2Row(P2, i - 1)
    ensures Slice(P1, 0, Offset(i - 1)) + P1Row(P1, i - 1) == Slice(P1, 0, Offset(i))
    ensures Slice(P2, 0, (i - 1) * RowLen) + P2Row(P2, i - 1) == Slice(P2, 0, i * RowLen)
  {
    FlattenAppend(Interleaved(P1, P2, i - 1), P1Row(P1, i - 1), P2Row(P2, i - 1));
    SliceJoin(P1, 0, Offset(i - 1), Offset(i));
    SliceJoin(P2, 0, (i - 1) * RowLen, i * RowLen);
  }

  /** With multiset(F) == multiset(a + b): multiset(F + r1 + r2) == multiset(a + r1) + multiset(b + r2). */
  lemma MultisetShuffle<T>(F: seq<T>, r1: seq<T>, r2: seq<T>, a: seq<T>, b: seq<T>)
    requires multiset(F) == multiset(a) + multiset(b)
    ensures multiset(F + r1 + r2) == multiset(a + r1) + multiset(b + r2)
  {
    calc {
      multiset(F + r1 + r2);
      multiset(F) + multiset(r1) + multiset(r2);
      multiset(a) + multiset(r1) + (multiset(b) + multiset(r2));
    }
  }

  /** The flattened list is a permutation of the tokens of the file. */
  lemma FlatPermutation<T>(pk: seq<T>)
    ensures multiset(Flat(pk)) == multiset(pk)
  {
    var P1, P2, P3 := Slice(pk, 0, P1Len), Slice(pk, P1Len, P2End), Drop(pk, P2End);
    var rows := Interleaved(P1, P2, 68);
    InterleavedMultiset(P1, P2, 68);
    LenOldSum();
    assert Slice(P1, 0, Offset(68)) == P1;
    assert Slice(P2, 0, 68 * RowLen) == P2;
    FlattenAppend(rows, P3, []);
    assert pk == P1 + P2 + P3;
    calc {
      multiset(Flat(pk));
      multiset(Flatten(rows) + P3);
      multiset(P1) + multiset(P2) + multiset(P3);
      multiset(pk);
    }
  }
}
