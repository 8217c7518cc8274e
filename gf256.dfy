/**
 * The field GF(2^8) = GF(2)[z]/(z^8 + z^4 + z^3 + z + 1) that the key
 * recovery works in (the reduction polynomial of AES, section 4.2 of
 * FIPS 197).  An element is the list of its eight coefficients in GF(2),
 * c0 for z^0 up to c7 for z^7; the byte whose bit b is the coefficient of
 * z^b is the usual view of it (see Rank).
 *
 * Addition is the coefficient-wise sum in GF(2), multiplication by z is a
 * shift followed by the reduction z^8 = z^4 + z^3 + z + 1, and the product
 * is the shift-and-add recursion over the coefficients of the right
 * operand.  The ring laws are proved by induction over that recursion.
 */
module GF256 {

  datatype Elem = E(c0: bool, c1: bool, c2: bool, c3: bool, c4: bool, c5: bool, c6: bool, c7: bool)

  const Zero: Elem := E(false, false, false, false, false, false, false, false)
  const One: Elem := E(true, false, false, false, false, false, false, false)

  /** Field addition, which is also subtraction (the characteristic is 2). */
  function Add(a: Elem, b: Elem): Elem {
    E(a.c0 != b.c0, a.c1 != b.c1, a.c2 != b.c2, a.c3 != b.c3,
      a.c4 != b.c4, a.c5 != b.c5, a.c6 != b.c6, a.c7 != b.c7)
  }

  /**
   * Multiplication by z: every coefficient moves up one power, and the
   * coefficient of z^8 (the old c7) comes back as z^4 + z^3 + z + 1.
   */
  function XTime(a: Elem): Elem {
    E(a.c7, a.c0 != a.c7, a.c1, a.c2 != a.c7, a.c3 != a.c7, a.c4, a.c5, a.c6)
  }

  /** Every coefficient moved down one power, the constant one dropped. */
  function Half(b: Elem): Elem {
    E(b.c1, b.c2, b.c3, b.c4, b.c5, b.c6, b.c7, false)
  }

  /** The multiple c * a for a coefficient c in GF(2). */
  function Scale(c: bool, a: Elem): Elem {
    if c then a else Zero
  }

  function Weight(c: bool, w: nat): nat {
    if c then w else 0
  }

  /** The byte an element is stored as: coefficient b has weight 2^b. */
  function Rank(e: Elem): nat {
    Weight(e.c0, 1) + Weight(e.c1, 2) + Weight(e.c2, 4) + Weight(e.c3, 8) +
    Weight(e.c4, 16) + Weight(e.c5, 32) + Weight(e.c6, 64) + Weight(e.c7, 128)
  }

  lemma HalfRank(b: Elem)
    requires b != Zero
    ensures Rank(Half(b)) < Rank(b)
  {}

  /**
   * Field multiplication by shift and add:
   * a * b == b_0 * a + (z a) * (b / z).
   */
  function Mul(a: Elem, b: Elem): Elem
    decreases Rank(b)
  {
    if b == Zero then Zero
    else
      HalfRank(b);
      Add(Scale(b.c0, a), Mul(XTime(a), Half(b)))
  }

  // ---------------------------------------------------------------------
  // Addition

  lemma AddComm(a: Elem, b: Elem)
    ensures Add(a, b) == Add(b, a)
  {}

  lemma AddAssoc(a: Elem, b: Elem, c: Elem)
    ensures Add(Add(a, b), c) == Add(a, Add(b, c))
  {}

  /** Zero is neutral and every element is its own negative. */
  lemma AddZeroSelf(a: Elem)
    ensures Add(a, Zero) == a && Add(Zero, a) == a
    ensures Add(a, a) == Zero
  {}

  /** Adding a twice cancels it. */
  lemma AddCancel(a: Elem, b: Elem)
    ensures Add(Add(a, b), a) == b && Add(Add(b, a), a) == b
  {}

  lemma AddShuffle(a: Elem, b: Elem, c: Elem, d: Elem)
    ensures Add(Add(a, b), Add(c, d)) == Add(Add(a, c), Add(b, d))
  {}

  lemma XTimeLinear(a: Elem, b: Elem)
    ensures XTime(Add(a, b)) == Add(XTime(a), XTime(b))
  {}

  lemma HalfLinear(b: Elem, c: Elem)
    ensures Half(Add(b, c)) == Add(Half(b), Half(c))
    ensures Add(b, c).c0 == (b.c0 != c.c0)
  {}

  lemma ScaleLinear(c: bool, d: bool, a: Elem)
    ensures Scale(c != d, a) == Add(Scale(c, a), Scale(d, a))
  {}

  lemma ScaleDistributes(c: bool, a: Elem, a': Elem)
    ensures Scale(c, Add(a, a')) == Add(Scale(c, a), Scale(c, a'))
  {}

  /** b is its constant coefficient plus z times the rest. */
  lemma Decompose(b: Elem)
    ensures b == Add(Scale(b.c0, One), XTime(Half(b)))
  {}

  // ---------------------------------------------------------------------
  // The multiplication recursion

  /** One step of the recursion, for every b (for b == 0 both sides are 0). */
  lemma Unfold(a: Elem, b: Elem)
    ensures Mul(a, b) == Add(Scale(b.c0, a), Mul(XTime(a), Half(b)))
  {
    if b == Zero {
      assert Half(b) == Zero;
    }
  }

  /** The measure of MulDistRight goes down. */
  lemma HalfRankSum(b: Elem, c: Elem)
    requires b != Zero || c != Zero
    ensures Rank(Half(b)) + Rank(Half(c)) < Rank(b) + Rank(c)
  {
    if b == Zero {
      assert Half(b) == Zero;
      HalfRank(c);
    } else if c == Zero {
      assert Half(c) == Zero;
      HalfRank(b);
    } else {
      HalfRank(b);
      HalfRank(c);
    }
  }

  lemma DistRightStep(a: Elem, b: Elem, c: Elem)
    requires Mul(XTime(a), Add(Half(b), Half(c))) == Add(Mul(XTime(a), Half(b)), Mul(XTime(a), Half(c)))
    ensures Mul(a, Add(b, c)) == Add(Mul(a, b), Mul(a, c))
  {
    Unfold(a, b);
    Unfold(a, c);
    Unfold(a, Add(b, c));
    HalfLinear(b, c);
    ScaleLinear(b.c0, c.c0, a);
    AddShuffle(Scale(b.c0, a), Scale(c.c0, a), Mul(XTime(a), Half(b)), Mul(XTime(a), Half(c)));
  }

  /** a * (b + c) == a * b + a * c */
  lemma {:induction false} MulDistRight(a: Elem, b: Elem, c: Elem)
    ensures Mul(a, Add(b, c)) == Add(Mul(a, b), Mul(a, c))
    decreases Rank(b) + Rank(c)
  {
    if b != Zero || c != Zero {
      HalfRankSum(b, c);
      MulDistRight(XTime(a), Half(b), Half(c));
      DistRightStep(a, b, c);
    } else {
      AddZeroSelf(Zero);
    }
  }

  /** (a + a') * b == a * b + a' * b */
  lemma {:induction false} MulDistLeft(a: Elem, a': Elem, b: Elem)
    ensures Mul(Add(a, a'), b) == Add(Mul(a, b), Mul(a', b))
    decreases Rank(b)
  {
    if b != Zero {
      HalfRank(b);
      MulDistLeft(XTime(a), XTime(a'), Half(b));
      XTimeLinear(a, a');
      Unfold(a, b);
      Unfold(a', b);
      Unfold(Add(a, a'), b);
      ScaleDistributes(b.c0, a, a');
      AddShuffle(Scale(b.c0, a), Scale(b.c0, a'), Mul(XTime(a), Half(b)), Mul(XTime(a'), Half(b)));
    }
  }

  lemma {:induction false} MulZeroLeft(b: Elem)
    ensures Mul(Zero, b) == Zero
    decreases Rank(b)
  {
    if b != Zero {
      HalfRank(b);
      MulZeroLeft(Half(b));
      Unfold(Zero, b);
    }
  }

  /** (z a) * b == z (a * b) */
  lemma {:induction false} MulXTimeLeft(a: Elem, b: Elem)
    ensures Mul(XTime(a), b) == XTime(Mul(a, b))
    decreases Rank(b)
  {
    if b != Zero {
      HalfRank(b);
      MulXTimeLeft(XTime(a), Half(b));
      Unfold(a, b);
      Unfold(XTime(a), b);
      XTimeLinear(Scale(b.c0, a), Mul(XTime(a), Half(b)));
    }
  }

  /** One step of the recursion with the factor z taken outside. */
  lemma UnfoldOut(a: Elem, b: Elem)
    ensures Mul(a, b) == Add(Scale(b.c0, a), XTime(Mul(a, Half(b))))
  {
    Unfold(a, b);
    MulXTimeLeft(a, Half(b));
  }

  /** 1 * b == b */
  lemma {:induction false} MulOneLeft(b: Elem)
    ensures Mul(One, b) == b
    decreases Rank(b)
  {
    if b != Zero {
      HalfRank(b);
      MulOneLeft(Half(b));
      UnfoldOut(One, b);
      Decompose(b);
    }
  }

  // ---------------------------------------------------------------------
  // Ring laws

  /** One is the unit and zero annihilates, on both sides. */
  lemma MulUnitZero(a: Elem)
    ensures Mul(One, a) == a && Mul(a, One) == a
    ensures Mul(a, Zero) == Zero && Mul(Zero, a) == Zero
  {
    MulOneLeft(a);
    MulZeroLeft(a);
    Unfold(a, One);
    assert Half(One) == Zero;
    AddZeroSelf(a);
  }

  /** a * b == b * a */
  lemma {:induction false} MulComm(a: Elem, b: Elem)
    ensures Mul(a, b) == Mul(b, a)
    decreases Rank(b)
  {
    if b != Zero {
      HalfRank(b);
      MulComm(a, Half(b));
      UnfoldOut(a, b);
      Decompose(b);
      MulDistLeft(Scale(b.c0, One), XTime(Half(b)), a);
      MulXTimeLeft(Half(b), a);
      MulUnitZero(a);
    } else {
      MulUnitZero(a);
    }
  }

  /** a * (z b) == z (a * b) */
  lemma MulXTimeRight(a: Elem, b: Elem)
    ensures Mul(a, XTime(b)) == XTime(Mul(a, b))
  {
    MulComm(a, XTime(b));
    MulXTimeLeft(b, a);
    MulComm(b, a);
  }

  /** a * (c b) == c (a * b) for a coefficient c. */
  lemma MulScaleRight(a: Elem, c: bool, b: Elem)
    ensures Mul(a, Scale(c, b)) == Scale(c, Mul(a, b))
  {
    MulUnitZero(a);
  }

  /** a * (b * c) == (a * b) * c */
  lemma {:induction false} MulAssoc(a: Elem, b: Elem, c: Elem)
    ensures Mul(a, Mul(b, c)) == Mul(Mul(a, b), c)
    decreases Rank(c)
  {
    if c != Zero {
      HalfRank(c);
      MulAssoc(a, b, Half(c));
      UnfoldOut(b, c);
      UnfoldOut(Mul(a, b), c);
      MulDistRight(a, Scale(c.c0, b), XTime(Mul(b, Half(c))));
      MulScaleRight(a, c.c0, b);
      MulXTimeRight(a, Mul(b, Half(c)));
    } else {
      MulUnitZero(b);
      MulUnitZero(a);
      MulUnitZero(Mul(a, b));
    }
  }

  // ---------------------------------------------------------------------
  // Integers to field elements

  /** Binary digits, least significant first; the empty list for 0. */
  function Digits(x: nat): (ds: seq<nat>)
    ensures forall i :: 0 <= i < |ds| ==> ds[i] < 2
  {
    if x == 0 then [] else [x % 2] + Digits(x / 2)
  }

  /**
   * The field element sum of cs[i] * z^i, each coefficient taken in GF(2)
   * and powers at or above z^8 reduced by the field polynomial (Horner's
   * rule: c0 + z * (c1 + z * (...))).  On a list of at most eight binary
   * digits, that is an integer below 256, this is how the list becomes an
   * element of the field; K raises on a longer list, so the public key
   * reader only hands it integers below 256 (see PublicKey.ParseToken).
   */
  function FromCoeffs(cs: seq<nat>): Elem {
    if cs == [] then Zero else Add(Scale(cs[0] % 2 == 1, One), XTime(FromCoeffs(cs[1..])))
  }

  /** The element an integer denotes: its binary digits as coefficients. */
  function FromInt(x: nat): Elem {
    FromCoeffs(Digits(x))
  }

  /** The element of x is its low digit plus z times the element of x / 2. */
  lemma FromIntStep(x: nat)
    requires x > 0
    ensures FromInt(x) == Add(Scale(x % 2 == 1, One), XTime(FromInt(x / 2)))
  {
    assert Digits(x)[1..] == Digits(x / 2);
  }

  lemma ShiftRank(y: Elem, c: bool)
    requires Rank(y) < 128
    ensures Rank(Add(Scale(c, One), XTime(y))) == 2 * Rank(y) + (if c then 1 else 0)
  {}

  /** An integer below 256 denotes the element stored as that byte. */
  lemma {:induction false} FromIntRank(x: nat)
    requires x < 256
    ensures Rank(FromInt(x)) == x
  {
    if x > 0 {
      FromIntRank(x / 2);
      FromIntStep(x);
      ShiftRank(FromInt(x / 2), x % 2 == 1);
    }
  }

  /** From section 4.2 of FIPS 197: z^7 * z wraps round to z^4 + z^3 + z + 1. */
  lemma MulWrapExample()
    ensures Mul(FromInt(0x80), FromInt(0x02)) == FromInt(0x1B)
  {
    ByteElem(0x80, E(false, false, false, false, false, false, false, true));
    ByteElem(0x02, E(false, true, false, false, false, false, false, false));
    ByteElem(0x1B, E(true, true, false, true, true, false, false, false));
  }

  /** From section 4.2 of FIPS 197: the elements stored as {57} and {83} multiply to {c1}. */
  lemma MulExample(a: Elem, b: Elem)
    requires Rank(a) == 0x57 && Rank(b) == 0x83
    ensures Rank(Mul(a, b)) == 0xC1
  {
    RankInjective(a, E(true, true, true, false, true, false, true, false));
    RankInjective(b, E(true, true, false, false, false, false, false, true));
    MulExampleSteps();
  }

  /** The shift-and-add steps of {57} * {83}: {57} + {ae} + z^6 * {ae}. */
  lemma MulExampleSteps()
    ensures Mul(E(true, true, true, false, true, false, true, false), E(true, true, false, false, false, false, false, true))
         == E(true, false, false, false, false, false, true, true)
  {
    var a := E(true, true, true, false, true, false, true, false);
    var b := E(true, true, false, false, false, false, false, true);
    var a1, b1 := XTime(a), Half(b);
    assert Mul(a, b) == Add(a, Mul(a1, b1));
    var a2, b2 := XTime(a1), Half(b1);
    assert Mul(a1, b1) == Add(a1, Mul(a2, b2));
    var a3, b3 := XTime(a2), Half(b2);
    assert Mul(a2, b2) == Mul(a3, b3);
    var a4, b4 := XTime(a3), Half(b3);
    assert Mul(a3, b3) == Mul(a4, b4);
    var a5, b5 := XTime(a4), Half(b4);
    assert Mul(a4, b4) == Mul(a5, b5);
    var a6, b6 := XTime(a5), Half(b5);
    assert Mul(a5, b5) == Mul(a6, b6);
    var a7, b7 := XTime(a6), Half(b6);
    assert Mul(a6, b6) == Mul(a7, b7);
    assert Mul(a7, b7) == a7;
  }
  /** Distinct integers below 256 denote distinct elements. */
  lemma FromIntInjective(x: nat, y: nat)
    requires x < 256 && y < 256 && x != y
    ensures FromInt(x) != FromInt(y)
  {
    FromIntRank(x);
    FromIntRank(y);
  }

  /** The element of a byte is the one of that rank. */
  lemma ByteElem(x: nat, e: Elem)
    requires x < 256 && Rank(e) == x
    ensures FromInt(x) == e
  {
    FromIntRank(x);
    RankInjective(FromInt(x), e);
  }

  lemma RankInjective(a: Elem, b: Elem)
    requires Rank(a) == Rank(b)
    ensures a == b
  {}
}
