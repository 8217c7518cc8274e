/**
 * The 8-bit CRC of SimpleSerial packets: generator x^8 + x^6 + x^3 + x^2 + 1
 * (0x4D without its leading term), register initialised to 0, bytes fed
 * most significant bit first, no final XOR.
 */
module Crc8 {
  import opened Bytes

  const Poly: bv8 := 0x4D

  /** One clock of the register: shift left, feed back the polynomial when the top bit drops out. */
  function ShiftOnce(c: bv8): bv8 {
    if c & 0x80 != 0 then (c << 1) ^ Poly else c << 1
  }

  /** k clocks of the register. */
  function Shifts(c: bv8, k: nat): bv8 {
    if k == 0 then c else ShiftOnce(Shifts(c, k - 1))
  }

  /** The register after one more byte: XOR it in, then eight clocks. */
  function Update(crc: bv8, b: byte): bv8 {
    Shifts(crc ^ b, 8)
  }

  /** The CRC of a whole buffer, byte after byte from an all-zero register. */
  function Crc(s: seq<byte>): bv8 {
    if s == [] then 0 else Update(Crc(s[..|s| - 1]), s[|s| - 1])
  }

  /** calc_crc: the byte loop and the eight-clock inner loop. */
  method CalcCrc(buf: array<byte>, len: nat) returns (crc: bv8)
    requires len <= buf.Length
    ensures crc == Crc(buf[..len])
  {
    crc := 0;
    var i := 0;
    while i < len
      invariant 0 <= i <= len
      invariant crc == Crc(buf[..i])
    {
      assert buf[..i + 1][..i] == buf[..i];
      crc := crc ^ buf[i];
      ghost var start := crc;
      var j: nat := 0;
      while j < 8
        invariant j <= 8
        invariant crc == Shifts(start, j)
      {
        if crc & 0x80 != 0 {
          crc := (crc << 1) ^ Poly;
        } else {
          crc := crc << 1;
        }
        j := j + 1;
      }
      i := i + 1;
    }
  }

  // ---------------------------------------------------------------------
  // What the checksum guarantees

  /** calc_crc of an empty buffer is 0. */
  lemma CrcEmpty()
    ensures Crc([]) == 0
  {}

  /** A buffer followed by its own CRC has CRC 0 (the residue of a correct packet). */
  lemma CrcResidue(s: seq<byte>)
    ensures Crc(s + [Crc(s)]) == 0
  {
    assert (s + [Crc(s)])[..|s|] == s;
  }

  /** With the register starting at 0, leading zero bytes do not change the CRC. */
  lemma {:induction false} LeadingZeroInvisible(s: seq<byte>)
    ensures Crc([0] + s) == Crc(s)
    decreases |s|
  {
    if s != [] {
      assert ([0] + s)[..|s|] == [0] + s[..|s| - 1];
      LeadingZeroInvisible(s[..|s| - 1]);
    }
  }

  /** The register never loses information: distinct states stay distinct. */
  lemma ShiftsInjective(a: bv8, b: bv8, k: nat)
    requires a != b
    ensures Shifts(a, k) != Shifts(b, k)
  {
    if k > 0 {
      ShiftsInjective(a, b, k - 1);
    }
  }

  /** Distinct registers, or distinct bytes into one register, give distinct results. */
  lemma UpdateInjective(a: bv8, b: byte, a': bv8, b': byte)
    requires a ^ b != a' ^ b'
    ensures Update(a, b) != Update(a', b')
  {
    ShiftsInjective(a ^ b, a' ^ b', 8);
  }

  /** The CRC of a prefix one byte longer. */
  lemma CrcPrefixStep(s: seq<byte>, k: nat)
    requires k < |s|
    ensures Crc(s[..k + 1]) == Update(Crc(s[..k]), s[k])
  {
    assert s[..k + 1][..k] == s[..k];
  }

  /** Two distinct registers fed the same bytes stay distinct. */
  lemma {:induction false} CrcSeparates(s: seq<byte>, t: seq<byte>, k: nat)
    requires |s| == |t| && k <= |s|
    requires Crc(s[..k]) != Crc(t[..k])
    requires forall i :: k <= i < |s| ==> s[i] == t[i]
    ensures Crc(s) != Crc(t)
    decreases |s| - k
  {
    if k < |s| {
      CrcPrefixStep(s, k);
      CrcPrefixStep(t, k);
      UpdateInjective(Crc(s[..k]), s[k], Crc(t[..k]), t[k]);
      CrcSeparates(s, t, k + 1);
    } else {
      assert s[..k] == s && t[..k] == t;
    }
  }

  /** Any corruption confined to a single byte changes the CRC. */
  lemma CrcDetectsOneByteChange(s: seq<byte>, t: seq<byte>, k: nat)
    requires |s| == |t| && k < |s| && s[k] != t[k]
    requires forall i :: 0 <= i < |s| && i != k ==> s[i] == t[i]
    ensures Crc(s) != Crc(t)
  {
    assert s[..k] == t[..k];
    CrcPrefixStep(s, k);
    CrcPrefixStep(t, k);
    UpdateInjective(Crc(s[..k]), s[k], Crc(t[..k]), t[k]);
    CrcSeparates(s, t, k + 1);
  }
}
