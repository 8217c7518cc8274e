/**
 * The GPIO helpers of the STM32F4 header: the mode and pull-up/pull-down
 * configuration of selected pins, and setting or clearing pins through
 * the bit set/reset register (BSRR).  Registers are 32-bit values read
 * before and written after each operation; pin numbers, masks and
 * register values are unsigned 32-bit words.
 */
module Gpio {
  import opened Wrappers

  type Word = bv32

  const ModeInput: bv8 := 0x00
  const ModeOutput: bv8 := 0x01
  const ModeAf: bv8 := 0x02
  const ModeAnalog: bv8 := 0x03
  const PupdNone: bv8 := 0x00
  const PupdPullUp: bv8 := 0x01
  const PupdPullDown: bv8 := 0x02

  /** GPIO12 and GPIO15 (1u << 12, 1u << 15). */
  const Gpio12: bv16 := 0x1000
  const Gpio15: bv16 := 0x8000

  /** p is one of the 16 pins of a port. */
  predicate IsPin(p: Word) {
    p < 16
  }

  /** GPIO_MODE_MASK(p) and GPIO_PUPD_MASK(p) on unsigned words: 0b11 at bits 2p and 2p+1. */
  function FieldMask(p: Word): Word
    requires IsPin(p)
  {
    3 << (2 * p)
  }

  /** GPIO_MODE(p, v) and GPIO_PUPD(p, v) on unsigned words: v & 3 at bits 2p and 2p+1. */
  function FieldValue(p: Word, v: bv8): Word
    requires IsPin(p)
  {
    ((v & 3) as Word) << (2 * p)
  }

  /** The two configuration bits of pin p in a MODER or PUPDR value. */
  function Field(x: Word, p: Word): Word
    requires IsPin(p)
  {
    (x >> (2 * p)) & 3
  }

  /** The loop's test (1 << i) & gpios: pin p is among the pins to configure. */
  predicate Selected(gpios: bv16, p: Word)
    requires IsPin(p)
  {
    (1 << p) & (gpios as Word) != 0
  }

  /** The loop body for a selected pin: clear its field, then OR in the new value. */
  function SetField(x: Word, p: Word, v: bv8): Word
    requires IsPin(p)
  {
    (x & !FieldMask(p)) | FieldValue(p, v)
  }

  /** The register value once the loop has visited pins 0 .. n-1. */
  function SetFields(x: Word, v: bv8, gpios: bv16, n: Word): Word
    requires n <= 16
    decreases n
  {
    if n == 0 then x
    else
      var y := SetFields(x, v, gpios, n - 1);
      if Selected(gpios, n - 1) then SetField(y, n - 1, v) else y
  }

  /** The updated pin's field holds the new value. */
  lemma SetFieldSame(x: Word, p: Word, v: bv8)
    requires IsPin(p)
    ensures Field(SetField(x, p, v), p) == (v & 3) as Word
  {}

  /** Every other pin's field is kept. */
  lemma SetFieldOther(x: Word, p: Word, v: bv8, q: Word)
    requires IsPin(p) && IsPin(q) && q != p
    ensures Field(SetField(x, p, v), q) == Field(x, q)
  {}

  /**
   * After pins 0 .. n-1: the field of each selected pin among them holds
   * v & 3, and every other field is as it was read.
   */
  lemma {:induction false} SetFieldsField(x: Word, v: bv8, gpios: bv16, n: Word, q: Word)
    requires n <= 16 && IsPin(q)
    ensures Field(SetFields(x, v, gpios, n), q) == if q < n && Selected(gpios, q) then (v & 3) as Word else Field(x, q)
    decreases n
  {
    if n > 0 {
      SetFieldsField(x, v, gpios, n - 1, q);
      var y := SetFields(x, v, gpios, n - 1);
      if Selected(gpios, n - 1) {
        if q == n - 1 {
          SetFieldSame(y, q, v);
        } else {
          SetFieldOther(y, n - 1, v, q);
        }
      }
    }
  }

  /** A register value is determined by its 16 two-bit fields. */
  lemma FieldsDetermine(a: Word, b: Word)
    requires forall q: Word :: IsPin(q) ==> Field(a, q) == Field(b, q)
    ensures a == b
  {
    assert Field(a, 0) == Field(b, 0) && Field(a, 1) == Field(b, 1);
    assert Field(a, 2) == Field(b, 2) && Field(a, 3) == Field(b, 3);
    assert Field(a, 4) == Field(b, 4) && Field(a, 5) == Field(b, 5);
    assert Field(a, 6) == Field(b, 6) && Field(a, 7) == Field(b, 7);
    assert Field(a, 8) == Field(b, 8) && Field(a, 9) == Field(b, 9);
    assert Field(a, 10) == Field(b, 10) && Field(a, 11) == Field(b, 11);
    assert Field(a, 12) == Field(b, 12) && Field(a, 13) == Field(b, 13);
    assert Field(a, 14) == Field(b, 14) && Field(a, 15) == Field(b, 15);
  }

  /** Configuring the same pins twice with the same value gives what configuring them once gives. */
  lemma SetFieldsIdempotent(x: Word, v: bv8, gpios: bv16)
    ensures SetFields(SetFields(x, v, gpios, 16), v, gpios, 16) == SetFields(x, v, gpios, 16)
  {
    var once := SetFields(x, v, gpios, 16);
    forall q: Word | IsPin(q)
      ensures Field(SetFields(once, v, gpios, 16), q) == Field(once, q)
    {
      SetFieldsField(once, v, gpios, 16, q);
      SetFieldsField(x, v, gpios, 16, q);
    }
    FieldsDetermine(SetFields(once, v, gpios, 16), once);
  }

  /** moder &= ~GPIO_MODE_MASK(i); moder |= GPIO_MODE(i, v) (and the same for pupd). */
  method ConfigurePin(x: Word, i: Word, v: bv8) returns (y: Word)
    requires IsPin(i)
    ensures Field(y, i) == (v & 3) as Word
    ensures forall q: Word :: IsPin(q) && q != i ==> Field(y, q) == Field(x, q)
    ensures y == SetField(x, i, v)
  {
    y := x & !(3 << (2 * i));
    y := y | (((v & 3) as Word) << (2 * i));
    SetFieldSame(x, i, v);
    forall q: Word | IsPin(q) && q != i
      ensures Field(y, q) == Field(x, q)
    {
      SetFieldOther(x, i, v, q);
    }
  }

  /**
   * inline_gpio_mode_setup: from the MODER and PUPDR values read at the
   * start, the values written back at the end.
   */
  method ModeSetup(moderIn: Word, pupdIn: Word, mode: bv8, pullUpDown: bv8, gpios: bv16)
    returns (moder: Word, pupd: Word)
    ensures moder == SetFields(moderIn, mode, gpios, 16)
    ensures pupd == SetFields(pupdIn, pullUpDown, gpios, 16)
  {
    moder, pupd := moderIn, pupdIn;
    var i: Word := 0;
    while i < 16
      invariant i <= 16
      invariant moder == SetFields(moderIn, mode, gpios, i)
      invariant pupd == SetFields(pupdIn, pullUpDown, gpios, i)
    {
      if (1 << i) & (gpios as Word) != 0 {
        moder := ConfigurePin(moder, i, mode);
        pupd := ConfigurePin(pupd, i, pullUpDown);
      }
      i := i + 1;
    }
  }

  /**
   * What inline_gpio_mode_setup promises: the MODER and PUPDR fields of
   * every selected pin hold mode & 3 and pull_up_down & 3, and the fields
   * of every other pin keep the values read.
   */
  lemma ModeSetupFields(moderIn: Word, pupdIn: Word, mode: bv8, pullUpDown: bv8, gpios: bv16, q: Word)
    requires IsPin(q)
    ensures Field(SetFields(moderIn, mode, gpios, 16), q) == if Selected(gpios, q) then (mode & 3) as Word else Field(moderIn, q)
    ensures Field(SetFields(pupdIn, pullUpDown, gpios, 16), q) == if Selected(gpios, q) then (pullUpDown & 3) as Word else Field(pupdIn, q)
  {
    SetFieldsField(moderIn, mode, gpios, 16, q);
    SetFieldsField(pupdIn, pullUpDown, gpios, 16, q);
  }

  // ---------------------------------------------------------------------
  // Set and clear

  /** inline_gpio_set: the value written to BSRR, the pins in its set half. */
  function GpioSet(gpios: bv16): (r: Word)
    ensures r & 0xFFFF == gpios as Word && r >> 16 == 0
  {
    gpios as Word
  }

  /** inline_gpio_clear: the value written to BSRR, the pins in its reset half. */
  function GpioClear(gpios: bv16): (r: Word)
    ensures r >> 16 == gpios as Word && r & 0xFFFF == 0
  {
    UpperHalf(gpios as Word);
    (gpios as Word) << 16
  }

  /** A value below 2^16 shifted into the upper half comes back down unchanged and leaves the lower half clear. */
  lemma UpperHalf(w: Word)
    requires w <= 0xFFFF
    ensures (w << 16) >> 16 == w && (w << 16) & 0xFFFF == 0
  {}

  /**
   * What a write of w to BSRR does to the output data register, as the
   * STM32F4 reference manual (RM0090, section 8.4.7) describes it: bits
   * 0-15 set pins, bits 16-31 reset them, and set wins over reset.
   */
  function BsrrEffect(odr: bv16, w: Word): bv16 {
    var setBits := (w & 0xFFFF) as bv16;
    var resetBits := (w >> 16) as bv16;
    (odr & !resetBits) | setBits
  }

  /** inline_gpio_set raises exactly the given pins. */
  lemma GpioSetEffect(odr: bv16, gpios: bv16)
    ensures BsrrEffect(odr, GpioSet(gpios)) == odr | gpios
  {}

  /** inline_gpio_clear lowers exactly the given pins. */
  lemma GpioClearEffect(odr: bv16, gpios: bv16)
    ensures BsrrEffect(odr, GpioClear(gpios)) == odr & !gpios
  {}

  /** set_trigger then clear_trigger leave the output register as it was, except that GPIO12 ends low. */
  lemma TriggerPulse(odr: bv16)
    ensures BsrrEffect(BsrrEffect(odr, GpioSet(Gpio12)), GpioClear(Gpio12)) == odr & !Gpio12
  {
    GpioSetEffect(odr, Gpio12);
    GpioClearEffect(odr | Gpio12, Gpio12);
  }

  // ---------------------------------------------------------------------
  // The shifts as C evaluates them: on a signed 32-bit int

  const IntMax: nat := 0x7FFF_FFFF

  function Pow2(n: nat): (r: nat)
    ensures r >= 1
  {
    if n == 0 then 1 else 2 * Pow2(n - 1)
  }

  /**
   * v << n for a non-negative C int v: the value v * 2^n when it fits in
   * an int, None (undefined behaviour) when it does not.
   */
  function IntShift(v: nat, n: nat): Option<nat> {
    if v * Pow2(n) <= IntMax then Some(v * Pow2(n)) else None
  }

  /** GPIO_MODE_MASK(pin) as written: the constant 0x3 is a signed int. */
  function ModeMaskAsWritten(pin: nat): Option<nat> {
    IntShift(3, 2 * pin)
  }

  /** GPIO_MODE(pin, mode) as written: mode & 0x3 is promoted to a signed int. */
  function ModeValueAsWritten(pin: nat, mode: bv8): Option<nat> {
    IntShift((mode & 3) as nat, 2 * pin)
  }

  /** inline_gpio_clear as written: gpios is promoted to a signed int before the shift. */
  function ClearAsWritten(gpios: bv16): Option<nat> {
    IntShift(gpios as nat, 16)
  }

  lemma Pow2Add(a: nat, b: nat)
    ensures Pow2(a + b) == Pow2(a) * Pow2(b)
  {
    if b > 0 {
      Pow2Add(a, b - 1);
    }
  }

  lemma {:induction false} Pow2Monotone(a: nat, b: nat)
    requires a <= b
    ensures Pow2(a) <= Pow2(b)
    decreases b
  {
    if a < b {
      Pow2Monotone(a, b - 1);
    }
  }

  /** The powers of two the shifts reach. */
  lemma PowersOfTwo()
    ensures Pow2(16) == 0x1_0000 && Pow2(28) == 0x1000_0000 && Pow2(30) == 0x4000_0000
  {
    assert Pow2(2) == 4;
    Pow2Add(2, 2);
    Pow2Add(4, 4);
    Pow2Add(8, 8);
    Pow2Add(16, 8);
    Pow2Add(24, 4);
    Pow2Add(28, 2);
  }

  /** A two-bit value shifted by at most 28 fits in an int. */
  lemma ShiftFits(v: nat, n: nat)
    requires v <= 3 && n <= 28
    ensures IntShift(v, n).Some?
  {
    PowersOfTwo();
    Pow2Monotone(n, 28);
    assert v * Pow2(n) <= 3 * Pow2(n);
  }

  /** A two-bit value shifted by 30 fits in an int only when it is 0 or 1. */
  lemma ShiftBy30(v: nat)
    requires v <= 3
    ensures IntShift(v, 30).None? <==> v >= 2
  {
    PowersOfTwo();
  }

  /** The mask overflows an int exactly for pin 15. */
  lemma ModeMaskOverflow(pin: nat)
    requires pin < 16
    ensures ModeMaskAsWritten(pin).None? <==> pin == 15
  {
    if pin < 15 {
      ShiftFits(3, 2 * pin);
    } else {
      ShiftBy30(3);
    }
  }

  /** The shifted mode overflows an int exactly for pin 15 with mode & 3 of 2 or 3. */
  lemma ModeValueOverflow(pin: nat, mode: bv8)
    requires pin < 16
    ensures ModeValueAsWritten(pin, mode).None? <==> pin == 15 && (mode & 3) as nat >= 2
  {
    var m := (mode & 3) as nat;
    assert m <= 3;
    if pin < 15 {
      ShiftFits(m, 2 * pin);
    } else {
      ShiftBy30(m);
    }
  }

  /** The shift in inline_gpio_clear overflows an int exactly when the mask reaches GPIO15 (0x8000). */
  lemma ClearOverflow(gpios: bv16)
    ensures ClearAsWritten(gpios).None? <==> gpios as nat >= Gpio15 as nat
  {
    PowersOfTwo();
  }

  /**
   * For the harness's trigger (GPIO12, output mode, pull-down) every shift
   * is defined and gives the unsigned words of the model.
   */
  lemma TriggerSetupDefined()
    ensures ModeMaskAsWritten(12) == Some(FieldMask(12) as nat)
    ensures ModeValueAsWritten(12, ModeOutput) == Some(FieldValue(12, ModeOutput) as nat)
    ensures ModeValueAsWritten(12, PupdPullDown) == Some(FieldValue(12, PupdPullDown) as nat)
    ensures ClearAsWritten(Gpio12) == Some(GpioClear(Gpio12) as nat)
  {
    PowersOfTwo();
    Pow2Add(16, 8);
    assert Pow2(24) == 0x100_0000;
  }
}
