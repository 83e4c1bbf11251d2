/**
 * The textbook meaning of the check: the remainder of the message times x^24 modulo the
 * generator polynomial, computed one coefficient at a time from the leading one.
 */
module CrcRemainder {
  import Bytes
  import opened Crc24q
  import opened CrcDetection

  /** The exponents of the generator of RTCM 10403.3 (and of section 6.1 of RFC 4880). */
  const GENERATOR: seq<bv5> := [24, 23, 18, 17, 14, 11, 10, 7, 6, 5, 4, 3, 1, 0]

  function Polynomial(exponents: seq<bv5>): bv32
    decreases |exponents|
  {
    if exponents == [] then 0 else ((1 as bv32) << exponents[0]) | Polynomial(exponents[1..])
  }

  lemma GeneratorBits()
    ensures Polynomial(GENERATOR) == 0x1864CFB
  {
  }

  /** Multiplication by x of a polynomial of degree below 24, modulo the generator. */
  function TimesX(r: bv32): bv32 {
    var shifted := r << 1;
    if shifted & 0x1000000 != 0 then shifted ^ Polynomial(GENERATOR) else shifted
  }

  /** The remainder of r * x^n + bits, with the bits as coefficients from the leading one down. */
  function Remainder(r: bv32, bits: seq<bool>): bv32
    decreases |bits|
  {
    if bits == [] then r else Remainder(Xor(TimesX(r), Enter(bits[0], 1)), bits[1..])
  }

  function Zeros(n: nat): (z: seq<bool>)
    ensures |z| == n && Quiet(z)
  {
    seq(n, _ => false)
  }

  lemma ShiftedOverflow(r: bv32)
    requires r <= 0xFFFFFF && r & 0x800000 != 0
    ensures (r << 1) & 0x1000000 != 0
    ensures (r << 1) ^ 0x1864CFB == ((r << 1) & 0xFFFFFF) ^ 0x864CFB
  {
  }

  lemma ShiftedInside(r: bv32)
    requires r <= 0xFFFFFF && r & 0x800000 == 0
    ensures (r << 1) & 0x1000000 == 0
    ensures r << 1 == (r << 1) & 0xFFFFFF
  {
  }

  /** The register's step is multiplication by x. */
  lemma StepIsTimesX(r: bv32)
    requires r <= 0xFFFFFF
    ensures TimesX(r) == Step(r)
  {
    hide Polynomial, Step;
    GeneratorBits();
    if r & 0x800000 != 0 {
      StepOverflowing(r);
      ShiftedOverflow(r);
    } else {
      StepShifting(r);
      ShiftedInside(r);
    }
  }

  lemma LowBitMasked(x: bv32, bit: bool)
    requires x <= 0xFFFFFF
    ensures Xor(x, Enter(bit, 1)) <= 0xFFFFFF
  {
  }

  // ----- From the remainder to the register -----

  lemma {:induction false} StepsLast(n: nat, x: bv32)
    ensures Steps(n + 1, x) == Step(Steps(n, x))
  {
    hide Step;
    if n > 0 {
      StepsLast(n - 1, Step(x));
    }
  }

  function Halved(n: nat, mask: bv32): bv32 {
    if n == 0 then mask else Halved(n - 1, mask >> 1)
  }

  lemma HalvedTop()
    ensures Halved(23, 0x800000) == 1
  {
    assert Halved(2, 0x4) == 1 && Halved(4, 0x10) == 1 && Halved(6, 0x40) == 1 && Halved(8, 0x100) == 1;
    assert Halved(10, 0x400) == 1 && Halved(12, 0x1000) == 1 && Halved(14, 0x4000) == 1;
    assert Halved(16, 0x10000) == 1 && Halved(18, 0x40000) == 1 && Halved(20, 0x100000) == 1;
    assert Halved(22, 0x400000) == 1;
  }

  lemma {:induction false} Rises(bit: bool, n: nat, mask: bv32)
    requires Fits(n, mask) && mask <= 0xFFFFFF
    ensures Steps(n, Enter(bit, Halved(n, mask))) == Enter(bit, mask)
  {
    hide Step, Enter;
    if n > 0 {
      Rises(bit, n - 1, mask >> 1);
      StepsLast(n - 1, Enter(bit, Halved(n, mask)));
      StepDoubles(bit, mask);
    }
  }

  /** A coefficient entered at the bottom is one entered at the top, 23 steps earlier. */
  lemma BottomRises(bit: bool)
    ensures Steps(24, Enter(bit, 1)) == Step(Enter(bit, 0x800000))
  {
    hide Step, Steps, Enter, Fits;
    FitsTop();
    HalvedTop();
    Rises(bit, 23, 0x800000);
    StepsLast(23, Enter(bit, 1));
  }

  lemma OneCoefficient(r: bv32, bit: bool)
    requires r <= 0xFFFFFF
    ensures TimesX(r) <= 0xFFFFFF
    ensures Steps(24, Xor(TimesX(r), Enter(bit, 1))) == Step(Xor(Steps(24, r), Enter(bit, 0x800000)))
  {
    hide *;
    StepIsTimesX(r);
    StepMasked(r);
    StepsLinear(24, Step(r), Enter(bit, 1));
    BottomRises(bit);
    StepsFirst(24, r);
    StepsLast(24, r);
    StepLinear(Steps(24, r), Enter(bit, 0x800000));
  }

  lemma StepsFirst(n: nat, x: bv32)
    ensures Steps(n + 1, x) == Steps(n, Step(x))
  {
    hide Step;
  }

  /** The register runs 24 steps ahead of the remainder. */
  lemma {:induction false} RegisterIsAhead(r: bv32, bits: seq<bool>)
    requires r <= 0xFFFFFF
    ensures Remainder(r, bits) <= 0xFFFFFF
    ensures Steps(24, Remainder(r, bits)) == BitCrc(Steps(24, r), bits)
    decreases |bits|
  {
    hide Step, Steps, TimesX, Xor, Enter;
    if bits != [] {
      OneCoefficient(r, bits[0]);
      LowBitMasked(TimesX(r), bits[0]);
      RegisterIsAhead(Xor(TimesX(r), Enter(bits[0], 1)), bits[1..]);
    }
  }

  lemma {:induction false} ZerosStep(r: bv32, bits: seq<bool>)
    requires r <= 0xFFFFFF && Quiet(bits)
    ensures Remainder(r, bits) == Steps(|bits|, r)
    decreases |bits|
  {
    hide Step, TimesX, Xor;
    if bits != [] {
      StepIsTimesX(r);
      StepMasked(r);
      XorZero(Step(r));
      ZerosStep(Step(r), bits[1..]);
    }
  }

  lemma {:induction false} RemainderAppend(r: bv32, a: seq<bool>, b: seq<bool>)
    ensures Remainder(r, a + b) == Remainder(Remainder(r, a), b)
    decreases |a|
  {
    hide TimesX, Xor, Enter;
    if a == [] {
      assert a + b == b;
    } else {
      assert (a + b)[1..] == a[1..] + b;
      RemainderAppend(Xor(TimesX(r), Enter(a[0], 1)), a[1..], b);
    }
  }

  /** `crc24q` computes the remainder of the message, times x^24, by the generator. */
  lemma CrcIsRemainder(bytes: seq<Bytes.Byte>)
    ensures Crc(bytes) == Remainder(0, BitsOf(bytes) + Zeros(24))
  {
    hide CrcFrom, Steps, Remainder, BitCrc, BitsOf;
    var bits := BitsOf(bytes);
    BytesAreBits(0, bytes);
    RegisterIsAhead(0, bits);
    StepsKernel(24, 0);
    RemainderAppend(0, bits, Zeros(24));
    ZerosStep(Remainder(0, bits), Zeros(24));
  }
}
