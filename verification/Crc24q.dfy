/**
 * The CRC-24Q register of the RTCM transport layer, as the loop computes it, and
 * the algebra that decides which transmission errors it detects.
 */
module Crc24q {
  import opened Bytes

  /** One turn of the inner loop: shift, subtract the polynomial on overflow, mask. */
  function Step(crc: bv32): bv32 {
    Low24(Reduce(crc << 1))
  }

  function Low24(x: bv32): bv32 {
    x & 0xFFFFFF
  }

  function Reduce(shifted: bv32): bv32 {
    if shifted & 0x1000000 != 0 then shifted ^ 0x1864CFB else shifted
  }

  function Xor(x: bv32, y: bv32): bv32 {
    x ^ y
  }

  /** A byte enters the register at its top. */
  function AtTop(b: Byte): bv32 {
    b as bv32 << 16
  }

  function Steps(n: nat, crc: bv32): bv32 {
    if n == 0 then crc else Steps(n - 1, Step(crc))
  }

  function CrcFrom(crc: bv32, bytes: seq<Byte>): bv32
    decreases |bytes|
  {
    if bytes == [] then crc else CrcFrom(Steps(8, Xor(crc, AtTop(bytes[0]))), bytes[1..])
  }

  function Crc(bytes: seq<Byte>): bv32 {
    CrcFrom(0, bytes)
  }

  /** `crc24q`: a loop over the bytes and, inside it, a loop over eight shifts. */
  method Compute(bytes: seq<Byte>) returns (crc: bv32)
    ensures crc == Crc(bytes)
  {
    hide Step;
    crc := 0;
    for i := 0 to |bytes|
      invariant CrcFrom(crc, bytes[i..]) == Crc(bytes)
    {
      ghost var mixed := Xor(crc, AtTop(bytes[i]));
      crc := crc ^ (bytes[i] as bv32 << 16);
      for j := 0 to 8
        invariant Steps(8 - j, crc) == Steps(8, mixed)
      {
        crc := ShiftOut(crc);
      }
      assert bytes[i..][1..] == bytes[i + 1..];
    }
  }

  /** The body of the inner loop. */
  method ShiftOut(before: bv32) returns (crc: bv32)
    ensures crc == Step(before)
  {
    hide Reduce, Low24;
    crc := before << 1;
    if crc & 0x1000000 != 0 {
      ReduceOverflow(crc);
      crc := crc ^ 0x1864CFB;
    } else {
      ReduceNothing(crc);
    }
    Low24Masks(crc);
    crc := crc & 0xFFFFFF;
  }

  lemma Low24Masks(x: bv32)
    ensures Low24(x) == x & 0xFFFFFF
  {
  }

  lemma ReduceOverflow(shifted: bv32)
    requires shifted & 0x1000000 != 0
    ensures Reduce(shifted) == shifted ^ 0x1864CFB
  {
  }

  lemma ReduceNothing(shifted: bv32)
    requires shifted & 0x1000000 == 0
    ensures Reduce(shifted) == shifted
  {
  }

  // ----- Exclusive or -----

  lemma XorComm(x: bv32, y: bv32)
    ensures Xor(x, y) == Xor(y, x)
  {
  }

  lemma XorZero(x: bv32)
    ensures Xor(x, 0) == x && Xor(0, x) == x && Xor(x, x) == 0
  {
  }

  lemma XorAssoc(x: bv32, y: bv32, z: bv32)
    ensures Xor(Xor(x, y), z) == Xor(x, Xor(y, z))
  {
    assert (x ^ y) ^ z == x ^ (y ^ z);
  }

  lemma XorCancel(x: bv32, y: bv32)
    requires Xor(x, y) == 0
    ensures x == y
  {
  }

  lemma Regroup(a: bv32, b: bv32, p: bv32, q: bv32)
    ensures Xor(Xor(a, b), Xor(p, q)) == Xor(Xor(a, p), Xor(b, q))
  {
    hide Xor;
    XorAssoc(a, b, Xor(p, q));
    XorAssoc(b, p, q);
    XorComm(b, p);
    XorAssoc(p, b, q);
    XorAssoc(a, p, Xor(b, q));
  }

  // ----- One step is linear and loses nothing -----

  predicate Overflows(crc: bv32) {
    crc & 0x800000 != 0
  }

  function Shift(crc: bv32): bv32 {
    (crc << 1) & 0xFFFFFF
  }

  function Feedback(crc: bv32): bv32 {
    if Overflows(crc) then 0x864CFB else 0
  }

  lemma OverflowBit(crc: bv32)
    ensures (crc << 1) & 0x1000000 != 0 <==> crc & 0x800000 != 0
  {
  }

  lemma MaskedPolynomial(s: bv32)
    ensures (s ^ 0x1864CFB) & 0xFFFFFF == (s & 0xFFFFFF) ^ 0x864CFB
  {
  }

  lemma StepOverflowing(crc: bv32)
    requires Overflows(crc)
    ensures Step(crc) == Xor(Shift(crc), 0x864CFB)
  {
    OverflowBit(crc);
    MaskedPolynomial(crc << 1);
  }

  lemma StepShifting(crc: bv32)
    requires !Overflows(crc)
    ensures Step(crc) == Shift(crc)
  {
    OverflowBit(crc);
  }

  lemma StepSplits(crc: bv32)
    ensures Step(crc) == Xor(Shift(crc), Feedback(crc))
  {
    hide Xor, Overflows, Step, Shift;
    if Overflows(crc) {
      StepOverflowing(crc);
    } else {
      StepShifting(crc);
      XorZero(Shift(crc));
    }
  }

  lemma ShiftLinear(x: bv32, y: bv32)
    ensures Shift(Xor(x, y)) == Xor(Shift(x), Shift(y))
  {
  }

  lemma OverflowLinear(x: bv32, y: bv32)
    ensures Overflows(Xor(x, y)) <==> Overflows(x) != Overflows(y)
  {
  }

  lemma FeedbackLinear(x: bv32, y: bv32)
    ensures Feedback(Xor(x, y)) == Xor(Feedback(x), Feedback(y))
  {
    hide Overflows, Xor;
    OverflowLinear(x, y);
    XorZero(0x864CFB);
    XorZero(0);
  }

  lemma StepLinear(x: bv32, y: bv32)
    ensures Step(Xor(x, y)) == Xor(Step(x), Step(y))
  {
    hide *;
    StepSplits(x);
    StepSplits(y);
    StepSplits(Xor(x, y));
    FeedbackLinear(x, y);
    ShiftLinear(x, y);
    Regroup(Shift(x), Shift(y), Feedback(x), Feedback(y));
  }

  lemma StepKernel(x: bv32)
    requires x <= 0xFFFFFF && Step(x) == 0
    ensures x == 0
  {
  }

  lemma StepZero()
    ensures Step(0) == 0
  {
  }

  lemma StepMasked(x: bv32)
    ensures Step(x) <= 0xFFFFFF
  {
  }

  lemma {:induction false} StepsLinear(n: nat, x: bv32, y: bv32)
    ensures Steps(n, Xor(x, y)) == Xor(Steps(n, x), Steps(n, y))
  {
    hide Step, Xor;
    if n > 0 {
      StepLinear(x, y);
      StepsLinear(n - 1, Step(x), Step(y));
    }
  }

  /** No nonzero register is ever forgotten: with linearity, the steps are injective. */
  lemma {:induction false} StepsKernel(n: nat, x: bv32)
    requires x <= 0xFFFFFF
    ensures Steps(n, x) <= 0xFFFFFF
    ensures Steps(n, x) == 0 <==> x == 0
  {
    if n > 0 {
      StepMasked(x);
      StepZero();
      StepsKernel(n - 1, Step(x));
      if Step(x) == 0 {
        StepKernel(x);
      }
    }
  }
}
