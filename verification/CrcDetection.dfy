/**
 * What CRC-24Q detects, bit by bit: any burst that spans at most 24 consecutive
 * bits, wherever it starts, and any odd number of flipped bits.
 */
module CrcDetection {
  import opened Bytes
  import opened Crc24q

  // ----- The register fed one bit at a time -----

  function Enter(bit: bool, mask: bv32): bv32 {
    if bit then mask else 0
  }

  function BitCrc(crc: bv32, bits: seq<bool>): bv32
    decreases |bits|
  {
    if bits == [] then crc else BitCrc(Step(Xor(crc, Enter(bits[0], 0x800000))), bits[1..])
  }

  /** The bits of a byte from the selected one down, most significant first. */
  function Bits(b: Byte, select: Byte): seq<bool>
    decreases select
  {
    if select == 0 then [] else [b & select != 0] + Bits(b, select >> 1)
  }

  function BitsOf(bytes: seq<Byte>): seq<bool>
    decreases |bytes|
  {
    if bytes == [] then [] else Bits(bytes[0], 0x80) + BitsOf(bytes[1..])
  }

  lemma EightBits(b: Byte)
    ensures |Bits(b, 0x80)| == 8
  {
    assert |Bits(b, 0x02)| == 2;
    assert |Bits(b, 0x08)| == 4;
    assert |Bits(b, 0x20)| == 6;
  }

  lemma {:induction false} BitCount(bytes: seq<Byte>)
    ensures |BitsOf(bytes)| == 8 * |bytes|
    decreases |bytes|
  {
    if bytes != [] {
      EightBits(bytes[0]);
      BitCount(bytes[1..]);
    }
  }

  /** The first bits of a message laid into the register from its top bit down. */
  function Laid(bits: seq<bool>, mask: bv32): bv32
    decreases |bits|
  {
    if bits == [] then 0 else Xor(Enter(bits[0], mask), Laid(bits[1..], mask >> 1))
  }

  /** `n` halvings of the mask lose no bit. */
  predicate Fits(n: nat, mask: bv32) {
    n == 0 || (mask & 1 == 0 && Fits(n - 1, mask >> 1))
  }

  lemma FitsTop()
    ensures Fits(23, 0x800000)
  {
    assert Fits(1, 0x2) && Fits(3, 0x8) && Fits(5, 0x20) && Fits(7, 0x80) && Fits(9, 0x200) && Fits(11,
      0x800) && Fits(13, 0x2000) && Fits(15, 0x8000) && Fits(17, 0x20000) && Fits(19, 0x80000)
      && Fits(21, 0x200000);
  }

  lemma {:induction false} FitsFewer(n: nat, k: nat, mask: bv32)
    requires k <= n && Fits(n, mask)
    ensures Fits(k, mask)
  {
    if k > 0 {
      FitsFewer(n - 1, k - 1, mask >> 1);
    }
  }

  lemma HalfShifts(mask: bv32)
    requires mask & 1 == 0 && mask <= 0xFFFFFF
    ensures !Overflows(mask >> 1) && Shift(mask >> 1) == mask
  {
  }

  lemma StepDoubles(bit: bool, mask: bv32)
    requires mask & 1 == 0 && mask <= 0xFFFFFF
    ensures Step(Enter(bit, mask >> 1)) == Enter(bit, mask)
  {
    hide Step, Overflows, Shift;
    HalfShifts(mask);
    StepShifting(mask >> 1);
    StepZero();
  }

  lemma {:induction false} LaidDoubles(bits: seq<bool>, mask: bv32)
    requires Fits(|bits|, mask) && mask <= 0xFFFFFF
    ensures Step(Laid(bits, mask >> 1)) == Laid(bits, mask)
    decreases |bits|
  {
    hide Step, Xor, Enter;
    if bits == [] {
      StepZero();
    } else {
      var half := mask >> 1;
      StepLinear(Enter(bits[0], half), Laid(bits[1..], half >> 1));
      StepDoubles(bits[0], mask);
      LaidDoubles(bits[1..], half);
    }
  }

  /** Feeding up to 24 bits is laying them into the register first and then stepping. */
  lemma {:induction false} FeedIsLayThenStep(crc: bv32, bits: seq<bool>)
    requires |bits| <= 24
    ensures BitCrc(crc, bits) == Steps(|bits|, Xor(crc, Laid(bits, 0x800000)))
    decreases |bits|
  {
    hide Step, Xor, Enter, Fits;
    if bits == [] {
      XorZero(crc);
    } else {
      var first := Enter(bits[0], 0x800000);
      var rest := bits[1..];
      FitsTop();
      FitsFewer(23, |rest|, 0x800000);
      LaidDoubles(rest, 0x800000);
      FeedIsLayThenStep(Step(Xor(crc, first)), rest);
      StepLinear(Xor(crc, first), Laid(rest, 0x400000));
      XorAssoc(crc, first, Laid(rest, 0x400000));
    }
  }

  // ----- Bytes are eight bits -----

  /** A byte at the top, in the middle or at the bottom of the register. */
  function Place(b: Byte, k: nat): bv32
    requires k < 3
  {
    if k == 0 then AtTop(b) else if k == 1 then b as bv32 << 8 else b as bv32
  }

  predicate OneBit(select: Byte) {
    select != 0 && select & (select - 1) == 0
  }

  /** The bits of `b` from the selected one down. */
  function Within(b: Byte, select: Byte): Byte {
    b & (select | (select - 1))
  }

  /** The bits of `b` below the selected one. */
  function Below(b: Byte, select: Byte): Byte {
    b & (select - 1)
  }

  lemma PlaceTop(x: Byte, y: Byte)
    ensures (x ^ y) as bv32 << 16 == (x as bv32 << 16) ^ (y as bv32 << 16)
  {
  }

  lemma PlaceMiddle(x: Byte, y: Byte)
    ensures (x ^ y) as bv32 << 8 == (x as bv32 << 8) ^ (y as bv32 << 8)
  {
  }

  lemma PlaceBottom(x: Byte, y: Byte)
    ensures (x ^ y) as bv32 == (x as bv32) ^ (y as bv32)
  {
  }

  /** Placing a byte in the register is linear. */
  lemma PlaceLinear(x: Byte, y: Byte, k: nat)
    requires k < 3
    ensures Place(x ^ y, k) == Xor(Place(x, k), Place(y, k))
  {
    if k == 0 {
      PlaceTop(x, y);
    } else if k == 1 {
      PlaceMiddle(x, y);
    } else {
      PlaceBottom(x, y);
    }
  }

  function Selected(b: Byte, select: Byte): Byte {
    if b & select != 0 then select else 0
  }

  lemma SplitBit(b: Byte, select: Byte)
    requires OneBit(select)
    ensures Selected(b, select) ^ Below(b, select) == Within(b, select)
  {
  }

  lemma PlaceSelected(b: Byte, select: Byte, k: nat)
    requires k < 3
    ensures Place(Selected(b, select), k) == Enter(b & select != 0, Place(select, k))
  {
  }

  lemma PeelBit(b: Byte, select: Byte, k: nat)
    requires OneBit(select) && k < 3
    ensures Xor(Enter(b & select != 0, Place(select, k)), Place(Below(b, select), k)) == Place(Within(b, select), k)
  {
    hide Xor, Enter, Place, OneBit, Within, Below, Selected;
    SplitBit(b, select);
    PlaceSelected(b, select, k);
    PlaceLinear(Selected(b, select), Below(b, select), k);
  }

  lemma HalfSelect(b: Byte, select: Byte, k: nat)
    requires OneBit(select) && select != 1 && k < 3
    ensures Place(select, k) >> 1 == Place(select >> 1, k)
    ensures OneBit(select >> 1) && Within(b, select >> 1) == Below(b, select)
  {
  }

  lemma LastSelect(b: Byte, k: nat)
    requires k < 3
    ensures Place(1, k) >> 1 == if k < 2 then Place(0x80, k + 1) else 0
    ensures Place(Below(b, 1), k) == 0
  {
  }

  lemma LaidPeels(b: Byte, select: Byte, tail: seq<bool>, mask: bv32)
    requires OneBit(select)
    ensures Laid(Bits(b, select) + tail, mask)
         == Xor(Enter(b & select != 0, mask), Laid(Bits(b, select >> 1) + tail, mask >> 1))
    ensures select == 1 ==> Bits(b, select >> 1) + tail == tail
  {
    hide Xor, Enter;
    assert (Bits(b, select) + tail)[1..] == Bits(b, select >> 1) + tail;
  }

  lemma {:induction false} LaidBits(b: Byte, select: Byte, k: nat, tail: seq<bool>)
    requires OneBit(select) && k < 3
    ensures Laid(Bits(b, select) + tail, Place(select, k))
         == Xor(Place(Within(b, select), k), Laid(tail, if k < 2 then Place(0x80, k + 1) else 0))
    decreases select
  {
    hide Xor, Enter, Place, OneBit, Within, Below, Bits, Laid;
    var first := Enter(b & select != 0, Place(select, k));
    LaidPeels(b, select, tail, Place(select, k));
    PeelBit(b, select, k);
    if select == 1 {
      LastSelect(b, k);
      XorZero(first);
    } else {
      HalfSelect(b, select, k);
      LaidBits(b, select >> 1, k, tail);
      XorAssoc(first, Place(Below(b, select), k), Laid(tail, if k < 2 then Place(0x80, k + 1) else 0));
    }
  }

  lemma WholeByte(b: Byte)
    ensures OneBit(0x80) && Within(b, 0x80) == b && Place(0x80, 0) == 0x800000
  {
  }

  lemma LaidByte(b: Byte)
    ensures Laid(Bits(b, 0x80), 0x800000) == AtTop(b)
  {
    hide Bits, Within, Xor, AtTop;
    WholeByte(b);
    assert Bits(b, 0x80) + [] == Bits(b, 0x80);
    LaidBits(b, 0x80, 0, []);
    XorZero(AtTop(b));
  }

  /** The CRC loop over bytes is the bit register fed with the bytes' bits. */
  lemma {:induction false} BytesAreBits(crc: bv32, bytes: seq<Byte>)
    ensures CrcFrom(crc, bytes) == BitCrc(crc, BitsOf(bytes))
    decreases |bytes|
  {
    hide Step, Xor, Laid, Bits, AtTop;
    if bytes != [] {
      var bits := Bits(bytes[0], 0x80);
      EightBits(bytes[0]);
      FeedIsLayThenStep(crc, bits);
      LaidByte(bytes[0]);
      FeedAppend(crc, bits, BitsOf(bytes[1..]));
      BytesAreBits(BitCrc(crc, bits), bytes[1..]);
    }
  }

  lemma {:induction false} FeedAppend(crc: bv32, a: seq<bool>, b: seq<bool>)
    ensures BitCrc(crc, a + b) == BitCrc(BitCrc(crc, a), b)
    decreases |a|
  {
    hide Step, Xor, Enter;
    if a == [] {
      assert a + b == b;
    } else {
      assert (a + b)[1..] == a[1..] + b;
      FeedAppend(Step(Xor(crc, Enter(a[0], 0x800000))), a[1..], b);
    }
  }

  // ----- Linearity over whole messages -----

  /** Where two equally long messages differ. */
  function Diff(x: seq<bool>, y: seq<bool>): (d: seq<bool>)
    requires |x| == |y|
    ensures |d| == |x|
    ensures forall k :: 0 <= k < |d| ==> (d[k] <==> x[k] != y[k])
  {
    seq(|x|, k requires 0 <= k < |x| => x[k] != y[k])
  }

  lemma EnterLinear(p: bool, q: bool)
    ensures Enter(p != q, 0x800000) == Xor(Enter(p, 0x800000), Enter(q, 0x800000))
  {
  }

  /** The register is linear in its start and in its input. */
  lemma {:induction false} BitCrcLinear(s: bv32, t: bv32, x: seq<bool>, y: seq<bool>)
    requires |x| == |y|
    ensures BitCrc(Xor(s, t), Diff(x, y)) == Xor(BitCrc(s, x), BitCrc(t, y))
    decreases |x|
  {
    hide Step, Xor, Enter;
    if x != [] {
      var p, q := Enter(x[0], 0x800000), Enter(y[0], 0x800000);
      EnterLinear(x[0], y[0]);
      Regroup(s, t, p, q);
      StepLinear(Xor(s, p), Xor(t, q));
      BitCrcLinear(Step(Xor(s, p)), Step(Xor(t, q)), x[1..], y[1..]);
      assert Diff(x, y)[1..] == Diff(x[1..], y[1..]);
    }
  }

  ghost predicate Quiet(bits: seq<bool>) {
    forall k :: 0 <= k < |bits| ==> !bits[k]
  }

  lemma {:induction false} QuietFeedSteps(crc: bv32, bits: seq<bool>)
    requires Quiet(bits)
    ensures BitCrc(crc, bits) == Steps(|bits|, crc)
    decreases |bits|
  {
    hide Step, Xor;
    if bits != [] {
      XorZero(crc);
      QuietFeedSteps(Step(crc), bits[1..]);
    }
  }

  lemma LaidBelow(bit: bool, rest: bv32, mask: bv32)
    requires mask != 0 && mask & (mask - 1) == 0 && mask <= 0x800000
    requires rest < mask
    ensures Xor(Enter(bit, mask), rest) < mask << 1
    ensures Xor(Enter(bit, mask), rest) == 0 ==> !bit && rest == 0
  {
  }

  lemma HalfMask(mask: bv32)
    requires mask != 0 && mask & (mask - 1) == 0 && mask & 1 == 0 && mask <= 0x800000
    ensures var half := mask >> 1;
      half != 0 && half & (half - 1) == 0 && half <= 0x800000 && half << 1 == mask
  {
  }

  /** Laying a bit string into the register loses nothing. */
  lemma {:induction false} LaidKernel(bits: seq<bool>, mask: bv32)
    requires mask != 0 && mask & (mask - 1) == 0 && mask <= 0x800000
    requires bits != [] ==> Fits(|bits| - 1, mask)
    ensures Laid(bits, mask) < mask << 1
    ensures Laid(bits, mask) == 0 ==> Quiet(bits)
    decreases |bits|
  {
    if |bits| == 0 {
    } else if |bits| == 1 {
      LaidBelow(bits[0], 0, mask);
    } else {
      HalfMask(mask);
      LaidKernel(bits[1..], mask >> 1);
      LaidBelow(bits[0], Laid(bits[1..], mask >> 1), mask);
    }
  }

  // ----- Bursts -----

  /** Two strings that agree except, perhaps, on `width` consecutive places from `lo`. */
  ghost predicate AgreeOutside<T>(x: seq<T>, y: seq<T>, lo: nat, width: nat) {
    && |x| == |y|
    && forall k :: 0 <= k < |x| && !(lo <= k < lo + width) ==> x[k] == y[k]
  }

  /** A burst of at most 24 bits leaves a residue unless it is empty. */
  lemma {:induction false} BurstKernel(d: seq<bool>, lo: nat)
    requires forall k :: 0 <= k < |d| && !(lo <= k < lo + 24) ==> !d[k]
    requires BitCrc(0, d) == 0
    ensures Quiet(d)
    decreases |d|
  {
    hide Step, Xor, Enter, Laid;
    if lo > 0 && d != [] {
      assert Enter(d[0], 0x800000) == 0 by {
        EnterNothing();
      }
      XorZero(0);
      StepZero();
      BurstKernel(d[1..], lo - 1);
    } else {
      var n := if |d| < 24 then |d| else 24;
      var w, z := d[..n], d[n..];
      assert w + z == d;
      FeedAppend(0, w, z);
      QuietFeedSteps(BitCrc(0, w), z);
      FeedIsLayThenStep(0, w);
      XorZero(Laid(w, 0x800000));
      LaidIsSmall(w);
      StepsKernel(n, Laid(w, 0x800000));
      StepsKernel(|z|, BitCrc(0, w));
    }
  }

  lemma EnterNothing()
    ensures Enter(false, 0x800000) == 0
  {
  }

  lemma LaidIsSmall(bits: seq<bool>)
    requires |bits| <= 24
    ensures Laid(bits, 0x800000) <= 0xFFFFFF
    ensures Laid(bits, 0x800000) == 0 ==> Quiet(bits)
  {
    hide Fits, Laid;
    FitsTop();
    if bits != [] {
      FitsFewer(23, |bits| - 1, 0x800000);
    }
    LaidKernel(bits, 0x800000);
  }

  /** Equally long messages with the same CRC that differ in one 24-bit burst are equal. */
  lemma BurstsAreDetected(x: seq<bool>, y: seq<bool>, lo: nat)
    requires AgreeOutside(x, y, lo, 24)
    requires BitCrc(0, x) == BitCrc(0, y)
    ensures x == y
  {
    hide BitCrc, Xor;
    BitCrcLinear(0, 0, x, y);
    XorZero(0);
    XorZero(BitCrc(0, x));
    BurstKernel(Diff(x, y), lo);
    assert forall k :: 0 <= k < |x| ==> !Diff(x, y)[k];
  }

  // ----- Odd numbers of errors -----

  /** Whether an odd number of the bits of `x` are set, from the masked one down. */
  predicate Odd(x: bv32, mask: bv32)
    decreases mask
  {
    if mask == 0 then false else (x & mask != 0) != Odd(x, mask >> 1)
  }

  predicate OddWeight(bits: seq<bool>) {
    if bits == [] then false else bits[0] != OddWeight(bits[1..])
  }

  lemma MaskSelects(x: bv32, mask: bv32)
    requires mask != 0 && mask & (mask - 1) == 0
    ensures x & mask == 0 || x & mask == mask
  {
  }

  lemma MaskDistributes(x: bv32, y: bv32, mask: bv32)
    ensures (x ^ y) & mask == (x & mask) ^ (y & mask)
  {
  }

  lemma MaskedXor(x: bv32, y: bv32, mask: bv32)
    requires mask != 0 && mask & (mask - 1) == 0
    ensures Xor(x, y) & mask != 0 <==> (x & mask != 0) != (y & mask != 0)
  {
    MaskSelects(x, mask);
    MaskSelects(y, mask);
    MaskDistributes(x, y, mask);
    if x & mask == y & mask {
      assert (x & mask) ^ (y & mask) == 0;
    } else if x & mask == 0 {
      assert 0 ^ mask == mask;
    } else {
      assert mask ^ 0 == mask;
    }
  }

  lemma NextMask(mask: bv32)
    requires mask == 0 || mask & (mask - 1) == 0
    ensures mask >> 1 == 0 || (mask >> 1) & ((mask >> 1) - 1) == 0
  {
  }

  lemma {:induction false} OddXor(x: bv32, y: bv32, mask: bv32)
    requires mask == 0 || mask & (mask - 1) == 0
    ensures Odd(Xor(x, y), mask) <==> Odd(x, mask) != Odd(y, mask)
    decreases mask
  {
    hide Xor;
    if mask != 0 {
      MaskedXor(x, y, mask);
      NextMask(mask);
      OddXor(x, y, mask >> 1);
    }
  }

  lemma MaskedShift(x: bv32, mask: bv32)
    requires mask <= 0xFFFFFF
    ensures Shift(x) & mask != 0 <==> x & (mask >> 1) != 0
  {
  }

  lemma {:induction false} OddShift(x: bv32, mask: bv32)
    requires mask <= 0x800000 && (mask == 0 || mask & (mask - 1) == 0)
    ensures Odd(Shift(x), mask) <==> Odd(x, mask >> 1)
    decreases mask
  {
    hide Shift;
    if mask != 0 {
      MaskedShift(x, mask);
      NextMask(mask);
      OddShift(x, mask >> 1);
    }
  }

  lemma OddPolynomial()
    ensures Odd(0x864CFB, 0x800000)
  {
    assert !Odd(0x864CFB, 0x2);
    assert Odd(0x864CFB, 0x8);
    assert Odd(0x864CFB, 0x20);
    assert Odd(0x864CFB, 0x80);
    assert Odd(0x864CFB, 0x200);
    assert Odd(0x864CFB, 0x800);
    assert Odd(0x864CFB, 0x2000);
    assert !Odd(0x864CFB, 0x8000);
    assert Odd(0x864CFB, 0x20000);
    assert !Odd(0x864CFB, 0x80000);
    assert !Odd(0x864CFB, 0x200000);
  }

  lemma OddTop()
    ensures Odd(0x800000, 0x800000)
  {
    assert !Odd(0x800000, 0x2);
    assert !Odd(0x800000, 0x8);
    assert !Odd(0x800000, 0x20);
    assert !Odd(0x800000, 0x80);
    assert !Odd(0x800000, 0x200);
    assert !Odd(0x800000, 0x800);
    assert !Odd(0x800000, 0x2000);
    assert !Odd(0x800000, 0x8000);
    assert !Odd(0x800000, 0x20000);
    assert !Odd(0x800000, 0x80000);
    assert !Odd(0x800000, 0x200000);
  }

  lemma OddNothing()
    ensures !Odd(0, 0x800000)
  {
    hide Xor;
    XorZero(0);
    OddXor(0, 0, 0x800000);
  }

  /** The polynomial has an even number of terms, so a step keeps the parity. */
  lemma OddStep(x: bv32)
    ensures Odd(Step(x), 0x800000) <==> Odd(x, 0x800000)
  {
    hide Step, Xor, Shift;
    StepSplits(x);
    OddXor(Shift(x), Feedback(x), 0x800000);
    OddShift(x, 0x800000);
    OddPolynomial();
    OddNothing();
  }

  lemma {:induction false} ParityIsKept(crc: bv32, bits: seq<bool>)
    ensures Odd(BitCrc(crc, bits), 0x800000) <==> Odd(crc, 0x800000) != OddWeight(bits)
    decreases |bits|
  {
    hide Step, Xor;
    if bits != [] {
      var fed := Xor(crc, Enter(bits[0], 0x800000));
      OddStep(fed);
      OddXor(crc, Enter(bits[0], 0x800000), 0x800000);
      OddTop();
      OddNothing();
      ParityIsKept(Step(fed), bits[1..]);
    }
  }

  lemma {:induction false} WeightOfDiff(x: seq<bool>, y: seq<bool>)
    requires |x| == |y|
    ensures OddWeight(Diff(x, y)) <==> OddWeight(x) != OddWeight(y)
    decreases |x|
  {
    if x != [] {
      WeightOfDiff(x[1..], y[1..]);
      assert Diff(x, y)[1..] == Diff(x[1..], y[1..]);
    }
  }

  // ----- The trailer -----

  /** Three bytes as the register's 24 bits. */
  function Word24(a: Byte, b: Byte, c: Byte): bv32 {
    (a as bv32 << 16) | (b as bv32 << 8) | c as bv32
  }

  function Trailer(crc: bv32): (t: seq<Byte>)
    ensures |t| == 3
  {
    [((crc >> 16) & 0xFF) as Byte, ((crc >> 8) & 0xFF) as Byte, (crc & 0xFF) as Byte]
  }

  lemma TrailerWord(crc: bv32)
    requires crc <= 0xFFFFFF
    ensures var t := Trailer(crc); Word24(t[0], t[1], t[2]) == crc
  {
  }

  lemma WordTrailer(a: Byte, b: Byte, c: Byte)
    ensures Trailer(Word24(a, b, c)) == [a, b, c] && Word24(a, b, c) <= 0xFFFFFF
  {
  }

  lemma WordIsPlaced(a: Byte, b: Byte, c: Byte)
    ensures Word24(a, b, c) == Xor(Place(a, 0), Xor(Place(b, 1), Place(c, 2)))
    ensures Word24(a, b, c) <= 0xFFFFFF
  {
    var x, y, z := a as bv32 << 16, b as bv32 << 8, c as bv32;
    assert x | y | z == x ^ (y ^ z);
  }

  lemma WholeByteAt(b: Byte, k: nat)
    requires k < 3
    ensures Place(Within(b, 0x80), k) == Place(b, k)
  {
    WholeByte(b);
  }

  lemma LaidTrailer(a: Byte, b: Byte, c: Byte)
    ensures Laid(BitsOf([a, b, c]), 0x800000) == Word24(a, b, c)
  {
    hide Bits, Within, Xor, Word24, Laid;
    WholeByte(a);
    WholeByteAt(a, 0);
    WholeByteAt(b, 1);
    WholeByteAt(c, 2);
    ThreeBytes(a, b, c);
    LaidBits(a, 0x80, 0, Bits(b, 0x80) + (Bits(c, 0x80) + []));
    LaidBits(b, 0x80, 1, Bits(c, 0x80) + []);
    LaidBits(c, 0x80, 2, []);
    LaidNothing(0);
    XorZero(Place(c, 2));
    WordIsPlaced(a, b, c);
  }

  lemma LaidNothing(mask: bv32)
    ensures Laid([], mask) == 0
  {
  }

  lemma ThreeBytes(a: Byte, b: Byte, c: Byte)
    ensures BitsOf([a, b, c]) == Bits(a, 0x80) + (Bits(b, 0x80) + (Bits(c, 0x80) + []))
  {
    hide Bits;
    assert [a, b, c][1..] == [b, c] && [b, c][1..] == [c];
    assert BitsOf([c]) == Bits(c, 0x80) + [];
  }

  lemma {:induction false} CrcMasked(crc: bv32, bytes: seq<Byte>)
    requires crc <= 0xFFFFFF
    ensures CrcFrom(crc, bytes) <= 0xFFFFFF
    decreases |bytes|
  {
    hide Steps, Xor, AtTop;
    if bytes != [] {
      EntryMasked(crc, bytes[0]);
      StepsKernel(8, Xor(crc, AtTop(bytes[0])));
      CrcMasked(Steps(8, Xor(crc, AtTop(bytes[0]))), bytes[1..]);
    }
  }

  lemma EntryMasked(crc: bv32, b: Byte)
    requires crc <= 0xFFFFFF
    ensures Xor(crc, AtTop(b)) <= 0xFFFFFF
  {
  }

  lemma XorMasked(x: bv32, y: bv32)
    requires x <= 0xFFFFFF && y <= 0xFFFFFF
    ensures Xor(x, y) <= 0xFFFFFF
  {
  }

  lemma {:induction false} CrcAppend(crc: bv32, a: seq<Byte>, b: seq<Byte>)
    ensures CrcFrom(crc, a + b) == CrcFrom(CrcFrom(crc, a), b)
    decreases |a|
  {
    hide Steps, Xor, AtTop;
    if a == [] {
      assert a + b == b;
    } else {
      assert (a + b)[1..] == a[1..] + b;
      CrcAppend(Steps(8, Xor(crc, AtTop(a[0]))), a[1..], b);
    }
  }

  /** A message followed by three bytes leaves residue zero exactly when they are its CRC. */
  lemma ResidueIffTrailer(message: seq<Byte>, a: Byte, b: Byte, c: Byte)
    ensures Crc(message + [a, b, c]) == 0 <==> Crc(message) == Word24(a, b, c)
  {
    hide CrcFrom, Steps, Xor, Word24, Laid, BitsOf;
    var crc, word := Crc(message), Word24(a, b, c);
    CrcMasked(0, message);
    WordIsPlaced(a, b, c);
    CrcAppend(0, message, [a, b, c]);
    BytesAreBits(crc, [a, b, c]);
    BitCount([a, b, c]);
    FeedIsLayThenStep(crc, BitsOf([a, b, c]));
    LaidTrailer(a, b, c);
    XorMasked(crc, word);
    StepsKernel(24, Xor(crc, word));
    XorZero(crc);
    if Xor(crc, word) == 0 {
      XorCancel(crc, word);
    }
    assert Crc(message + [a, b, c]) == CrcFrom(crc, [a, b, c]);
    assert CrcFrom(crc, [a, b, c]) == Steps(24, Xor(crc, word));
  }

  // ----- Linearity over bytes -----

  function XorBytes(x: seq<Byte>, y: seq<Byte>): (d: seq<Byte>)
    requires |x| == |y|
    ensures |d| == |x|
  {
    seq(|x|, k requires 0 <= k < |x| => x[k] ^ y[k])
  }

  lemma AtTopLinear(x: Byte, y: Byte)
    ensures AtTop(x ^ y) == Xor(AtTop(x), AtTop(y))
  {
  }

  /** `crc24q` is linear in the message and in the register it starts from. */
  lemma {:induction false} CrcLinear(s: bv32, t: bv32, x: seq<Byte>, y: seq<Byte>)
    requires |x| == |y|
    ensures CrcFrom(Xor(s, t), XorBytes(x, y)) == Xor(CrcFrom(s, x), CrcFrom(t, y))
    decreases |x|
  {
    hide Steps, Xor, AtTop;
    if x != [] {
      var p, q := AtTop(x[0]), AtTop(y[0]);
      AtTopLinear(x[0], y[0]);
      Regroup(s, t, p, q);
      StepsLinear(8, Xor(s, p), Xor(t, q));
      CrcLinear(Steps(8, Xor(s, p)), Steps(8, Xor(t, q)), x[1..], y[1..]);
      assert XorBytes(x, y)[1..] == XorBytes(x[1..], y[1..]);
    }
  }
}
