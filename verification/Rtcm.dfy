/** RTCM 10403.3 transport frames: acceptance, an independent assembler, and error detection. */
module Rtcm {
  import opened Bytes
  import opened Crc24q
  import opened CrcDetection

  datatype RtcmFrame = RtcmFrame(messageType: nat, payload: seq<Byte>)

  datatype RtcmError =
    | TooShort
    | InvalidPreamble
    | IncompleteFrame
    | LengthMismatch
    | MissingMessageType
    | CrcMismatch(expected: bv32, actual: bv32)

  /** The ten-bit length in the second and third byte; the six bits above it are ignored. */
  function DeclaredLength(b1: Byte, b2: Byte): (n: nat)
    ensures n <= 1023
  {
    TwoBits(b1);
    Word16(b1 & 0x03, b2)
  }

  lemma TwoBits(b: Byte)
    ensures Value(b & 0x03) <= 3
  {
  }

  /** The first twelve bits of the payload. */
  function MessageType(payload: seq<Byte>): nat
    requires |payload| >= 2
  {
    Value(payload[0]) * 16 + Value(payload[1]) / 16
  }

  /** The message number is those twelve bits and nothing else of the payload. */
  lemma MessageTypeIsTopBits(payload: seq<Byte>)
    requires |payload| >= 2
    ensures MessageType(payload) == Word16(payload[0], payload[1]) / 16 <= 4095
  {
    hide Value;
    NatOfByte(payload[0]);
    NatOfByte(payload[1]);
  }

  function ParseFrame(bytes: seq<Byte>): Result<RtcmFrame, RtcmError> {
    if |bytes| < 6 then Err(TooShort)
    else if bytes[0] != 0xD3 then Err(InvalidPreamble)
    else
      var declared := DeclaredLength(bytes[1], bytes[2]);
      var expected := declared + 6;
      if |bytes| < expected then Err(IncompleteFrame)
      else if |bytes| != expected then Err(LengthMismatch)
      else
        var payload := bytes[3..3 + declared];
        if |payload| < 2 then Err(MissingMessageType)
        else
          var actualCrc := Word24(bytes[expected - 3], bytes[expected - 2], bytes[expected - 1]);
          var expectedCrc := Crc(bytes[..expected - 3]);
          if actualCrc != expectedCrc then Err(CrcMismatch(expectedCrc, actualCrc))
          else Ok(RtcmFrame(MessageType(payload), payload))
  }

  predicate Accepts(bytes: seq<Byte>) {
    ParseFrame(bytes).Ok?
  }

  // ----- Acceptance against an assembler -----

  /** Preamble, reserved bits and length, payload. */
  function Head(reserved: Byte, payload: seq<Byte>): seq<Byte>
    requires |payload| <= 1023
  {
    [0xD3, (reserved & 0xFC) | ToByte(|payload| / 256), ToByte(|payload| % 256)] + payload
  }

  /** The frame that carries `payload`, with the six reserved bits taken from `reserved`. */
  function Assemble(reserved: Byte, payload: seq<Byte>): seq<Byte>
    requires |payload| <= 1023
  {
    Head(reserved, payload) + Trailer(Crc(Head(reserved, payload)))
  }

  lemma ReservedBitsIgnored(reserved: Byte, high: Byte)
    requires high <= 3
    ensures ((reserved & 0xFC) | high) & 0x03 == high
  {
  }

  lemma ReservedBitsKept(b: Byte)
    ensures (b & 0xFC) | (b & 0x03) == b
  {
  }

  lemma SmallHigh(n: nat)
    requires n <= 3
    ensures ToByte(n) <= 3
  {
    ByteOfNat(n);
    if ToByte(n) > 3 {
      BigValue(ToByte(n));
    }
  }

  lemma BigValue(b: Byte)
    requires b > 3
    ensures Value(b) > 3
  {
  }

  lemma AssembledLength(reserved: Byte, n: nat)
    requires n <= 1023
    ensures DeclaredLength((reserved & 0xFC) | ToByte(n / 256), ToByte(n % 256)) == n
  {
    hide Value, ToByte;
    SmallHigh(n / 256);
    ReservedBitsIgnored(reserved, ToByte(n / 256));
    ByteOfNat(n / 256);
    ByteOfNat(n % 256);
  }

  /** Every payload a frame can carry survives assembling and parsing. */
  lemma ParseAssembled(reserved: Byte, payload: seq<Byte>)
    requires 2 <= |payload| <= 1023
    ensures ParseFrame(Assemble(reserved, payload)) == Ok(RtcmFrame(Word16(payload[0], payload[1]) / 16, payload))
  {
    hide Crc, Trailer, Word24, DeclaredLength, MessageType, ToByte;
    var head := Head(reserved, payload);
    var frame := Assemble(reserved, payload);
    AssembledLength(reserved, |payload|);
    assert frame[..|head|] == head;
    assert frame[3..3 + |payload|] == payload;
    MessageTypeIsTopBits(payload);
    CrcIsMasked(head);
    TrailerWord(Crc(head));
  }

  lemma CrcIsMasked(bytes: seq<Byte>)
    ensures Crc(bytes) <= 0xFFFFFF
  {
    CrcMasked(0, bytes);
  }

  lemma LengthSplits(b1: Byte, b2: Byte)
    ensures var n := DeclaredLength(b1, b2);
      ToByte(n / 256) == b1 & 0x03 && ToByte(n % 256) == b2
  {
    hide Value, ToByte;
    TwoBits(b1);
    NatOfByte(b1 & 0x03);
    NatOfByte(b2);
    SplitWord(Value(b1 & 0x03), Value(b2));
  }

  /** Every accepted byte string is the assembled frame of its own payload. */
  lemma AcceptedIsAssembled(bytes: seq<Byte>)
    requires Accepts(bytes)
    ensures 2 <= |ParseFrame(bytes).value.payload| <= 1023
    ensures bytes == Assemble(bytes[1], ParseFrame(bytes).value.payload)
  {
    hide Crc, Trailer, Word24, DeclaredLength, MessageType, ToByte;
    var payload := ParseFrame(bytes).value.payload;
    var n := |payload|;
    LengthSplits(bytes[1], bytes[2]);
    ReservedBitsKept(bytes[1]);
    WordTrailer(bytes[n + 3], bytes[n + 4], bytes[n + 5]);
    assert bytes[..n + 3] == Head(bytes[1], payload);
  }

  /** The parser accepts exactly the assembled frames. */
  lemma AcceptsIffAssembled(bytes: seq<Byte>)
    ensures Accepts(bytes) <==>
            exists reserved: Byte, payload: seq<Byte> | 2 <= |payload| <= 1023 :: bytes == Assemble(reserved, payload)
  {
    hide Assemble, ParseFrame, MessageType;
    if Accepts(bytes) {
      AcceptedIsAssembled(bytes);
    }
    forall reserved: Byte, payload: seq<Byte> | 2 <= |payload| <= 1023 && bytes == Assemble(reserved, payload)
      ensures Accepts(bytes)
    {
      ParseAssembled(reserved, payload);
    }
  }

  // ----- How a damaged frame is rejected -----

  lemma AcceptedHeader(bytes: seq<Byte>)
    requires Accepts(bytes)
    ensures |bytes| >= 8 && bytes[0] == 0xD3 && DeclaredLength(bytes[1], bytes[2]) == |bytes| - 6
    ensures Word24(bytes[|bytes| - 3], bytes[|bytes| - 2], bytes[|bytes| - 1]) == Crc(bytes[..|bytes| - 3])
  {
    hide Crc, Word24, DeclaredLength, MessageType;
  }

  /** A frame whose payload cannot hold a message type. */
  lemma NoMessageType(reserved: Byte, payload: seq<Byte>)
    requires |payload| < 2
    ensures ParseFrame(Assemble(reserved, payload)) == Err(MissingMessageType)
  {
    hide Crc, Trailer, Word24, DeclaredLength, ToByte;
    var frame := Assemble(reserved, payload);
    AssembledLength(reserved, |payload|);
    assert frame[1] == Head(reserved, payload)[1] && frame[2] == Head(reserved, payload)[2];
  }

  /** A frame cut short: less than a header and a trailer is too short, any more of it incomplete. */
  lemma CutIsNamed(bytes: seq<Byte>, k: nat)
    requires Accepts(bytes) && k < |bytes|
    ensures ParseFrame(bytes[..k]) == Err(if k < 6 then TooShort else IncompleteFrame)
  {
    hide Crc, Word24, DeclaredLength, MessageType, Accepts;
    AcceptedHeader(bytes);
  }

  lemma ExcessIsNamed(bytes: seq<Byte>, more: seq<Byte>)
    requires Accepts(bytes) && more != []
    ensures ParseFrame(bytes + more) == Err(LengthMismatch)
  {
    hide Crc, Word24, DeclaredLength, MessageType, Accepts;
    AcceptedHeader(bytes);
  }

  /**
   * A frame of the same length with other bytes: a wrong preamble, a wrong length, or a CRC that is
   * not the one of the bytes before it, both of which the error carries.
   */
  lemma DamageIsNamed(bytes: seq<Byte>, other: seq<Byte>)
    requires Accepts(bytes) && |other| == |bytes|
    ensures var r := ParseFrame(other); var n := |bytes|;
      var declared := Value(other[1] & 0x03) * 256 + Value(other[2]);
      var sent := Word24(other[n - 3], other[n - 2], other[n - 1]);
      && (other[0] != 0xD3 ==> r == Err(InvalidPreamble))
      && (other[0] == 0xD3 ==>
            && (declared > n - 6 ==> r == Err(IncompleteFrame))
            && (declared < n - 6 ==> r == Err(LengthMismatch))
            && (declared == n - 6 && sent != Crc(other[..n - 3]) ==> r == Err(CrcMismatch(Crc(other[..n - 3]), sent))))
  {
    hide Crc, Word24, MessageType, Accepts, Value;
    AcceptedHeader(bytes);
  }

  // ----- Errors that no accepted frame survives -----

  lemma AcceptedResidue(bytes: seq<Byte>)
    requires Accepts(bytes)
    ensures Crc(bytes) == 0
  {
    hide Crc, Word24, DeclaredLength, MessageType;
    var n := |bytes|;
    ResidueIffTrailer(bytes[..n - 3], bytes[n - 3], bytes[n - 2], bytes[n - 1]);
    assert bytes == bytes[..n - 3] + [bytes[n - 3], bytes[n - 2], bytes[n - 1]];
  }

  lemma AcceptedBits(bytes: seq<Byte>)
    requires Accepts(bytes)
    ensures BitCrc(0, BitsOf(bytes)) == 0
  {
    AcceptedResidue(bytes);
    BytesAreBits(0, bytes);
  }

  lemma {:induction false} SameBits(x: seq<Byte>, y: seq<Byte>)
    requires |x| == |y| && BitsOf(x) == BitsOf(y)
    ensures x == y
    decreases |x|
  {
    hide Bits;
    if x != [] {
      EightBits(x[0]);
      EightBits(y[0]);
      assert Bits(x[0], 0x80) == BitsOf(x)[..8] && BitsOf(x[1..]) == BitsOf(x)[8..];
      assert Bits(y[0], 0x80) == BitsOf(y)[..8] && BitsOf(y[1..]) == BitsOf(y)[8..];
      LaidByte(x[0]);
      LaidByte(y[0]);
      AtTopInjective(x[0], y[0]);
      SameBits(x[1..], y[1..]);
    }
  }

  lemma AtTopInjective(a: Byte, b: Byte)
    requires AtTop(a) == AtTop(b)
    ensures a == b
  {
  }

  /**
   * Two accepted frames of one length that differ only within 24 consecutive bits, header,
   * payload and trailer included, are the same frame.
   */
  lemma NoBurstIsAccepted(x: seq<Byte>, y: seq<Byte>, lo: nat)
    requires Accepts(x) && Accepts(y) && |x| == |y|
    requires AgreeOutside(BitsOf(x), BitsOf(y), lo, 24)
    ensures x == y
  {
    hide ParseFrame, BitCrc, BitsOf;
    AcceptedBits(x);
    AcceptedBits(y);
    BurstsAreDetected(BitsOf(x), BitsOf(y), lo);
    SameBits(x, y);
  }

  lemma {:induction false} BitAt(bytes: seq<Byte>, k: nat)
    requires k < 8 * |bytes|
    ensures |BitsOf(bytes)| == 8 * |bytes| && |Bits(bytes[k / 8], 0x80)| == 8
    ensures BitsOf(bytes)[k] == Bits(bytes[k / 8], 0x80)[k % 8]
    decreases |bytes|
  {
    hide Bits;
    BitCount(bytes);
    EightBits(bytes[0]);
    EightBits(bytes[k / 8]);
    if k >= 8 {
      BitAt(bytes[1..], k - 8);
    }
  }

  /** The same for three consecutive bytes, wherever they lie. */
  lemma NoByteBurstIsAccepted(x: seq<Byte>, y: seq<Byte>, lo: nat)
    requires Accepts(x) && Accepts(y)
    requires AgreeOutside(x, y, lo, 3)
    ensures x == y
  {
    hide ParseFrame, Bits, BitsOf;
    BitCount(x);
    BitCount(y);
    forall k | 0 <= k < 8 * |x| && !(8 * lo <= k < 8 * lo + 24)
      ensures BitsOf(x)[k] == BitsOf(y)[k]
    {
      BitAt(x, k);
      BitAt(y, k);
      assert x[k / 8] == y[k / 8];
    }
    NoBurstIsAccepted(x, y, 8 * lo);
  }

  /** An accepted frame has an even number of one bits ... */
  lemma AcceptedWeight(bytes: seq<Byte>)
    requires Accepts(bytes)
    ensures !OddWeight(BitsOf(bytes))
  {
    hide ParseFrame, BitsOf, BitCrc, OddWeight, Odd;
    AcceptedBits(bytes);
    ParityIsKept(0, BitsOf(bytes));
    OddNothing();
  }

  /** ... so flipping an odd number of its bits always gets it rejected. */
  lemma OddErrorsAreRejected(x: seq<Byte>, y: seq<Byte>)
    requires Accepts(x) && |BitsOf(x)| == |BitsOf(y)|
    requires OddWeight(Diff(BitsOf(x), BitsOf(y)))
    ensures !Accepts(y)
  {
    hide ParseFrame, BitsOf, OddWeight;
    WeightOfDiff(BitsOf(x), BitsOf(y));
    AcceptedWeight(x);
    if Accepts(y) {
      AcceptedWeight(y);
    }
  }
}
