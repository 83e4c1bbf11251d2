/**
 * SkyTraq binary frames, shared by the Venus8 and Phoenix protocol crates: two sync bytes, a
 * big-endian length, message id and payload, an XOR checksum and a fixed trailer.
 */
module SkyTraq {
  import opened Bytes

  datatype Frame = Frame(messageId: Byte, payload: seq<Byte>)

  datatype DecodeError =
    | TooShort
    | InvalidSync
    | IncompleteFrame
    | LengthMismatch
    | MissingMessageId
    | InvalidTerminator
    | ChecksumMismatch(expected: Byte, actual: Byte)

  /** The XOR fold over message id and payload. */
  function Checksum(body: seq<Byte>): Byte
    decreases |body|
  {
    if body == [] then 0 else Checksum(body[..|body| - 1]) ^ body[|body| - 1]
  }

  function Encode(frame: Frame): seq<Byte> {
    var body := [frame.messageId] + frame.payload;
    [0xA0, 0xA1] + Be16(|body|) + body + [Checksum(body), 0x0D, 0x0A]
  }

  method FoldChecksum(body: seq<Byte>) returns (checksum: Byte)
    ensures checksum == Checksum(body)
  {
    checksum := 0;
    for i := 0 to |body|
      invariant checksum == Checksum(body[..i])
    {
      checksum := checksum ^ body[i];
      assert body[..i + 1][..i] == body[..i];
    }
    assert body[..|body|] == body;
  }

  /** `encode_frame`: the bytes are pushed one field after another. */
  method EncodeFrame(frame: Frame) returns (bytes: seq<Byte>)
    ensures bytes == Encode(frame)
  {
    hide Checksum, Be16;
    var declared := |frame.payload| + 1;
    bytes := [0xA0];
    bytes := bytes + [0xA1];
    bytes := bytes + Be16(declared);
    bytes := bytes + [frame.messageId];
    bytes := bytes + frame.payload;
    assert bytes[4..] == [frame.messageId] + frame.payload;
    var checksum := FoldChecksum(bytes[4..]);
    bytes := bytes + [checksum];
    bytes := bytes + [0x0D];
    bytes := bytes + [0x0A];
  }

  function DeclaredLength(bytes: seq<Byte>): nat
    requires |bytes| >= 4
  {
    Word16(bytes[2], bytes[3])
  }

  function DecodeFrame(bytes: seq<Byte>): Result<Frame, DecodeError> {
    if |bytes| < 8 then Err(TooShort)
    else if bytes[0] != 0xA0 || bytes[1] != 0xA1 then Err(InvalidSync)
    else
      var declared := DeclaredLength(bytes);
      var expected := declared + 7;
      if |bytes| < expected then Err(IncompleteFrame)
      else if |bytes| != expected then Err(LengthMismatch)
      else if bytes[expected - 2] != 0x0D || bytes[expected - 1] != 0x0A then Err(InvalidTerminator)
      else
        var body := bytes[4..4 + declared];
        if body == [] then Err(MissingMessageId)
        else
          var checksum := bytes[4 + declared];
          if checksum != Checksum(body) then Err(ChecksumMismatch(Checksum(body), checksum))
          else Ok(Frame(body[0], body[1..]))
  }

  predicate Accepts(bytes: seq<Byte>) {
    DecodeFrame(bytes).Ok?
  }

  // ----- Encoding and decoding are inverse, up to the width of the length field -----

  /** A frame round-trips exactly when its length fits the 16-bit field; otherwise it is rejected. */
  lemma DecodeEncode(frame: Frame)
    ensures DecodeFrame(Encode(frame)) == if |frame.payload| <= 65534 then Ok(frame) else Err(LengthMismatch)
  {
    hide Checksum, Word16, Be16;
    var body := [frame.messageId] + frame.payload;
    var bytes := Encode(frame);
    Word16Be16(|body|);
    assert bytes[2] == Be16(|body|)[0] && bytes[3] == Be16(|body|)[1];
    if |frame.payload| <= 65534 {
      assert bytes[4..4 + |body|] == body;
    }
  }

  ghost predicate Shaped(bytes: seq<Byte>, n: nat) {
    && |bytes| == n + 7 && n > 0
    && DeclaredLength(bytes) == n
    && bytes[0] == 0xA0 && bytes[1] == 0xA1
    && bytes[n + 4] == Checksum(bytes[4..n + 4])
    && bytes[n + 5] == 0x0D && bytes[n + 6] == 0x0A
  }

  /** A byte string cut where the fields of a frame with an `n`-byte body end. */
  lemma Cut(bytes: seq<Byte>, n: nat)
    requires |bytes| == n + 7 && n > 0
    ensures bytes == [bytes[0], bytes[1]] + [bytes[2], bytes[3]] + bytes[4..n + 4]
                     + [bytes[n + 4], bytes[n + 5], bytes[n + 6]]
    ensures bytes[4..n + 4] == [bytes[4]] + bytes[5..n + 4]
  {
  }

  lemma DecodedFields(bytes: seq<Byte>)
    requires Accepts(bytes)
    ensures var n := |bytes| - 7;
      n > 0 && Shaped(bytes, n) && DecodeFrame(bytes) == Ok(Frame(bytes[4], bytes[5..n + 4]))
  {
    hide Checksum, Word16;
  }

  /** Every accepted byte string is the encoding of what it decodes to. */
  lemma EncodeDecode(bytes: seq<Byte>)
    requires Accepts(bytes)
    ensures Encode(DecodeFrame(bytes).value) == bytes
  {
    hide Checksum, Word16, Be16, DecodeFrame, Accepts;
    DecodedFields(bytes);
    Cut(bytes, |bytes| - 7);
    Be16Word16(bytes[2], bytes[3]);
  }

  // ----- Single-byte errors -----

  lemma XorSame(a: Byte, b: Byte, c: Byte)
    ensures a ^ c == b ^ c ==> a == b
    ensures c ^ a == c ^ b ==> a == b
  {
  }

  /** The checksum tells apart bodies that differ in one byte. */
  lemma {:induction false} ChecksumDetects(x: seq<Byte>, y: seq<Byte>, k: nat)
    requires k < |x| == |y| && x[k] != y[k]
    requires forall i :: 0 <= i < |x| && i != k ==> x[i] == y[i]
    ensures Checksum(x) != Checksum(y)
    decreases |x|
  {
    var n := |x| - 1;
    if k == n {
      assert x[..n] == y[..n];
      XorSame(x[n], y[n], Checksum(x[..n]));
    } else {
      ChecksumDetects(x[..n], y[..n], k);
      XorSame(Checksum(x[..n]), Checksum(y[..n]), x[n]);
    }
  }

  lemma AcceptsIffShaped(bytes: seq<Byte>)
    ensures Accepts(bytes) <==> |bytes| >= 7 && Shaped(bytes, |bytes| - 7)
  {
    hide Checksum, Word16;
  }

  // ----- What the checksum byte says -----

  predicate OneBit(mask: Byte) {
    mask != 0 && mask & (mask - 1) == 0
  }

  predicate Has(b: Byte, mask: Byte) {
    b & mask != 0
  }

  /** How many bytes have the masked bit set. */
  function CountSet(bytes: seq<Byte>, mask: Byte): nat
    decreases |bytes|
  {
    if bytes == [] then 0
    else
      var n := |bytes| - 1;
      CountSet(bytes[..n], mask) + (if Has(bytes[n], mask) then 1 else 0)
  }

  lemma XorBit(a: Byte, b: Byte, mask: Byte)
    requires OneBit(mask)
    ensures Has(a ^ b, mask) <==> Has(a, mask) != Has(b, mask)
  {
  }

  lemma NoBit(mask: Byte)
    ensures !Has(0, mask)
  {
  }

  lemma ChecksumStep(body: seq<Byte>, mask: Byte)
    requires OneBit(mask)
    ensures body == [] ==> !Has(Checksum(body), mask)
    ensures body != [] ==>
              var n := |body| - 1;
              Has(Checksum(body), mask) == (Has(Checksum(body[..n]), mask) != Has(body[n], mask))
  {
    hide OneBit, Has;
    NoBit(mask);
    if body != [] {
      XorBit(Checksum(body[..|body| - 1]), body[|body| - 1], mask);
    }
  }

  lemma {:induction false} ChecksumBit(body: seq<Byte>, mask: Byte)
    requires OneBit(mask)
    ensures Has(Checksum(body), mask) <==> CountSet(body, mask) % 2 == 1
    decreases |body|
  {
    hide OneBit, Has, Checksum;
    ChecksumStep(body, mask);
    if body != [] {
      ChecksumBit(body[..|body| - 1], mask);
    }
  }

  lemma SameBits(a: Byte, b: Byte)
    requires forall mask: Byte :: OneBit(mask) ==> Has(a, mask) == Has(b, mask)
    ensures a == b
  {
    hide OneBit, Has;
    EightMasks();
    assert Has(a, 0x01) == Has(b, 0x01) && Has(a, 0x02) == Has(b, 0x02);
    assert Has(a, 0x04) == Has(b, 0x04) && Has(a, 0x08) == Has(b, 0x08);
    assert Has(a, 0x10) == Has(b, 0x10) && Has(a, 0x20) == Has(b, 0x20);
    assert Has(a, 0x40) == Has(b, 0x40) && Has(a, 0x80) == Has(b, 0x80);
    EightBitsDecide(a, b);
  }

  lemma EightBitsDecide(a: Byte, b: Byte)
    requires Has(a, 0x01) == Has(b, 0x01) && Has(a, 0x02) == Has(b, 0x02)
    requires Has(a, 0x04) == Has(b, 0x04) && Has(a, 0x08) == Has(b, 0x08)
    requires Has(a, 0x10) == Has(b, 0x10) && Has(a, 0x20) == Has(b, 0x20)
    requires Has(a, 0x40) == Has(b, 0x40) && Has(a, 0x80) == Has(b, 0x80)
    ensures a == b
  {
  }

  lemma EightMasks()
    ensures OneBit(0x01) && OneBit(0x02) && OneBit(0x04) && OneBit(0x08)
    ensures OneBit(0x10) && OneBit(0x20) && OneBit(0x40) && OneBit(0x80)
  {
  }

  /** On the wire, a bit of the checksum is set exactly when an odd number of body bytes have it. */
  lemma EncodedChecksum(frame: Frame, mask: Byte)
    requires OneBit(mask)
    ensures Has(Encode(frame)[|frame.payload| + 5], mask) <==>
            CountSet([frame.messageId] + frame.payload, mask) % 2 == 1
  {
    hide Checksum, Be16, CountSet, OneBit, Has;
    ChecksumBit([frame.messageId] + frame.payload, mask);
  }

  ghost predicate EvenInEveryBit(bytes: seq<Byte>) {
    forall mask: Byte :: OneBit(mask) ==> CountSet(bytes, mask) % 2 == 0
  }

  lemma EvenIffChecksum(body: seq<Byte>, check: Byte)
    ensures EvenInEveryBit(body + [check]) <==> check == Checksum(body)
  {
    hide Checksum, OneBit, Has;
    assert (body + [check])[..|body|] == body;
    forall mask: Byte | OneBit(mask)
      ensures CountSet(body + [check], mask) % 2 == 0 <==> Has(check, mask) == Has(Checksum(body), mask)
    {
      ChecksumBit(body, mask);
    }
    if EvenInEveryBit(body + [check]) {
      SameBits(check, Checksum(body));
    }
  }

  /**
   * The decoder accepts exactly the strings with sync pair and trailer whose length field counts the
   * bytes between itself and the checksum, and whose body and checksum are even in every bit.
   */
  lemma AcceptsIffEven(bytes: seq<Byte>)
    ensures Accepts(bytes) <==>
            && |bytes| >= 8 && bytes[0] == 0xA0 && bytes[1] == 0xA1
            && Value(bytes[2]) * 256 + Value(bytes[3]) == |bytes| - 7
            && bytes[|bytes| - 2] == 0x0D && bytes[|bytes| - 1] == 0x0A
            && EvenInEveryBit(bytes[4..|bytes| - 2])
  {
    hide Checksum, Accepts, EvenInEveryBit;
    AcceptsIffShaped(bytes);
    if |bytes| >= 8 {
      var n := |bytes| - 7;
      assert bytes[4..n + 5] == bytes[4..n + 4] + [bytes[n + 4]];
      EvenIffChecksum(bytes[4..n + 4], bytes[n + 4]);
    }
  }

  /** An accepted frame decodes to its fifth byte and what lies between that and the checksum. */
  lemma DecodesTo(bytes: seq<Byte>)
    requires Accepts(bytes)
    ensures |bytes| >= 8 && DecodeFrame(bytes) == Ok(Frame(bytes[4], bytes[5..|bytes| - 3]))
  {
    hide DecodeFrame, Shaped;
    DecodedFields(bytes);
  }

  // ----- How a damaged frame is rejected -----

  /** A frame cut short: the header alone is too short, any more of it is incomplete. */
  lemma CutIsNamed(bytes: seq<Byte>, k: nat)
    requires Accepts(bytes) && k < |bytes|
    ensures DecodeFrame(bytes[..k]) == Err(if k < 8 then TooShort else IncompleteFrame)
  {
    hide Checksum, Word16;
    DecodedFields(bytes);
  }

  /** A frame with more bytes behind it. */
  lemma ExcessIsNamed(bytes: seq<Byte>, more: seq<Byte>)
    requires Accepts(bytes) && more != []
    ensures DecodeFrame(bytes + more) == Err(LengthMismatch)
  {
    hide Checksum, Word16;
    DecodedFields(bytes);
  }

  /** Changing any one byte of an accepted frame makes the decoder reject it. */
  lemma OneByteErrorRejected(bytes: seq<Byte>, k: nat, b: Byte)
    requires Accepts(bytes) && k < |bytes| && b != bytes[k]
    ensures !Accepts(bytes[k := b])
  {
    hide Accepts, DecodeFrame;
    DamageIsNamed(bytes, k, b);
    AcceptsIffOk(bytes[k := b]);
  }

  lemma AcceptsIffOk(bytes: seq<Byte>)
    ensures Accepts(bytes) <==> DecodeFrame(bytes).Ok?
  {
  }

  /** One changed byte: the error names the field it lies in, and no frame lacks a message id. */
  lemma DamageIsNamed(bytes: seq<Byte>, k: nat, b: Byte)
    requires Accepts(bytes) && k < |bytes| && b != bytes[k]
    ensures var r := DecodeFrame(bytes[k := b]); var n := |bytes|;
      && (k < 2 ==> r == Err(InvalidSync))
      && (2 <= k < 4 ==> r == Err(if Value(b) > Value(bytes[k]) then IncompleteFrame else LengthMismatch))
      && (4 <= k < n - 3 ==> r.Err? && r.error.ChecksumMismatch? && r.error.actual == bytes[n - 3])
      && (k == n - 3 ==> r == Err(ChecksumMismatch(bytes[k], b)))
      && (k > n - 3 ==> r == Err(InvalidTerminator))
  {
    hide Checksum, Value;
    var n := |bytes| - 7;
    var other := bytes[k := b];
    DecodedFields(bytes);
    if k == 2 || k == 3 {
      ValuesDiffer(b, bytes[k]);
    } else if 4 <= k < n + 4 {
      ChecksumDetects(bytes[4..n + 4], other[4..n + 4], k - 4);
    } else if k == n + 4 {
      assert other[4..n + 4] == bytes[4..n + 4];
    }
  }

  lemma ValuesDiffer(a: Byte, b: Byte)
    requires a != b
    ensures Value(a) != Value(b)
  {
    hide Value, ToByte;
    NatOfByte(a);
    NatOfByte(b);
  }

  lemma MessageIdIsThere(bytes: seq<Byte>)
    ensures DecodeFrame(bytes) != Err(MissingMessageId)
  {
    hide Checksum, Word16;
  }
}
