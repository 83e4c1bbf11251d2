/** SkyTraq extended raw measurements (message 0xE5): 13 header bytes and records of 31 bytes. */
module RawMeasurements {
  import opened Bytes
  import SkyTraq

  /** One record; floating-point fields are kept as their big-endian bytes. */
  datatype Channel = Channel(
    gnssType: Byte,
    signalType: Byte,
    svid: Byte,
    frequencyId: Byte,
    lockTimeIndicator: Byte,
    cn0: Byte,
    pseudorange: seq<Byte>,
    carrierPhase: seq<Byte>,
    doppler: seq<Byte>,
    pseudorangeStddev: Byte,
    carrierPhaseStddev: Byte,
    dopplerStddev: Byte,
    channelIndicator: U16)

  datatype RawMeasurement = RawMeasurement(
    version: Byte,
    iod: Byte,
    receiverWeek: U16,
    receiverTowMs: U32,
    measurementPeriodMs: U16,
    measurementIndicator: Byte,
    measurements: seq<Channel>)

  datatype RawMeasurementError =
    | WrongMessageId(messageId: Byte)
    | TooShort
    | LengthMismatch(expected: nat, actual: nat)

  /** The record in the first 29 of 31 bytes. */
  function ParseChannel(b: seq<Byte>): Channel
    requires |b| >= 31
  {
    Channel(
      b[0] & 0x0F, b[0] >> 4, b[1], b[2] & 0x0F, b[2] >> 4, b[3],
      b[4..12], b[12..20], b[20..24], b[24], b[25], b[26], Word16(b[27], b[28]))
  }

  function ParseChannels(b: seq<Byte>): seq<Channel>
    decreases |b|
  {
    if |b| < 31 then [] else [ParseChannel(b[..31])] + ParseChannels(b[31..])
  }

  /** The header fields before the record count, with the records already read. */
  function WithHeader(p: seq<Byte>, measurements: seq<Channel>): RawMeasurement
    requires |p| >= 13
  {
    RawMeasurement(p[0], p[1], Word16(p[2], p[3]), Word32(p[4..8]), Word16(p[8], p[9]), p[10], measurements)
  }

  function Parse(frame: SkyTraq.Frame): Result<RawMeasurement, RawMeasurementError> {
    var p := frame.payload;
    if frame.messageId != 0xE5 then Err(WrongMessageId(frame.messageId))
    else if |p| < 13 then Err(TooShort)
    else
      var expected := 13 + Value(p[12]) * 31;
      if |p| != expected then Err(LengthMismatch(expected, |p|))
      else Ok(WithHeader(p, ParseChannels(p[13..])))
  }

  /** The next record and the ones behind it. */
  lemma NextRecord(p: seq<Byte>, offset: nat)
    requires offset + 31 <= |p|
    ensures ParseChannels(p[offset..]) == [ParseChannel(p[offset..offset + 31])] + ParseChannels(p[offset + 31..])
  {
    hide ParseChannel;
    assert p[offset..][..31] == p[offset..offset + 31];
    assert p[offset..][31..] == p[offset + 31..];
  }

  lemma NoRecord(p: seq<Byte>)
    ensures ParseChannels(p[|p|..]) == []
  {
  }

  /** `parse_extended_raw_measurements`: a loop over the record offset, every index in range. */
  method ParseExtendedRawMeasurements(frame: SkyTraq.Frame) returns (r: Result<RawMeasurement, RawMeasurementError>)
    ensures r == Parse(frame)
    ensures r.Ok? <==>
            frame.messageId == 0xE5 && |frame.payload| >= 13 && |frame.payload| == 13 + 31 * Value(frame.payload[12])
  {
    hide ParseChannel, ParseChannels, Word16, Word32, Value;
    ParsesIff(frame);
    var p := frame.payload;
    if frame.messageId != 0xE5 {
      return Err(WrongMessageId(frame.messageId));
    }
    if |p| < 13 {
      return Err(TooShort);
    }
    var expected := 13 + Value(p[12]) * 31;
    if |p| != expected {
      return Err(LengthMismatch(expected, |p|));
    }
    var measurements: seq<Channel> := [];
    var offset := 13;
    while offset < |p|
      invariant 13 <= offset <= |p| && (|p| - offset) % 31 == 0
      invariant measurements + ParseChannels(p[offset..]) == ParseChannels(p[13..])
    {
      NextRecord(p, offset);
      measurements := measurements + [ParseChannel(p[offset..offset + 31])];
      offset := offset + 31;
    }
    NoRecord(p);
    assert measurements == ParseChannels(p[13..]);
    return Ok(WithHeader(p, measurements));
  }

  // ----- What parsing keeps and what it drops -----

  /** The bytes the parser never looks at: header byte 11 and two behind each record. */
  datatype Spares = Spares(header: Byte, tails: seq<seq<Byte>>)

  function Nibbles(high: Byte, low: Byte): Byte {
    (high << 4) | low
  }

  function WriteChannel(c: Channel, tail: seq<Byte>): seq<Byte> {
    [Nibbles(c.signalType, c.gnssType), c.svid, Nibbles(c.lockTimeIndicator, c.frequencyId), c.cn0]
    + c.pseudorange + c.carrierPhase + c.doppler
    + [c.pseudorangeStddev, c.carrierPhaseStddev, c.dopplerStddev] + Be16(c.channelIndicator) + tail
  }

  function WriteChannels(cs: seq<Channel>, tails: seq<seq<Byte>>): seq<Byte>
    requires |cs| == |tails|
  {
    if cs == [] then [] else WriteChannel(cs[0], tails[0]) + WriteChannels(cs[1..], tails[1..])
  }

  function WriteHeader(raw: RawMeasurement, spare: Byte, count: Byte): (b: seq<Byte>)
    ensures |b| == 13
  {
    [raw.version, raw.iod] + Be16(raw.receiverWeek) + Be32(raw.receiverTowMs) + Be16(raw.measurementPeriodMs)
    + [raw.measurementIndicator, spare, count]
  }

  function Write(raw: RawMeasurement, spares: Spares): seq<Byte>
    requires |spares.tails| == |raw.measurements| < 256
  {
    WriteHeader(raw, spares.header, ToByte(|raw.measurements|)) + WriteChannels(raw.measurements, spares.tails)
  }

  predicate ValidChannel(c: Channel) {
    && c.gnssType <= 0x0F && c.signalType <= 0x0F && c.frequencyId <= 0x0F && c.lockTimeIndicator <= 0x0F
    && |c.pseudorange| == 8 && |c.carrierPhase| == 8 && |c.doppler| == 4
  }

  ghost predicate Writable(raw: RawMeasurement, spares: Spares) {
    && |spares.tails| == |raw.measurements| < 256
    && (forall k :: 0 <= k < |raw.measurements| ==> ValidChannel(raw.measurements[k]))
    && (forall k :: 0 <= k < |spares.tails| ==> |spares.tails[k]| == 2)
  }

  function TailsOf(b: seq<Byte>): seq<seq<Byte>>
    decreases |b|
  {
    if |b| < 31 then [] else [b[29..31]] + TailsOf(b[31..])
  }

  function SparesOf(p: seq<Byte>): Spares
    requires |p| >= 13
  {
    Spares(p[11], TailsOf(p[13..]))
  }

  lemma JoinNibbles(b: Byte)
    ensures Nibbles(b >> 4, b & 0x0F) == b && b >> 4 <= 0x0F && b & 0x0F <= 0x0F
  {
  }

  lemma SplitNibbles(high: Byte, low: Byte)
    requires high <= 0x0F && low <= 0x0F
    ensures Nibbles(high, low) >> 4 == high && Nibbles(high, low) & 0x0F == low
  {
  }

  lemma ParsedNibbles(b: seq<Byte>)
    requires |b| == 31
    ensures var c := ParseChannel(b);
      && ValidChannel(c)
      && Nibbles(c.signalType, c.gnssType) == b[0] && Nibbles(c.lockTimeIndicator, c.frequencyId) == b[2]
  {
    hide Nibbles, Word16;
    JoinNibbles(b[0]);
    JoinNibbles(b[2]);
  }

  /** A record cut where its fields end. */
  lemma CutRecord(b: seq<Byte>)
    requires |b| == 31
    ensures b == [b[0], b[1], b[2], b[3]] + b[4..12] + b[12..20] + b[20..24] + [b[24], b[25], b[26]] + [b[27], b[28]]
                 + b[29..31]
  {
    assert b[..24] == [b[0], b[1], b[2], b[3]] + b[4..12] + b[12..20] + b[20..24];
    assert b[24..] == [b[24], b[25], b[26]] + [b[27], b[28]] + b[29..31];
    assert b == b[..24] + b[24..];
  }

  lemma WriteParsedChannel(b: seq<Byte>)
    requires |b| == 31
    ensures WriteChannel(ParseChannel(b), b[29..31]) == b
    ensures ValidChannel(ParseChannel(b))
  {
    hide Nibbles, Word16, Be16, ValidChannel;
    ParsedNibbles(b);
    Be16Word16(b[27], b[28]);
    CutRecord(b);
  }

  lemma ParseWrittenChannel(c: Channel, tail: seq<Byte>)
    requires ValidChannel(c) && |tail| == 2
    ensures |WriteChannel(c, tail)| == 31
    ensures ParseChannel(WriteChannel(c, tail)) == c
  {
    hide Nibbles, Word16, Be16;
    SplitNibbles(c.signalType, c.gnssType);
    SplitNibbles(c.lockTimeIndicator, c.frequencyId);
    Word16Be16(c.channelIndicator);
    var b := WriteChannel(c, tail);
    assert b[4..12] == c.pseudorange && b[12..20] == c.carrierPhase && b[20..24] == c.doppler;
    assert b[27] == Be16(c.channelIndicator)[0] && b[28] == Be16(c.channelIndicator)[1];
  }

  lemma {:induction false} WriteParsedChannels(b: seq<Byte>, n: nat)
    requires |b| == 31 * n
    ensures |ParseChannels(b)| == |TailsOf(b)| == n
    ensures WriteChannels(ParseChannels(b), TailsOf(b)) == b
    ensures forall k :: 0 <= k < n ==> ValidChannel(ParseChannels(b)[k]) && |TailsOf(b)[k]| == 2
    decreases n
  {
    hide WriteChannel, ParseChannel, ValidChannel;
    if n > 0 {
      WriteParsedChannel(b[..31]);
      assert b[..31][29..31] == b[29..31];
      WriteParsedChannels(b[31..], n - 1);
      assert b[..31] + b[31..] == b;
    }
  }

  lemma {:induction false} ParseWrittenChannels(cs: seq<Channel>, tails: seq<seq<Byte>>)
    requires |cs| == |tails|
    requires forall k :: 0 <= k < |cs| ==> ValidChannel(cs[k])
    requires forall k :: 0 <= k < |tails| ==> |tails[k]| == 2
    ensures |WriteChannels(cs, tails)| == 31 * |cs|
    ensures ParseChannels(WriteChannels(cs, tails)) == cs
    decreases |cs|
  {
    hide WriteChannel, ParseChannel, ValidChannel;
    if cs != [] {
      ParseWrittenChannel(cs[0], tails[0]);
      ParseWrittenChannels(cs[1..], tails[1..]);
      var b := WriteChannels(cs, tails);
      assert b[..31] == WriteChannel(cs[0], tails[0]) && b[31..] == WriteChannels(cs[1..], tails[1..]);
    }
  }

  /** Success is decided by the message id and the payload length alone. */
  lemma ParsesIff(frame: SkyTraq.Frame)
    ensures Parse(frame).Ok? <==>
            frame.messageId == 0xE5 && |frame.payload| >= 13 && |frame.payload| == 13 + 31 * Value(frame.payload[12])
  {
    hide ParseChannels, Word16, Word32, Value;
  }

  /** Every error says what is wrong, with the numbers that show it. */
  lemma ParseErrors(frame: SkyTraq.Frame)
    ensures var p, r := frame.payload, Parse(frame);
      && (forall id: Byte :: r == Err(WrongMessageId(id)) <==> id == frame.messageId && id != 0xE5)
      && (r == Err(TooShort) <==> frame.messageId == 0xE5 && |p| < 13)
      && (forall e: nat, n: nat :: r == Err(LengthMismatch(e, n)) <==>
            frame.messageId == 0xE5 && |p| >= 13 && n == |p| && e == 13 + 31 * Value(p[12]) && n != e)
  {
    hide ParseChannels, Word16, Word32, Value;
  }

  lemma WriteParsedHeader(p: seq<Byte>, measurements: seq<Channel>)
    requires |p| >= 13
    ensures WriteHeader(WithHeader(p, measurements), p[11], p[12]) == p[..13]
  {
    hide Word16, Be16, Word32, Be32;
    Be16Word16(p[2], p[3]);
    Be32Word32(p[4..8]);
    Be16Word16(p[8], p[9]);
    assert p[..13] == p[..2] + p[2..4] + p[4..8] + p[8..10] + p[10..13];
  }

  lemma ParseWrittenHeader(raw: RawMeasurement, spare: Byte, count: Byte, more: seq<Byte>)
    ensures WithHeader(WriteHeader(raw, spare, count) + more, raw.measurements) == raw
    ensures (WriteHeader(raw, spare, count) + more)[12] == count
  {
    hide Word16, Be16, Word32, Be32;
    var p := WriteHeader(raw, spare, count) + more;
    Word16Be16(raw.receiverWeek);
    Word32Be32(raw.receiverTowMs);
    Word16Be16(raw.measurementPeriodMs);
    assert p[4..8] == Be32(raw.receiverTowMs);
    assert p[2] == Be16(raw.receiverWeek)[0] && p[3] == Be16(raw.receiverWeek)[1];
    assert p[8] == Be16(raw.measurementPeriodMs)[0] && p[9] == Be16(raw.measurementPeriodMs)[1];
  }

  /** Parsing and writing back reproduces every byte, given the ones the parser skips. */
  lemma WriteParsed(frame: SkyTraq.Frame)
    requires Parse(frame).Ok?
    ensures var raw := Parse(frame).value;
      && |raw.measurements| == Value(frame.payload[12])
      && Writable(raw, SparesOf(frame.payload))
      && Write(raw, SparesOf(frame.payload)) == frame.payload
  {
    hide ParseChannels, WriteChannels, TailsOf, ValidChannel, WriteHeader, Value, ToByte;
    var p := frame.payload;
    var raw := Parse(frame).value;
    WriteParsedChannels(p[13..], Value(p[12]));
    NatOfByte(p[12]);
    WriteParsedHeader(p, raw.measurements);
    assert p[..13] + p[13..] == p;
  }

  /** Whatever the skipped bytes are, writing and parsing gives the measurement back. */
  lemma ParseWritten(raw: RawMeasurement, spares: Spares)
    requires Writable(raw, spares)
    ensures Parse(SkyTraq.Frame(0xE5, Write(raw, spares))) == Ok(raw)
  {
    hide ParseChannels, WriteChannels, ValidChannel, WriteHeader, WithHeader, Value, ToByte;
    var p := Write(raw, spares);
    var count := ToByte(|raw.measurements|);
    var more := WriteChannels(raw.measurements, spares.tails);
    ParseWrittenChannels(raw.measurements, spares.tails);
    ParseWrittenHeader(raw, spares.header, count, more);
    ByteOfNat(|raw.measurements|);
    assert p[13..] == more;
  }
}
