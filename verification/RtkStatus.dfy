/** The Phoenix RTK mode status: the byte ranges the parser reads, and the ones it should read. */
module RtkStatus {
  import opened Bytes
  import opened Commands

  datatype RuntimeFunction = Normal | Survey | Static

  datatype Status = Status(
    mode: RtkMode,
    function_: RtkFunction,
    savedSurveyLength: U32,
    standardDeviation: U32,
    latitude: Bits64,
    longitude: Bits64,
    altitude: Bits32,
    baseline: Bits32,
    runtimeFunction: Result<RuntimeFunction, Byte>,
    runtimeSurveyLength: U32)

  datatype StatusError =
    | TooShort(expected: nat, actual: nat)
    | UnsupportedSubMessage(subId: Byte)
    | InvalidField(value: Byte)

  function RuntimeFrom(b: Byte): Result<RuntimeFunction, Byte> {
    if b == 0 then Ok(Normal) else if b == 1 then Ok(Survey) else if b == 2 then Ok(Static) else Err(b)
  }

  function RuntimeWire(r: Result<RuntimeFunction, Byte>): Byte {
    match r
    case Ok(Normal) => 0
    case Ok(Survey) => 1
    case Ok(Static) => 2
    case Err(b) => b
  }

  /**
   * The parser, with the place in the body of the runtime function code and of the runtime
   * survey length left open; the other eight fields have their fixed places.
   */
  function ParseAt(payload: seq<Byte>, code: nat, length: nat): Result<Status, StatusError>
    requires code < 39 && length + 4 <= 39
  {
    if payload == [] then Err(TooShort(1, 0))
    else if payload[0] != 0x83 then Err(UnsupportedSubMessage(payload[0]))
    else if |payload| < 40 then Err(TooShort(40, |payload|))
    else
      var body := payload[1..];
      match RtkModeFrom(body[0])
      case None => Err(InvalidField(body[0]))
      case Some(mode) =>
        match RtkFunctionFrom(mode, body[1])
        case None => Err(InvalidField(body[1]))
        case Some(function_) =>
          Ok(Status(
            mode, function_, Word32(body[2..6]), Word32(body[6..10]), body[10..18], body[18..26],
            body[26..30], body[30..34], RuntimeFrom(body[code]), Word32(body[length..length + 4])))
  }

  /** `parse_rtk_message` as written. */
  function Parse(payload: seq<Byte>): Result<Status, StatusError> {
    ParseAt(payload, 32, 33)
  }

  /** The same with the last two fields behind the baseline instead of inside it. */
  function ParseDisjoint(payload: seq<Byte>): Result<Status, StatusError> {
    ParseAt(payload, 34, 35)
  }

  /** A status whose enumerations agree with each other, as every parsed one does. */
  predicate WellFormed(s: Status) {
    RtkFunctionWire(s.function_).0 == s.mode && RuntimeFrom(RuntimeWire(s.runtimeFunction)) == s.runtimeFunction
  }

  function Common(s: Status): (b: seq<Byte>)
    ensures |b| == 35
  {
    [0x83, RtkModeWire(s.mode), RtkFunctionWire(s.function_).1] + Be32(s.savedSurveyLength)
    + Be32(s.standardDeviation) + s.latitude + s.longitude + s.altitude + s.baseline
  }

  /** Ten fields side by side in the forty bytes the parser asks for. */
  function Write(s: Status): (b: seq<Byte>)
    ensures |b| == 40
  {
    Common(s) + [RuntimeWire(s.runtimeFunction)] + Be32(s.runtimeSurveyLength)
  }

  /** Where fields of these lengths lie when they are laid side by side. */
  lemma FieldsAt(
    head: seq<Byte>, a: seq<Byte>, b: seq<Byte>, c: seq<Byte>, d: seq<Byte>, e: seq<Byte>, f: seq<Byte>,
    more: seq<Byte>)
    requires |head| == 2 && |a| == |b| == |e| == |f| == 4 && |c| == |d| == 8
    ensures var body := head + a + b + c + d + e + f + more;
      && body[0] == head[0] && body[1] == head[1]
      && body[2..6] == a && body[6..10] == b && body[10..18] == c && body[18..26] == d
      && body[26..30] == e && body[30..34] == f
  {
  }

  lemma CommonIsRead(s: Status, more: seq<Byte>, code: nat, length: nat)
    requires WellFormed(s) && |more| >= 5 && code < 39 && length + 4 <= 39
    ensures var p := Common(s) + more; var r := ParseAt(p, code, length);
      r.Ok? && r.value == s.(runtimeFunction := RuntimeFrom(p[1..][code]),
                             runtimeSurveyLength := Word32(p[1..][length..length + 4]))
  {
    hide RtkModeFrom, RtkModeWire, RtkFunctionFrom, RtkFunctionWire, RuntimeFrom, RuntimeWire, Word32, Be32;
    var p := Common(s) + more;
    var body := p[1..];
    WireMapsInvert(RtkModeWire(s.mode));
    WireMapsInvert(RtkFunctionWire(s.function_).1);
    assert RtkFunctionWire(s.function_) == (s.mode, RtkFunctionWire(s.function_).1);
    Word32Be32(s.savedSurveyLength);
    Word32Be32(s.standardDeviation);
    var head := [RtkModeWire(s.mode), RtkFunctionWire(s.function_).1];
    assert body == head + Be32(s.savedSurveyLength) + Be32(s.standardDeviation) + s.latitude + s.longitude
                   + s.altitude + s.baseline + more;
    FieldsAt(head, Be32(s.savedSurveyLength), Be32(s.standardDeviation), s.latitude, s.longitude, s.altitude,
             s.baseline, more);
  }

  /** With disjoint fields every well-formed status round-trips ... */
  lemma DisjointRoundTrip(s: Status)
    requires WellFormed(s)
    ensures ParseDisjoint(Write(s)) == Ok(s)
  {
    hide Common, RuntimeFrom, RuntimeWire, RtkFunctionWire, Word32, Be32, ParseAt;
    var more := [RuntimeWire(s.runtimeFunction)] + Be32(s.runtimeSurveyLength);
    var p := Common(s) + more;
    assert Write(s) == p;
    CommonIsRead(s, more, 34, 35);
    assert p[1..][34] == RuntimeWire(s.runtimeFunction);
    assert p[1..][35..39] == Be32(s.runtimeSurveyLength);
    Word32Be32(s.runtimeSurveyLength);
  }

  lemma RuntimeCode(b: Byte)
    ensures RuntimeWire(RuntimeFrom(b)) == b
  {
  }

  lemma CutAt(payload: seq<Byte>, i: nat, j: nat)
    requires 0 < i <= j <= |payload|
    ensures payload[..j] == payload[..i] + payload[1..][i - 1..j - 1]
  {
  }

  /** A payload cut where its first fields end. */
  lemma Cut(payload: seq<Byte>)
    requires |payload| >= 40
    ensures var body := payload[1..];
      payload[..35] == payload[..3] + body[2..6] + body[6..10] + body[10..18] + body[18..26] + body[26..30]
                       + body[30..34]
  {
    CutAt(payload, 3, 7);
    CutAt(payload, 7, 11);
    CutAt(payload, 11, 19);
    CutAt(payload, 19, 27);
    CutAt(payload, 27, 31);
    CutAt(payload, 31, 35);
  }

  /** The fields of a parsed status outside the two open places, by the bytes they come from. */
  lemma ParsedFields(payload: seq<Byte>, code: nat, length: nat)
    requires code < 39 && length + 4 <= 39 && ParseAt(payload, code, length).Ok?
    ensures |payload| >= 40 && payload[0] == 0x83
    ensures var s := ParseAt(payload, code, length).value; var body := payload[1..];
      && RtkModeWire(s.mode) == body[0] && RtkFunctionWire(s.function_).1 == body[1]
      && s.savedSurveyLength == Word32(body[2..6]) && s.standardDeviation == Word32(body[6..10])
      && s.latitude == body[10..18] && s.longitude == body[18..26]
      && s.altitude == body[26..30] && s.baseline == body[30..34]
  {
    hide Word32, RuntimeFrom, RtkModeFrom, RtkModeWire, RtkFunctionFrom, RtkFunctionWire;
    if |payload| > 2 {
      WireMapsInvert(payload[1..][0]);
      WireMapsInvert(payload[1..][1]);
    }
  }

  lemma CommonWritesBack(payload: seq<Byte>, code: nat, length: nat)
    requires code < 39 && length + 4 <= 39 && ParseAt(payload, code, length).Ok?
    ensures Common(ParseAt(payload, code, length).value) == payload[..35]
  {
    hide ParseAt, Word32, Be32, RtkModeWire, RtkFunctionWire;
    ParsedFields(payload, code, length);
    var body := payload[1..];
    Be32Word32(body[2..6]);
    Be32Word32(body[6..10]);
    assert payload[..3] == [payload[0], body[0], body[1]];
    Cut(payload);
  }

  /** ... and so does every forty-byte payload that parses. */
  lemma DisjointWritesBack(payload: seq<Byte>)
    requires |payload| == 40 && ParseDisjoint(payload).Ok?
    ensures Write(ParseDisjoint(payload).value) == payload
  {
    hide Word32, Be32, RuntimeFrom, RuntimeWire, RtkModeFrom, RtkFunctionFrom, Common;
    CommonWritesBack(payload, 34, 35);
    RuntimeCode(payload[1..][34]);
    Be32Word32(payload[1..][35..39]);
    assert payload == payload[..35] + [payload[1..][34]] + payload[1..][35..39];
  }

  /** Every error says what is wrong: the length, the sub-message, or a mode or function code unknown. */
  lemma ParseErrors(payload: seq<Byte>)
    ensures var r := Parse(payload);
      && (forall e: nat, n: nat :: r == Err(TooShort(e, n)) <==>
            || (payload == [] && e == 1 && n == 0)
            || (payload != [] && payload[0] == 0x83 && |payload| < 40 && e == 40 && n == |payload|))
      && (forall b: Byte :: r == Err(UnsupportedSubMessage(b)) <==> payload != [] && payload[0] == b && b != 0x83)
      && (forall b: Byte :: r == Err(InvalidField(b)) <==>
            && |payload| >= 40 && payload[0] == 0x83
            && ((b == payload[1] && forall m :: RtkModeWire(m) != b)
                || (b == payload[2]
                    && exists m :: RtkModeWire(m) == payload[1] && forall f :: RtkFunctionWire(f) != (m, b))))
  {
    hide RtkModeWire, RtkModeFrom, RtkFunctionWire, RtkFunctionFrom, Word32, RuntimeFrom;
    if |payload| >= 40 && payload[0] == 0x83 {
      var body := payload[1..];
      assert body[0] == payload[1] && body[1] == payload[2];
      CodeUnknownIff(body[0]);
      CodeUnknownIff(body[1]);
      WireMapsInvert(body[0]);
    }
  }

  /** The two fields that overlap the baseline carry the baseline's own last bytes. */
  ghost predicate Overlaps(s: Status) {
    && RuntimeWire(s.runtimeFunction) == s.baseline[2]
    && Be32(s.runtimeSurveyLength)[0] == s.baseline[3]
  }

  lemma OverlapOfParsed(payload: seq<Byte>)
    requires Parse(payload).Ok?
    ensures WellFormed(Parse(payload).value) && Overlaps(Parse(payload).value)
  {
    hide Word32, Be32, RuntimeFrom, RuntimeWire, RtkModeFrom, RtkModeWire, RtkFunctionFrom, RtkFunctionWire;
    var body := payload[1..];
    WireMapsInvert(body[0]);
    WireMapsInvert(body[1]);
    RuntimeCode(body[32]);
    Be32Word32(body[33..37]);
    assert body[33..37][0] == body[30..34][3];
  }

  lemma CommonEnds(s: Status)
    ensures Common(s)[33] == s.baseline[2] && Common(s)[34] == s.baseline[3]
  {
    hide RtkFunctionWire, RtkModeWire, Be32;
  }

  /** The bytes that a body read on behind its first 34 shares with them. */
  lemma ReadOn(front: seq<Byte>, more: seq<Byte>)
    requires |front| == 35 && |more| >= 5
    ensures var body := (front + more)[1..];
      body[32] == front[33] && body[33..37] == [front[34], more[0], more[1], more[2]]
  {
  }

  lemma OverlapIsWritable(s: Status)
    requires WellFormed(s) && Overlaps(s)
    ensures Parse(Common(s) + (Be32(s.runtimeSurveyLength)[1..] + [0, 0])) == Ok(s)
  {
    hide RuntimeFrom, RuntimeWire, RtkFunctionWire, RtkModeWire, Word32, Be32, ParseAt, Common;
    var length := Be32(s.runtimeSurveyLength);
    var more := length[1..] + [0, 0];
    CommonIsRead(s, more, 32, 33);
    CommonEnds(s);
    ReadOn(Common(s), more);
    assert length == [length[0], length[1], length[2], length[3]];
    Word32Be32(s.runtimeSurveyLength);
  }

  /** As written, a status can come out of the parser exactly when the overlapping bytes agree. */
  lemma ReportableIffOverlapping(s: Status)
    ensures (exists payload :: Parse(payload) == Ok(s)) <==> WellFormed(s) && Overlaps(s)
  {
    hide Parse, WellFormed, Overlaps;
    forall payload | Parse(payload) == Ok(s)
      ensures WellFormed(s) && Overlaps(s)
    {
      OverlapOfParsed(payload);
    }
    if WellFormed(s) && Overlaps(s) {
      OverlapIsWritable(s);
    }
  }

  /** So no serializer can make the parser return every well-formed status. */
  lemma NoSerializer(write: Status -> seq<Byte>) returns (s: Status)
    ensures WellFormed(s) && Parse(write(s)) != Ok(s)
  {
    var zero: Bits32 := [0, 0, 0, 0];
    var wide: Bits64 := [0, 0, 0, 0, 0, 0, 0, 0];
    s := Status(Rover, RoverNormal, 0, 0, wide, wide, zero, zero, Ok(Survey), 0);
    ReportableIffOverlapping(s);
  }
}
