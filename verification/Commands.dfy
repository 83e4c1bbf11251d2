/** Commands of the Venus8 and Phoenix receivers: their frames, and a reader that undoes them. */
module Commands {
  import opened Bytes
  import SkyTraq

  // ----- Field values and their wire codes -----

  datatype OutputMessageType = NoOutput | Nmea | Binary
  datatype StorageLocation = Sram | SramAndFlash
  datatype SerialStorageLocation = SerialSram | SerialSramAndFlash | Temporary
  datatype BaudRate = B4800 | B9600 | B19200 | B38400 | B57600 | B115200 | B230400 | B460800 | B921600
  datatype UpdateRate = Hz1 | Hz2 | Hz4 | Hz5 | Hz8 | Hz10 | Hz20 | Hz25 | Hz40 | Hz50
  datatype MeasurementRate = M1 | M2 | M4 | M5 | M8 | M10 | M20
  datatype ConstellationMask = ConstellationMask(gps: bool, glonass: bool, galileo: bool, beidou: bool)
  datatype RtkMode = Rover | Base | PreciselyKinematicBase
  datatype RtkFunction =
    | RoverNormal | RoverFloat | RoverMovingBase
    | BaseKinematic | BaseSurvey | BaseStatic
    | PreciselyKinematicNormal | PreciselyKinematicFloat

  function OutputMessageTypeWire(x: OutputMessageType): Byte {
    match x case NoOutput => 0 case Nmea => 1 case Binary => 2
  }

  function OutputMessageTypeFrom(b: Byte): Option<OutputMessageType> {
    if b == 0 then Some(NoOutput) else if b == 1 then Some(Nmea) else if b == 2 then Some(Binary) else None
  }

  function StorageWire(x: StorageLocation): Byte {
    match x case Sram => 0 case SramAndFlash => 1
  }

  function StorageFrom(b: Byte): Option<StorageLocation> {
    if b == 0 then Some(Sram) else if b == 1 then Some(SramAndFlash) else None
  }

  function SerialStorageWire(x: SerialStorageLocation): Byte {
    match x case SerialSram => 0 case SerialSramAndFlash => 1 case Temporary => 2
  }

  function SerialStorageFrom(b: Byte): Option<SerialStorageLocation> {
    if b == 0 then Some(SerialSram)
    else if b == 1 then Some(SerialSramAndFlash)
    else if b == 2 then Some(Temporary)
    else None
  }

  function BaudWire(x: BaudRate): Byte {
    match x
    case B4800 => 0 case B9600 => 1 case B19200 => 2 case B38400 => 3 case B57600 => 4
    case B115200 => 5 case B230400 => 6 case B460800 => 7 case B921600 => 8
  }

  function BaudFrom(b: Byte): Option<BaudRate> {
    if b == 0 then Some(B4800) else if b == 1 then Some(B9600) else if b == 2 then Some(B19200)
    else if b == 3 then Some(B38400) else if b == 4 then Some(B57600) else if b == 5 then Some(B115200)
    else if b == 6 then Some(B230400) else if b == 7 then Some(B460800) else if b == 8 then Some(B921600)
    else None
  }

  function UpdateRateWire(x: UpdateRate): Byte {
    match x
    case Hz1 => 1 case Hz2 => 2 case Hz4 => 4 case Hz5 => 5 case Hz8 => 8
    case Hz10 => 10 case Hz20 => 20 case Hz25 => 25 case Hz40 => 40 case Hz50 => 50
  }

  function UpdateRateFrom(b: Byte): Option<UpdateRate> {
    if b == 1 then Some(Hz1) else if b == 2 then Some(Hz2) else if b == 4 then Some(Hz4)
    else if b == 5 then Some(Hz5) else if b == 8 then Some(Hz8) else if b == 10 then Some(Hz10)
    else if b == 20 then Some(Hz20) else if b == 25 then Some(Hz25) else if b == 40 then Some(Hz40)
    else if b == 50 then Some(Hz50) else None
  }

  /** The code of 8 Hz comes last on the wire. */
  function MeasurementRateWire(x: MeasurementRate): Byte {
    match x
    case M1 => 0 case M2 => 1 case M4 => 2 case M5 => 3 case M10 => 4 case M20 => 5 case M8 => 6
  }

  function MeasurementRateFrom(b: Byte): Option<MeasurementRate> {
    if b == 0 then Some(M1) else if b == 1 then Some(M2) else if b == 2 then Some(M4)
    else if b == 3 then Some(M5) else if b == 4 then Some(M10) else if b == 5 then Some(M20)
    else if b == 6 then Some(M8) else None
  }

  function FlagWire(x: bool): Byte {
    if x then 1 else 0
  }

  function MaskWire(m: ConstellationMask): Byte {
    FlagWire(m.gps) | (FlagWire(m.glonass) << 1) | (FlagWire(m.galileo) << 2) | (FlagWire(m.beidou) << 3)
  }

  function MaskFrom(b: Byte): ConstellationMask {
    ConstellationMask(b & 0x01 != 0, b & 0x02 != 0, b & 0x04 != 0, b & 0x08 != 0)
  }

  function RtkModeWire(x: RtkMode): Byte {
    match x case Rover => 0 case Base => 1 case PreciselyKinematicBase => 2
  }

  function RtkModeFrom(b: Byte): Option<RtkMode> {
    if b == 0 then Some(Rover) else if b == 1 then Some(Base)
    else if b == 2 then Some(PreciselyKinematicBase) else None
  }

  function RtkFunctionWire(x: RtkFunction): (RtkMode, Byte) {
    match x
    case RoverNormal => (Rover, 0)
    case RoverFloat => (Rover, 1)
    case RoverMovingBase => (Rover, 2)
    case BaseKinematic => (Base, 0)
    case BaseSurvey => (Base, 1)
    case BaseStatic => (Base, 2)
    case PreciselyKinematicNormal => (PreciselyKinematicBase, 0)
    case PreciselyKinematicFloat => (PreciselyKinematicBase, 1)
  }

  function RtkFunctionFrom(mode: RtkMode, b: Byte): Option<RtkFunction> {
    match mode
    case Rover =>
      if b == 0 then Some(RoverNormal) else if b == 1 then Some(RoverFloat)
      else if b == 2 then Some(RoverMovingBase) else None
    case Base =>
      if b == 0 then Some(BaseKinematic) else if b == 1 then Some(BaseSurvey)
      else if b == 2 then Some(BaseStatic) else None
    case PreciselyKinematicBase =>
      if b == 0 then Some(PreciselyKinematicNormal) else if b == 1 then Some(PreciselyKinematicFloat) else None
  }

  lemma MaskRoundTrip(m: ConstellationMask)
    ensures MaskFrom(MaskWire(m)) == m
  {
  }

  lemma SmallMapsInvert(b: Byte)
    ensures forall x :: OutputMessageTypeFrom(b) == Some(x) <==> OutputMessageTypeWire(x) == b
    ensures forall x :: StorageFrom(b) == Some(x) <==> StorageWire(x) == b
    ensures forall x :: SerialStorageFrom(b) == Some(x) <==> SerialStorageWire(x) == b
  {
  }

  lemma BaudRatesInvert(b: Byte)
    ensures forall x :: BaudFrom(b) == Some(x) <==> BaudWire(x) == b
  {
  }

  lemma UpdateRatesInvert(b: Byte)
    ensures forall x :: UpdateRateFrom(b) == Some(x) <==> UpdateRateWire(x) == b
    ensures forall x :: MeasurementRateFrom(b) == Some(x) <==> MeasurementRateWire(x) == b
  {
  }

  lemma RtkMapsInvert(b: Byte)
    ensures forall x :: RtkModeFrom(b) == Some(x) <==> RtkModeWire(x) == b
    ensures forall mode, x :: RtkFunctionFrom(mode, b) == Some(x) <==> RtkFunctionWire(x) == (mode, b)
  {
  }

  /** Every wire map is undone by its reader, and a reader accepts only codes that are written. */
  lemma WireMapsInvert(b: Byte)
    ensures forall x :: OutputMessageTypeFrom(b) == Some(x) <==> OutputMessageTypeWire(x) == b
    ensures forall x :: StorageFrom(b) == Some(x) <==> StorageWire(x) == b
    ensures forall x :: SerialStorageFrom(b) == Some(x) <==> SerialStorageWire(x) == b
    ensures forall x :: BaudFrom(b) == Some(x) <==> BaudWire(x) == b
    ensures forall x :: UpdateRateFrom(b) == Some(x) <==> UpdateRateWire(x) == b
    ensures forall x :: MeasurementRateFrom(b) == Some(x) <==> MeasurementRateWire(x) == b
    ensures forall x :: RtkModeFrom(b) == Some(x) <==> RtkModeWire(x) == b
    ensures forall mode, x :: RtkFunctionFrom(mode, b) == Some(x) <==> RtkFunctionWire(x) == (mode, b)
  {
    hide *;
    SmallMapsInvert(b);
    BaudRatesInvert(b);
    UpdateRatesInvert(b);
    RtkMapsInvert(b);
  }

  // ----- The codes themselves -----

  function Speed(x: BaudRate): nat {
    match x
    case B4800 => 4800 case B9600 => 9600 case B19200 => 19200 case B38400 => 38400 case B57600 => 57600
    case B115200 => 115200 case B230400 => 230400 case B460800 => 460800 case B921600 => 921600
  }

  function Hertz(x: UpdateRate): nat {
    match x
    case Hz1 => 1 case Hz2 => 2 case Hz4 => 4 case Hz5 => 5 case Hz8 => 8
    case Hz10 => 10 case Hz20 => 20 case Hz25 => 25 case Hz40 => 40 case Hz50 => 50
  }

  function MeasurementHertz(x: MeasurementRate): nat {
    match x case M1 => 1 case M2 => 2 case M4 => 4 case M5 => 5 case M8 => 8 case M10 => 10 case M20 => 20
  }

  /** Baud rates are numbered from 0 by ascending speed. */
  lemma BaudCodesAscend(x: BaudRate, y: BaudRate)
    ensures BaudWire(x) < 9 && (BaudWire(x) < BaudWire(y) <==> Speed(x) < Speed(y))
  {
  }

  /** The code of an update rate is the rate. */
  lemma UpdateRateIsHertz(x: UpdateRate)
    ensures Value(UpdateRateWire(x)) == Hertz(x)
  {
  }

  /** Measurement rates are numbered from 0 by ascending rate, but for 8 Hz, which comes last. */
  lemma MeasurementCodesAscend(x: MeasurementRate, y: MeasurementRate)
    ensures MeasurementRateWire(x) < 7 && (MeasurementRateWire(x) == 6 <==> MeasurementHertz(x) == 8)
    ensures MeasurementHertz(x) != 8 && MeasurementHertz(y) != 8 ==>
              (MeasurementRateWire(x) < MeasurementRateWire(y) <==> MeasurementHertz(x) < MeasurementHertz(y))
  {
  }

  /** Each constellation has its bit, from GPS at the lowest up. */
  lemma MaskBits(m: ConstellationMask)
    ensures MaskWire(m) & 0x01 != 0 <==> m.gps
    ensures MaskWire(m) & 0x02 != 0 <==> m.glonass
    ensures MaskWire(m) & 0x04 != 0 <==> m.galileo
    ensures MaskWire(m) & 0x08 != 0 <==> m.beidou
    ensures MaskWire(m) & 0xF0 == 0
  {
  }

  lemma SmallCodes()
    ensures OutputMessageTypeWire(NoOutput) == 0 && OutputMessageTypeWire(Nmea) == 1
            && OutputMessageTypeWire(Binary) == 2
    ensures StorageWire(Sram) == 0 && StorageWire(SramAndFlash) == 1
    ensures SerialStorageWire(SerialSram) == 0 && SerialStorageWire(SerialSramAndFlash) == 1
            && SerialStorageWire(Temporary) == 2
    ensures RtkModeWire(Rover) == 0 && RtkModeWire(Base) == 1 && RtkModeWire(PreciselyKinematicBase) == 2
    ensures RtkFunctionWire(RoverNormal) == (Rover, 0) && RtkFunctionWire(RoverFloat) == (Rover, 1)
            && RtkFunctionWire(RoverMovingBase) == (Rover, 2)
    ensures RtkFunctionWire(BaseKinematic) == (Base, 0) && RtkFunctionWire(BaseSurvey) == (Base, 1)
            && RtkFunctionWire(BaseStatic) == (Base, 2)
    ensures RtkFunctionWire(PreciselyKinematicNormal) == (PreciselyKinematicBase, 0)
            && RtkFunctionWire(PreciselyKinematicFloat) == (PreciselyKinematicBase, 1)
  {
  }

  // ----- Venus8 -----

  datatype MeasurementOutput = MeasurementOutput(
    rate: MeasurementRate,
    measTime: bool,
    rawMeasurement: bool,
    svChannelStatus: bool,
    receiverState: bool,
    subframe: ConstellationMask,
    extendedRawMeasurement: bool,
    attributes: StorageLocation)

  datatype CommonCommand =
    | QuerySoftwareVersion
    | ConfigureSerialPort(comPort: Byte, baud: BaudRate, serialAttributes: SerialStorageLocation)
    | ConfigureMessageType(messageType: OutputMessageType, attributes: StorageLocation)
    | ConfigurePositionUpdateRate(rate: UpdateRate, attributes: StorageLocation)
    | QueryPositionUpdateRate
    | QueryMessageType

  datatype Venus8Command =
    | Common(command: CommonCommand)
    | ConfigureBinaryMeasurementOutput(config: MeasurementOutput)
    | QueryBinaryMeasurementOutputStatus

  /** The six commands that both receivers share. */
  function CommonFrame(c: CommonCommand): SkyTraq.Frame {
    match c
    case QuerySoftwareVersion => SkyTraq.Frame(0x02, [])
    case ConfigureSerialPort(comPort, baud, attributes) =>
      SkyTraq.Frame(0x05, [comPort, BaudWire(baud), SerialStorageWire(attributes)])
    case ConfigureMessageType(messageType, attributes) =>
      SkyTraq.Frame(0x09, [OutputMessageTypeWire(messageType), StorageWire(attributes)])
    case ConfigurePositionUpdateRate(rate, attributes) =>
      SkyTraq.Frame(0x0E, [UpdateRateWire(rate), StorageWire(attributes)])
    case QueryPositionUpdateRate => SkyTraq.Frame(0x10, [])
    case QueryMessageType => SkyTraq.Frame(0x16, [])
  }

  function MeasurementOutputPayload(c: MeasurementOutput): (p: seq<Byte>)
    ensures |p| == 8
  {
    [MeasurementRateWire(c.rate), FlagWire(c.measTime), FlagWire(c.rawMeasurement), FlagWire(c.svChannelStatus),
     FlagWire(c.receiverState), MaskWire(c.subframe), FlagWire(c.extendedRawMeasurement), StorageWire(c.attributes)]
  }

  function Venus8Frame(c: Venus8Command): SkyTraq.Frame {
    match c
    case Common(command) => CommonFrame(command)
    case ConfigureBinaryMeasurementOutput(config) => SkyTraq.Frame(0x1E, MeasurementOutputPayload(config))
    case QueryBinaryMeasurementOutputStatus => SkyTraq.Frame(0x1F, [])
  }

  // ----- Phoenix -----

  type Bits64 = b: seq<Byte> | |b| == 8 witness [0, 0, 0, 0, 0, 0, 0, 0]
  type Bits32 = b: seq<Byte> | |b| == 4 witness [0, 0, 0, 0]

  /** Floating-point fields are their big-endian bytes. */
  datatype RtkConfig = RtkConfig(
    function_: RtkFunction,
    surveyLength: U32,
    standardDeviation: U32,
    latitude: Bits64,
    longitude: Bits64,
    altitude: Bits32,
    baseline: Bits32,
    attributes: StorageLocation)

  datatype PhoenixCommand =
    | Common(command: CommonCommand)
    | ConfigureRtk(rtk: RtkConfig)
    | QueryRtk
    | QueryMovingBaseSoftwareVersion
    | QueryMovingBasePositionUpdateRate

  function RtkPayload(c: RtkConfig): (p: seq<Byte>)
    ensures |p| == 36
  {
    var (mode, code) := RtkFunctionWire(c.function_);
    [0x06, RtkModeWire(mode), code] + Be32(c.surveyLength) + Be32(c.standardDeviation)
    + c.latitude + c.longitude + c.altitude + c.baseline + [StorageWire(c.attributes)]
  }

  function PhoenixFrame(c: PhoenixCommand): SkyTraq.Frame {
    match c
    case Common(command) => CommonFrame(command)
    case ConfigureRtk(rtk) => SkyTraq.Frame(0x6A, RtkPayload(rtk))
    case QueryRtk => SkyTraq.Frame(0x6A, [0x07])
    case QueryMovingBaseSoftwareVersion => SkyTraq.Frame(0x7A, [0x0E, 0x01])
    case QueryMovingBasePositionUpdateRate => SkyTraq.Frame(0x7A, [0x0E, 0x03])
  }

  // ----- The vendor's examples -----

  /** The payloads of the vendor's example commands. */
  lemma VendorExamples(latitude: Bits64, longitude: Bits64, altitude: Bits32, baseline: Bits32)
    ensures CommonFrame(QuerySoftwareVersion) == SkyTraq.Frame(0x02, [])
    ensures CommonFrame(ConfigureSerialPort(0, B4800, SerialSram)) == SkyTraq.Frame(0x05, [0x00, 0x00, 0x00])
    ensures CommonFrame(ConfigureMessageType(NoOutput, Sram)) == SkyTraq.Frame(0x09, [0x00, 0x00])
    ensures CommonFrame(ConfigurePositionUpdateRate(Hz1, Sram)) == SkyTraq.Frame(0x0E, [0x01, 0x00])
    ensures CommonFrame(QueryMessageType) == SkyTraq.Frame(0x16, [])
    ensures Venus8Frame(ConfigureBinaryMeasurementOutput(MeasurementOutput(
              M1, false, false, true, true, ConstellationMask(true, true, false, false), true, SramAndFlash)))
         == SkyTraq.Frame(0x1E, [0x00, 0x00, 0x00, 0x01, 0x01, 0x03, 0x01, 0x01])
    ensures PhoenixFrame(ConfigureRtk(RtkConfig(
              RoverNormal, 0x07D0, 0x1E, latitude, longitude, altitude, baseline, Sram)))
         == SkyTraq.Frame(0x6A, [0x06, 0x00, 0x00, 0x00, 0x00, 0x07, 0xD0, 0x00, 0x00, 0x00, 0x1E]
                                + latitude + longitude + altitude + baseline + [0x00])
    ensures PhoenixFrame(QueryRtk) == SkyTraq.Frame(0x6A, [0x07])
    ensures PhoenixFrame(QueryMovingBasePositionUpdateRate) == SkyTraq.Frame(0x7A, [0x0E, 0x03])
  {
    hide Be32;
    ExampleWords();
    var head := [0x06 as Byte, 0x00, 0x00];
    assert head + [0x00, 0x00, 0x07, 0xD0] + [0x00, 0x00, 0x00, 0x1E]
        == [0x06, 0x00, 0x00, 0x00, 0x00, 0x07, 0xD0, 0x00, 0x00, 0x00, 0x1E];
  }

  lemma ExampleValues()
    ensures Value(0x00) == 0 && Value(0x07) == 7 && Value(0xD0) == 0xD0 && Value(0x1E) == 0x1E
  {
  }

  lemma ExampleWords()
    ensures Be32(0x07D0) == [0x00, 0x00, 0x07, 0xD0] && Be32(0x1E) == [0x00, 0x00, 0x00, 0x1E]
  {
    hide Value, Be32, Word32;
    ExampleValues();
    Word32Weighs([0x00, 0x00, 0x07, 0xD0]);
    Word32Weighs([0x00, 0x00, 0x00, 0x1E]);
    Be32Word32([0x00, 0x00, 0x07, 0xD0]);
    Be32Word32([0x00, 0x00, 0x00, 0x1E]);
  }

  // ----- A reader for commands -----

  function ReadCommon(f: SkyTraq.Frame): Option<CommonCommand> {
    var id, p := f.messageId, f.payload;
    if id == 0x02 && p == [] then Some(QuerySoftwareVersion)
    else if id == 0x10 && p == [] then Some(QueryPositionUpdateRate)
    else if id == 0x16 && p == [] then Some(QueryMessageType)
    else if id == 0x05 && |p| == 3 && BaudFrom(p[1]).Some? && SerialStorageFrom(p[2]).Some? then
      Some(ConfigureSerialPort(p[0], BaudFrom(p[1]).value, SerialStorageFrom(p[2]).value))
    else if |p| == 2 && StorageFrom(p[1]).Some? then
      if id == 0x09 && OutputMessageTypeFrom(p[0]).Some? then
        Some(ConfigureMessageType(OutputMessageTypeFrom(p[0]).value, StorageFrom(p[1]).value))
      else if id == 0x0E && UpdateRateFrom(p[0]).Some? then
        Some(ConfigurePositionUpdateRate(UpdateRateFrom(p[0]).value, StorageFrom(p[1]).value))
      else None
    else None
  }

  lemma ReadCommonFrame(c: CommonCommand)
    ensures ReadCommon(CommonFrame(c)) == Some(c)
    ensures CommonFrame(c).messageId <= 0x16
  {
    hide BaudWire, BaudFrom, SerialStorageWire, SerialStorageFrom, StorageWire, StorageFrom;
    hide OutputMessageTypeWire, OutputMessageTypeFrom, UpdateRateWire, UpdateRateFrom;
    match c
    case ConfigureSerialPort(_, baud, attributes) =>
      WireMapsInvert(BaudWire(baud));
      WireMapsInvert(SerialStorageWire(attributes));
    case ConfigureMessageType(messageType, attributes) =>
      WireMapsInvert(OutputMessageTypeWire(messageType));
      WireMapsInvert(StorageWire(attributes));
    case ConfigurePositionUpdateRate(rate, attributes) =>
      WireMapsInvert(UpdateRateWire(rate));
      WireMapsInvert(StorageWire(attributes));
    case _ =>
  }

  function ReadMeasurementOutput(p: seq<Byte>): Option<MeasurementOutput> {
    if |p| == 8 && MeasurementRateFrom(p[0]).Some? && StorageFrom(p[7]).Some? then
      Some(MeasurementOutput(
        MeasurementRateFrom(p[0]).value, p[1] != 0, p[2] != 0, p[3] != 0, p[4] != 0, MaskFrom(p[5]), p[6] != 0,
        StorageFrom(p[7]).value))
    else None
  }

  lemma ReadMeasurementOutputPayload(c: MeasurementOutput)
    ensures ReadMeasurementOutput(MeasurementOutputPayload(c)) == Some(c)
  {
    hide MeasurementRateWire, MeasurementRateFrom, StorageWire, StorageFrom, MaskWire, MaskFrom;
    WireMapsInvert(MeasurementRateWire(c.rate));
    WireMapsInvert(StorageWire(c.attributes));
    MaskRoundTrip(c.subframe);
  }

  function ReadVenus8(f: SkyTraq.Frame): Option<Venus8Command> {
    if f.messageId == 0x1F then Some(QueryBinaryMeasurementOutputStatus)
    else if f.messageId == 0x1E then
      match ReadMeasurementOutput(f.payload)
      case Some(config) => Some(ConfigureBinaryMeasurementOutput(config))
      case None => None
    else
      match ReadCommon(f)
      case Some(command) => Some(Venus8Command.Common(command))
      case None => None
  }

  lemma ReadVenus8Frame(c: Venus8Command)
    ensures ReadVenus8(Venus8Frame(c)) == Some(c)
    ensures |Venus8Frame(c).payload| <= 8
  {
    hide ReadCommon, ReadMeasurementOutput, MeasurementOutputPayload;
    match c
    case Common(command) => ReadCommonFrame(command);
    case ConfigureBinaryMeasurementOutput(config) => ReadMeasurementOutputPayload(config);
    case QueryBinaryMeasurementOutputStatus =>
  }

  function ReadRtk(p: seq<Byte>): Option<RtkConfig> {
    if |p| == 36 && p[0] == 0x06 && RtkModeFrom(p[1]).Some? && StorageFrom(p[35]).Some?
       && RtkFunctionFrom(RtkModeFrom(p[1]).value, p[2]).Some? then
      Some(RtkConfig(
        RtkFunctionFrom(RtkModeFrom(p[1]).value, p[2]).value, Word32(p[3..7]), Word32(p[7..11]),
        p[11..19], p[19..27], p[27..31], p[31..35], StorageFrom(p[35]).value))
    else None
  }

  lemma ReadRtkPayload(c: RtkConfig)
    ensures ReadRtk(RtkPayload(c)) == Some(c)
  {
    hide RtkModeWire, RtkModeFrom, StorageWire, StorageFrom, RtkFunctionWire, RtkFunctionFrom, Word32, Be32;
    var p := RtkPayload(c);
    WireMapsInvert(RtkModeWire(RtkFunctionWire(c.function_).0));
    WireMapsInvert(RtkFunctionWire(c.function_).1);
    WireMapsInvert(StorageWire(c.attributes));
    Word32Be32(c.surveyLength);
    Word32Be32(c.standardDeviation);
    assert p[3..7] == Be32(c.surveyLength) && p[7..11] == Be32(c.standardDeviation);
    assert p[11..19] == c.latitude && p[19..27] == c.longitude;
    assert p[27..31] == c.altitude && p[31..35] == c.baseline;
  }

  function ReadPhoenix(f: SkyTraq.Frame): Option<PhoenixCommand> {
    if f == SkyTraq.Frame(0x6A, [0x07]) then Some(QueryRtk)
    else if f == SkyTraq.Frame(0x7A, [0x0E, 0x01]) then Some(QueryMovingBaseSoftwareVersion)
    else if f == SkyTraq.Frame(0x7A, [0x0E, 0x03]) then Some(QueryMovingBasePositionUpdateRate)
    else if f.messageId == 0x6A then
      match ReadRtk(f.payload)
      case Some(rtk) => Some(ConfigureRtk(rtk))
      case None => None
    else
      match ReadCommon(f)
      case Some(command) => Some(PhoenixCommand.Common(command))
      case None => None
  }

  lemma ReadPhoenixFrame(c: PhoenixCommand)
    ensures ReadPhoenix(PhoenixFrame(c)) == Some(c)
    ensures |PhoenixFrame(c).payload| <= 36
  {
    hide ReadCommon, ReadRtk, RtkPayload;
    match c
    case Common(command) => ReadCommonFrame(command);
    case ConfigureRtk(rtk) =>
      ReadRtkPayload(rtk);
      assert |RtkPayload(rtk)| != |[0x07 as Byte]|;
    case QueryRtk =>
    case QueryMovingBaseSoftwareVersion =>
    case QueryMovingBasePositionUpdateRate =>
      assert [0x0E as Byte, 0x01][1] != [0x0E as Byte, 0x03][1];
  }

  /** The bytes on the wire determine the Venus8 command. */
  lemma Venus8EncodingInjective(a: Venus8Command, b: Venus8Command)
    requires SkyTraq.Encode(Venus8Frame(a)) == SkyTraq.Encode(Venus8Frame(b))
    ensures a == b
  {
    hide SkyTraq.Encode, SkyTraq.DecodeFrame, ReadVenus8, Venus8Frame;
    ReadVenus8Frame(a);
    ReadVenus8Frame(b);
    SkyTraq.DecodeEncode(Venus8Frame(a));
    SkyTraq.DecodeEncode(Venus8Frame(b));
  }

  /** The bytes on the wire determine the Phoenix command. */
  lemma PhoenixEncodingInjective(a: PhoenixCommand, b: PhoenixCommand)
    requires SkyTraq.Encode(PhoenixFrame(a)) == SkyTraq.Encode(PhoenixFrame(b))
    ensures a == b
  {
    hide SkyTraq.Encode, SkyTraq.DecodeFrame, ReadPhoenix, PhoenixFrame;
    ReadPhoenixFrame(a);
    ReadPhoenixFrame(b);
    SkyTraq.DecodeEncode(PhoenixFrame(a));
    SkyTraq.DecodeEncode(PhoenixFrame(b));
  }

  // ----- Venus8 output messages -----

  datatype SoftwareVersion = SoftwareVersion(softwareType: Byte, kernel: U32, odm: U32, revision: U32)

  datatype Venus8Output =
    | Ack(requestIds: seq<Byte>)
    | Nack(requestIds: seq<Byte>)
    | Version(version: SoftwareVersion)
    | PositionUpdateRate(rate: UpdateRate)
    | MessageType(messageType: OutputMessageType)
    | BinaryMeasurementOutputStatus(config: MeasurementOutput)

  datatype OutputError =
    | UnsupportedOutputMessage(messageId: Byte)
    | OutputTooShort(messageId: Byte, expected: nat, actual: nat)
    | InvalidFieldValue(value: Byte)

  function ParseVersion(p: seq<Byte>): SoftwareVersion
    requires |p| >= 13
  {
    SoftwareVersion(p[0], Word32(p[1..5]), Word32(p[5..9]), Word32(p[9..13]))
  }

  /** `parse_output_message` of the Venus8 crate. */
  function ParseVenus8Output(f: SkyTraq.Frame): Result<Venus8Output, OutputError> {
    var id, p := f.messageId, f.payload;
    if id == 0x83 then Ok(Ack(p))
    else if id == 0x84 then Ok(Nack(p))
    else if id == 0x80 then
      if |p| < 13 then Err(OutputTooShort(id, 13, |p|)) else Ok(Version(ParseVersion(p)))
    else if id == 0x86 then
      if p == [] then Err(OutputTooShort(id, 1, 0))
      else
        match UpdateRateFrom(p[0])
        case Some(rate) => Ok(PositionUpdateRate(rate))
        case None => Err(InvalidFieldValue(p[0]))
    else if id == 0x8C then
      if p == [] then Err(OutputTooShort(id, 1, 0))
      else
        match OutputMessageTypeFrom(p[0])
        case Some(t) => Ok(MessageType(t))
        case None => Err(InvalidFieldValue(p[0]))
    else if id == 0x89 then
      if |p| < 7 then Err(OutputTooShort(id, 7, |p|))
      else
        match MeasurementRateFrom(p[0])
        case None => Err(InvalidFieldValue(p[0]))
        case Some(rate) =>
          Ok(BinaryMeasurementOutputStatus(MeasurementOutput(
            rate, p[1] != 0, p[2] != 0, p[3] != 0, p[4] != 0, MaskFrom(p[5]), p[6] != 0, Sram)))
    else Err(UnsupportedOutputMessage(id))
  }

  /** The parser sees the first seven bytes of a configuration; the storage attribute behind them is lost. */
  predicate Reportable(o: Venus8Output) {
    o.BinaryMeasurementOutputStatus? ==> o.config.attributes == Sram
  }

  /** The output frame that carries a message, every field written the way the commands write it. */
  function Venus8OutputFrame(o: Venus8Output, more: seq<Byte>): SkyTraq.Frame {
    match o
    case Ack(requestIds) => SkyTraq.Frame(0x83, requestIds)
    case Nack(requestIds) => SkyTraq.Frame(0x84, requestIds)
    case Version(v) =>
      SkyTraq.Frame(0x80, [v.softwareType] + Be32(v.kernel) + Be32(v.odm) + Be32(v.revision) + more)
    case PositionUpdateRate(rate) =>
      SkyTraq.Frame(0x86, CommonFrame(ConfigurePositionUpdateRate(rate, Sram)).payload[..1] + more)
    case MessageType(t) =>
      SkyTraq.Frame(0x8C, CommonFrame(ConfigureMessageType(t, Sram)).payload[..1] + more)
    case BinaryMeasurementOutputStatus(config) =>
      SkyTraq.Frame(0x89, MeasurementOutputPayload(config)[..7] + more)
  }

  lemma StatusReportsConfiguration(c: MeasurementOutput, more: seq<Byte>)
    ensures ParseVenus8Output(SkyTraq.Frame(0x89, MeasurementOutputPayload(c)[..7] + more))
         == Ok(BinaryMeasurementOutputStatus(c.(attributes := Sram)))
  {
    hide MeasurementRateWire, MeasurementRateFrom, StorageWire, MaskWire, MaskFrom;
    WireMapsInvert(MeasurementRateWire(c.rate));
    MaskRoundTrip(c.subframe);
  }

  /** Any nonzero byte is a set flag, and of the constellation byte only the low four bits count. */
  lemma StatusFlags(p: seq<Byte>)
    requires |p| >= 7 && ParseVenus8Output(SkyTraq.Frame(0x89, p)).Ok?
    ensures var o := ParseVenus8Output(SkyTraq.Frame(0x89, p)).value;
      && o.BinaryMeasurementOutputStatus?
      && var c := o.config;
      && MeasurementRateWire(c.rate) == p[0]
      && (c.measTime <==> Value(p[1]) > 0) && (c.rawMeasurement <==> Value(p[2]) > 0)
      && (c.svChannelStatus <==> Value(p[3]) > 0) && (c.receiverState <==> Value(p[4]) > 0)
      && (c.extendedRawMeasurement <==> Value(p[6]) > 0)
      && MaskWire(c.subframe) == p[5] & 0x0F
  {
    hide MeasurementRateWire, MeasurementRateFrom, MaskFrom, MaskWire, Value;
    UpdateRatesInvert(p[0]);
    MaskOfAny(p[5]);
    ZeroValue(p[1]);
    ZeroValue(p[2]);
    ZeroValue(p[3]);
    ZeroValue(p[4]);
    ZeroValue(p[6]);
  }

  lemma ZeroValue(b: Byte)
    ensures Value(b) > 0 <==> b != 0
  {
  }

  lemma MaskOfAny(b: Byte)
    ensures MaskWire(MaskFrom(b)) == b & 0x0F
  {
  }

  lemma RatesAreReported(rate: UpdateRate, more: seq<Byte>)
    ensures ParseVenus8Output(SkyTraq.Frame(
              0x86, CommonFrame(ConfigurePositionUpdateRate(rate, Sram)).payload[..1] + more))
         == Ok(PositionUpdateRate(rate))
  {
    hide UpdateRateWire, UpdateRateFrom;
    UpdateRatesInvert(UpdateRateWire(rate));
  }

  lemma MessageTypesAreReported(t: OutputMessageType, more: seq<Byte>)
    ensures ParseVenus8Output(SkyTraq.Frame(0x8C, CommonFrame(ConfigureMessageType(t, Sram)).payload[..1] + more))
         == Ok(MessageType(t))
  {
    hide OutputMessageTypeWire, OutputMessageTypeFrom;
    SmallMapsInvert(OutputMessageTypeWire(t));
  }

  /** Where three words lie behind one byte. */
  lemma WordsAt(first: Byte, a: seq<Byte>, b: seq<Byte>, c: seq<Byte>, more: seq<Byte>)
    requires |a| == |b| == |c| == 4
    ensures var p := [first] + a + b + c + more; p[0] == first && p[1..5] == a && p[5..9] == b && p[9..13] == c
  {
  }

  lemma VersionIsRead(v: SoftwareVersion, more: seq<Byte>)
    ensures ParseVenus8Output(SkyTraq.Frame(
              0x80, [v.softwareType] + Be32(v.kernel) + Be32(v.odm) + Be32(v.revision) + more)) == Ok(Version(v))
  {
    hide Word32, Be32;
    WordsAt(v.softwareType, Be32(v.kernel), Be32(v.odm), Be32(v.revision), more);
    Word32Be32(v.kernel);
    Word32Be32(v.odm);
    Word32Be32(v.revision);
  }

  /** Every message the receiver can report is parsed from its frame, whatever bytes follow its fields. */
  lemma ParseVenus8OutputFrame(o: Venus8Output, more: seq<Byte>)
    requires Reportable(o)
    ensures ParseVenus8Output(Venus8OutputFrame(o, more)) == Ok(o)
  {
    hide MeasurementOutputPayload, CommonFrame, Be32, ParseVersion, MaskFrom, UpdateRateFrom, MeasurementRateFrom;
    hide OutputMessageTypeFrom;
    match o
    case Ack(_) =>
    case Nack(_) =>
    case Version(v) => VersionIsRead(v, more);
    case PositionUpdateRate(rate) => RatesAreReported(rate, more);
    case MessageType(t) => MessageTypesAreReported(t, more);
    case BinaryMeasurementOutputStatus(config) => StatusReportsConfiguration(config, more);
  }

  /** How many payload bytes a message needs. */
  function Needed(messageId: Byte): nat {
    if messageId == 0x80 then 13 else if messageId == 0x89 then 7
    else if messageId == 0x86 || messageId == 0x8C then 1 else 0
  }

  /** Every error says what is wrong: an unknown message, a short payload, or a code that nothing is written as. */
  lemma OutputErrors(f: SkyTraq.Frame)
    ensures var id, p, r := f.messageId, f.payload, ParseVenus8Output(f);
      && (forall m: Byte :: r == Err(UnsupportedOutputMessage(m)) <==>
            m == id && id !in [0x80, 0x83, 0x84, 0x86, 0x89, 0x8C])
      && (forall m: Byte, e: nat, n: nat :: r == Err(OutputTooShort(m, e, n)) <==>
            m == id && n == |p| && e == Needed(id) && n < e)
      && (forall b: Byte :: r == Err(InvalidFieldValue(b)) <==>
            && p != [] && |p| >= Needed(id) && p[0] == b
            && ((id == 0x86 && forall x :: UpdateRateWire(x) != b)
                || (id == 0x8C && forall x :: OutputMessageTypeWire(x) != b)
                || (id == 0x89 && forall x :: MeasurementRateWire(x) != b)))
  {
    hide UpdateRateWire, UpdateRateFrom, OutputMessageTypeWire, OutputMessageTypeFrom;
    hide MeasurementRateWire, MeasurementRateFrom, ParseVersion, MaskFrom;
    if f.payload != [] {
      CodeUnknownIff(f.payload[0]);
    }
  }

  lemma CodeUnknownIff(b: Byte)
    ensures UpdateRateFrom(b) == None <==> forall x :: UpdateRateWire(x) != b
    ensures OutputMessageTypeFrom(b) == None <==> forall x :: OutputMessageTypeWire(x) != b
    ensures MeasurementRateFrom(b) == None <==> forall x :: MeasurementRateWire(x) != b
    ensures RtkModeFrom(b) == None <==> forall x :: RtkModeWire(x) != b
    ensures forall mode :: RtkFunctionFrom(mode, b) == None <==> forall x :: RtkFunctionWire(x) != (mode, b)
  {
    hide UpdateRateWire, UpdateRateFrom, OutputMessageTypeWire, OutputMessageTypeFrom;
    hide MeasurementRateWire, MeasurementRateFrom, RtkModeWire, RtkModeFrom, RtkFunctionWire, RtkFunctionFrom;
    WireMapsInvert(b);
    if UpdateRateFrom(b).Some? {
      assert UpdateRateWire(UpdateRateFrom(b).value) == b;
    }
    if OutputMessageTypeFrom(b).Some? {
      assert OutputMessageTypeWire(OutputMessageTypeFrom(b).value) == b;
    }
    if MeasurementRateFrom(b).Some? {
      assert MeasurementRateWire(MeasurementRateFrom(b).value) == b;
    }
    if RtkModeFrom(b).Some? {
      assert RtkModeWire(RtkModeFrom(b).value) == b;
    }
    forall mode
      ensures RtkFunctionFrom(mode, b) == None <==> forall x :: RtkFunctionWire(x) != (mode, b)
    {
      if RtkFunctionFrom(mode, b).Some? {
        assert RtkFunctionWire(RtkFunctionFrom(mode, b).value) == (mode, b);
      }
    }
  }
}
