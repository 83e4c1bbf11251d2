# Verified model of the GNSS byte streams, the profile log and the queue rebalancer

This project models three parts of the system and proves what they promise.

1. **The byte-stream stack.** Positions and corrections arrive as SkyTraq and RTCM3 frames
   inside streams that may contain junk, damaged frames and frames cut in half.
   - `Crc24q`, `CrcDetection` and `CrcRemainder` are the CRC-24Q register: a loop, a linear map
     that forgets nothing, and the remainder of a polynomial division. From these follow the
     errors the check detects.
   - `Rtcm` and `SkyTraq` are the two frame codecs, each with an independent assembler.
   - `Scanning` says once, for any framing, what it means to scan a byte string.
     `GatewayScanners` holds the loops that do it: the gateway's two batch scanners and the
     bridge's counter, which checks no CRC.
   - `SerialTransport` is the serial buffer that is drained in place, and `NavsparkSession` the
     command session that retries over a transport which may time out or fail.
   - `Commands`, `RawMeasurements` and `RtkStatus` are the payloads; `NsRawPersistence` scans a
     capture and decodes each frame again.
2. **The profile log of the runtime API.** `Json` has JavaScript's property order, the deep
   merge and the canonical form, and `KeyOrder` the order in which keys are listed; `MergeOverlap`
   says when one patch hides another; `StableStringify` turns a value into text and back. `ProfileDefaults` is the normalization of a profile,
   setting by setting. `ProfileLog` is the state machine of visits, patches, suggestions, reviews
   and publish requests, for any normalization; `ProfileStore` holds the transactions on the
   stored rows; `StaleWrites` puts the service's own normalization in, and says what happens when
   transactions are not isolated.
3. **The queue rebalancer.** `Rebalance` plans moves and duplicates over a task table and
   applies the plan to it.

`Bytes` and `Ordering` are shared helpers: big-endian numbers, text order and sorting.

Code that is a loop or a mutable object in the repository is a method or a class here. Its
contract equates what it computes with a specification function, and the lemmas are about that
function.

Some promises turned out not to hold of the code. They are stated as they are, with the exact
condition:

- Frames of more than 65534 payload bytes do not survive encoding and decoding
  (`SkyTraq.DecodeEncode`).
- Three fields of the Phoenix RTK status are read from overlapping bytes
  (`RtkStatus.ReportableIffOverlapping`, `RtkStatus.NoSerializer`).
- A telemetry window strictly between 0 and 0.5 changes when it is normalized a second time; no
  other setting does (`ProfileDefaults.NormalizationStableIff`).
- A suggestion has at most one change row in every run exactly when it names a based-on version
  (`ProfileLog.AtMostOnceIff`).
- A publish request checks the approval once, when it reads the suggestion.
  `ProfileLog.PublishedUnapprovedIff` says exactly when it publishes one that is no longer
  approved; `ProfileLog.RejectedStillPublishes` is such a run.
- The transactions are plain `BEGIN` blocks. When two of them read before either writes, the log
  replays to the profile exactly when every setting that the first changes is decided by the
  second (`StaleWrites.StaleWriteLogsIff`); otherwise an update is lost
  (`StaleWrites.DisturbedIsLost`, and `StaleWrites.LostUpdate` on a fresh account).

## Model

| member | source | states |
|---|---|---|
| Crc24q.Compute | core/transforms/rtcm/src/lib.rs:69-82 | The nested loops return the CRC that the algebra below is about |
| Crc24q.StepLinear | core/transforms/rtcm/src/lib.rs:73-79 | One shift of the register, feedback and mask included, is linear over exclusive or |
| Crc24q.StepsKernel | core/transforms/rtcm/src/lib.rs:73-79 | Any number of shifts sends only the zero register to zero, so with linearity they are injective on 24 bits |
| CrcRemainder.GeneratorBits | core/transforms/rtcm/src/lib.rs:76 | The polynomial literal is exactly the generator with exponents 24, 23, 18, 17, 14, 11, 10, 7, 6, 5, 4, 3, 1, 0 |
| CrcRemainder.CrcIsRemainder | core/transforms/rtcm/src/lib.rs:69-82 | For every message the CRC is the remainder of the message times x^24 divided by the generator |
| CrcDetection.CrcLinear | core/transforms/rtcm/src/lib.rs:69-82 | The CRC is linear in the message and in the starting register, for messages of any length |
| CrcDetection.BytesAreBits | core/transforms/rtcm/src/lib.rs:71-79 | Feeding bytes is feeding their bits one at a time, most significant first |
| CrcDetection.BitCrcLinear | core/transforms/rtcm/src/lib.rs:69-82 | The register fed bit by bit is linear in its start and its input |
| CrcDetection.BurstsAreDetected | core/transforms/rtcm/src/lib.rs:69-82 | Equally long messages with one CRC that differ only inside 24 consecutive bits are equal |
| CrcDetection.ResidueIffTrailer | core/transforms/rtcm/src/lib.rs:51-61 | A message followed by three bytes leaves residue 0 exactly when those bytes are its CRC |
| CrcDetection.ParityIsKept | core/transforms/rtcm/src/lib.rs:69-82 | The parity of the register changes with exactly the one bits of the message |
| Rtcm.ParseAssembled | core/transforms/rtcm/src/lib.rs:29-67 | A frame assembled from any payload of 2 to 1023 bytes and any reserved bits parses to that payload, its message type being the first twelve bits |
| Rtcm.AcceptedIsAssembled | core/transforms/rtcm/src/lib.rs:29-67 | Every accepted byte string is the assembled frame of the payload it parses to |
| Rtcm.AcceptsIffAssembled | core/transforms/rtcm/src/lib.rs:29-67 | The parser accepts exactly the assembled frames |
| Rtcm.NoMessageType | core/transforms/rtcm/src/lib.rs:46-49 | A frame assembled from fewer than two payload bytes has no message type |
| Rtcm.CutIsNamed | core/transforms/rtcm/src/lib.rs:29-45 | A frame cut short of six bytes is too short, any longer part of it incomplete |
| Rtcm.ExcessIsNamed | core/transforms/rtcm/src/lib.rs:41-45 | A frame with bytes behind it has the wrong length |
| Rtcm.DamageIsNamed | core/transforms/rtcm/src/lib.rs:29-61 | Other bytes of the same length: a wrong preamble, a larger or smaller length, or a CRC other than the one computed, both of which the error carries |
| Rtcm.AcceptedResidue | core/transforms/rtcm/src/lib.rs:51-61 | The CRC of a whole accepted frame, trailer included, is 0 |
| Rtcm.NoBurstIsAccepted | core/transforms/rtcm/src/lib.rs:29-67 | Two accepted frames of one length that differ only within 24 consecutive bits, header and trailer included, are the same |
| Rtcm.NoByteBurstIsAccepted | core/transforms/rtcm/src/lib.rs:29-67 | The same for a window of three consecutive bytes anywhere in the frame |
| Rtcm.AcceptedWeight | core/transforms/rtcm/src/lib.rs:29-67 | An accepted frame has an even number of one bits |
| Rtcm.OddErrorsAreRejected | core/transforms/rtcm/src/lib.rs:29-67 | Flipping any odd number of bits of an accepted frame makes the parser reject it |
| SkyTraq.EncodeFrame | core/protocols/skytraq-venus8/src/lib.rs:388-401 | The pushes produce sync bytes, length modulo 2^16, body, the checksum of the next row and trailer |
| SkyTraq.EncodedChecksum | core/protocols/skytraq-venus8/src/lib.rs:388-401 | On the wire, a bit of the checksum byte is set exactly when an odd number of bytes of message id and payload have it |
| SkyTraq.AcceptsIffEven | core/protocols/skytraq-venus8/src/lib.rs:403-440 | The decoder accepts exactly the strings with sync pair, matching length and trailer whose body and checksum are together even in every bit |
| SkyTraq.DecodesTo | core/protocols/skytraq-venus8/src/lib.rs:403-440 | An accepted frame decodes to its fifth byte and the bytes between that and the checksum |
| SkyTraq.DecodeEncode | core/protocols/skytraq-venus8/src/lib.rs:388-440 | Decoding an encoded frame gives it back exactly when its payload has at most 65534 bytes, and a length mismatch otherwise |
| SkyTraq.EncodeDecode | core/protocols/skytraq-venus8/src/lib.rs:388-440 | Every accepted byte string is the encoding of what it decodes to |
| SkyTraq.ChecksumDetects | core/protocols/skytraq-venus8/src/lib.rs:388-401 | Bodies that differ in one byte have different checksums |
| SkyTraq.OneByteErrorRejected | core/protocols/skytraq-venus8/src/lib.rs:403-440 | Changing any single byte of an accepted frame makes the decoder reject it |
| SkyTraq.CutIsNamed | core/protocols/skytraq-venus8/src/lib.rs:404-420 | A frame cut short of eight bytes is too short, any longer part of it incomplete |
| SkyTraq.ExcessIsNamed | core/protocols/skytraq-venus8/src/lib.rs:413-422 | A frame with bytes behind it has the wrong length |
| SkyTraq.DamageIsNamed | core/protocols/skytraq-venus8/src/lib.rs:403-440 | After one changed byte the error names the field it lies in; a checksum error carries both checksums |
| SkyTraq.MessageIdIsThere | core/protocols/skytraq-venus8/src/lib.rs:424-427 | The error for a missing message id is never returned |
| Commands.WireMapsInvert | core/protocols/skytraq-phoenix/src/lib.rs:40-218 | Every wire map of the enumerations and its reader are inverse, both ways |
| Commands.BaudCodesAscend | core/protocols/skytraq-phoenix/src/lib.rs:79-90 | Baud rates are numbered from 0 by ascending speed |
| Commands.UpdateRateIsHertz | core/protocols/skytraq-venus8/src/lib.rs:97-130 | The code of an update rate is the rate in hertz |
| Commands.MaskBits | core/protocols/skytraq-venus8/src/lib.rs:182-198 | Each constellation has its own bit, from GPS at the lowest up, and the high bits stay clear |
| Commands.SmallCodes | core/protocols/skytraq-phoenix/src/lib.rs:40-218 | The remaining codes are numbered from 0 in the order of their declarations, RTK functions within their mode |
| Commands.MeasurementCodesAscend | core/protocols/skytraq-venus8/src/lib.rs:134-172 | Measurement rates are numbered from 0 by ascending rate, but for 8 Hz, which comes last |
| Commands.VendorExamples | core/protocols/skytraq-venus8/src/lib.rs:664-714 | The vendor's example commands have the payloads given for them |
| Commands.ReadVenus8Frame | core/protocols/skytraq-venus8/src/lib.rs:247-303 | A reader of frames recovers every Venus8 command from its frame |
| Commands.Venus8EncodingInjective | core/protocols/skytraq-venus8/src/lib.rs:247-303 | Different Venus8 commands have different bytes on the wire |
| Commands.ReadPhoenixFrame | core/protocols/skytraq-phoenix/src/lib.rs:276-349 | A reader of frames recovers every Phoenix command from its frame |
| Commands.PhoenixEncodingInjective | core/protocols/skytraq-phoenix/src/lib.rs:276-349 | Different Phoenix commands have different bytes on the wire |
| Commands.ParseVenus8OutputFrame | core/protocols/skytraq-venus8/src/lib.rs:447-525 | Every message the receiver can report is parsed from its frame, its fields written as the commands write them and whatever bytes follow |
| Commands.StatusFlags | core/protocols/skytraq-venus8/src/lib.rs:447-525 | In a status, any nonzero byte is a set flag, and of the constellation byte only the low four bits count |
| Commands.OutputErrors | core/protocols/skytraq-venus8/src/lib.rs:447-525 | Each error is returned exactly for an unknown message, a payload shorter than the message needs, or a code that nothing is written as |
| RawMeasurements.ParseExtendedRawMeasurements | core/protocols/skytraq-venus8/src/lib.rs:527-601 | The loop over fixed-stride records computes the parse that the next two rows are about, errors included; it succeeds exactly on message 0xE5 with 13 + 31 * count payload bytes |
| RawMeasurements.ParseErrors | core/protocols/skytraq-venus8/src/lib.rs:527-550 | Each error is returned exactly for another message, fewer than 13 bytes, or a length other than the count demands, with both lengths |
| RawMeasurements.WriteParsed | core/protocols/skytraq-venus8/src/lib.rs:527-601 | Exactly count records come out, and with byte 11 and two bytes a record they reproduce every payload byte |
| RawMeasurements.ParseWritten | core/protocols/skytraq-venus8/src/lib.rs:527-601 | Whatever the skipped bytes are, a written measurement parses back to itself |
| RtkStatus.OverlapOfParsed | core/protocols/skytraq-phoenix/src/lib.rs:523-587 | Every parsed status repeats the baseline's last two bytes in its runtime code and survey length |
| RtkStatus.ReportableIffOverlapping | core/protocols/skytraq-phoenix/src/lib.rs:523-587 | A status can come out of the parser exactly when it is well formed and those bytes agree |
| RtkStatus.NoSerializer | core/protocols/skytraq-phoenix/src/lib.rs:523-587 | Against any serializer there is a well-formed status that the parser does not give back |
| RtkStatus.DisjointRoundTrip | core/protocols/skytraq-phoenix/src/lib.rs:535-585 | With the runtime code at 34 and the survey length at 35 every well-formed status round-trips |
| RtkStatus.DisjointWritesBack | core/protocols/skytraq-phoenix/src/lib.rs:535-585 | With those offsets every 40-byte payload that parses is reproduced |
| RtkStatus.ParseErrors | core/protocols/skytraq-phoenix/src/lib.rs:523-587 | Each error is returned exactly for a short payload, another sub-message, or a mode or function code that nothing is written as |
| GatewayScanners.RtcmSound | services/rtk-gateway/src/main.rs:1978-2005 | An RTCM header is read from six bytes, and tells the length of every frame the parser accepts |
| GatewayScanners.SkyTraqSound | services/rtk-gateway/src/main.rs:1754-1780 | The same for SkyTraq headers of seven bytes |
| GatewayScanners.RtcmWaitsIff | services/rtk-gateway/src/main.rs:1978-1996 | The RTCM scan stops exactly at fewer than six bytes or at a preamble whose declared length is not there yet |
| GatewayScanners.RtcmTakesIff | services/rtk-gateway/src/main.rs:1978-2005 | It takes a frame exactly at a preamble whose whole declared length parses; the counter takes one without parsing it |
| GatewayScanners.SkyTraqWaitsIff | services/rtk-gateway/src/main.rs:1754-1771 | The SkyTraq scan stops exactly at fewer than seven bytes or at a sync pair whose declared length is not there yet |
| GatewayScanners.SkyTraqTakesIff | services/rtk-gateway/src/main.rs:1754-1780 | It takes a frame exactly at a sync pair whose whole declared length decodes |
| GatewayScanners.ExtractRtcmFrames | services/rtk-gateway/src/main.rs:1978-2005 | The cursor loop returns the frames of the scan |
| GatewayScanners.ExtractSkyTraqFrames | services/rtk-gateway/src/main.rs:1754-1780 | The cursor loop returns the frames of the scan |
| GatewayScanners.CountRtcm3Frames | core/solvers/rtklib-bridge/src/wrapper.c:121-141 | The C loop counts the frames of the scan that checks no CRC |
| Scanning.ScanTiles | services/rtk-gateway/src/main.rs:1978-2005 | The frames are accepted, disjoint slices in order; every other byte was dropped where no frame starts, up to where the scan is stuck |
| Scanning.TilingIsScan | services/rtk-gateway/src/main.rs:1978-2005 | Any frames that tile the input so are what the scan returns |
| Scanning.ScanIffTiles | services/rtk-gateway/src/main.rs:1754-1780 | A parse is the scan's result exactly when its frames tile the input |
| Scanning.CleanScan | services/rtk-gateway/src/main.rs:1978-2005 | From accepted frames woven into junk that shows no sync header, exactly the frames come back |
| Scanning.ScanIdempotent | services/rtk-gateway/src/main.rs:2015-2022 | Scanning the flattened frames of a scan finds the same frames and leaves nothing |
| Scanning.ScanAppend | services/rtk-gateway/src/navspark_session.rs:128-151 | Scanning a whole is scanning its first part, then what that left followed by the second |
| Scanning.ChunkingIsInvisible | services/rtk-gateway/src/navspark_session.rs:40-55 | A receiver that scans after every chunk ends with the parse of all bytes together |
| Scanning.AgreeIffAllPass | services/rtk-gateway/src/navspark_session.rs:128-151 | The checking and the delimiting scanner agree exactly when every delimited frame passes the check |
| Scanning.DelimitFlattened | core/solvers/rtklib-bridge/src/wrapper.c:121-141 | On accepted frames laid end to end, delimiting without checking finds those frames |
| GatewayScanners.RtcmCleanStream | services/rtk-gateway/src/main.rs:1978-2005 | Accepted frames between junk without 0xD3, the capture perhaps cut inside a last frame: exactly the complete frames are returned |
| GatewayScanners.SkyTraqCleanStream | services/rtk-gateway/src/main.rs:1754-1780 | The same with junk that holds no adjacent A0 A1 |
| GatewayScanners.ResyncDiffers | services/rtk-gateway/src/navspark_session.rs:128-151 | On a frame wrapped in one with a wrong checksum the session's scanner returns the wrapper, the batch scanner the frame inside |
| GatewayScanners.CorrectionCounts | services/rtk-gateway/src/main.rs:1389-1409 | The bridge counts the frames delimited in the flattened ones; on frames that parse, that equals the gateway's frame count |
| GatewayScanners.LiveCorrectionCounts | services/rtk-gateway/src/main.rs:1389-1409 | For a live capture the two reported counts are always equal |
| Bytes.FlattenFrames | services/rtk-gateway/src/main.rs:2015-2022 | The loop concatenates the frames in order |
| NsRawPersistence.ScannedDecode | services/rtk-gateway/src/main.rs:1110-1121 | Every frame a scan extracts decodes |
| NsRawPersistence.PersistNsRawFrames | services/rtk-gateway/src/main.rs:1100-1180 | One sample a frame or none at all; it fails exactly without frames or at the first frame of message 0xE5 whose bytes do not match its record count, never on decoding |
| SerialTransport.SerialPortFrameTransport.constructor | services/rtk-gateway/src/navspark_session.rs:15-32 | A new transport has received and returned nothing |
| SerialTransport.SerialPortFrameTransport.ExtractSkyTraqFrame | services/rtk-gateway/src/navspark_session.rs:128-151 | Draining the buffer in place hands out the first frame of its scan and keeps the rest of that scan |
| SerialTransport.SerialPortFrameTransport.TakeFrame | services/rtk-gateway/src/navspark_session.rs:40-46 | Extraction keeps the invariant that returned and buffered frames are the parse of all bytes received |
| SerialTransport.SerialPortFrameTransport.Receive | services/rtk-gateway/src/navspark_session.rs:47-54 | So does extending the buffer by what a read delivered |
| SerialTransport.SerialPortFrameTransport.ReadFrame | services/rtk-gateway/src/navspark_session.rs:40-55 | It reads until the bytes complete a frame and no further, and returns the first answer that delivers none; frames returned are a prefix of the parse of all bytes received, after an error all of it |
| SerialTransport.ReadIsDetermined | services/rtk-gateway/src/navspark_session.rs:40-55 | Buffer and script determine the answer and the number of reads |
| SerialTransport.DroppedMeansNoSync | services/rtk-gateway/src/navspark_session.rs:128-151 | A byte is dropped exactly where seven bytes are there and no sync pair starts |
| SerialTransport.StuckIsBounded | services/rtk-gateway/src/navspark_session.rs:128-151 | What stays buffered is at most six bytes or an incomplete frame behind a sync pair, hence at most 65541 bytes |
| SerialTransport.BytesAreConserved | services/rtk-gateway/src/navspark_session.rs:128-151 | Every received byte lies in one frame, was dropped where no sync pair starts, or is still buffered, in order |
| SerialTransport.ChunksDoNotMatter | services/rtk-gateway/src/navspark_session.rs:40-55 | Two ways of cutting the same bytes into reads leave the same frames and the same buffer |
| NavsparkSession.NavsparkSession.Await | services/rtk-gateway/src/navspark_session.rs:103-117 | The inner loop stops at the first event that ends the attempt or the call |
| NavsparkSession.NavsparkSession.SendCommandAndWait | services/rtk-gateway/src/navspark_session.rs:95-125 | The same command is written once an attempt, and result, reads and writes are the ones the next two rows fix |
| NavsparkSession.ResultMeans | services/rtk-gateway/src/navspark_session.rs:95-125 | A read error, a rejection or a completion ends the call at once with that result; it is exhausted exactly by max_retries + 1 time-outs or retries, the last event among them; all events before the last are such or continue |
| NavsparkSession.OutcomeIsDetermined | services/rtk-gateway/src/navspark_session.rs:95-125 | For every sequence of events there is at most one outcome, one number of reads and one number of writes |
| NavsparkSession.SessionAccounts | services/rtk-gateway/src/navspark_session.rs:95-125 | At most max_retries + 1 writes, a value only from the last response read, never the error behind the loop |
| NavsparkSession.ExhaustedIff | services/rtk-gateway/src/navspark_session.rs:95-125 | When the writes of max_retries + 1 attempts succeed, exhaustion is reported exactly when that many attempts all end in a retry or time-out |
| Json.DeepMergeJsonObject | services/api/src/index.ts:2012-2025 | The loop over the patch's entries computes the merge, property order included |
| KeyOrder.IsIndexIff | services/api/src/index.ts:2012-2025 | The keys that JavaScript orders as array indices are the decimal numerals below 2^32 - 1 |
| KeyOrder.PutOrder | services/api/src/index.ts:2012-2025 | Assigning a property keeps the order of the others; a new index is sorted among the indices in front, any other new key goes last |
| KeyOrder.MergeOrder | services/api/src/index.ts:2012-2025 | A merge lists the base's keys in their order, then the patch's new ones in theirs, indices ascending in front |
| Json.LookupMerge | services/api/src/index.ts:2012-2025 | Each property of a merge comes from the base unless the patch has it, and is merged when both are objects |
| Json.MergeSelf | services/api/src/index.ts:2012-2025 | Merging a patch into itself changes nothing |
| Json.MergeTwice | services/api/src/index.ts:2012-2025 | Merging a patch a second time changes nothing, property order included |
| Json.MergeAt | services/api/src/index.ts:2012-2025 | What a merge holds at any path is told from base and patch at that path; a base path the patch does not cover stays |
| Json.PatchWins | services/api/src/index.ts:2012-2025 | Wherever the patch holds a non-object, null included, the merge holds that value |
| MergeOverlap.MergeIgnoresIff | services/api/src/index.ts:2012-2025 | A second patch makes a merge forget the first, up to key order, exactly when at each path the first tells of and the second does not, the first tells what the base already has |
| Json.SortJsonValue | services/api/src/index.ts:2126-2139 | Rebuilding the object key by key computes the canonical form |
| Ordering.LessIff | services/api/src/index.ts:2134 | Keys are compared at the first difference: the smaller code unit, or the shorter text |
| KeyOrder.CanonIsOrdered | services/api/src/index.ts:2126-2139 | The canonical form lists the keys of every object in order: indices ascending by number, then the others ascending by text |
| Json.SameCanon | services/api/src/index.ts:2126-2139 | Values that are equal up to key order at every level have one canonical form |
| Json.CanonSame | services/api/src/index.ts:2126-2139 | Values with one canonical form are equal up to key order |
| Json.CanonPreserves | services/api/src/index.ts:2126-2139 | Sorting preserves the value up to key order |
| Json.CanonIdempotent | services/api/src/index.ts:2126-2139 | Sorting a sorted value changes nothing |
| StableStringify.PrefixFree | services/api/src/index.ts:2122-2124 | The text of a value determines the value, whatever text follows it |
| StableStringify.ReadsBack | services/api/src/index.ts:2122-2124 | An independent reader of tokens gives the value back from its text, whatever follows |
| StableStringify.SignatureReads | services/api/src/index.ts:2122-2139 | Read from its signature, a value comes back up to key order |
| StableStringify.StableIffSame | services/api/src/index.ts:2122-2139 | Two values have one signature text exactly when they are equal up to key order |
| ProfileDefaults.SettingStableIff | services/api/src/index.ts:1959-2010 | Normalizing one setting twice gives what normalizing it once gives exactly when it is no telemetry window strictly between 0 and 0.5 |
| ProfileDefaults.WindowStableIff | services/api/src/index.ts:2036-2042 | A window is stable under a second rounding exactly when it is not strictly between 0 and 0.5 |
| ProfileDefaults.SettledForGood | services/api/src/index.ts:1959-2010 | A setting normalized twice is not changed by any further normalization, and is never an object |
| ProfileDefaults.NormalizationStableIff | services/api/src/index.ts:1959-2010 | A whole profile is stable under a second normalization exactly when no window in it lies strictly between 0 and 0.5 |
| ProfileDefaults.DefaultsAreNormal | packages/domain/src/compat.ts:897-924 | Nothing normalizes to the default profile, and the default profile to itself |
| ProfileDefaults.ChoicesAreKept | services/api/src/index.ts:1969-1986 | Distance, coordinate format and device sorting show an allowed text as given and the default for anything else |
| ProfileDefaults.FlagsAreKept | services/api/src/index.ts:1991-2000 | Both notification flags show a boolean as given and are on for anything else |
| ProfileDefaults.WindowIsRounded | services/api/src/index.ts:1973-1978 | The window is the whole number nearest to a positive number, ties upward, and 30 for anything else |
| ProfileDefaults.TextsAreKept | services/api/src/index.ts:1980 | Hardware filter and context key show a text without its outer spaces, and are absent when nothing is left or no text is given |
| ProfileDefaults.SpacesAre | services/api/src/index.ts:2070-2076 | Outer spaces are the white space and line terminators of ECMAScript |
| ProfileDefaults.ListsAreKept | services/api/src/index.ts:1987-1990 | The three lists show, in order, the texts in them without outer spaces that are not empty, and the default for no list |
| ProfileDefaults.ViewIdIsKept | services/api/src/index.ts:2002-2005 | The saved view shows the number of a value that has one and null otherwise |
| ProfileDefaults.ShapeIsFixed | services/api/src/index.ts:1968-2009 | A normalized profile has the sections and settings of the default profile, in that order, and no others |
| ProfileDefaults.SettingAfter | services/api/src/index.ts:1959-2025 | Each setting of a patched profile is the patch's value, normalized as in the rows above, if the patch decides it, else the stored one read back |
| ProfileDefaults.ReadTwice | services/api/src/index.ts:1959-2025 | Before any patch, reading a profile twice comes to the same as reading it once |
| ProfileStore.RuntimeStore.LoadOrCreateProfile | services/api/src/index.ts:1615-1647 | Selects the row or creates it at version 1, and returns it normalized |
| ProfileStore.RuntimeStore.UpsertProfile | services/api/src/index.ts:1649-1670 | Inserts at version 1 or replaces the defaults and bumps the version |
| ProfileStore.RuntimeStore.InsertProfileChange | services/api/src/index.ts:1672-1699 | Appends one row to the log |
| ProfileStore.RuntimeStore.PatchProfile | services/api/src/index.ts:333-357 | The PATCH transaction is one step of the log's state machine, and its row carries the new version |
| ProfileStore.RuntimeStore.PublishSuggestion | services/api/src/index.ts:545-572 | The publish transaction is refused, with nothing changed, exactly when the based-on version is stale; otherwise it is one step |
| ProfileLog.RunInv | services/api/src/index.ts:525-580 | The invariant of log, suggestions and requests survives every event sequence |
| ProfileLog.LogReplays | services/api/src/index.ts:1649-1699 | After any run each account's rows carry versions 2, 3, ... ending at the profile's, and replay to its defaults |
| ProfileLog.PlainReplaySuffices | services/api/src/index.ts:1777-1787 | For a normalization that need not be applied twice on reading, merge-then-normalize alone replays the log, and the profile reads the same ever after |
| StaleWrites.ServiceReadsOnce | services/api/src/index.ts:1959-2010 | The service's normalization and defaults meet that condition, vanishing windows included |
| StaleWrites.ServiceLogReplays | services/api/src/index.ts:1649-1699 | After any run, folding merge-then-normalize over an account's payloads from the real defaults gives its profile |
| ProfileLog.PublishedAtMostOnce | services/api/src/index.ts:525-580 | A suggestion with a based-on version has at most one change row after any run, interleaved or stopped anywhere |
| ProfileLog.AtMostOnceIff | services/api/src/index.ts:545-553 | For any suggestion: at most one change row in every run, exactly when it names a based-on version |
| ProfileLog.RowsComeFromSuggestions | services/api/src/index.ts:555-565 | A row that names a suggestion holds its patch, its account and, if dated, the version after the one it is based on |
| ProfileLog.RowsWereApproved | services/api/src/index.ts:537-572 | Every row that names a suggestion was committed by a request that fetched it for the row's account when its last review had approved it and nothing had marked it |
| ProfileLog.NothingUnapproved | services/api/src/index.ts:541-543 | Without an approving review there is no row |
| ProfileLog.CommitsOnce | services/api/src/index.ts:545-572 | A request that has committed appends nothing more until it fetches again |
| ProfileLog.RequestLife | services/api/src/index.ts:525-580 | A request begins with a fetch that passes the approval check, commits when the version check passes, and ends when that fails or with its mark; nothing else concerns it |
| ProfileLog.PatchesAreLogged | services/api/src/index.ts:333-357 | In every run the rows that name no suggestion are exactly the patches, by account and payload, in order |
| ProfileLog.ProfileExistsIff | services/api/src/index.ts:1615-1647 | An account has a profile exactly when it has visited, patched, or had a suggestion published |
| ProfileLog.StatusAfter | services/agent-memory/src/agent_memory/service.py:4605-4706 | Over any events a suggestion is published once a committed request marks it; until then its last review decides its status |
| ProfileLog.ApprovedAtCommitIff | services/api/src/index.ts:537-572 | Between a request's approval check and its commit: still approved exactly when no other request has marked the suggestion and no rejection came last |
| ProfileLog.PublishedUnapprovedIff | services/api/src/index.ts:537-572 | In any run: published without approval exactly when the version check passes and a rejection came last since the approval check, or, for an undated suggestion, another request marked it |
| ProfileLog.RejectedStillPublishes | services/api/src/index.ts:537-543 | Such a run, for any suggestion and patch on a fresh account |
| StaleWrites.AfterBoth | services/api/src/index.ts:883-895 | Two transactions that both read before either writes: what the profile holds, and what its log replays to instead |
| StaleWrites.PlainStaleWriteIff | services/api/src/index.ts:333-357 | Without normalization the log then replays to the profile, up to key order, exactly when the second patch overwrites every change of the first |
| StaleWrites.StaleWriteLogsIff | services/api/src/index.ts:333-357 | With the service's normalization it does so exactly when every setting that the first patch changes is decided by the second |
| StaleWrites.DisturbedIsLost | services/api/src/index.ts:333-357 | Any other setting is lost: both rows are logged, but the profile shows the setting as it was before both |
| StaleWrites.LostUpdate | services/api/src/index.ts:333-357 | On a fresh account with the real defaults, two concurrent patches switch off one notification each; the first is on again |
| Rebalance.TaskTable.CollectMoves | scripts/dev-queue-rebalance.py:35-63 | The loop over queued rows collects the moves and both count tables |
| Rebalance.TaskTable.GroupPreferences | scripts/dev-queue-rebalance.py:65-86 | The loop groups the ids of preference tasks by account |
| Rebalance.TaskTable.CollectDuplicates | scripts/dev-queue-rebalance.py:88-99 | Each account with several tasks keeps the first and skips the others |
| Rebalance.TaskTable.CollectPlan | scripts/dev-queue-rebalance.py:34-109 | The plan is the function of the table that the lemmas below are about, and the table is unchanged |
| Rebalance.TaskTable.ApplyPlan | scripts/dev-queue-rebalance.py:112-161 | Moves are applied in order, then the duplicates skipped; row counts and notified pairs are the plan's |
| Rebalance.TaskTable.RebalanceTwice | scripts/dev-queue-rebalance.py:34-161 | After one plan has been applied the next one is empty |
| Rebalance.MovesAre | scripts/dev-queue-rebalance.py:35-63 | The moves are exactly the queued tasks of the default queue whose kind resolves to another queue, each to that queue |
| Rebalance.MovesAscend | scripts/dev-queue-rebalance.py:35-45 | They ascend by id |
| Rebalance.GroupsAre | scripts/dev-queue-rebalance.py:65-99 | The groups are exactly the accounts with several queued preference tasks in effect in the preference queue, keeping the lowest id and skipping the others, ascending |
| Rebalance.PlanIsSorted | scripts/dev-queue-rebalance.py:88-109 | Count tables and groups are sorted by name, and the skipped ids are those of the groups in order |
| Rebalance.RowAfterFields | scripts/dev-queue-rebalance.py:112-142 | By its fields: only a queued task of the default queue changes its queue, only a queued preference task with a lower one of its account is skipped |
| Rebalance.PlannedSkip | scripts/dev-queue-rebalance.py:82-99 | The plan skips exactly the preference tasks that are not their account's lowest |
| Rebalance.LowestIsLeast | scripts/dev-queue-rebalance.py:65-99 | That lowest id belongs to a task of the group, and no task of the group has a lower one |
| Rebalance.RowAfter | scripts/dev-queue-rebalance.py:112-142 | A movable task changes its queue, a planned duplicate its status, nothing else changes |
| Rebalance.LowestStaysQueued | scripts/dev-queue-rebalance.py:112-142 | Of each account group exactly the lowest id stays queued, and only planned duplicates leave the queued state |
| Rebalance.OneLeft | scripts/dev-queue-rebalance.py:112-142 | After a plan every account has at most one queued preference task |
| Rebalance.Fixpoint | scripts/dev-queue-rebalance.py:34-142 | For every queue-resolution function, planning again after applying a plan gives no moves and no duplicates |
| Rebalance.CountsAddUp | scripts/dev-queue-rebalance.py:46-63 | Both count tables say how often each queue and kind is moved, and each sums to the number of moves |
| Rebalance.TallyCounts | scripts/dev-queue-rebalance.py:48-63 | Counting in a dictionary gives each key its multiplicity |

## Left out

- The NMEA sentence parser and the hex and NTRIP header helpers: they would only add easy members.
- RTKLIB, the copying of observation epochs and everything computed in floating point; float fields are their raw bytes.
- The bridge's cursor is a C `int`; overflow for inputs near its largest value is not modelled, nor is the database's 32-bit limit on profile versions.
- Serial ports, sockets, HTTP, clocks and failing timeout changes: a transport is a finite script of events that times out once it is used up, so a device that answers for ever without an end is not modelled.
- Phoenix output messages other than the RTK status: they are read like the Venus8 ones.
- The two protocol crates have one frame codec between them here, because their code is the same.
- Database isolation: a transaction is one step of the state machine. The lemmas of `StaleWrites` on two transactions that read before either writes say what depends on it.
- JavaScript's conversion to a number of values that are none: an arbitrary function. Numbers are reals; a view id that converts to no finite number is null, as it is once stored.
- Key reordering by the JSONB column, negative zero, values that JSON cannot hold, keys on JavaScript prototypes, and the spelling of single tokens in the text of a value.
- Actors, timestamps and notes of rows, and the order of database notifications; the notified pairs are a set.
- The agent memory service apart from suggestions: creation, review and marking are single steps of the state machine, and queue-name resolution is an arbitrary function.
- Corrections read from a file are frames that need not parse; the two reported counts may then differ.
- CrcDetection.BurstsAreDetected: bounds bursts by the 24 bits of the register; longer bursts are detected only by chance and nothing is claimed of them.
- User interfaces, authentication, generated contracts and the remaining services.
