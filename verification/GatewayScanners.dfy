/** The gateway's batch scanners, the bridge's frame counter, and the streams they agree on. */
module GatewayScanners {
  import opened Bytes
  import opened Scanning
  import Rtcm
  import SkyTraq

  // ----- The two framings -----

  function RtcmFraming(): Framing {
    Framing(
      6,
      (b: seq<Byte>) => |b| > 0 && b[0] == 0xD3,
      (b: seq<Byte>) => if |b| < 3 then 6 else Rtcm.DeclaredLength(b[1], b[2]) + 6,
      (b: seq<Byte>) => Rtcm.Accepts(b))
  }

  function SkyTraqFraming(): Framing {
    Framing(
      7,
      (b: seq<Byte>) => |b| > 1 && b[0] == 0xA0 && b[1] == 0xA1,
      (b: seq<Byte>) => if |b| < 4 then 7 else SkyTraq.DeclaredLength(b) + 7,
      (b: seq<Byte>) => SkyTraq.Accepts(b))
  }

  lemma RtcmSound()
    ensures Sound(RtcmFraming())
  {
    hide Rtcm.DeclaredLength, Rtcm.MessageType;
  }

  lemma SkyTraqSound()
    ensures Sound(SkyTraqFraming())
  {
    hide Word16, SkyTraq.Checksum;
  }

  /** At the front of a stream, the RTCM scan waits in exactly these cases ... */
  lemma RtcmWaitsIff(bytes: seq<Byte>)
    ensures Stuck(RtcmFraming(), bytes) <==>
            |bytes| < 6
            || (bytes[0] == 0xD3 && |bytes| < Value(bytes[1] & 0x03) * 256 + Value(bytes[2]) + 6)
  {
    hide Value, Rtcm.ParseFrame;
  }

  /** ... and takes a frame in exactly these. */
  lemma RtcmTakesIff(bytes: seq<Byte>)
    ensures Taken(RtcmFraming(), bytes) <==>
            && |bytes| >= 6 && bytes[0] == 0xD3
            && var n := Value(bytes[1] & 0x03) * 256 + Value(bytes[2]) + 6;
               n <= |bytes| && Rtcm.ParseFrame(bytes[..n]).Ok?
    ensures Taken(Delimited(RtcmFraming()), bytes) <==>
            && |bytes| >= 6 && bytes[0] == 0xD3
            && Value(bytes[1] & 0x03) * 256 + Value(bytes[2]) + 6 <= |bytes|
    ensures Taken(RtcmFraming(), bytes) || Taken(Delimited(RtcmFraming()), bytes) ==>
              RtcmFraming().span(bytes) == Value(bytes[1] & 0x03) * 256 + Value(bytes[2]) + 6
  {
    hide Value, Rtcm.ParseFrame;
  }

  lemma SkyTraqWaitsIff(bytes: seq<Byte>)
    ensures Stuck(SkyTraqFraming(), bytes) <==>
            |bytes| < 7
            || (bytes[0] == 0xA0 && bytes[1] == 0xA1 && |bytes| < Value(bytes[2]) * 256 + Value(bytes[3]) + 7)
  {
    hide Value, SkyTraq.DecodeFrame;
  }

  lemma SkyTraqTakesIff(bytes: seq<Byte>)
    ensures Taken(SkyTraqFraming(), bytes) <==>
            && |bytes| >= 7 && bytes[0] == 0xA0 && bytes[1] == 0xA1
            && var n := Value(bytes[2]) * 256 + Value(bytes[3]) + 7;
               n <= |bytes| && SkyTraq.DecodeFrame(bytes[..n]).Ok?
    ensures Taken(SkyTraqFraming(), bytes) ==>
              SkyTraqFraming().span(bytes) == Value(bytes[2]) * 256 + Value(bytes[3]) + 7
  {
    hide Value, SkyTraq.DecodeFrame;
  }

  /** What the RTCM header test and length read at a cursor. */
  lemma RtcmHeaderAt(bytes: seq<Byte>, cursor: nat)
    requires cursor + 6 <= |bytes|
    ensures RtcmFraming().minimum == 6
    ensures RtcmFraming().starts(bytes[cursor..]) <==> bytes[cursor] == 0xD3
    ensures RtcmFraming().span(bytes[cursor..]) == Rtcm.DeclaredLength(bytes[cursor + 1], bytes[cursor + 2]) + 6
    ensures forall b :: RtcmFraming().accepts(b) <==> Rtcm.ParseFrame(b).Ok?
  {
    hide Rtcm.DeclaredLength, Rtcm.ParseFrame;
  }

  lemma SkyTraqHeaderAt(bytes: seq<Byte>, cursor: nat)
    requires cursor + 7 <= |bytes|
    ensures SkyTraqFraming().minimum == 7
    ensures SkyTraqFraming().starts(bytes[cursor..]) <==> bytes[cursor] == 0xA0 && bytes[cursor + 1] == 0xA1
    ensures SkyTraqFraming().span(bytes[cursor..]) == Word16(bytes[cursor + 2], bytes[cursor + 3]) + 7
    ensures forall b :: SkyTraqFraming().accepts(b) <==> SkyTraq.DecodeFrame(b).Ok?
  {
    hide Word16, SkyTraq.DecodeFrame;
  }

  lemma DelimitedHeader(f: Framing, b: seq<Byte>)
    ensures Delimited(f).minimum == f.minimum
    ensures Delimited(f).starts(b) == f.starts(b) && Delimited(f).span(b) == f.span(b)
  {
  }

  /** A delimiting scanner takes whatever its header announces. */
  lemma DelimitedTakes(f: Framing, bytes: seq<Byte>, cursor: nat)
    requires Sound(f) && cursor + f.minimum <= |bytes| && f.starts(bytes[cursor..])
    requires cursor + f.span(bytes[cursor..]) <= |bytes|
    ensures Delimited(f).accepts(bytes[cursor..cursor + f.span(bytes[cursor..])])
  {
    var here := bytes[cursor..];
    var n := f.span(here);
    assert bytes[cursor..cursor + n] + here[n..] == here;
  }

  // ----- The loops -----

  /** `extract_rtcm_frames` */
  method ExtractRtcmFrames(bytes: seq<Byte>) returns (frames: seq<seq<Byte>>)
    ensures Sound(RtcmFraming()) && frames == Scan(RtcmFraming(), bytes).frames
  {
    hide Sound, Scan, RtcmFraming, Rtcm.DeclaredLength, Rtcm.ParseFrame;
    RtcmSound();
    ghost var f := RtcmFraming();
    frames := [];
    var cursor := 0;
    assert bytes[0..] == bytes;
    while cursor + 6 <= |bytes|
      invariant cursor <= |bytes|
      invariant frames + Scan(f, bytes[cursor..]).frames == Scan(f, bytes).frames
    {
      RtcmHeaderAt(bytes, cursor);
      ScanAt(f, bytes, cursor);
      if bytes[cursor] != 0xD3 {
        cursor := cursor + 1;
        continue;
      }
      var frameLength := Rtcm.DeclaredLength(bytes[cursor + 1], bytes[cursor + 2]) + 6;
      if cursor + frameLength > |bytes| {
        break;
      }
      var candidate := bytes[cursor..cursor + frameLength];
      if Rtcm.ParseFrame(candidate).Ok? {
        frames := frames + [candidate];
        cursor := cursor + frameLength;
      } else {
        cursor := cursor + 1;
      }
    }
    Minimums();
    if cursor + 6 > |bytes| {
      ScanEnds(f, bytes, cursor);
    }
  }

  lemma Minimums()
    ensures RtcmFraming().minimum == 6 && SkyTraqFraming().minimum == 7
  {
  }

  /** `extract_skytraq_frames` */
  method ExtractSkyTraqFrames(bytes: seq<Byte>) returns (frames: seq<seq<Byte>>)
    ensures Sound(SkyTraqFraming()) && frames == Scan(SkyTraqFraming(), bytes).frames
  {
    hide Sound, Scan, SkyTraqFraming, Word16, SkyTraq.DecodeFrame;
    SkyTraqSound();
    ghost var f := SkyTraqFraming();
    frames := [];
    var cursor := 0;
    assert bytes[0..] == bytes;
    while cursor + 7 <= |bytes|
      invariant cursor <= |bytes|
      invariant frames + Scan(f, bytes[cursor..]).frames == Scan(f, bytes).frames
    {
      SkyTraqHeaderAt(bytes, cursor);
      ScanAt(f, bytes, cursor);
      if bytes[cursor] != 0xA0 || bytes[cursor + 1] != 0xA1 {
        cursor := cursor + 1;
        continue;
      }
      var frameLength := Word16(bytes[cursor + 2], bytes[cursor + 3]) + 7;
      if cursor + frameLength > |bytes| {
        break;
      }
      var candidate := bytes[cursor..cursor + frameLength];
      if SkyTraq.DecodeFrame(candidate).Ok? {
        frames := frames + [candidate];
        cursor := cursor + frameLength;
      } else {
        cursor := cursor + 1;
      }
    }
    Minimums();
    if cursor + 7 > |bytes| {
      ScanEnds(f, bytes, cursor);
    }
  }

  /** One turn of the counting loop. */
  lemma CountAt(bytes: seq<Byte>, cursor: nat)
    requires cursor + 6 <= |bytes|
    ensures Sound(RtcmFraming()) && Sound(Delimited(RtcmFraming()))
    ensures var f := Delimited(RtcmFraming());
      var n := Rtcm.DeclaredLength(bytes[cursor + 1], bytes[cursor + 2]) + 6;
      |Scan(f, bytes[cursor..]).frames| ==
        if bytes[cursor] != 0xD3 then |Scan(f, bytes[cursor + 1..]).frames|
        else if cursor + n > |bytes| then 0
        else 1 + |Scan(f, bytes[cursor + n..]).frames|
  {
    hide Sound, Scan, RtcmFraming, Delimited, Rtcm.DeclaredLength;
    RtcmSound();
    DelimitedSound(RtcmFraming());
    RtcmHeaderAt(bytes, cursor);
    DelimitedHeader(RtcmFraming(), bytes[cursor..]);
    ScanAt(Delimited(RtcmFraming()), bytes, cursor);
    if RtcmFraming().starts(bytes[cursor..]) && cursor + RtcmFraming().span(bytes[cursor..]) <= |bytes| {
      DelimitedTakes(RtcmFraming(), bytes, cursor);
    }
  }

  /** `clartk_count_rtcm3_frames`: the same walk without the CRC check. */
  method CountRtcm3Frames(bytes: seq<Byte>) returns (frames: nat)
    ensures Sound(Delimited(RtcmFraming()))
    ensures frames == |Scan(Delimited(RtcmFraming()), bytes).frames|
  {
    hide Sound, Scan, RtcmFraming, Delimited, Rtcm.DeclaredLength;
    RtcmSound();
    DelimitedSound(RtcmFraming());
    Minimums();
    DelimitedHeader(RtcmFraming(), []);
    ghost var f := Delimited(RtcmFraming());
    frames := 0;
    var cursor := 0;
    assert bytes[0..] == bytes;
    while cursor + 6 <= |bytes|
      invariant cursor <= |bytes|
      invariant frames + |Scan(f, bytes[cursor..]).frames| == |Scan(f, bytes).frames|
    {
      CountAt(bytes, cursor);
      if bytes[cursor] != 0xD3 {
        cursor := cursor + 1;
        continue;
      }
      var frameLength := Rtcm.DeclaredLength(bytes[cursor + 1], bytes[cursor + 2]) + 6;
      if cursor + frameLength > |bytes| {
        break;
      }
      frames := frames + 1;
      cursor := cursor + frameLength;
    }
    if cursor + 6 > |bytes| {
      ScanEnds(f, bytes, cursor);
    }
  }

  // ----- Clean streams -----

  ghost predicate NoPreamble(junk: seq<Byte>) {
    forall p :: 0 <= p < |junk| ==> junk[p] != 0xD3
  }

  ghost predicate NoSyncPair(junk: seq<Byte>) {
    forall p :: 0 <= p < |junk| - 1 ==> !(junk[p] == 0xA0 && junk[p + 1] == 0xA1)
  }

  lemma NoPreambleIsSilent(junk: seq<Byte>, after: seq<Byte>)
    requires NoPreamble(junk)
    ensures Silent(RtcmFraming(), junk, after)
  {
    hide Rtcm.DeclaredLength, Rtcm.Accepts;
    forall p | 0 <= p < |junk|
      ensures !RtcmFraming().starts(junk[p..] + after)
    {
      assert (junk[p..] + after)[0] == junk[p];
    }
  }

  /** A frame's first byte cannot complete a sync pair begun by the junk before it. */
  lemma NoSyncPairIsSilent(junk: seq<Byte>, after: seq<Byte>)
    requires NoSyncPair(junk) && (after != [] ==> after[0] == 0xA0)
    ensures Silent(SkyTraqFraming(), junk, after)
  {
    hide SkyTraq.DeclaredLength, SkyTraq.Accepts;
    forall p | 0 <= p < |junk|
      ensures |junk[p..] + after| < 7 || !SkyTraqFraming().starts(junk[p..] + after)
    {
      var here := junk[p..] + after;
      assert here[0] == junk[p];
      if |here| >= 7 {
        assert here[1] == if p + 1 < |junk| then junk[p + 1] else after[0];
      }
    }
  }

  lemma {:induction false} RtcmClean(gaps: seq<seq<Byte>>, frames: seq<seq<Byte>>, tail: seq<Byte>)
    requires |gaps| == |frames| + 1
    requires forall k :: 0 <= k < |gaps| ==> NoPreamble(gaps[k])
    requires forall k :: 0 <= k < |frames| ==> RtcmFraming().accepts(frames[k])
    ensures Clean(RtcmFraming(), gaps, frames, tail)
    decreases |frames|
  {
    hide RtcmFraming, NoPreamble, Silent;
    if frames == [] {
      NoPreambleIsSilent(gaps[0], tail);
    } else {
      NoPreambleIsSilent(gaps[0], frames[0] + (Weave(gaps[1..], frames[1..]) + tail));
      RtcmClean(gaps[1..], frames[1..], tail);
    }
  }

  lemma {:induction false} SkyTraqClean(gaps: seq<seq<Byte>>, frames: seq<seq<Byte>>, tail: seq<Byte>)
    requires |gaps| == |frames| + 1 && (tail != [] ==> tail[0] == 0xA0)
    requires forall k :: 0 <= k < |gaps| ==> NoSyncPair(gaps[k])
    requires forall k :: 0 <= k < |frames| ==> SkyTraqFraming().accepts(frames[k])
    ensures Clean(SkyTraqFraming(), gaps, frames, tail)
    decreases |frames|
  {
    hide SkyTraqFraming, NoSyncPair, Silent;
    if frames == [] {
      NoSyncPairIsSilent(gaps[0], tail);
    } else {
      AcceptedStarts(frames[0]);
      NoSyncPairIsSilent(gaps[0], frames[0] + (Weave(gaps[1..], frames[1..]) + tail));
      SkyTraqClean(gaps[1..], frames[1..], tail);
    }
  }

  lemma AcceptedStarts(frame: seq<Byte>)
    requires SkyTraqFraming().accepts(frame)
    ensures frame != [] && frame[0] == 0xA0
  {
    hide SkyTraq.DeclaredLength, SkyTraq.Checksum;
  }

  /**
   * Accepted RTCM frames with junk free of the preamble byte between them, the capture perhaps
   * cut off inside a further frame: the scan returns exactly the complete frames.
   */
  lemma RtcmCleanStream(gaps: seq<seq<Byte>>, frames: seq<seq<Byte>>, last: seq<Byte>, cut: nat)
    requires |gaps| == |frames| + 1 && cut < |last|
    requires forall k :: 0 <= k < |gaps| ==> NoPreamble(gaps[k])
    requires forall k :: 0 <= k < |frames| ==> Rtcm.Accepts(frames[k])
    requires Rtcm.Accepts(last)
    ensures Sound(RtcmFraming())
    ensures Scan(RtcmFraming(), Weave(gaps, frames) + last[..cut]).frames == frames
  {
    hide Sound, Scan, NoPreamble, Rtcm.DeclaredLength, Rtcm.Accepts;
    RtcmSound();
    RtcmClean(gaps, frames, last[..cut]);
    CleanScan(RtcmFraming(), gaps, frames, last[..cut]);
    CutFrame(RtcmFraming(), last, cut);
  }

  /** The same for SkyTraq frames and junk free of the adjacent sync pair. */
  lemma SkyTraqCleanStream(gaps: seq<seq<Byte>>, frames: seq<seq<Byte>>, last: seq<Byte>, cut: nat)
    requires |gaps| == |frames| + 1 && cut < |last|
    requires forall k :: 0 <= k < |gaps| ==> NoSyncPair(gaps[k])
    requires forall k :: 0 <= k < |frames| ==> SkyTraq.Accepts(frames[k])
    requires SkyTraq.Accepts(last)
    ensures Sound(SkyTraqFraming())
    ensures Scan(SkyTraqFraming(), Weave(gaps, frames) + last[..cut]).frames == frames
  {
    hide Sound, Scan, NoSyncPair, SkyTraq.DeclaredLength, SkyTraq.Accepts;
    SkyTraqSound();
    AcceptedStarts(last);
    SkyTraqClean(gaps, frames, last[..cut]);
    CleanScan(SkyTraqFraming(), gaps, frames, last[..cut]);
    CutFrame(SkyTraqFraming(), last, cut);
  }

  // ----- How the two SkyTraq scanners resynchronise after a bad frame -----

  /** A frame whose body is `inner` and whose checksum byte is `check`. */
  function Wrapped(inner: seq<Byte>, check: Byte): seq<Byte> {
    [0xA0, 0xA1] + Be16(|inner|) + inner + [check, 0x0D, 0x0A]
  }

  lemma WrappedHeader(inner: seq<Byte>, check: Byte)
    requires 0 < |inner| <= 0xFFFF
    ensures var w := Wrapped(inner, check);
      && SkyTraqFraming().starts(w) && SkyTraqFraming().span(w) == |w| == |inner| + 7
      && SkyTraqFraming().minimum == 7
      && (SkyTraqFraming().accepts(w) <==> check == SkyTraq.Checksum(inner))
  {
    hide Word16, SkyTraq.Checksum, Be16;
    var w := Wrapped(inner, check);
    Word16Be16(|inner|);
    assert w[2] == Be16(|inner|)[0] && w[3] == Be16(|inner|)[1];
    assert w[4..|inner| + 4] == inner;
    SkyTraq.AcceptsIffShaped(w);
  }

  lemma WrapperIsSilent(inner: seq<Byte>, after: seq<Byte>)
    requires inner != [] && inner[0] == 0xA0 && |inner| <= 0xFFFF && |inner| != 0xA0A1
    ensures Silent(SkyTraqFraming(), [0xA1] + Be16(|inner|), inner + after)
  {
    hide Word16, SkyTraq.Accepts, Be16;
    var junk := [0xA1] + Be16(|inner|);
    Word16Be16(|inner|);
    SyncPairWord();
    assert NoSyncPair(junk);
    NoSyncPairIsSilent(junk, inner + after);
  }

  lemma SyncPairWord()
    ensures Word16(0xA0, 0xA1) == 0xA0A1
  {
  }

  lemma DelimitedWrapper(inner: seq<Byte>, check: Byte)
    requires 0 < |inner| <= 0xFFFF
    ensures Sound(Delimited(SkyTraqFraming()))
    ensures Scan(Delimited(SkyTraqFraming()), Wrapped(inner, check)) == Parse([Wrapped(inner, check)], [])
  {
    hide SkyTraqFraming, Wrapped, Sound, Be16;
    var f := SkyTraqFraming();
    var w := Wrapped(inner, check);
    SkyTraqSound();
    DelimitedSound(f);
    WrappedHeader(inner, check);
    assert w[..|w|] == w && w[|w|..] == [];
  }

  lemma RejectedWrapper(inner: seq<Byte>, check: Byte)
    requires 0 < |inner| <= 0xFFFF && check != SkyTraq.Checksum(inner)
    ensures Sound(SkyTraqFraming())
    ensures Scan(SkyTraqFraming(), Wrapped(inner, check)) == Scan(SkyTraqFraming(), Wrapped(inner, check)[1..])
  {
    hide SkyTraqFraming, Wrapped, Sound, Be16, SkyTraq.Checksum;
    SkyTraqSound();
    WrappedHeader(inner, check);
    var w := Wrapped(inner, check);
    assert w[..|w|] == w;
  }

  /**
   * A frame wrapped in one with a wrong checksum: the session's scanner delivers the wrapper
   * and loses the frame inside; the batch scanner drops the wrapper and finds that frame.
   */
  lemma ResyncDiffers(inner: seq<Byte>, check: Byte)
    requires SkyTraq.Accepts(inner) && |inner| <= 0xFFFF && |inner| != 0xA0A1
    requires check != SkyTraq.Checksum(inner)
    ensures Sound(SkyTraqFraming()) && Sound(Delimited(SkyTraqFraming()))
    ensures Scan(Delimited(SkyTraqFraming()), Wrapped(inner, check)) == Parse([Wrapped(inner, check)], [])
    ensures Scan(SkyTraqFraming(), Wrapped(inner, check)).frames == [inner]
  {
    hide Sound, Silent, Be16, SkyTraq.Checksum, SkyTraq.DecodeFrame, Delimited;
    var f, tail := SkyTraqFraming(), [check, 0x0D, 0x0A];
    AcceptedStarts(inner);
    DelimitedWrapper(inner, check);
    RejectedWrapper(inner, check);
    assert Wrapped(inner, check)[1..] == ([0xA1] + Be16(|inner|)) + (inner + tail);
    WrapperIsSilent(inner, tail);
    SilenceIsDropped(f, [0xA1] + Be16(|inner|), inner + tail);
    ScanFrameFirst(f, inner, tail);
  }

  // ----- The correction metadata of a solve -----

  /**
   * The two counts `update_serial_raw_solver_outcome` reports: the gateway's frames, and what
   * the bridge counts in them flattened. On frames that parse they are the same number.
   */
  method CorrectionCounts(frames: seq<seq<Byte>>) returns (correctionFrameCount: nat, rtcmMessageCount: nat)
    ensures correctionFrameCount == |frames|
    ensures Sound(Delimited(RtcmFraming()))
    ensures rtcmMessageCount == |Scan(Delimited(RtcmFraming()), Flatten(frames)).frames|
    ensures (forall k :: 0 <= k < |frames| ==> Rtcm.Accepts(frames[k])) ==> rtcmMessageCount == correctionFrameCount
  {
    var correctionBytes := FlattenFrames(frames);
    rtcmMessageCount := CountRtcm3Frames(correctionBytes);
    correctionFrameCount := |frames|;
    ghost var allParse := forall k :: 0 <= k < |frames| ==> Rtcm.Accepts(frames[k]);
    if allParse {
      RtcmSound();
      DelimitFlattened(RtcmFraming(), frames);
    }
  }

  /** A live capture: scanned, then counted again by the bridge without the CRC. */
  method LiveCorrectionCounts(payload: seq<Byte>) returns (correctionFrameCount: nat, rtcmMessageCount: nat)
    ensures Sound(RtcmFraming()) && correctionFrameCount == |Scan(RtcmFraming(), payload).frames|
    ensures rtcmMessageCount == correctionFrameCount
  {
    hide Sound, Scan, Rtcm.DeclaredLength;
    var frames := ExtractRtcmFrames(payload);
    ScannedAreAccepted(RtcmFraming(), payload);
    correctionFrameCount, rtcmMessageCount := CorrectionCounts(frames);
  }
}
