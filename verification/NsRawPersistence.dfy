/** Persisting a raw serial capture: scan, decode each frame again, parse the measurement frames. */
module NsRawPersistence {
  import opened Bytes
  import Scanning
  import GatewayScanners
  import SkyTraq
  import RawMeasurements

  datatype PersistError =
    | NoFrames
    | RawMeasurement(cause: RawMeasurements.RawMeasurementError)

  /** A frame the persistence loop gets past: it decodes, and a 0xE5 frame has the right length. */
  predicate Persistable(frame: seq<Byte>) {
    var d := SkyTraq.DecodeFrame(frame);
    d.Ok? && (d.value.messageId == 0xE5 ==> RawMeasurements.Parse(d.value).Ok?)
  }

  /** On the bytes of an accepted frame: message 0xE5 needs 21 bytes and 31 for each record it counts. */
  lemma PersistableIff(frame: seq<Byte>)
    requires SkyTraq.Accepts(frame)
    ensures |frame| >= 8
    ensures Persistable(frame) <==>
            (frame[4] == 0xE5 ==> |frame| >= 21 && |frame| == 21 + 31 * Value(frame[17]))
  {
    hide SkyTraq.DecodeFrame, RawMeasurements.Parse, Value;
    SkyTraq.DecodesTo(frame);
    RawMeasurements.ParsesIff(SkyTraq.DecodeFrame(frame).value);
  }

  /** Whether a frame stops the persistence of its capture, told from its bytes. */
  predicate Stops(frame: seq<Byte>)
    requires |frame| >= 8
  {
    frame[4] == 0xE5 && !(|frame| >= 21 && |frame| == 21 + 31 * Value(frame[17]))
  }

  lemma StopsIff(capture: seq<Byte>, k: nat)
    requires Scanning.Sound(GatewayScanners.SkyTraqFraming())
    requires k < |Scanning.Scan(GatewayScanners.SkyTraqFraming(), capture).frames|
    ensures var frame := Scanning.Scan(GatewayScanners.SkyTraqFraming(), capture).frames[k];
      |frame| >= 8 && (Stops(frame) <==> !Persistable(frame))
  {
    hide Scanning.Sound, Scanning.Scan, SkyTraq.DecodeFrame, SkyTraq.DeclaredLength, Persistable;
    Scanning.ScannedAreAccepted(GatewayScanners.SkyTraqFraming(), capture);
    PersistableIff(Scanning.Scan(GatewayScanners.SkyTraqFraming(), capture).frames[k]);
  }

  /**
   * `persist_ns_raw_frames`: one sample per extracted frame, or nothing. Decoding an extracted
   * frame again never fails; the one thing that can go wrong with frames is a 0xE5 payload
   * whose length does not match its record count, and the first such frame is the one reported.
   */
  method PersistNsRawFrames(capture: seq<Byte>) returns (r: Result<nat, PersistError>, samples: seq<seq<Byte>>)
    ensures Scanning.Sound(GatewayScanners.SkyTraqFraming())
    ensures var frames := Scanning.Scan(GatewayScanners.SkyTraqFraming(), capture).frames;
      && (forall k :: 0 <= k < |frames| ==> |frames[k]| >= 8)
      && (r.Ok? <==> frames != [] && forall k :: 0 <= k < |frames| ==> !Stops(frames[k]))
      && (r.Ok? ==> r.value == |frames| && samples == frames)
      && (r == Err(NoFrames) <==> frames == [])
      && (r.Err? && r != Err(NoFrames) ==>
            exists i :: 0 <= i < |frames| && Stops(frames[i]) && (forall k :: 0 <= k < i ==> !Stops(frames[k]))
                        && SkyTraq.DecodeFrame(frames[i]).Ok?
                        && RawMeasurements.Parse(SkyTraq.DecodeFrame(frames[i]).value) == Err(r.error.cause))
    ensures r.Err? ==> samples == []
  {
    hide Scanning.Sound, Scanning.Scan, GatewayScanners.SkyTraqFraming, SkyTraq.DecodeFrame, RawMeasurements.Parse;
    hide Stops;
    var frames := GatewayScanners.ExtractSkyTraqFrames(capture);
    ScannedDecode(capture);
    forall k | 0 <= k < |frames|
      ensures |frames[k]| >= 8 && (Stops(frames[k]) <==> !Persistable(frames[k]))
    {
      StopsIff(capture, k);
    }
    if frames == [] {
      return Err(NoFrames), [];
    }
    samples := [];
    for i := 0 to |frames|
      invariant samples == frames[..i]
      invariant forall k :: 0 <= k < i ==> Persistable(frames[k])
    {
      var decoded := SkyTraq.DecodeFrame(frames[i]);
      if decoded.Err? {
        // The error of decoding a frame again is dead code: an extracted frame decodes.
        assert false;
      }
      if decoded.value.messageId == 0xE5 {
        var raw := RawMeasurements.ParseExtendedRawMeasurements(decoded.value);
        if raw.Err? {
          assert Stops(frames[i]);
          return Err(RawMeasurement(raw.error)), [];
        }
      }
      samples := samples + [frames[i]];
    }
    r := Ok(|frames|);
  }

  /** Every frame a scan extracts decodes. */
  lemma {:induction false} ScannedDecode(capture: seq<Byte>)
    ensures Scanning.Sound(GatewayScanners.SkyTraqFraming())
    ensures forall k :: 0 <= k < |Scanning.Scan(GatewayScanners.SkyTraqFraming(), capture).frames| ==>
              SkyTraq.DecodeFrame(Scanning.Scan(GatewayScanners.SkyTraqFraming(), capture).frames[k]).Ok?
  {
    hide Scanning.Sound, Scanning.Scan, SkyTraq.DecodeFrame, SkyTraq.DeclaredLength;
    GatewayScanners.SkyTraqSound();
    Scanning.ScannedAreAccepted(GatewayScanners.SkyTraqFraming(), capture);
  }
}
