/** The serial transport: bytes arrive in chunks, frames leave one at a time. */
module SerialTransport {
  import opened Bytes
  import opened Scanning
  import opened GatewayScanners
  import SkyTraq

  /** What one `read` of the port yields. */
  datatype PortRead = Chunk(data: seq<Byte>) | ReadTimedOut | ReadFailed

  datatype ReadError = TimedOut | Failed

  /** The streaming scanner delimits SkyTraq frames by their header and checks nothing else. */
  function Streaming(): Framing {
    Delimited(SkyTraqFraming())
  }

  lemma StreamingSound()
    ensures Sound(Streaming())
  {
    hide Sound, SkyTraqFraming, Delimited;
    SkyTraqSound();
    DelimitedSound(SkyTraqFraming());
  }

  /** The bytes that a run of reads delivered. */
  function Delivered(answers: seq<PortRead>): seq<Byte>
    decreases |answers|
  {
    if answers == [] then []
    else (if answers[0].Chunk? then answers[0].data else []) + Delivered(answers[1..])
  }

  /** One turn of the streaming loop. */
  lemma StreamAt(bytes: seq<Byte>, cursor: nat)
    requires cursor + 7 <= |bytes|
    ensures Sound(Streaming())
    ensures var n := Word16(bytes[cursor + 2], bytes[cursor + 3]) + 7;
      var now := Scan(Streaming(), bytes[cursor..]);
      if bytes[cursor] != 0xA0 || bytes[cursor + 1] != 0xA1 then now == Scan(Streaming(), bytes[cursor + 1..])
      else if cursor + n > |bytes| then now == Parse([], bytes[cursor..])
      else
        var next := Scan(Streaming(), bytes[cursor + n..]);
        now == Parse([bytes[cursor..cursor + n]] + next.frames, next.rest)
  {
    hide Sound, Scan, SkyTraqFraming, Delimited, Word16;
    SkyTraqSound();
    StreamingSound();
    SkyTraqHeaderAt(bytes, cursor);
    DelimitedHeader(SkyTraqFraming(), bytes[cursor..]);
    ScanAt(Streaming(), bytes, cursor);
    if SkyTraqFraming().starts(bytes[cursor..]) && cursor + SkyTraqFraming().span(bytes[cursor..]) <= |bytes| {
      DelimitedTakes(SkyTraqFraming(), bytes, cursor);
    }
  }

  lemma StreamEnds(bytes: seq<Byte>, cursor: nat)
    requires cursor <= |bytes| < cursor + 7
    ensures Sound(Streaming()) && Scan(Streaming(), bytes[cursor..]) == Parse([], bytes[cursor..])
  {
    hide Sound, Scan, SkyTraqFraming, Delimited;
    StreamingSound();
    Minimums();
    DelimitedHeader(SkyTraqFraming(), []);
    ScanEnds(Streaming(), bytes, cursor);
  }

  class SerialPortFrameTransport {
    var buffer: seq<Byte>
    /** The reads the port will still answer; afterwards it only times out. */
    var port: seq<PortRead>
    /** Every byte the port has delivered and every frame handed out since it was opened. */
    ghost var received: seq<Byte>
    ghost var returned: seq<seq<Byte>>

    /** Frames handed out, then those in the buffer, are the parse of all bytes received. */
    ghost predicate Valid()
      reads this`buffer, this`received, this`returned
    {
      && Sound(Streaming())
      && var ahead := Scan(Streaming(), buffer);
         Scan(Streaming(), received) == Parse(returned + ahead.frames, ahead.rest)
    }

    constructor (script: seq<PortRead>)
      ensures Valid() && port == script && buffer == [] && received == [] && returned == []
    {
      buffer := [];
      port := script;
      received := [];
      returned := [];
      new;
      StreamingSound();
    }

    /** `extract_skytraq_frame`: a cursor over the buffer, then a drain of what it passed. */
    method ExtractSkyTraqFrame() returns (frame: Option<seq<Byte>>)
      requires Sound(Streaming())
      modifies this`buffer
      ensures var was := Scan(Streaming(), old(buffer));
        if was.frames == [] then frame == None && buffer == was.rest
        else frame == Some(was.frames[0]) && Scan(Streaming(), buffer) == Parse(was.frames[1..], was.rest)
    {
      hide Sound, Scan, SkyTraqFraming, Delimited, Word16, Streaming;
      var cursor := 0;
      assert buffer[0..] == buffer;
      while cursor + 7 <= |buffer|
        invariant cursor <= |buffer| && buffer == old(buffer)
        invariant Scan(Streaming(), buffer[cursor..]) == Scan(Streaming(), buffer)
      {
        StreamAt(buffer, cursor);
        if buffer[cursor] != 0xA0 || buffer[cursor + 1] != 0xA1 {
          cursor := cursor + 1;
          continue;
        }
        var frameLength := Word16(buffer[cursor + 2], buffer[cursor + 3]) + 7;
        if cursor + frameLength > |buffer| {
          break;
        }
        frame := Some(buffer[cursor..cursor + frameLength]);
        buffer := buffer[cursor + frameLength..];
        return;
      }
      if cursor + 7 > |buffer| {
        StreamEnds(buffer, cursor);
      }
      if cursor > 0 {
        buffer := buffer[cursor..];
      }
      frame := None;
    }

    /** Hand out the next frame of the buffer, or know that all received bytes are parsed. */
    method TakeFrame() returns (frame: Option<seq<Byte>>)
      requires Valid()
      modifies this`buffer, this`returned
      ensures Valid()
      ensures frame.Some? ==> returned == old(returned) + [frame.value]
      ensures frame.None? ==> returned == old(returned) && Scan(Streaming(), received) == Parse(returned, buffer)
      ensures var was := Scan(Streaming(), old(buffer));
        if was.frames == [] then frame == None && was == Parse([], buffer) else frame == Some(was.frames[0])
    {
      hide Sound, Scan, Streaming;
      ghost var before := buffer;
      frame := ExtractSkyTraqFrame();
      if frame.Some? {
        returned := returned + [frame.value];
      } else {
        RestIsStuck(Streaming(), before);
      }
    }

    /** Bytes read from the port extend the buffer. */
    method Receive(data: seq<Byte>)
      requires Valid()
      modifies this`buffer, this`received
      ensures Valid()
      ensures buffer == old(buffer) + data && received == old(received) + data
    {
      hide Sound, Scan, Streaming;
      ghost var ahead := Scan(Streaming(), buffer);
      ScanAppend(Streaming(), received, data);
      ScanAppend(Streaming(), buffer, data);
      buffer := buffer + data;
      received := received + data;
      assert Scan(Streaming(), received).frames == returned + Scan(Streaming(), buffer).frames;
    }

    /**
     * `read_frame`: extract, or read on. Whatever the chunks and time-outs were, the frames
     * handed out are a prefix of the parse of all bytes received; after an error they are all of
     * it, and the buffer holds exactly its undecided rest. `Reads` fixes the answer.
     */
    method ReadFrame() returns (r: Result<seq<Byte>, ReadError>, ghost used: nat)
      requires Valid()
      modifies this
      ensures Valid()
      ensures Reads(old(buffer), old(port), used, r)
      ensures used <= |old(port)| && port == old(port)[used..]
      ensures received == old(received) + Delivered(old(port)[..used])
      ensures r.Ok? ==> returned == old(returned) + [r.value]
      ensures r.Err? ==> returned == old(returned) && Scan(Streaming(), received) == Parse(returned, buffer)
    {
      hide Valid, Scan, Streaming, Delivered, Sound, Reads, Waiting, Arrived;
      ghost var script, before, start := port, received, buffer;
      used := 0;
      DeliveredNothing(script);
      NothingRead(start, script);
      while true
        invariant Valid() && returned == old(returned)
        invariant used <= |script| && port == script[used..]
        invariant received == before + Delivered(script[..used])
        invariant Waiting(start, script, used) && Sound(Streaming())
        invariant Scan(Streaming(), Arrived(start, script, used)) == Scan(Streaming(), buffer)
        decreases |port|
      {
        ghost var held := buffer;
        var frame := TakeFrame();
        if frame.Some? {
          ReadsFrame(start, script, used, frame.value);
          return Ok(frame.value), used;
        }
        if port == [] {
          ReadsNothing(start, script);
          return Err(TimedOut), used;
        }
        DeliveredNext(script, used);
        OneMoreRead(start, script, used, held, buffer);
        var answer := port[0];
        port := port[1..];
        used := used + 1;
        match answer
        case Chunk(data) =>
          Receive(data);
        case ReadTimedOut =>
          return Err(TimedOut), used;
        case ReadFailed =>
          return Err(Failed), used;
      }
    }
  }

  // ----- What one call answers, from the buffer and the script alone -----

  /** All bytes there are to parse after `k` reads. */
  function Arrived(buffer: seq<Byte>, script: seq<PortRead>, k: nat): seq<Byte>
    requires k <= |script|
  {
    buffer + Delivered(script[..k])
  }

  /** `k` reads are needed: all before have delivered bytes, and these complete no frame. */
  ghost predicate Waiting(buffer: seq<Byte>, script: seq<PortRead>, k: nat)
    requires k <= |script|
  {
    && Sound(Streaming())
    && (forall i :: 0 <= i < k ==> script[i].Chunk?)
    && (forall i :: 0 <= i < k ==> Scan(Streaming(), Arrived(buffer, script, i)).frames == [])
  }

  /**
   * A call reads until the bytes complete a frame, and no further; an answer that is no chunk ends
   * it with that answer; a script that is used up times out.
   */
  ghost predicate Reads(buffer: seq<Byte>, script: seq<PortRead>, used: nat, r: Result<seq<Byte>, ReadError>) {
    && used <= |script|
    && match r
       case Ok(frame) =>
         && Waiting(buffer, script, used)
         && var frames := Scan(Streaming(), Arrived(buffer, script, used)).frames;
            frames != [] && frame == frames[0]
       case Err(error) =>
         || (used > 0 && EndsWith(buffer, script, used - 1, error))
         || (error == TimedOut && used == |script| && Unanswered(buffer, script, used))
  }

  /** After `k` reads there is still no frame. */
  ghost predicate Unanswered(buffer: seq<Byte>, script: seq<PortRead>, k: nat)
    requires k <= |script|
  {
    Waiting(buffer, script, k) && Scan(Streaming(), Arrived(buffer, script, k)).frames == []
  }

  ghost predicate EndsWith(buffer: seq<Byte>, script: seq<PortRead>, k: nat, error: ReadError)
    requires k < |script|
  {
    Unanswered(buffer, script, k) && script[k] == (if error == TimedOut then ReadTimedOut else ReadFailed)
  }

  /** The buffer and the script determine the answer and how many reads it takes. */
  lemma ReadIsDetermined(
    buffer: seq<Byte>, script: seq<PortRead>, used: nat, r: Result<seq<Byte>, ReadError>,
    used': nat, r': Result<seq<Byte>, ReadError>)
    requires Reads(buffer, script, used, r) && Reads(buffer, script, used', r')
    ensures used == used' && r == r'
  {
    hide Scan, Streaming, Arrived, Sound;
  }

  lemma NothingRead(buffer: seq<Byte>, script: seq<PortRead>)
    ensures Sound(Streaming()) && Waiting(buffer, script, 0) && Arrived(buffer, script, 0) == buffer
  {
    hide Sound, Streaming;
    StreamingSound();
    DeliveredNothing(script);
  }

  lemma ReadsFrame(buffer: seq<Byte>, script: seq<PortRead>, k: nat, frame: seq<Byte>)
    requires k <= |script| && Waiting(buffer, script, k)
    requires var frames := Scan(Streaming(), Arrived(buffer, script, k)).frames; frames != [] && frame == frames[0]
    ensures Reads(buffer, script, k, Ok(frame))
  {
    hide Scan, Streaming, Arrived, Sound, Waiting;
  }

  lemma ReadsNothing(buffer: seq<Byte>, script: seq<PortRead>)
    requires Waiting(buffer, script, |script|)
    requires Scan(Streaming(), Arrived(buffer, script, |script|)).frames == []
    ensures Reads(buffer, script, |script|, Err(TimedOut))
  {
    hide Scan, Streaming, Arrived, Sound, Waiting;
  }

  /** One more answer, when the bytes so far leave `rest` and no frame. */
  lemma OneMoreRead(buffer: seq<Byte>, script: seq<PortRead>, k: nat, held: seq<Byte>, rest: seq<Byte>)
    requires k < |script| && Waiting(buffer, script, k)
    requires Scan(Streaming(), Arrived(buffer, script, k)) == Scan(Streaming(), held) == Parse([], rest)
    ensures match script[k]
      case Chunk(data) =>
        && Waiting(buffer, script, k + 1)
        && Scan(Streaming(), Arrived(buffer, script, k + 1)) == Scan(Streaming(), rest + data)
      case ReadTimedOut => Reads(buffer, script, k + 1, Err(TimedOut))
      case ReadFailed => Reads(buffer, script, k + 1, Err(Failed))
  {
    hide Scan, Streaming, Sound, Delivered;
    if script[k].Chunk? {
      DeliveredNext(script, k);
      Associative(buffer, Delivered(script[..k]), script[k].data);
      ScanAppend(Streaming(), Arrived(buffer, script, k), script[k].data);
    }
  }

  lemma DeliveredNothing(script: seq<PortRead>)
    ensures script[0..] == script && Delivered(script[..0]) == []
  {
  }

  lemma {:induction false} DeliveredNext(script: seq<PortRead>, k: nat)
    requires k < |script|
    ensures script[k..][1..] == script[k + 1..]
    ensures Delivered(script[..k + 1])
         == Delivered(script[..k]) + (if script[k].Chunk? then script[k].data else [])
    decreases |script|
  {
    if k == 0 {
      assert script[..1] == [script[0]];
    } else {
      DeliveredNext(script[1..], k - 1);
      assert script[..k][1..] == script[1..][..k - 1] && script[..k + 1][1..] == script[1..][..k];
    }
  }

  // ----- Conservation and the bound on the buffer -----

  ghost predicate SyncPair(bytes: seq<Byte>) {
    |bytes| >= 2 && bytes[0] == 0xA0 && bytes[1] == 0xA1
  }

  /** A delimiting scanner drops a byte only where no sync pair starts. */
  lemma DroppedMeansNoSync(bytes: seq<Byte>)
    ensures Dropped(Streaming(), bytes) <==> |bytes| >= 7 && !SyncPair(bytes)
  {
    hide Sound, SkyTraq.DeclaredLength, SkyTraq.Accepts;
    SkyTraqSound();
    StreamingSound();
    DroppedIffPassed(Streaming(), bytes);
    if |bytes| >= 7 && SyncPair(bytes) {
      assert bytes[0..] == bytes;
      if SkyTraqFraming().span(bytes) <= |bytes| {
        DelimitedTakes(SkyTraqFraming(), bytes, 0);
      }
    }
  }

  /** What may stay in the buffer: a few bytes, or an incomplete frame of at most 65541 bytes. */
  lemma StuckIsBounded(bytes: seq<Byte>)
    ensures Stuck(Streaming(), bytes) <==>
            |bytes| <= 6 || (SyncPair(bytes) && |bytes| < Word16(bytes[2], bytes[3]) + 7)
    ensures Stuck(Streaming(), bytes) ==> |bytes| <= 65541
  {
    hide SkyTraq.Accepts;
  }

  /**
   * Every byte received lies in exactly one frame, in order, or was dropped at a place where no
   * sync pair starts, or is still buffered; and the buffer is bounded.
   */
  lemma BytesAreConserved(received: seq<Byte>) returns (offsets: seq<nat>, stop: nat)
    ensures Sound(Streaming()) && stop <= |received|
    ensures var parse := Scan(Streaming(), received);
      && InOrder(offsets, parse.frames, stop)
      && Slices(Streaming(), received, offsets, parse.frames)
      && (forall p: nat :: p < stop && !Covered(offsets, parse.frames, p) ==> !SyncPair(received[p..]))
      && parse.rest == received[stop..]
      && |parse.rest| <= 65541
  {
    hide Sound, Scan, Streaming, Dropped, SyncPair, Slices, Covered, Stuck;
    StreamingSound();
    offsets, stop := ScanTiles(Streaming(), received);
    forall p: nat | p < stop && !Covered(offsets, Scan(Streaming(), received).frames, p)
      ensures !SyncPair(received[p..])
    {
      DroppedMeansNoSync(received[p..]);
    }
    StuckIsBounded(received[stop..]);
  }

  /** Any two ways of cutting the same bytes into chunks leave the same frames and buffer. */
  lemma ChunksDoNotMatter(a: seq<seq<Byte>>, b: seq<seq<Byte>>)
    requires Flatten(a) == Flatten(b)
    ensures Sound(Streaming()) && Feed(Streaming(), [], a) == Feed(Streaming(), [], b)
  {
    hide Sound, Scan, Streaming, Feed, Stuck;
    StreamingSound();
    NothingIsStuck(Streaming());
    ChunkingIsInvisible(Streaming(), [], a);
    ChunkingIsInvisible(Streaming(), [], b);
  }
}
