/**
 * What it means to scan a byte string for frames of one framing, independently of any loop,
 * and the laws that the gateway's scanners and the C frame counter inherit from it.
 */
module Scanning {
  import opened Bytes

  /**
   * A framing: how many bytes a header test needs, whether a sync header is at the front,
   * how long the frame it announces is, and which byte strings are frames.
   */
  datatype Framing = Framing(
    minimum: nat,
    starts: seq<Byte> -> bool,
    span: seq<Byte> -> nat,
    accepts: seq<Byte> -> bool)

  /** The header is read from the first `minimum` bytes only, and it tells a frame's length. */
  ghost predicate Sound(f: Framing) {
    && f.minimum > 0
    && (forall b :: |b| >= f.minimum ==> f.span(b) >= f.minimum)
    && (forall a, b {:trigger a + b} :: |a| >= f.minimum ==>
          f.starts(a + b) == f.starts(a) && f.span(a + b) == f.span(a))
    && (forall b :: f.accepts(b) ==> |b| >= f.minimum && f.starts(b) && f.span(b) == |b|)
  }

  /** The same framing with every byte string of the announced length taken as a frame. */
  function Delimited(f: Framing): Framing {
    f.(accepts := (b: seq<Byte>) => |b| >= f.minimum && f.starts(b) && f.span(b) == |b|)
  }

  lemma DelimitedSound(f: Framing)
    requires Sound(f)
    ensures Sound(Delimited(f))
  {
  }

  datatype Parse = Parse(frames: seq<seq<Byte>>, rest: seq<Byte>)

  /** Nothing can be decided at the front: too few bytes, or an incomplete frame. */
  ghost predicate Stuck(f: Framing, bs: seq<Byte>) {
    |bs| < f.minimum || (f.starts(bs) && f.span(bs) > |bs|)
  }

  ghost predicate Taken(f: Framing, bs: seq<Byte>) {
    |bs| >= f.minimum && f.starts(bs) && f.span(bs) <= |bs| && f.accepts(bs[..f.span(bs)])
  }

  /** The frames found from the front, and the bytes left when the scan stops. */
  ghost function Scan(f: Framing, bs: seq<Byte>): Parse
    requires Sound(f)
    decreases |bs|
  {
    if Stuck(f, bs) then Parse([], bs)
    else if Taken(f, bs) then
      var tail := Scan(f, bs[f.span(bs)..]);
      Parse([bs[..f.span(bs)]] + tail.frames, tail.rest)
    else Scan(f, bs[1..])
  }

  /** One turn of a scanning loop, seen at its cursor. */
  lemma ScanAt(f: Framing, bytes: seq<Byte>, cursor: nat)
    requires Sound(f) && cursor + f.minimum <= |bytes|
    ensures var here := bytes[cursor..]; var n := f.span(here); var now := Scan(f, here);
      && (!f.starts(here) ==> now == Scan(f, bytes[cursor + 1..]))
      && (f.starts(here) && cursor + n > |bytes| ==> now == Parse([], here))
      && (f.starts(here) && cursor + n <= |bytes| ==>
            var candidate := bytes[cursor..cursor + n];
            var next := Scan(f, bytes[cursor + n..]);
            now == if f.accepts(candidate) then Parse([candidate] + next.frames, next.rest)
                   else Scan(f, bytes[cursor + 1..]))
  {
    var here := bytes[cursor..];
    var n := f.span(here);
    assert here[1..] == bytes[cursor + 1..];
    if n <= |here| {
      assert here[..n] == bytes[cursor..cursor + n] && here[n..] == bytes[cursor + n..];
    }
  }

  lemma ScanEnds(f: Framing, bytes: seq<Byte>, cursor: nat)
    requires Sound(f) && cursor <= |bytes| < cursor + f.minimum
    ensures Scan(f, bytes[cursor..]) == Parse([], bytes[cursor..])
  {
  }

  // ----- A scan is the one tiling of its input -----

  /** The `k`-th frame lies over position `p`. */
  predicate Over(offsets: seq<nat>, frames: seq<seq<Byte>>, k: nat, p: nat)
    requires k < |offsets| == |frames|
  {
    offsets[k] <= p < offsets[k] + |frames[k]|
  }

  ghost predicate Covered(offsets: seq<nat>, frames: seq<seq<Byte>>, p: nat)
    requires |offsets| == |frames|
  {
    exists k :: 0 <= k < |frames| && Over(offsets, frames, k, p)
  }

  /** No frame of this framing starts at the front, and the bytes there suffice to see it. */
  ghost predicate Dropped(f: Framing, bs: seq<Byte>) {
    !Stuck(f, bs) && forall n :: 0 <= n <= |bs| ==> !f.accepts(bs[..n])
  }

  /** The frames lie in order and disjoint, and none reaches past `stop`. */
  ghost predicate InOrder(offsets: seq<nat>, frames: seq<seq<Byte>>, stop: nat) {
    && |offsets| == |frames|
    && (forall i, j :: 0 <= i < j < |frames| ==> offsets[i] + |frames[i]| <= offsets[j])
    && (forall k :: 0 <= k < |frames| ==> offsets[k] + |frames[k]| <= stop)
  }

  /** Each frame is accepted and is the slice of the input at its offset. */
  ghost predicate Slices(f: Framing, bs: seq<Byte>, offsets: seq<nat>, frames: seq<seq<Byte>>) {
    && |offsets| == |frames|
    && forall k :: 0 <= k < |frames| ==>
         && offsets[k] + |frames[k]| <= |bs|
         && bs[offsets[k]..offsets[k] + |frames[k]|] == frames[k]
         && f.accepts(frames[k])
  }

  /**
   * Accepted frames in order and disjoint; every other byte before `stop` is dropped at a
   * place where no frame starts; at `stop` the scan is stuck.
   */
  ghost predicate Tiles(f: Framing, bs: seq<Byte>, offsets: seq<nat>, frames: seq<seq<Byte>>, stop: nat) {
    && stop <= |bs|
    && InOrder(offsets, frames, stop)
    && Slices(f, bs, offsets, frames)
    && (forall p: nat :: p < stop && !Covered(offsets, frames, p) ==> Dropped(f, bs[p..]))
    && Stuck(f, bs[stop..])
  }

  lemma DroppedIffPassed(f: Framing, bs: seq<Byte>)
    requires Sound(f)
    ensures Dropped(f, bs) <==> !Stuck(f, bs) && !Taken(f, bs)
  {
    forall n | 0 <= n <= |bs| && f.accepts(bs[..n])
      ensures Stuck(f, bs) || Taken(f, bs)
    {
      assert bs[..n] + bs[n..] == bs;
    }
  }

  /** Where the `k`-th frame of a tiling lies, the scan takes it. */
  lemma FrameIsTaken(f: Framing, bs: seq<Byte>, offsets: seq<nat>, frames: seq<seq<Byte>>, k: nat)
    requires Sound(f) && Slices(f, bs, offsets, frames) && k < |frames|
    ensures offsets[k] + |frames[k]| <= |bs| && |frames[k]| > 0
    ensures var here := bs[offsets[k]..];
      Taken(f, here) && !Stuck(f, here) && f.span(here) == |frames[k]| && here[..|frames[k]|] == frames[k]
  {
    var here, n := bs[offsets[k]..], |frames[k]|;
    assert here[..n] == frames[k];
    assert here[..n] + here[n..] == here;
  }

  /** Scanning from a cursor where a frame is taken, where a byte is dropped, and where it stops. */
  lemma ScanFrom(f: Framing, bs: seq<Byte>, cursor: nat)
    requires Sound(f) && cursor <= |bs|
    ensures var here := bs[cursor..]; var n := f.span(here);
      && (Stuck(f, here) ==> Scan(f, here) == Parse([], here))
      && (Taken(f, here) && !Stuck(f, here) ==>
            cursor + n <= |bs| &&
            var next := Scan(f, bs[cursor + n..]);
            Scan(f, here) == Parse([here[..n]] + next.frames, next.rest))
      && (!Taken(f, here) && !Stuck(f, here) ==> cursor < |bs| && Scan(f, here) == Scan(f, bs[cursor + 1..]))
  {
    hide Sound;
    var here := bs[cursor..];
    if Taken(f, here) && !Stuck(f, here) {
      assert here[f.span(here)..] == bs[cursor + f.span(here)..];
    } else if !Stuck(f, here) {
      NeverStuckOnNothing(f, here);
      assert here[1..] == bs[cursor + 1..];
    }
  }

  lemma NeverStuckOnNothing(f: Framing, bs: seq<Byte>)
    requires Sound(f) && !Stuck(f, bs)
    ensures bs != []
  {
  }

  /** From a cursor that has passed `k` frames of a tiling, the scan yields the others. */
  lemma {:induction false} TilingFrom(
    f: Framing, bs: seq<Byte>, offsets: seq<nat>, frames: seq<seq<Byte>>, stop: nat, k: nat, cursor: nat)
    requires Sound(f) && Tiles(f, bs, offsets, frames, stop)
    requires k <= |frames| && cursor <= stop
    requires k > 0 ==> offsets[k - 1] + |frames[k - 1]| <= cursor
    requires k < |frames| ==> cursor <= offsets[k]
    ensures Scan(f, bs[cursor..]) == Parse(frames[k..], bs[stop..])
    decreases stop - cursor
  {
    hide Sound, Slices, Dropped, Taken, Stuck, InOrder, Covered, Scan;
    assert |offsets| == |frames| by {
      OneOffsetEach(offsets, frames, stop);
    }
    ScanFrom(f, bs, cursor);
    if k < |frames| {
      FrameIsTaken(f, bs, offsets, frames, k);
      NextFrame(offsets, frames, stop, k);
    }
    if k < |frames| && offsets[k] == cursor {
      TilingFrom(f, bs, offsets, frames, stop, k + 1, cursor + |frames[k]|);
      assert frames[k..] == [frames[k]] + frames[k + 1..];
    } else if cursor < stop {
      NotCovered(offsets, frames, stop, k, cursor);
      DroppedIffPassed(f, bs[cursor..]);
      TilingFrom(f, bs, offsets, frames, stop, k, cursor + 1);
    }
  }

  lemma OneOffsetEach(offsets: seq<nat>, frames: seq<seq<Byte>>, stop: nat)
    requires InOrder(offsets, frames, stop)
    ensures |offsets| == |frames|
  {
  }

  lemma NextFrame(offsets: seq<nat>, frames: seq<seq<Byte>>, stop: nat, k: nat)
    requires InOrder(offsets, frames, stop) && k < |frames|
    ensures offsets[k] + |frames[k]| <= if k + 1 < |frames| then offsets[k + 1] else stop
    ensures offsets[k] + |frames[k]| <= stop
  {
  }

  lemma NotCovered(offsets: seq<nat>, frames: seq<seq<Byte>>, stop: nat, k: nat, cursor: nat)
    requires InOrder(offsets, frames, stop) && k <= |frames|
    requires k > 0 ==> offsets[k - 1] + |frames[k - 1]| <= cursor
    requires k < |frames| ==> cursor < offsets[k]
    ensures !Covered(offsets, frames, cursor)
  {
    forall i | 0 <= i < |frames|
      ensures !Over(offsets, frames, i, cursor)
    {
      if i + 1 < k {
        assert offsets[i] + |frames[i]| <= offsets[k - 1];
      } else if k < i {
        assert offsets[k] + |frames[k]| <= offsets[i];
      }
    }
  }

  /** Every tiling of the input is what the scan returns. */
  lemma TilingIsScan(f: Framing, bs: seq<Byte>, offsets: seq<nat>, frames: seq<seq<Byte>>, stop: nat)
    requires Sound(f) && Tiles(f, bs, offsets, frames, stop)
    ensures Scan(f, bs) == Parse(frames, bs[stop..])
  {
    hide Sound, Slices, Dropped, Taken, Stuck, Scan;
    assert bs[0..] == bs && frames[0..] == frames;
    TilingFrom(f, bs, offsets, frames, stop, 0, 0);
  }

  function Shifted(offsets: seq<nat>, n: nat): (s: seq<nat>)
    ensures |s| == |offsets|
    ensures forall k :: 0 <= k < |s| ==> s[k] == offsets[k] + n
  {
    seq(|offsets|, k requires 0 <= k < |offsets| => offsets[k] + n)
  }

  lemma CoveredShift(offsets: seq<nat>, frames: seq<seq<Byte>>, n: nat, p: nat)
    requires |offsets| == |frames| && Covered(offsets, frames, p)
    ensures Covered(Shifted(offsets, n), frames, p + n)
  {
    var k :| 0 <= k < |frames| && Over(offsets, frames, k, p);
    assert Over(Shifted(offsets, n), frames, k, p + n);
  }

  lemma SlicesShift(f: Framing, bs: seq<Byte>, n: nat, offsets: seq<nat>, frames: seq<seq<Byte>>)
    requires n <= |bs| && Slices(f, bs[n..], offsets, frames)
    ensures Slices(f, bs, Shifted(offsets, n), frames)
  {
    var moved := Shifted(offsets, n);
    forall k | 0 <= k < |frames|
      ensures bs[moved[k]..moved[k] + |frames[k]|] == frames[k]
    {
      assert bs[moved[k]..moved[k] + |frames[k]|] == bs[n..][offsets[k]..offsets[k] + |frames[k]|];
    }
  }

  /** A tiling of the bytes behind a dropped byte extends to the whole. */
  lemma TilesDrop(f: Framing, bs: seq<Byte>, offsets: seq<nat>, frames: seq<seq<Byte>>, stop: nat)
    requires bs != [] && Dropped(f, bs) && Tiles(f, bs[1..], offsets, frames, stop)
    ensures Tiles(f, bs, Shifted(offsets, 1), frames, stop + 1)
  {
    hide Dropped, Stuck, Slices, Covered;
    var moved := Shifted(offsets, 1);
    SlicesShift(f, bs, 1, offsets, frames);
    forall p: nat | p < stop + 1 && !Covered(moved, frames, p)
      ensures Dropped(f, bs[p..])
    {
      if p == 0 {
        assert bs[0..] == bs;
      } else {
        if Covered(offsets, frames, p - 1) {
          CoveredShift(offsets, frames, 1, p - 1);
        }
        assert bs[p..] == bs[1..][p - 1..];
      }
    }
    assert bs[stop + 1..] == bs[1..][stop..];
  }

  lemma SlicesTake(f: Framing, bs: seq<Byte>, n: nat, offsets: seq<nat>, frames: seq<seq<Byte>>)
    requires n <= |bs| && f.accepts(bs[..n]) && Slices(f, bs, offsets, frames)
    ensures Slices(f, bs, [0] + offsets, [bs[..n]] + frames)
  {
    var moved, all := [0] + offsets, [bs[..n]] + frames;
    forall k | 0 <= k < |all|
      ensures moved[k] + |all[k]| <= |bs|
      ensures bs[moved[k]..moved[k] + |all[k]|] == all[k] && f.accepts(all[k])
    {
      if k > 0 {
        assert moved[k] == offsets[k - 1] && all[k] == frames[k - 1];
      }
    }
  }

  /** Putting a frame in front moves the others by its length. */
  lemma TakeAt(first: seq<Byte>, offsets: seq<nat>, frames: seq<seq<Byte>>, k: nat)
    requires |offsets| == |frames| && k <= |frames|
    ensures ([0] + Shifted(offsets, |first|))[k] == if k == 0 then 0 else offsets[k - 1] + |first|
    ensures ([first] + frames)[k] == if k == 0 then first else frames[k - 1]
  {
  }

  lemma InOrderTake(first: seq<Byte>, offsets: seq<nat>, frames: seq<seq<Byte>>, stop: nat)
    requires InOrder(offsets, frames, stop)
    ensures InOrder([0] + Shifted(offsets, |first|), [first] + frames, stop + |first|)
  {
    hide Shifted;
    var starts, all := [0] + Shifted(offsets, |first|), [first] + frames;
    forall i, j | 0 <= i < j < |all|
      ensures starts[i] + |all[i]| <= starts[j]
    {
      TakeAt(first, offsets, frames, i);
      TakeAt(first, offsets, frames, j);
    }
    forall k | 0 <= k < |all|
      ensures starts[k] + |all[k]| <= stop + |first|
    {
      TakeAt(first, offsets, frames, k);
    }
  }

  lemma CoveredTake(first: seq<Byte>, offsets: seq<nat>, frames: seq<seq<Byte>>, p: nat)
    requires |offsets| == |frames|
    ensures p < |first| ==> Covered([0] + offsets, [first] + frames, p)
    ensures Covered(offsets, frames, p) ==> Covered([0] + offsets, [first] + frames, p)
  {
    if p < |first| {
      assert Over([0] + offsets, [first] + frames, 0, p);
    }
    if Covered(offsets, frames, p) {
      var k :| 0 <= k < |frames| && Over(offsets, frames, k, p);
      assert Over([0] + offsets, [first] + frames, k + 1, p);
    }
  }

  /** A tiling of the bytes behind a frame extends to the whole. */
  lemma TilesTake(f: Framing, bs: seq<Byte>, n: nat, offsets: seq<nat>, frames: seq<seq<Byte>>, stop: nat)
    requires n <= |bs| && f.accepts(bs[..n]) && Tiles(f, bs[n..], offsets, frames, stop)
    ensures Tiles(f, bs, [0] + Shifted(offsets, n), [bs[..n]] + frames, stop + n)
  {
    hide Dropped, Stuck, Slices, Covered;
    var first, moved := bs[..n], Shifted(offsets, n);
    SlicesShift(f, bs, n, offsets, frames);
    SlicesTake(f, bs, n, moved, frames);
    InOrderTake(first, offsets, frames, stop);
    forall p: nat | p < stop + n && !Covered([0] + moved, [first] + frames, p)
      ensures Dropped(f, bs[p..])
    {
      CoveredTake(first, moved, frames, p);
      if Covered(offsets, frames, p - n) {
        CoveredShift(offsets, frames, n, p - n);
      }
      assert bs[p..] == bs[n..][p - n..];
    }
    assert bs[stop + n..] == bs[n..][stop..];
  }

  lemma TilesNothing(f: Framing, bs: seq<Byte>)
    requires Stuck(f, bs)
    ensures Tiles(f, bs, [], [], 0)
  {
    assert bs[0..] == bs;
  }

  /** The scan's frames tile its input. */
  lemma {:induction false} ScanTiles(f: Framing, bs: seq<Byte>) returns (offsets: seq<nat>, stop: nat)
    requires Sound(f)
    ensures Tiles(f, bs, offsets, Scan(f, bs).frames, stop)
    ensures Scan(f, bs).rest == bs[stop..]
    decreases |bs|
  {
    hide Tiles, Dropped, Sound;
    if Stuck(f, bs) {
      offsets, stop := [], 0;
      TilesNothing(f, bs);
    } else if Taken(f, bs) {
      var n := f.span(bs);
      SpanPositive(f, bs);
      offsets, stop := ScanTiles(f, bs[n..]);
      TilesTake(f, bs, n, offsets, Scan(f, bs[n..]).frames, stop);
      TilesFit(f, bs[n..], offsets, Scan(f, bs[n..]).frames, stop);
      assert bs[n..][stop..] == bs[stop + n..];
      offsets, stop := [0] + Shifted(offsets, n), stop + n;
    } else {
      DroppedIffPassed(f, bs);
      NotStuckNonempty(f, bs);
      offsets, stop := ScanTiles(f, bs[1..]);
      TilesDrop(f, bs, offsets, Scan(f, bs[1..]).frames, stop);
      TilesFit(f, bs[1..], offsets, Scan(f, bs[1..]).frames, stop);
      assert bs[1..][stop..] == bs[stop + 1..];
      offsets, stop := Shifted(offsets, 1), stop + 1;
    }
  }

  lemma NotStuckNonempty(f: Framing, bs: seq<Byte>)
    requires Sound(f) && !Stuck(f, bs)
    ensures bs != []
  {
  }

  lemma SpanPositive(f: Framing, bs: seq<Byte>)
    requires Sound(f) && |bs| >= f.minimum
    ensures f.span(bs) >= f.minimum > 0
  {
  }

  lemma TilesFit(f: Framing, bs: seq<Byte>, offsets: seq<nat>, frames: seq<seq<Byte>>, stop: nat)
    requires Tiles(f, bs, offsets, frames, stop)
    ensures stop <= |bs|
  {
  }

  /** Soundness and completeness in one: the scan returns the one tiling of its input. */
  lemma ScanIffTiles(f: Framing, bs: seq<Byte>, frames: seq<seq<Byte>>, rest: seq<Byte>)
    requires Sound(f)
    ensures Scan(f, bs) == Parse(frames, rest) <==>
            exists offsets, stop: nat :: Tiles(f, bs, offsets, frames, stop) && rest == bs[stop..]
  {
    hide Scan, Sound, Stuck;
    if Scan(f, bs) == Parse(frames, rest) {
      var offsets, stop := ScanTiles(f, bs);
    }
    forall offsets, stop: nat | Tiles(f, bs, offsets, frames, stop) && rest == bs[stop..]
      ensures Scan(f, bs) == Parse(frames, rest)
    {
      TilingIsScan(f, bs, offsets, frames, stop);
    }
  }

  // ----- Arrival in pieces -----

  /** What is decided about the front of `a` stays decided when more bytes follow. */
  lemma DecisionIsLocal(f: Framing, a: seq<Byte>, b: seq<Byte>)
    requires Sound(f) && !Stuck(f, a)
    ensures !Stuck(f, a + b) && a != []
    ensures Taken(f, a + b) <==> Taken(f, a)
    ensures Taken(f, a) ==> f.span(a + b) == f.span(a) && 0 < f.span(a) <= |a|
    ensures Taken(f, a) ==> (a + b)[..f.span(a)] == a[..f.span(a)]
  {
    if f.starts(a) {
      assert (a + b)[..f.span(a)] == a[..f.span(a)];
    }
  }

  lemma DropAppend<T>(a: seq<T>, b: seq<T>, n: nat)
    requires n <= |a|
    ensures (a + b)[n..] == a[n..] + b
  {
  }

  /** Scanning a whole is scanning its first part and then the rest of that with what follows. */
  lemma {:induction false} ScanAppend(f: Framing, a: seq<Byte>, b: seq<Byte>)
    requires Sound(f)
    ensures var first := Scan(f, a); var second := Scan(f, first.rest + b);
      Scan(f, a + b) == Parse(first.frames + second.frames, second.rest)
    decreases |a|
  {
    hide Sound, Stuck, Taken;
    if !Stuck(f, a) {
      DecisionIsLocal(f, a, b);
      if Taken(f, a) {
        var n := f.span(a);
        DropAppend(a, b, n);
        ScanAppend(f, a[n..], b);
        Associative([a[..n]], Scan(f, a[n..]).frames, Scan(f, Scan(f, a).rest + b).frames);
      } else {
        DropAppend(a, b, 1);
        ScanAppend(f, a[1..], b);
      }
    }
  }

  lemma {:induction false} RestIsStuck(f: Framing, bs: seq<Byte>)
    requires Sound(f)
    ensures Stuck(f, Scan(f, bs).rest)
    ensures |Scan(f, bs).rest| <= |bs|
    ensures Scan(f, Scan(f, bs).rest) == Parse([], Scan(f, bs).rest)
    decreases |bs|
  {
    if Stuck(f, bs) {
    } else if Taken(f, bs) {
      RestIsStuck(f, bs[f.span(bs)..]);
    } else {
      RestIsStuck(f, bs[1..]);
    }
  }

  /** A receiver that scans after every chunk, keeping what it cannot yet decide. */
  ghost function Feed(f: Framing, buffer: seq<Byte>, chunks: seq<seq<Byte>>): Parse
    requires Sound(f)
    decreases |chunks|
  {
    if chunks == [] then Parse([], buffer)
    else
      var now := Scan(f, buffer + chunks[0]);
      var later := Feed(f, now.rest, chunks[1..]);
      Parse(now.frames + later.frames, later.rest)
  }

  /** However the bytes were cut into chunks, the receiver ends with the parse of all of them. */
  lemma {:induction false} ChunkingIsInvisible(f: Framing, buffer: seq<Byte>, chunks: seq<seq<Byte>>)
    requires Sound(f) && Stuck(f, buffer)
    ensures Feed(f, buffer, chunks) == Scan(f, buffer + Flatten(chunks))
    decreases |chunks|
  {
    hide Sound, Stuck, Scan;
    if chunks == [] {
      assert buffer + [] == buffer;
      StuckScan(f, buffer);
    } else {
      var whole := buffer + chunks[0];
      var now := Scan(f, whole);
      RestIsStuck(f, whole);
      ChunkingIsInvisible(f, now.rest, chunks[1..]);
      ScanAppend(f, whole, Flatten(chunks[1..]));
      assert whole + Flatten(chunks[1..]) == buffer + Flatten(chunks);
    }
  }

  lemma StuckScan(f: Framing, bs: seq<Byte>)
    requires Sound(f) && Stuck(f, bs)
    ensures Scan(f, bs) == Parse([], bs)
  {
  }

  // ----- Clean streams -----

  /** No sync header shows at any place of the junk, read on into what follows it. */
  ghost predicate Silent(f: Framing, junk: seq<Byte>, after: seq<Byte>) {
    forall p :: 0 <= p < |junk| ==> |junk[p..] + after| < f.minimum || !f.starts(junk[p..] + after)
  }

  /** Frames with junk before each and after the last. */
  function Weave(gaps: seq<seq<Byte>>, frames: seq<seq<Byte>>): seq<Byte>
    requires |gaps| == |frames| + 1
  {
    if frames == [] then gaps[0] else gaps[0] + (frames[0] + Weave(gaps[1..], frames[1..]))
  }

  /** Each gap is silent in front of what follows it, up to and including the stream's tail. */
  ghost predicate Clean(f: Framing, gaps: seq<seq<Byte>>, frames: seq<seq<Byte>>, tail: seq<Byte>)
    requires |gaps| == |frames| + 1
    decreases |frames|
  {
    if frames == [] then Silent(f, gaps[0], tail)
    else
      && f.accepts(frames[0])
      && Silent(f, gaps[0], frames[0] + (Weave(gaps[1..], frames[1..]) + tail))
      && Clean(f, gaps[1..], frames[1..], tail)
  }

  lemma {:induction false} SilenceIsDropped(f: Framing, junk: seq<Byte>, after: seq<Byte>)
    requires Sound(f) && Silent(f, junk, after)
    ensures Scan(f, junk + after).frames == Scan(f, after).frames
    decreases |junk|
  {
    if junk == [] {
      assert junk + after == after;
    } else {
      assert junk[0..] == junk;
      assert (junk + after)[1..] == junk[1..] + after;
      forall p | 0 <= p < |junk| - 1
        ensures junk[1..][p..] == junk[p + 1..]
      {
      }
      SilenceIsDropped(f, junk[1..], after);
    }
  }

  lemma ScanFrameFirst(f: Framing, frame: seq<Byte>, after: seq<Byte>)
    requires Sound(f) && f.accepts(frame)
    ensures Scan(f, frame + after) == Parse([frame] + Scan(f, after).frames, Scan(f, after).rest)
  {
    assert (frame + after)[..|frame|] == frame && (frame + after)[|frame|..] == after;
  }

  /** From a clean stream the scan returns exactly the frames that were put in. */
  lemma {:induction false} CleanScan(f: Framing, gaps: seq<seq<Byte>>, frames: seq<seq<Byte>>, tail: seq<Byte>)
    requires Sound(f) && |gaps| == |frames| + 1 && Clean(f, gaps, frames, tail)
    ensures Scan(f, Weave(gaps, frames) + tail).frames == frames + Scan(f, tail).frames
    decreases |frames|
  {
    hide Sound, Silent, Scan;
    if frames == [] {
      SilenceIsDropped(f, gaps[0], tail);
    } else {
      var later := Weave(gaps[1..], frames[1..]) + tail;
      CleanScan(f, gaps[1..], frames[1..], tail);
      ScanFrameFirst(f, frames[0], later);
      SilenceIsDropped(f, gaps[0], frames[0] + later);
      assert Weave(gaps, frames) + tail == gaps[0] + (frames[0] + later);
    }
  }

  /** A frame cut short yields nothing. */
  lemma CutFrame(f: Framing, frame: seq<Byte>, k: nat)
    requires Sound(f) && f.accepts(frame) && k < |frame|
    ensures Scan(f, frame[..k]) == Parse([], frame[..k])
  {
    assert frame[..k] + frame[k..] == frame;
  }

  ghost predicate AllAccepted(f: Framing, frames: seq<seq<Byte>>) {
    forall k :: 0 <= k < |frames| ==> f.accepts(frames[k])
  }

  lemma {:induction false} ScanFlattened(f: Framing, frames: seq<seq<Byte>>)
    requires Sound(f) && AllAccepted(f, frames)
    ensures Scan(f, Flatten(frames)) == Parse(frames, [])
    decreases |frames|
  {
    hide Sound;
    if frames == [] {
      NothingIsStuck(f);
    } else {
      ScanFrameFirst(f, frames[0], Flatten(frames[1..]));
      ScanFlattened(f, frames[1..]);
    }
  }

  lemma NothingIsStuck(f: Framing)
    requires Sound(f)
    ensures Stuck(f, [])
  {
  }

  lemma {:induction false} ScannedAreAccepted(f: Framing, bs: seq<Byte>)
    requires Sound(f)
    ensures AllAccepted(f, Scan(f, bs).frames)
    decreases |bs|
  {
    if Stuck(f, bs) {
    } else if Taken(f, bs) {
      ScannedAreAccepted(f, bs[f.span(bs)..]);
    } else {
      ScannedAreAccepted(f, bs[1..]);
    }
  }

  /** Flattening what a scan found and scanning again finds the same, with nothing left. */
  lemma {:induction false} ScanIdempotent(f: Framing, bs: seq<Byte>)
    requires Sound(f)
    ensures Scan(f, Flatten(Scan(f, bs).frames)) == Parse(Scan(f, bs).frames, [])
  {
    hide Sound, Scan;
    ScannedAreAccepted(f, bs);
    ScanFlattened(f, Scan(f, bs).frames);
  }

  // ----- A scanner that checks frames against one that only delimits them -----

  /** The two agree exactly when every delimited frame passes the check. */
  lemma {:induction false} AgreeIfAllPass(f: Framing, bs: seq<Byte>)
    requires Sound(f) && Sound(Delimited(f))
    requires AllAccepted(f, Scan(Delimited(f), bs).frames)
    ensures Scan(f, bs) == Scan(Delimited(f), bs)
    decreases |bs|
  {
    var d := Delimited(f);
    if !Stuck(d, bs) {
      if Taken(d, bs) {
        var n := d.span(bs);
        assert Scan(d, bs).frames[0] == bs[..n];
        assert Scan(d, bs[n..]).frames == Scan(d, bs).frames[1..];
        AgreeIfAllPass(f, bs[n..]);
      } else {
        if f.starts(bs) {
          assert bs[..f.span(bs)] + bs[f.span(bs)..] == bs;
        }
        AgreeIfAllPass(f, bs[1..]);
      }
    }
  }

  lemma AgreeIffAllPass(f: Framing, bs: seq<Byte>)
    requires Sound(f)
    ensures Sound(Delimited(f))
    ensures Scan(f, bs).frames == Scan(Delimited(f), bs).frames <==> AllAccepted(f, Scan(Delimited(f), bs).frames)
    ensures Scan(f, bs).frames == Scan(Delimited(f), bs).frames ==> Scan(f, bs).rest == Scan(Delimited(f), bs).rest
  {
    hide Sound, Scan, AllAccepted;
    DelimitedSound(f);
    ScannedAreAccepted(f, bs);
    if AllAccepted(f, Scan(Delimited(f), bs).frames) {
      AgreeIfAllPass(f, bs);
    }
  }

  /** On frames laid end to end, delimiting without checking finds the same frames. */
  lemma {:induction false} DelimitFlattened(f: Framing, frames: seq<seq<Byte>>)
    requires Sound(f) && AllAccepted(f, frames)
    ensures Sound(Delimited(f))
    ensures Scan(Delimited(f), Flatten(frames)) == Parse(frames, [])
  {
    DelimitedSound(f);
    ScanFlattened(Delimited(f), frames);
  }
}
