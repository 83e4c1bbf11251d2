/** Command and response over a transport that may time out, fail, or answer anything. */
module NavsparkSession {
  import opened Bytes

  /** One answer of `read_frame`. */
  datatype Event = Response(frame: seq<Byte>) | TimedOut | ReadError

  /** What the caller's classifier says about a response; `Reject` is its error return. */
  datatype Verdict<+R> = Continue | Complete(value: R) | Retry | Reject

  datatype SessionResult<+R> =
    | Completed(value: R)
    | Rejected
    | ReadFailed
    | WriteFailed
    | Exhausted
    | ExitedWithoutTerminal

  /** A classifier may keep state, so its verdict depends on every response heard so far. */
  type Classifier<R> = seq<seq<Byte>> -> Verdict<R>

  // ----- What the events of a call mean, independently of the loops -----

  /** When the script is used up the transport times out. */
  function At(events: seq<Event>, i: nat): Event {
    if i < |events| then events[i] else TimedOut
  }

  function HeardTo(events: seq<Event>, k: nat): seq<seq<Byte>> {
    if k == 0 then []
    else HeardTo(events, k - 1) + (if At(events, k - 1).Response? then [At(events, k - 1).frame] else [])
  }

  /** An event leaves the attempt running, ends it, or ends the call. */
  datatype Effect<+R> = Stay | EndAttempt | Stop(result: SessionResult<R>)

  function EffectOf<R>(classify: Classifier<R>, events: seq<Event>, i: nat): Effect<R> {
    match At(events, i)
    case TimedOut => EndAttempt
    case ReadError => Stop(ReadFailed)
    case Response(frame) =>
      match classify(HeardTo(events, i) + [frame])
      case Continue => Stay
      case Complete(value) => Stop(Completed(value))
      case Retry => EndAttempt
      case Reject => Stop(Rejected)
  }

  /** How many attempts the first `k` events ended. */
  function AttemptsTo<R>(classify: Classifier<R>, events: seq<Event>, k: nat): nat {
    if k == 0 then 0
    else AttemptsTo(classify, events, k - 1) + (if EffectOf(classify, events, k - 1).EndAttempt? then 1 else 0)
  }

  ghost predicate RunsTo<R>(classify: Classifier<R>, events: seq<Event>, k: nat) {
    forall i :: 0 <= i < k ==> !EffectOf(classify, events, i).Stop?
  }

  predicate WriteSucceeds(writes: seq<bool>, i: nat) {
    i < |writes| ==> writes[i]
  }

  /** The writes that begin the attempts up to the `n`-th succeed. */
  ghost predicate WritesSucceed(writes: seq<bool>, n: nat) {
    forall i :: 0 <= i < n ==> WriteSucceeds(writes, i)
  }

  /**
   * After reading exactly `k` events and writing the command `sent` times, the call returns `r`.
   */
  ghost predicate Returns<R>(
    classify: Classifier<R>, events: seq<Event>, writes: seq<bool>, maxRetries: nat,
    k: nat, sent: nat, r: SessionResult<R>)
  {
    match r
    case Exhausted =>
      && k > 0 && RunsTo(classify, events, k)
      && EffectOf(classify, events, k - 1) == EndAttempt
      && AttemptsTo(classify, events, k) == sent == maxRetries + 1
      && WritesSucceed(writes, sent)
    case WriteFailed =>
      && RunsTo(classify, events, k)
      && (k > 0 ==> EffectOf(classify, events, k - 1) == EndAttempt)
      && AttemptsTo(classify, events, k) == sent <= maxRetries
      && WritesSucceed(writes, sent) && !WriteSucceeds(writes, sent)
    case _ =>
      && k > 0 && RunsTo(classify, events, k - 1)
      && EffectOf(classify, events, k - 1) == Stop(r)
      && AttemptsTo(classify, events, k) + 1 == sent <= maxRetries + 1
      && WritesSucceed(writes, sent)
  }

  // ----- The session -----

  /** The transport: what has been written, and the answers it will still give. */
  class Transport {
    var written: seq<seq<Byte>>
    var writes: seq<bool>
    var responses: seq<Event>

    constructor (writes: seq<bool>, responses: seq<Event>)
      ensures this.writes == writes && this.responses == responses && written == []
    {
      this.writes := writes;
      this.responses := responses;
      written := [];
    }

    method WriteFrame(frame: seq<Byte>) returns (ok: bool)
      modifies this`written, this`writes
      ensures ok == WriteSucceeds(old(writes), 0)
      ensures writes == if old(writes) == [] then [] else old(writes)[1..]
      ensures written == if ok then old(written) + [frame] else old(written)
    {
      ok := true;
      if writes != [] {
        ok := writes[0];
        writes := writes[1..];
      }
      if ok {
        written := written + [frame];
      }
    }

    method ReadFrame() returns (event: Event)
      modifies this`responses
      ensures event == At(old(responses), 0)
      ensures responses == if old(responses) == [] then [] else old(responses)[1..]
    {
      event := TimedOut;
      if responses != [] {
        event := responses[0];
        responses := responses[1..];
      }
    }
  }

  function Repeat<T>(x: T, n: nat): (s: seq<T>)
    ensures |s| == n
    ensures forall i :: 0 <= i < n ==> s[i] == x
  {
    seq(n, _ => x)
  }

  function Behind<T>(s: seq<T>, k: nat): seq<T> {
    if k < |s| then s[k..] else []
  }

  class NavsparkSession {
    const transport: Transport
    const maxRetries: nat

    constructor (transport: Transport, maxRetries: nat)
      ensures this.transport == transport && this.maxRetries == maxRetries
    {
      this.transport := transport;
      this.maxRetries := maxRetries;
    }

    /** The inner loop of `send_command_and_wait`: read until the attempt or the call ends. */
    method Await<R>(classify: Classifier<R>, before: seq<seq<Byte>>, ghost events: seq<Event>, ghost from: nat)
      returns (end: Effect<R>, heard: seq<seq<Byte>>, ghost k: nat)
      requires transport.responses == Behind(events, from)
      requires before == HeardTo(events, from) && RunsTo(classify, events, from)
      modifies transport`responses
      ensures from < k && RunsTo(classify, events, k - 1)
      ensures end == EffectOf(classify, events, k - 1) && !end.Stay?
      ensures end.Stop? ==> end.result.Completed? || end.result.Rejected? || end.result.ReadFailed?
      ensures AttemptsTo(classify, events, k - 1) == AttemptsTo(classify, events, from)
      ensures heard == HeardTo(events, k)
      ensures transport.responses == Behind(events, k)
    {
      hide AttemptsTo, HeardTo;
      heard, k := before, from;
      while true
        invariant from <= k && RunsTo(classify, events, k)
        invariant AttemptsTo(classify, events, k) == AttemptsTo(classify, events, from)
        invariant heard == HeardTo(events, k)
        invariant transport.responses == Behind(events, k)
        decreases |transport.responses|
      {
        var event := transport.ReadFrame();
        BehindNext(events, k);
        OneMore(classify, events, k);
        k := k + 1;
        match event
        case Response(response) =>
          heard := heard + [response];
          match classify(heard) {
            case Continue => continue;
            case Complete(value) => return Stop(Completed(value)), heard, k;
            case Retry => return EndAttempt, heard, k;
            case Reject => return Stop(Rejected), heard, k;
          }
        case TimedOut =>
          return EndAttempt, heard, k;
        case ReadError =>
          return Stop(ReadFailed), heard, k;
      }
    }

    /** `send_command_and_wait` */
    method SendCommandAndWait<R>(frame: seq<Byte>, classify: Classifier<R>)
      returns (r: SessionResult<R>, ghost k: nat, ghost sent: nat)
      modifies transport
      ensures Returns(classify, old(transport.responses), old(transport.writes), maxRetries, k, sent, r)
      ensures transport.written == old(transport.written) + Repeat(frame, sent)
      ensures transport.responses == Behind(old(transport.responses), k)
    {
      hide AttemptsTo, HeardTo, EffectOf, Returns, Attempted, WriteSucceeds;
      ghost var events, writes, written := transport.responses, transport.writes, transport.written;
      var heard: seq<seq<Byte>> := [];
      k, sent := 0, 0;
      Nothing(classify, events, writes);
      for attempt := 0 to maxRetries + 1
        invariant sent == attempt && Attempted(classify, events, writes, k, sent)
        invariant heard == HeardTo(events, k)
        invariant transport.writes == Behind(writes, sent)
        invariant transport.written == written + Repeat(frame, sent)
        invariant transport.responses == Behind(events, k)
        invariant attempt <= maxRetries
      {
        ghost var start := k;
        var ok := transport.WriteFrame(frame);
        BehindNextBool(writes, sent);
        if !ok {
          FailsToWrite(classify, events, writes, maxRetries, k, sent);
          return WriteFailed, k, sent;
        }
        sent := sent + 1;
        var end;
        Running(classify, events, writes, k, attempt);
        end, heard, k := Await(classify, heard, events, k);
        AttemptEnds(classify, events, writes, maxRetries, start, k, attempt);
        if end.Stop? {
          return end.result, k, sent;
        }
        if attempt == maxRetries {
          return Exhausted, k, sent;
        }
      }
      assert false;
    }
  }

  // ----- Between attempts -----

  /** `n` attempts have been made, each with a successful write, and reading `k` events has ended the last. */
  ghost predicate Attempted<R>(classify: Classifier<R>, events: seq<Event>, writes: seq<bool>, k: nat, n: nat) {
    && AttemptsTo(classify, events, k) == n
    && RunsTo(classify, events, k)
    && (k > 0 ==> EffectOf(classify, events, k - 1) == EndAttempt)
    && WritesSucceed(writes, n)
  }

  lemma Running<R>(classify: Classifier<R>, events: seq<Event>, writes: seq<bool>, k: nat, n: nat)
    requires Attempted(classify, events, writes, k, n)
    ensures RunsTo(classify, events, k)
  {
  }

  lemma FailsToWrite<R>(
    classify: Classifier<R>, events: seq<Event>, writes: seq<bool>, maxRetries: nat, k: nat, n: nat)
    requires Attempted(classify, events, writes, k, n) && n <= maxRetries && !WriteSucceeds(writes, n)
    ensures Returns(classify, events, writes, maxRetries, k, n, WriteFailed)
  {
    hide AttemptsTo, EffectOf, WriteSucceeds;
  }

  /** The attempt that began after `start` events ends with the `k`-th: it ends the call, or one more is made. */
  lemma AttemptEnds<R>(
    classify: Classifier<R>, events: seq<Event>, writes: seq<bool>, maxRetries: nat, start: nat, k: nat, n: nat)
    requires Attempted(classify, events, writes, start, n) && WriteSucceeds(writes, n) && n <= maxRetries
    requires start < k && RunsTo(classify, events, k - 1)
    requires AttemptsTo(classify, events, k - 1) == AttemptsTo(classify, events, start)
    requires !EffectOf(classify, events, k - 1).Stay?
    ensures var end := EffectOf(classify, events, k - 1);
      && (end.Stop? && (end.result.Completed? || end.result.Rejected? || end.result.ReadFailed?) ==>
            Returns(classify, events, writes, maxRetries, k, n + 1, end.result))
      && (end.EndAttempt? ==> Attempted(classify, events, writes, k, n + 1))
      && (end.EndAttempt? && n == maxRetries ==> Returns(classify, events, writes, maxRetries, k, n + 1, Exhausted))
  {
    hide AttemptsTo, EffectOf, WriteSucceeds;
    OneMore(classify, events, k - 1);
  }

  lemma Nothing<R>(classify: Classifier<R>, events: seq<Event>, writes: seq<bool>)
    ensures Attempted(classify, events, writes, 0, 0) && HeardTo(events, 0) == []
    ensures Behind(events, 0) == events
  {
  }

  lemma BehindNext(events: seq<Event>, k: nat)
    ensures At(Behind(events, k), 0) == At(events, k)
    ensures Behind(events, k + 1) == if Behind(events, k) == [] then [] else Behind(events, k)[1..]
  {
  }

  lemma BehindNextBool(writes: seq<bool>, k: nat)
    ensures WriteSucceeds(Behind(writes, k), 0) == WriteSucceeds(writes, k)
    ensures Behind(writes, k + 1) == if Behind(writes, k) == [] then [] else Behind(writes, k)[1..]
  {
  }

  lemma OneMore<R>(classify: Classifier<R>, events: seq<Event>, k: nat)
    ensures AttemptsTo(classify, events, k + 1)
         == AttemptsTo(classify, events, k) + (if EffectOf(classify, events, k).EndAttempt? then 1 else 0)
    ensures HeardTo(events, k + 1)
         == HeardTo(events, k) + (if At(events, k).Response? then [At(events, k).frame] else [])
  {
  }

  // ----- What every call does -----

  lemma {:induction false} AttemptsGrow<R>(classify: Classifier<R>, events: seq<Event>, i: nat, j: nat)
    requires i <= j
    ensures AttemptsTo(classify, events, i) <= AttemptsTo(classify, events, j)
    ensures i < j && EffectOf(classify, events, i).EndAttempt? ==>
              AttemptsTo(classify, events, i) < AttemptsTo(classify, events, j)
    decreases j
  {
    if i < j {
      AttemptsGrow(classify, events, i, j - 1);
      OneMore(classify, events, j - 1);
    }
  }

  /** Neither of two descriptions of one call can end it before the other does. */
  lemma NotEarlier<R>(
    classify: Classifier<R>, events: seq<Event>, writes: seq<bool>, maxRetries: nat,
    k: nat, sent: nat, r: SessionResult<R>, k': nat, sent': nat, r': SessionResult<R>)
    requires Returns(classify, events, writes, maxRetries, k, sent, r)
    requires Returns(classify, events, writes, maxRetries, k', sent', r')
    ensures !(k < k')
  {
    hide AttemptsTo, EffectOf, WriteSucceeds;
    if k < k' {
      if k > 0 {
        OneMore(classify, events, k - 1);
        AttemptsGrow(classify, events, k, k' - 1);
      }
      OneMore(classify, events, k' - 1);
      AttemptsGrow(classify, events, k, k' - 1);
    }
  }

  /** The outcome is determined: one result, one number of reads, one number of writes. */
  lemma OutcomeIsDetermined<R>(
    classify: Classifier<R>, events: seq<Event>, writes: seq<bool>, maxRetries: nat,
    k: nat, sent: nat, r: SessionResult<R>, k': nat, sent': nat, r': SessionResult<R>)
    requires Returns(classify, events, writes, maxRetries, k, sent, r)
    requires Returns(classify, events, writes, maxRetries, k', sent', r')
    ensures k == k' && sent == sent' && r == r'
  {
    hide AttemptsTo, EffectOf, WriteSucceeds;
    NotEarlier(classify, events, writes, maxRetries, k, sent, r, k', sent', r');
    NotEarlier(classify, events, writes, maxRetries, k', sent', r', k, sent, r);
    if k > 0 {
      OneMore(classify, events, k - 1);
    }
  }

  // ----- The same in terms of the events and the classifier alone -----

  /** The `i`-th event read is a response the classifier answers with this verdict. */
  ghost predicate Judged<R>(classify: Classifier<R>, events: seq<Event>, i: nat, verdict: Verdict<R>) {
    At(events, i).Response? && classify(HeardTo(events, i + 1)) == verdict
  }

  /** The `i`-th event read is a time-out or a response that asks for another attempt. */
  ghost predicate Unanswered<R>(classify: Classifier<R>, events: seq<Event>, i: nat) {
    At(events, i) == TimedOut || Judged(classify, events, i, Retry)
  }

  ghost function UnansweredTo<R>(classify: Classifier<R>, events: seq<Event>, k: nat): nat {
    if k == 0 then 0
    else UnansweredTo(classify, events, k - 1) + (if Unanswered(classify, events, k - 1) then 1 else 0)
  }

  lemma EffectMeans<R>(classify: Classifier<R>, events: seq<Event>, i: nat)
    ensures var e := EffectOf(classify, events, i);
      && (e == Stay <==> Judged(classify, events, i, Continue))
      && (e == EndAttempt <==> Unanswered(classify, events, i))
      && (e == Stop(ReadFailed) <==> At(events, i) == ReadError)
      && (e == Stop(Rejected) <==> Judged(classify, events, i, Reject))
      && (forall value :: e == Stop(Completed(value)) <==> Judged(classify, events, i, Complete(value)))
      && (e.Stop? ==> e.result.ReadFailed? || e.result.Rejected? || e.result.Completed?)
  {
    OneMore(classify, events, i);
  }

  lemma {:induction false} AttemptsAreUnanswered<R>(classify: Classifier<R>, events: seq<Event>, k: nat)
    ensures AttemptsTo(classify, events, k) == UnansweredTo(classify, events, k)
  {
    hide EffectOf, Unanswered;
    if k > 0 {
      EffectMeans(classify, events, k - 1);
      AttemptsAreUnanswered(classify, events, k - 1);
    }
  }

  /**
   * What ends a call is its last event: a read error, a rejection or a completion ends it at once, and
   * `maxRetries + 1` unanswered attempts exhaust it. All events before the last let the call go on.
   */
  lemma ResultMeans<R>(
    classify: Classifier<R>, events: seq<Event>, writes: seq<bool>, maxRetries: nat,
    k: nat, sent: nat, r: SessionResult<R>)
    requires Returns(classify, events, writes, maxRetries, k, sent, r)
    ensures forall i :: 0 <= i < k - 1 ==> Judged(classify, events, i, Continue) || Unanswered(classify, events, i)
    ensures r == ReadFailed <==> k > 0 && At(events, k - 1) == ReadError
    ensures r == Rejected <==> k > 0 && Judged(classify, events, k - 1, Reject)
    ensures forall value :: r == Completed(value) <==> k > 0 && Judged(classify, events, k - 1, Complete(value))
    ensures r == Exhausted <==>
            k > 0 && Unanswered(classify, events, k - 1) && UnansweredTo(classify, events, k) == maxRetries + 1
    ensures r == WriteFailed <==>
            && (k == 0 || Unanswered(classify, events, k - 1))
            && UnansweredTo(classify, events, k) == sent <= maxRetries
            && !WriteSucceeds(writes, sent)
    ensures sent == UnansweredTo(classify, events, k)
                    + (if k > 0 && !Unanswered(classify, events, k - 1) then 1 else 0)
  {
    hide AttemptsTo, EffectOf, WriteSucceeds, Judged, Unanswered, UnansweredTo;
    AttemptsAreUnanswered(classify, events, k);
    forall i | 0 <= i < k
      ensures !EffectOf(classify, events, i).Stop? ==>
                Judged(classify, events, i, Continue) || Unanswered(classify, events, i)
    {
      EffectMeans(classify, events, i);
    }
    if k > 0 {
      EffectMeans(classify, events, k - 1);
      OneMore(classify, events, k - 1);
    }
  }

  /**
   * The accounts of a call: at most `maxRetries + 1` writes; a value only from the last response
   * read; never the error behind the loop.
   */
  lemma SessionAccounts<R>(
    classify: Classifier<R>, events: seq<Event>, writes: seq<bool>, maxRetries: nat,
    k: nat, sent: nat, r: SessionResult<R>)
    requires Returns(classify, events, writes, maxRetries, k, sent, r)
    ensures sent <= maxRetries + 1
    ensures r != ExitedWithoutTerminal
    ensures r.Completed? ==>
              0 < k <= |events| && events[k - 1].Response? && classify(HeardTo(events, k)) == Complete(r.value)
    ensures !r.WriteFailed? ==> sent == AttemptsTo(classify, events, k) + (if r.Exhausted? then 0 else 1)
  {
    hide AttemptsTo;
    if k > 0 {
      OneMore(classify, events, k - 1);
    }
  }

  /** When every attempt's write succeeds, exhaustion is reported exactly when every attempt ended unanswered. */
  lemma ExhaustedIff<R>(
    classify: Classifier<R>, events: seq<Event>, writes: seq<bool>, maxRetries: nat,
    k: nat, sent: nat, r: SessionResult<R>)
    requires Returns(classify, events, writes, maxRetries, k, sent, r) && WritesSucceed(writes, maxRetries + 1)
    ensures r == Exhausted <==>
            exists n: nat ::
              && UnansweredTo(classify, events, n) == maxRetries + 1
              && forall i :: 0 <= i < n ==> Judged(classify, events, i, Continue) || Unanswered(classify, events, i)
  {
    hide AttemptsTo, EffectOf, WriteSucceeds, Judged, Unanswered, UnansweredTo;
    if r == Exhausted {
      AttemptsAreUnanswered(classify, events, k);
      RunsOn(classify, events, k);
    }
    forall n: nat | UnansweredTo(classify, events, n) == maxRetries + 1
                   
                    && forall i :: 0 <= i < n ==>
                         Judged(classify, events, i, Continue) || Unanswered(classify, events, i)
      ensures r == Exhausted
    {
      AttemptsAreUnanswered(classify, events, n);
      RunsOn(classify, events, n);
      if k > 0 {
        OneMore(classify, events, k - 1);
        if n < k {
          AttemptsGrow(classify, events, n, k);
        } else {
          assert !EffectOf(classify, events, k - 1).Stop?;
        }
      }
    }
  }

  lemma RunsOn<R>(classify: Classifier<R>, events: seq<Event>, k: nat)
    ensures RunsTo(classify, events, k) <==>
            forall i :: 0 <= i < k ==> Judged(classify, events, i, Continue) || Unanswered(classify, events, i)
  {
    hide EffectOf, Judged, Unanswered;
    forall i | 0 <= i < k
      ensures !EffectOf(classify, events, i).Stop? <==>
              Judged(classify, events, i, Continue) || Unanswered(classify, events, i)
    {
      EffectMeans(classify, events, i);
    }
  }
}
