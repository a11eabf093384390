/**
 What a Responses stream must say, event by event (`processSSE` in
 internal/api/sse_responses.go), as a function of the last model reported and the
 last failure remembered; the runs of the loop are exactly this.
 */
module ResponsesReference {

  import opened PatchTypes
  import opened Streams
  import opened ResponsesStream

  /** A close reports the last failure, if there was one. */
  function Closed(deferred: Option<ApiError>): seq<Out> {
    match deferred
    case Some(err) => [Failed(err)]
    case None => [Failed(StreamFailure("stream closed before response.completed"))]
  }

  /** A model is reported when it changes, and verifications whenever there are any. */
  function Reports(reported: string, verifications: seq<string>, model: string): seq<Out> {
    (if reported == "" || reported == model then [] else [ServerModel(reported)])
    + (if verifications == [] then [] else [ModelVerifications(verifications)])
  }

  /** The results for these events, after a model was reported and a failure was remembered. */
  function Said(decode: Decoder, events: seq<SseResult>, model: string, deferred: Option<ApiError>): seq<Out>
    decreases |events|, 0
  {
    if events == [] then Closed(deferred)
    else
      match events[0]
      case Failure(StreamError(Timeout, _)) => [Failed(StreamFailure("idle timeout waiting for SSE"))]
      case Failure(StreamError(Stream, message)) =>
        if message == "stream closed before completion" then Closed(deferred) else [Failed(StreamFailure(message))]
      case Event(data) =>
        match decode(data)
        case None => Said(decode, events[1..], model, deferred)
        case Some(Raw(reported, verifications, outcome)) =>
          Reports(reported, verifications, model)
          + AfterOutcome(decode, events[1..], if reported == "" then model else reported, deferred, outcome)
  }

  /** A completion ends the stream, another event is forwarded, and a failure is remembered. */
  function AfterOutcome(decode: Decoder, rest: seq<SseResult>, model: string, deferred: Option<ApiError>, outcome: Outcome): seq<Out>
    decreases |rest|, 1
  {
    match outcome
    case Forward(Completed(id)) => [Forwarded(Completed(id))]
    case Forward(Other(payload)) => [Forwarded(Other(payload))] + Said(decode, rest, model, deferred)
    case Remember(err) => Said(decode, rest, model, Some(err))
    case Ignore => Said(decode, rest, model, deferred)
  }

  // ----- The loop says it

  /** What is left to say after `i` events that did not end the stream. */
  function Left(decode: Decoder, events: seq<SseResult>, i: nat): seq<Out>
    requires i <= |events|
  {
    var raws := Heard(Reads(decode), events[..i]);
    Said(decode, events[i..], LastModel(raws), Deferred(raws))
  }

  lemma EndSaid(decode: Decoder, events: seq<SseResult>, i: nat)
    requires EndsAt(Ends(decode), events, i) && !CompletesAt(decode, events, i)
    ensures Run(decode, events) == SoFar(decode, events, i) + Left(decode, events, i)
  {
    RunAt(decode, events, i);
    assert i < |events| ==> events[i..][0] == events[i] && events[i].Failure?;
  }

  /** An event that does not decode says nothing. */
  lemma NothingHeard(decode: Decoder, events: seq<SseResult>, i: nat)
    requires i < |events| && events[i].Event? && decode(events[i].data).None?
    ensures SoFar(decode, events, i) + Left(decode, events, i) == SoFar(decode, events, i + 1) + Left(decode, events, i + 1)
  {
    HeardStep(Reads(decode), events, i);
    assert Heard(Reads(decode), events[..i + 1]) == Heard(Reads(decode), events[..i]);
    assert events[i..][1..] == events[i + 1..] && events[i..][0] == events[i];
  }

  /** The loop's variables after one more event. */
  lemma VariablesAfter(before: seq<Raw>, r: Raw)
    ensures Deferred(before + [r]) == if r.outcome.Remember? then Some(r.outcome.err) else Deferred(before)
    ensures LastModel(before + [r]) == if r.model != "" then r.model else LastModel(before)
  {
    HoldsAppend(before, r, Deferred(before), LastModel(before));
  }

  lemma Associates(a: seq<Out>, b: seq<Out>, c: seq<Out>)
    ensures (a + b) + c == a + (b + c)
  {
  }

  lemma EmissionIs(before: seq<Raw>, r: Raw)
    ensures Emission(before, r) ==
            Reports(r.model, r.verifications, LastModel(before)) + if r.outcome.Forward? then [Forwarded(r.outcome.event)] else []
  {
  }

  /** A forwarded event, and then what follows it. */
  lemma ForwardThen(decode: Decoder, before: seq<Raw>, r: Raw, rest: seq<SseResult>, model: string, head: seq<Out>, more: seq<Out>)
    requires head == Reports(r.model, r.verifications, LastModel(before)) && r.outcome.Forward?
    requires more == if IsCompletion(r) then [] else Said(decode, rest, model, Deferred(before))
    ensures head + AfterOutcome(decode, rest, model, Deferred(before), r.outcome) == Emission(before, r) + more
  {
    EmissionIs(before, r);
    Associates(head, [Forwarded(r.outcome.event)], more);
    assert AfterOutcome(decode, rest, model, Deferred(before), r.outcome) == [Forwarded(r.outcome.event)] + more;
  }

  /** What an event emits, and then what follows its outcome. */
  lemma EmissionThen(decode: Decoder, before: seq<Raw>, r: Raw, rest: seq<SseResult>, model: string, head: seq<Out>, more: seq<Out>)
    requires head == Reports(r.model, r.verifications, LastModel(before))
    requires more == if IsCompletion(r) then []
                     else Said(decode, rest, model, if r.outcome.Remember? then Some(r.outcome.err) else Deferred(before))
    ensures head + AfterOutcome(decode, rest, model, Deferred(before), r.outcome) == Emission(before, r) + more
  {
    if r.outcome.Forward? {
      ForwardThen(decode, before, r, rest, model, head, more);
    } else {
      EmissionIs(before, r);
      assert head + [] == head;
    }
  }

  /** What is left to say before and after an event. */
  lemma EventSaid(decode: Decoder, events: seq<SseResult>, i: nat, r: Raw)
    requires i < |events| && events[i].Event? && decode(events[i].data) == Some(r)
    ensures Left(decode, events, i) ==
            Emission(Heard(Reads(decode), events[..i]), r) + if IsCompletion(r) then [] else Left(decode, events, i + 1)
  {
    var before := Heard(Reads(decode), events[..i]);
    HeardStep(Reads(decode), events, i);
    VariablesAfter(before, r);
    EmissionThen(decode, before, r, events[i + 1..], if r.model == "" then LastModel(before) else r.model,
                 Reports(r.model, r.verifications, LastModel(before)), if IsCompletion(r) then [] else Left(decode, events, i + 1));
    assert events[i..][1..] == events[i + 1..] && events[i..][0] == events[i];
  }

  lemma EventRun(decode: Decoder, events: seq<SseResult>, i: nat, r: Raw)
    requires i < |events| && events[i].Event? && decode(events[i].data) == Some(r)
    ensures SoFar(decode, events, i) + Left(decode, events, i) ==
            SoFar(decode, events, i + 1) + if IsCompletion(r) then [] else Left(decode, events, i + 1)
  {
    EventSaid(decode, events, i, r);
    SoFarStep(decode, events, i);
    Associates(SoFar(decode, events, i), Emission(Heard(Reads(decode), events[..i]), r),
               if IsCompletion(r) then [] else Left(decode, events, i + 1));
  }

  lemma {:induction false} SaidFrom(decode: Decoder, events: seq<SseResult>, i: nat)
    requires i <= |events| && NoneEnds(Ends(decode), events, i)
    ensures Run(decode, events) == SoFar(decode, events, i) + Left(decode, events, i)
    decreases |events| - i
  {
    if i == |events| || events[i].Failure? {
      EndSaid(decode, events, i);
    } else if Completes(decode, events[i]) {
      EventRun(decode, events, i, RawOf(decode, events[i]).value);
      RunAt(decode, events, i);
    } else {
      NoneEndsStep(Ends(decode), events, i);
      SaidFrom(decode, events, i + 1);
      if RawOf(decode, events[i]).Some? {
        EventRun(decode, events, i, RawOf(decode, events[i]).value);
      } else {
        NothingHeard(decode, events, i);
      }
    }
  }

  /** Every run is exactly what the events say. */
  lemma RunIsSaid(decode: Decoder, events: seq<SseResult>)
    ensures Run(decode, events) == Said(decode, events, "", None)
  {
    SaidFrom(decode, events, 0);
    assert events[..0] == [] && events[0..] == events;
  }
}
