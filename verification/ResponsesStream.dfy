/**
 The loop over a Responses event stream: `processSSE`
 (internal/api/sse_responses.go). The classification of one event into an
 event to forward, an error to remember, or nothing is a parameter.
 */
module ResponsesStream {

  import opened PatchTypes
  import opened Streams

  datatype ApiError = StreamFailure(message: string) | Classified(kind: string, message: string)

  datatype ResponseEvent = Completed(responseId: string) | Other(payload: string)

  datatype Outcome = Forward(event: ResponseEvent) | Remember(err: ApiError) | Ignore

  /** One decoded event: the server model it reports, if any, its verifications, and its outcome. */
  datatype Raw = Raw(model: string, verifications: seq<string>, outcome: Outcome)

  /** The payload decoder; a payload it rejects is skipped. */
  type Decoder = string -> Option<Raw>

  datatype Out =
    | ServerModel(model: string)
    | ModelVerifications(verifications: seq<string>)
    | Forwarded(event: ResponseEvent)
    | Failed(err: ApiError)

  // ----- What the events say

  function RawOf(decode: Decoder, e: SseResult): Option<Raw> {
    if e.Failure? then None else decode(e.data)
  }

  function Reads(decode: Decoder): SseResult -> Option<Raw> {
    e => RawOf(decode, e)
  }

  predicate IsCompletion(r: Raw) {
    r.outcome.Forward? && r.outcome.event.Completed?
  }

  function ReportedModel(r: Raw): Option<string> {
    if r.model == "" then None else Some(r.model)
  }

  function ReportedVerifications(r: Raw): Option<seq<string>> {
    if r.verifications == [] then None else Some(r.verifications)
  }

  function ForwardedEvent(r: Raw): Option<ResponseEvent> {
    if r.outcome.Forward? then Some(r.outcome.event) else None
  }

  function RememberedError(r: Raw): Option<ApiError> {
    if r.outcome.Remember? then Some(r.outcome.err) else None
  }

  function LastOf<T>(s: seq<T>): Option<T> {
    if s == [] then None else Some(s[|s| - 1])
  }

  /** The last failure event. */
  function Deferred(raws: seq<Raw>): Option<ApiError> {
    LastOf(Pick(raws, RememberedError))
  }

  /** The model reported last. */
  function LastModel(raws: seq<Raw>): string {
    LastOf(Pick(raws, ReportedModel)).GetOr("")
  }

  // ----- The run

  /** What an event emits after others. */
  function Emission(before: seq<Raw>, r: Raw): seq<Out> {
    (if r.model != "" && r.model != LastModel(before) then [ServerModel(r.model)] else [])
    + (if r.verifications != [] then [ModelVerifications(r.verifications)] else [])
    + (if r.outcome.Forward? then [Forwarded(r.outcome.event)] else [])
  }

  function Emissions(raws: seq<Raw>): seq<Out> {
    if raws == [] then []
    else
      var n := |raws| - 1;
      Emissions(raws[..n]) + Emission(raws[..n], raws[n])
  }

  predicate Completes(decode: Decoder, e: SseResult) {
    RawOf(decode, e).Some? && IsCompletion(RawOf(decode, e).value)
  }

  /** An error or a completion. */
  function Ends(decode: Decoder): Ending {
    (e: SseResult) => e.Failure? || Completes(decode, e)
  }

  predicate CompletesAt(decode: Decoder, events: seq<SseResult>, k: nat)
    requires k <= |events|
  {
    k < |events| && Completes(decode, events[k])
  }

  /** The error that ends a run at its `k`th event. */
  function EndError(decode: Decoder, events: seq<SseResult>, k: nat): ApiError
    requires k <= |events|
  {
    if ClosesAt(events, k) then Deferred(Heard(Reads(decode), events[..k])).GetOr(StreamFailure(CLOSED_MESSAGE))
    else if events[k].Failure? && events[k].err.kind == Timeout then StreamFailure(IDLE_MESSAGE)
    else if events[k].Failure? then StreamFailure(events[k].err.message)
    else StreamFailure("")
  }

  function SoFar(decode: Decoder, events: seq<SseResult>, i: nat): seq<Out>
    requires i <= |events|
  {
    Emissions(Heard(Reads(decode), events[..i]))
  }

  /** How many events a run hears: those before its end, and the completion. */
  function HeardLength(decode: Decoder, events: seq<SseResult>): (m: nat)
    ensures m <= |events|
  {
    var k := EndIndex(Ends(decode), events);
    if CompletesAt(decode, events, k) then k + 1 else k
  }

  function HeardByRun(decode: Decoder, events: seq<SseResult>): seq<Raw> {
    Heard(Reads(decode), events[..HeardLength(decode, events)])
  }

  function Closing(decode: Decoder, events: seq<SseResult>): seq<Out> {
    var k := EndIndex(Ends(decode), events);
    if CompletesAt(decode, events, k) then [] else [Failed(EndError(decode, events, k))]
  }

  /** Everything an uncancelled run emits. */
  function Run(decode: Decoder, events: seq<SseResult>): seq<Out> {
    SoFar(decode, events, HeardLength(decode, events)) + Closing(decode, events)
  }

  // ----- One more event

  /** What the `i`th event emits. */
  function EventEmission(decode: Decoder, events: seq<SseResult>, i: nat): seq<Out>
    requires i < |events|
  {
    match RawOf(decode, events[i])
    case Some(r) => Emission(Heard(Reads(decode), events[..i]), r)
    case None => []
  }

  lemma SoFarStep(decode: Decoder, events: seq<SseResult>, i: nat)
    requires i < |events|
    ensures SoFar(decode, events, i + 1) == SoFar(decode, events, i) + EventEmission(decode, events, i)
  {
    HeardStep(Reads(decode), events, i);
    var before, r := Heard(Reads(decode), events[..i]), RawOf(decode, events[i]);
    if r.Some? {
      EmissionsAppend(before, r.value);
    } else {
      assert Heard(Reads(decode), events[..i + 1]) == before;
    }
  }

  lemma EmissionsGrow()
    ensures Grows(Emissions)
  {
    forall raws: seq<Raw>, r: Raw
      ensures Emissions(raws) <= Emissions(raws + [r])
    {
      EmissionsAppend(raws, r);
    }
  }

  lemma EmissionsAppend(raws: seq<Raw>, r: Raw)
    ensures Emissions(raws + [r]) == Emissions(raws) + Emission(raws, r)
  {
    assert (raws + [r])[..|raws|] == raws;
  }

  lemma SoFarGrows(decode: Decoder, events: seq<SseResult>, i: nat, k: nat)
    requires i <= k <= |events|
    ensures SoFar(decode, events, i) <= SoFar(decode, events, k)
  {
    var raws := HeardGrows(Reads(decode), events, i, k);
    EmissionsGrow();
    GrowsLonger(Emissions, Heard(Reads(decode), events[..i]), raws);
  }

  /** The run so far is part of the run. */
  lemma RunStartsWith(decode: Decoder, events: seq<SseResult>, i: nat)
    requires i <= HeardLength(decode, events)
    ensures SoFar(decode, events, i) <= Run(decode, events)
  {
    var m := HeardLength(decode, events);
    SoFarGrows(decode, events, i, m);
    PrefixThen(SoFar(decode, events, i), SoFar(decode, events, m), Closing(decode, events));
  }

  /** The run, once its end is known. */
  lemma RunAt(decode: Decoder, events: seq<SseResult>, k: nat)
    requires EndsAt(Ends(decode), events, k)
    ensures CompletesAt(decode, events, k) ==> HeardLength(decode, events) == k + 1 && Run(decode, events) == SoFar(decode, events, k + 1)
    ensures !CompletesAt(decode, events, k) ==>
              HeardLength(decode, events) == k && Run(decode, events) == SoFar(decode, events, k) + [Failed(EndError(decode, events, k))]
  {
    EndIndexUnique(Ends(decode), events, k);
    if CompletesAt(decode, events, k) {
      assert SoFar(decode, events, k + 1) + [] == SoFar(decode, events, k + 1);
    }
  }

  lemma PrefixThen<T>(s: seq<T>, t: seq<T>, more: seq<T>)
    requires s <= t
    ensures s <= t + more
  {
  }

  // ----- The loop

  method SendIf(wanted: bool, o: Out, outbox: Outbox<Out>) returns (ok: bool)
    modifies outbox
    ensures Offered(old(outbox.sent), old(outbox.room), if wanted then [o] else [], outbox.sent, outbox.room, ok)
  {
    if wanted {
      ok := outbox.Send(o);
    } else {
      OfferedNothing(outbox.sent, outbox.room);
      ok := true;
    }
  }

  /** The sends for one event. */
  method Emit(r: Raw, lastServerModel: string, ghost before: seq<Raw>, outbox: Outbox<Out>) returns (ok: bool)
    requires lastServerModel == LastModel(before)
    modifies outbox
    ensures Offered(old(outbox.sent), old(outbox.room), Emission(before, r), outbox.sent, outbox.room, ok)
  {
    ghost var models := if r.model != "" && r.model != lastServerModel then [ServerModel(r.model)] else [];
    ghost var verifications := if r.verifications != [] then [ModelVerifications(r.verifications)] else [];
    ghost var forwards := if r.outcome.Forward? then [Forwarded(r.outcome.event)] else [];
    assert Emission(before, r) == models + verifications + forwards == models + (verifications + forwards);
    ghost var sent0, room0 := outbox.sent, outbox.room;
    ok := SendIf(r.model != "" && r.model != lastServerModel, ServerModel(r.model), outbox);
    if !ok {
      OfferedPart(sent0, room0, models, outbox.sent, outbox.room, verifications + forwards);
      return;
    }
    ghost var sent1, room1 := outbox.sent, outbox.room;
    ok := SendIf(|r.verifications| > 0, ModelVerifications(r.verifications), outbox);
    OfferedThen(sent0, room0, models, sent1, room1, verifications, outbox.sent, outbox.room, ok);
    if !ok {
      OfferedPart(sent0, room0, models + verifications, outbox.sent, outbox.room, forwards);
      return;
    }
    if r.outcome.Forward? {
      sent1, room1 := outbox.sent, outbox.room;
      ok := outbox.Send(Forwarded(r.outcome.event));
      OfferedThen(sent0, room0, models + verifications, sent1, room1, forwards, outbox.sent, outbox.room, ok);
    } else {
      assert models + verifications + [] == models + verifications;
    }
  }

  /** The error or the close that ends the loop. */
  method Close(ghost decode: Decoder, events: seq<SseResult>, k: nat, responseError: Option<ApiError>, outbox: Outbox<Out>)
    requires k <= |events| && (k < |events| ==> events[k].Failure?)
    requires responseError == Deferred(Heard(Reads(decode), events[..k]))
    modifies outbox
    ensures outbox.sent == old(outbox.sent) + Through([Failed(EndError(decode, events, k))], old(outbox.room))
  {
    var err;
    if k == |events| {
      err := responseError.GetOr(StreamFailure(CLOSED_MESSAGE));
    } else if events[k].err.kind == Timeout {
      err := StreamFailure(IDLE_MESSAGE);
    } else if IsStreamClosed(events[k].err) {
      err := responseError.GetOr(StreamFailure(CLOSED_MESSAGE));
    } else {
      err := StreamFailure(events[k].err.message);
    }
    var _ := outbox.Send(Failed(err));
  }

  /** The loop's variables after some events. */
  predicate Holds(raws: seq<Raw>, responseError: Option<ApiError>, lastServerModel: string) {
    responseError == Deferred(raws) && lastServerModel == LastModel(raws)
  }

  lemma HoldsAppend(before: seq<Raw>, r: Raw, responseError: Option<ApiError>, lastServerModel: string)
    requires Holds(before, responseError, lastServerModel)
    ensures Holds(before + [r],
                  if r.outcome.Remember? then Some(r.outcome.err) else responseError,
                  if r.model != "" then r.model else lastServerModel)
  {
    PickOne(before, r, RememberedError);
    PickOne(before, r, ReportedModel);
  }

  /** One event that is not an error of the reader. */
  method Hear(decode: Decoder, events: seq<SseResult>, i: nat, responseError0: Option<ApiError>, lastServerModel0: string, outbox: Outbox<Out>)
    returns (ok: bool, completed: bool, responseError: Option<ApiError>, lastServerModel: string)
    requires i < |events| && events[i].Event?
    requires Holds(Heard(Reads(decode), events[..i]), responseError0, lastServerModel0)
    modifies outbox
    ensures Offered(old(outbox.sent), old(outbox.room), EventEmission(decode, events, i), outbox.sent, outbox.room, ok)
    ensures ok ==> Holds(Heard(Reads(decode), events[..i + 1]), responseError, lastServerModel)
    ensures completed == Completes(decode, events[i])
  {
    responseError, lastServerModel := responseError0, lastServerModel0;
    ghost var before := Heard(Reads(decode), events[..i]);
    HeardStep(Reads(decode), events, i);
    var decoded := decode(events[i].data);
    if decoded.None? {
      OfferedNothing(outbox.sent, outbox.room);
      assert before + [] == before;
      return true, false, responseError, lastServerModel;
    }
    var r := decoded.value;
    HoldsAppend(before, r, responseError, lastServerModel);
    ok := Emit(r, lastServerModel, before, outbox);
    if r.model != "" && r.model != lastServerModel {
      lastServerModel := r.model;
    }
    completed := false;
    match r.outcome {
      case Remember(err) => responseError := Some(err);
      case Forward(ev) => completed := ev.Completed?;
      case Ignore =>
    }
  }

  /** The loop has taken `i` events; nothing ended it, or the last of them did. */
  predicate Taken(decode: Decoder, events: seq<SseResult>, i: nat, ended: bool, completed: bool) {
    && i <= |events|
    && (if ended then i > 0 && NoneEnds(Ends(decode), events, i - 1) && events[i - 1].Event? else NoneEnds(Ends(decode), events, i))
    && (completed ==> ended && Completes(decode, events[i - 1]))
  }

  lemma TakenStep(decode: Decoder, events: seq<SseResult>, i: nat, ended: bool, completed: bool)
    requires i < |events| && events[i].Event? && NoneEnds(Ends(decode), events, i)
    requires completed == Completes(decode, events[i]) && (completed ==> ended)
    ensures Taken(decode, events, i + 1, ended, completed)
  {
  }

  /** Listens until an error of the reader, a completion, the end, or the consumer's departure. */
  method Listen(decode: Decoder, events: seq<SseResult>, outbox: Outbox<Out>)
    returns (i: nat, ok: bool, completed: bool, responseError: Option<ApiError>)
    modifies outbox
    ensures Taken(decode, events, i, !ok || completed, completed)
    ensures ok && !completed ==> (i < |events| ==> events[i].Failure?) && responseError == Deferred(Heard(Reads(decode), events[..i]))
    ensures Offered(old(outbox.sent), old(outbox.room), SoFar(decode, events, i), outbox.sent, outbox.room, ok)
  {
    ghost var sent0, room0 := outbox.sent, outbox.room;
    ok, completed, responseError := true, false, None;
    var lastServerModel := "";
    OfferedNothing(sent0, room0);
    i := 0;
    while ok && !completed && i < |events| && events[i].Event?
      invariant Taken(decode, events, i, !ok || completed, completed)
      invariant ok && !completed ==> Holds(Heard(Reads(decode), events[..i]), responseError, lastServerModel)
      invariant Offered(sent0, room0, SoFar(decode, events, i), outbox.sent, outbox.room, ok)
    {
      ghost var sent1, room1 := outbox.sent, outbox.room;
      ok, completed, responseError, lastServerModel := Hear(decode, events, i, responseError, lastServerModel, outbox);
      TakenStep(decode, events, i, !ok || completed, completed);
      SoFarStep(decode, events, i);
      OfferedThen(sent0, room0, SoFar(decode, events, i), sent1, room1, EventEmission(decode, events, i), outbox.sent, outbox.room, ok);
      i := i + 1;
    }
  }

  /**
   The whole loop, over the events it receives. What the consumer takes is the
   run, or, after a cancellation, the part of it that fits.
   */
  method ProcessSse(decode: Decoder, events: seq<SseResult>, outbox: Outbox<Out>)
    modifies outbox
    ensures outbox.sent == old(outbox.sent) + Through(Run(decode, events), old(outbox.room))
  {
    ghost var sent0, room0 := outbox.sent, outbox.room;
    var i, ok, completed, responseError := Listen(decode, events, outbox);
    if !ok || completed {
      TakenReaches(decode, events, i, completed);
      if !ok {
        ThroughPart(sent0, room0, SoFar(decode, events, i), outbox.sent, outbox.room, Run(decode, events));
      }
    } else {
      TakenEnds(decode, events, i);
      ghost var sent1, room1 := outbox.sent, outbox.room;
      Close(decode, events, i, responseError, outbox);
      ThroughThen(sent0, room0, SoFar(decode, events, i), sent1, room1, [Failed(EndError(decode, events, i))]);
    }
  }

  /** The loop has stopped after an event: what it sent is part of the run, and all of it after a completion. */
  lemma TakenReaches(decode: Decoder, events: seq<SseResult>, i: nat, completed: bool)
    requires Taken(decode, events, i, true, completed)
    ensures SoFar(decode, events, i) <= Run(decode, events)
    ensures completed ==> Run(decode, events) == SoFar(decode, events, i)
  {
    RunReaches(decode, events, i - 1);
  }

  /** The loop has stopped before an event: the run ends with the error there. */
  lemma TakenEnds(decode: Decoder, events: seq<SseResult>, i: nat)
    requires Taken(decode, events, i, false, false) && (i < |events| ==> events[i].Failure?)
    ensures Run(decode, events) == SoFar(decode, events, i) + [Failed(EndError(decode, events, i))]
  {
    RunAt(decode, events, i);
  }

  /** The run through an event that the loop reaches is part of the run, and all of it after a completion. */
  lemma RunReaches(decode: Decoder, events: seq<SseResult>, i: nat)
    requires i < |events| && NoneEnds(Ends(decode), events, i) && events[i].Event?
    ensures SoFar(decode, events, i + 1) <= Run(decode, events)
    ensures Completes(decode, events[i]) ==> Run(decode, events) == SoFar(decode, events, i + 1)
  {
    if Completes(decode, events[i]) {
      RunAt(decode, events, i);
    } else {
      NoneEndsStep(Ends(decode), events, i);
      EndsLater(Ends(decode), events, i + 1);
      RunStartsWith(decode, events, i + 1);
    }
  }

  // ----- Every run ends once

  predicate Terminal(o: Out) {
    o.Failed? || (o.Forwarded? && o.event.Completed?)
  }

  /** The last result is terminal, and no other is. */
  ghost predicate EndsOnce(run: seq<Out>) {
    && run != [] && Terminal(run[|run| - 1])
    && forall i :: 0 <= i < |run| - 1 ==> !Terminal(run[i])
  }

  ghost predicate Quiet(s: seq<Out>) {
    forall i :: 0 <= i < |s| ==> !Terminal(s[i])
  }

  lemma QuietUntilEnd(decode: Decoder, events: seq<SseResult>, k: nat)
    requires k <= |events| && NoneEnds(Ends(decode), events, k)
    ensures Quiet(SoFar(decode, events, k))
  {
    HeardNoCompletion(decode, events, k);
    EmissionsQuiet(Heard(Reads(decode), events[..k]));
  }

  ghost predicate NoCompletion(raws: seq<Raw>) {
    forall i :: 0 <= i < |raws| ==> !IsCompletion(raws[i])
  }

  lemma {:induction false} HeardNoCompletion(decode: Decoder, events: seq<SseResult>, k: nat)
    requires k <= |events| && NoneEnds(Ends(decode), events, k)
    ensures NoCompletion(Heard(Reads(decode), events[..k]))
  {
    if k > 0 {
      HeardNoCompletion(decode, events, k - 1);
      HeardStep(Reads(decode), events, k - 1);
      assert !Ends(decode)(events[k - 1]);
    } else {
      assert events[..k] == [];
    }
  }

  lemma {:induction false} EmissionsQuiet(raws: seq<Raw>)
    requires NoCompletion(raws)
    ensures Quiet(Emissions(raws))
  {
    if raws != [] {
      var n := |raws| - 1;
      EmissionsQuiet(raws[..n]);
      EmissionQuiet(raws[..n], raws[n]);
      QuietConcat(Emissions(raws[..n]), Emission(raws[..n], raws[n]));
    }
  }

  lemma QuietConcat(s: seq<Out>, t: seq<Out>)
    requires Quiet(s) && Quiet(t)
    ensures Quiet(s + t)
  {
  }

  lemma EmissionQuiet(before: seq<Raw>, r: Raw)
    requires !IsCompletion(r)
    ensures Quiet(Emission(before, r))
  {
  }

  lemma EmissionEnds(before: seq<Raw>, r: Raw, s: seq<Out>)
    requires Quiet(s) && IsCompletion(r)
    ensures EndsOnce(s + Emission(before, r))
    ensures (s + Emission(before, r))[|s + Emission(before, r)| - 1] == Forwarded(r.outcome.event)
  {
  }

  /**
   Every run ends once. It ends in a completion exactly when one comes before
   any reader error, whatever failures came before it; a close reports the
   latest failure event, or the closed stream when there was none.
   */
  lemma RunEndsOnce(decode: Decoder, events: seq<SseResult>)
    ensures EndsOnce(Run(decode, events))
    ensures var run, k := Run(decode, events), EndIndex(Ends(decode), events);
            var end := run[|run| - 1];
            && (end.Forwarded? <==> CompletesAt(decode, events, k))
            && (CompletesAt(decode, events, k) ==> Some(end) == MapForwarded(RawOf(decode, events[k])))
            && (!CompletesAt(decode, events, k) && ClosesAt(events, k) ==>
                  end.err == Deferred(Heard(Reads(decode), events[..k])).GetOr(StreamFailure(CLOSED_MESSAGE)))
  {
    var k := EndIndex(Ends(decode), events);
    QuietUntilEnd(decode, events, k);
    if CompletesAt(decode, events, k) {
      SoFarStep(decode, events, k);
      EmissionEnds(Heard(Reads(decode), events[..k]), RawOf(decode, events[k]).value, SoFar(decode, events, k));
    }
  }

  function MapForwarded(r: Option<Raw>): Option<Out> {
    if r.Some? && r.value.outcome.Forward? then Some(Forwarded(r.value.outcome.event)) else None
  }

  // ----- Nothing is lost, and models change

  function ModelOf(o: Out): Option<string> {
    if o.ServerModel? then Some(o.model) else None
  }

  function VerificationsOf(o: Out): Option<seq<string>> {
    if o.ModelVerifications? then Some(o.verifications) else None
  }

  function EventOf(o: Out): Option<ResponseEvent> {
    if o.Forwarded? then Some(o.event) else None
  }

  /** A sequence without the elements that repeat their predecessor. */
  function Squeezed(s: seq<string>): seq<string> {
    if s == [] then []
    else
      var n := |s| - 1;
      Squeezed(s[..n]) + if n > 0 && s[n - 1] == s[n] then [] else [s[n]]
  }

  lemma {:induction false} SqueezedDiffers(s: seq<string>)
    ensures forall i :: 0 < i < |Squeezed(s)| ==> Squeezed(s)[i - 1] != Squeezed(s)[i]
    ensures LastOf(Squeezed(s)) == LastOf(s)
    ensures forall x :: x in Squeezed(s) ==> x in s
  {
    if s != [] {
      var n := |s| - 1;
      SqueezedDiffers(s[..n]);
      assert s == s[..n] + [s[n]];
    }
  }

  /** What the emissions of some events say, next to the events themselves. */
  ghost predicate Faithful(run: seq<Out>, raws: seq<Raw>) {
    && Pick(run, ModelOf) == Squeezed(Pick(raws, ReportedModel))
    && Pick(run, VerificationsOf) == Pick(raws, ReportedVerifications)
    && Pick(run, EventOf) == Pick(raws, ForwardedEvent)
  }

  lemma EmissionPicked(before: seq<Raw>, r: Raw)
    ensures Pick(Emission(before, r), ModelOf) == if r.model != "" && r.model != LastModel(before) then [r.model] else []
    ensures Pick(Emission(before, r), VerificationsOf) == if r.verifications != [] then [r.verifications] else []
    ensures Pick(Emission(before, r), EventOf) == if r.outcome.Forward? then [r.outcome.event] else []
  {
    var models := if r.model != "" && r.model != LastModel(before) then [ServerModel(r.model)] else [];
    var verifications := if r.verifications != [] then [ModelVerifications(r.verifications)] else [];
    var forwards := if r.outcome.Forward? then [Forwarded(r.outcome.event)] else [];
    PickThree(models, verifications, forwards, ModelOf);
    PickThree(models, verifications, forwards, VerificationsOf);
    PickThree(models, verifications, forwards, EventOf);
  }

  lemma SqueezedAppend(s: seq<string>, x: string)
    ensures Squeezed(s + [x]) == Squeezed(s) + if LastOf(s) == Some(x) then [] else [x]
  {
    assert (s + [x])[..|s|] == s;
  }

  lemma StepPicked<U>(run: seq<Out>, emitted: seq<Out>, raws: seq<Raw>, r: Raw, f: Out -> Option<U>, g: Raw -> Option<U>)
    requires Pick(run, f) == Pick(raws, g)
    requires Pick(emitted, f) == match g(r) case Some(u) => [u] case None => []
    ensures Pick(run + emitted, f) == Pick(raws + [r], g)
  {
    PickAppend(run, emitted, f);
    PickOne(raws, r, g);
  }

  lemma SqueezedStep(s: seq<string>, m: string)
    ensures Squeezed(s + if m == "" then [] else [m]) ==
            Squeezed(s) + if m != "" && m != LastOf(s).GetOr("") then [m] else []
  {
    if m == "" {
      assert s + [] == s;
    } else {
      SqueezedAppend(s, m);
    }
  }

  lemma ModelStep(run: seq<Out>, emitted: seq<Out>, raws: seq<Raw>, r: Raw, models: seq<string>)
    requires models == Pick(raws, ReportedModel) && Pick(run, ModelOf) == Squeezed(models)
    requires Pick(emitted, ModelOf) == if r.model != "" && r.model != LastOf(models).GetOr("") then [r.model] else []
    ensures Pick(run + emitted, ModelOf) == Squeezed(Pick(raws + [r], ReportedModel))
  {
    PickAppend(run, emitted, ModelOf);
    PickOne(raws, r, ReportedModel);
    SqueezedStep(models, r.model);
  }

  lemma FaithfulStep(run: seq<Out>, raws: seq<Raw>, r: Raw)
    requires Faithful(run, raws)
    ensures Faithful(run + Emission(raws, r), raws + [r])
  {
    var emitted := Emission(raws, r);
    EmissionPicked(raws, r);
    ModelStep(run, emitted, raws, r, Pick(raws, ReportedModel));
    StepPicked(run, emitted, raws, r, VerificationsOf, ReportedVerifications);
    StepPicked(run, emitted, raws, r, EventOf, ForwardedEvent);
  }

  lemma {:induction false} EmissionsFaithful(raws: seq<Raw>)
    ensures Faithful(Emissions(raws), raws)
  {
    if raws != [] {
      var n := |raws| - 1;
      var before := raws[..n];
      EmissionsFaithful(before);
      FaithfulStep(Emissions(before), before, raws[n]);
      EmissionsAppend(before, raws[n]);
      assert raws == before + [raws[n]];
    }
  }

  lemma FaithfulEnd(run: seq<Out>, raws: seq<Raw>, err: ApiError)
    requires Faithful(run, raws)
    ensures Faithful(run + [Failed(err)], raws)
  {
    PickOne(run, Failed(err), ModelOf);
    PickOne(run, Failed(err), VerificationsOf);
    PickOne(run, Failed(err), EventOf);
  }

  /**
   A run forwards every event and every recommendation it hears, in order, and
   reports a server model exactly when it changes: successive reports differ.
   */
  lemma RunFaithful(decode: Decoder, events: seq<SseResult>)
    ensures Faithful(Run(decode, events), HeardByRun(decode, events))
    ensures var models := Pick(Run(decode, events), ModelOf);
            forall i :: 0 < i < |models| ==> models[i - 1] != models[i]
  {
    var raws := HeardByRun(decode, events);
    var closing := RunIs(decode, events);
    EmissionsFaithful(raws);
    ClosingFaithful(Emissions(raws), raws, closing);
    SqueezedDiffers(Pick(raws, ReportedModel));
  }

  /** A run is what the events it hears emit, and perhaps an error. */
  lemma RunIs(decode: Decoder, events: seq<SseResult>) returns (closing: seq<Out>)
    ensures Run(decode, events) == Emissions(HeardByRun(decode, events)) + closing
    ensures closing == [] || exists err :: closing == [Failed(err)]
  {
    closing := Closing(decode, events);
  }

  lemma ClosingFaithful(run: seq<Out>, raws: seq<Raw>, closing: seq<Out>)
    requires Faithful(run, raws) && (closing == [] || exists err :: closing == [Failed(err)])
    ensures Faithful(run + closing, raws)
  {
    if closing == [] {
      assert run + closing == run;
    } else {
      var err :| closing == [Failed(err)];
      FaithfulEnd(run, raws, err);
    }
  }

  /** The remembered failure is that of the latest failure event. */
  lemma {:induction false} DeferredIsLatest(raws: seq<Raw>, i: nat)
    requires i < |raws| && raws[i].outcome.Remember?
    requires forall j :: i < j < |raws| ==> !raws[j].outcome.Remember?
    ensures Deferred(raws) == Some(raws[i].outcome.err)
  {
    PickAppend(raws[..i], raws[i..], RememberedError);
    assert raws == raws[..i] + raws[i..];
    PickNone(raws[i + 1..], RememberedError);
    assert raws[i..][1..] == raws[i + 1..];
  }
}
