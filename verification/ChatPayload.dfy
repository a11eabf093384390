/**
 What a chat-completions run says of the payloads it is decoded from
 (internal/api/chat_completions.go), field by field: the texts, thoughts, calls,
 ids and token counts of the chunks, and the way the stream ended.
 */
module ChatPayload {

  import opened PatchTypes
  import opened Streams
  import opened Text
  import opened Whitespace
  import opened ChatStream
  import opened ChatRuns

  // ----- What is heard

  /** The chunks that arrive before the first error or `[DONE]`; what is blank or does not decode is skipped. */
  function Payloads(decode: Decoder, events: seq<SseResult>): seq<Chunk> {
    if events == [] then []
    else
      match events[0]
      case Failure(_) => []
      case Event(data) =>
        if TrimSpace(data) == "[DONE]" then []
        else if TrimSpace(data) == "" then Payloads(decode, events[1..])
        else
          match decode(TrimSpace(data))
          case None => Payloads(decode, events[1..])
          case Some(chunk) => [chunk] + Payloads(decode, events[1..])
  }

  /** The deltas of one chunk: of its first choice, the reasoning and then the text, unless they are empty. */
  function ChunkSays(c: Chunk): seq<Out> {
    match c
    case Chunk(_, choices, _) =>
      if choices == [] then []
      else
        match choices[0]
        case Choice(content, reasoning, _, _) =>
          (match reasoning case Some(s) => (if s != "" then [ReasoningDelta(s)] else []) case None => [])
          + (match content case Some(s) => (if s != "" then [TextDelta(s)] else []) case None => [])
  }

  function DeltasSaid(chunks: seq<Chunk>): seq<Out> {
    if chunks == [] then [] else DeltasSaid(chunks[..|chunks| - 1]) + ChunkSays(chunks[|chunks| - 1])
  }

  /** All text that the chunks say. */
  function TextSaid(chunks: seq<Chunk>): string {
    if chunks == [] then ""
    else
      TextSaid(chunks[..|chunks| - 1]) +
      match chunks[|chunks| - 1]
      case Chunk(_, choices, _) => if choices != [] && choices[0].content.Some? then choices[0].content.value else ""
  }

  /** Some first choice gives a reason to finish. */
  predicate FinishSaid(chunks: seq<Chunk>) {
    exists i :: 0 <= i < |chunks| && SaysFinish(chunks[i])
  }

  predicate SaysFinish(c: Chunk) {
    c.choices != [] && c.choices[0].finish.Some? && c.choices[0].finish.value != ""
  }

  /** The last id that is not empty. */
  function IdSaid(chunks: seq<Chunk>): string {
    if chunks == [] then ""
    else
      var last := chunks[|chunks| - 1];
      if last.id != "" then last.id else IdSaid(chunks[..|chunks| - 1])
  }

  /** The last token counts. */
  function UsageSaid(chunks: seq<Chunk>): Option<TokenUsage> {
    if chunks == [] then None
    else
      match chunks[|chunks| - 1].usage
      case None => UsageSaid(chunks[..|chunks| - 1])
      case Some(ChatUsage(prompt, completion, total, cached)) =>
        Some(TokenUsage(prompt, if cached.Some? then cached.value else 0, completion, total))
  }

  // ----- Tool calls

  /** The tool-call fragments of the first choices, in arrival order. */
  function FragmentsSaid(chunks: seq<Chunk>): seq<Fragment> {
    if chunks == [] then []
    else
      var last := chunks[|chunks| - 1];
      FragmentsSaid(chunks[..|chunks| - 1]) + if last.choices == [] then [] else last.choices[0].toolCalls
  }

  /** The names that the fragments of one call say, one after another. */
  function NameSaid(fragments: seq<Fragment>, index: int): string {
    if fragments == [] then ""
    else
      NameSaid(fragments[..|fragments| - 1], index) +
      match fragments[|fragments| - 1]
      case Fragment(i, _, Some(Function(name, _))) => if i == index then name else ""
      case Fragment(_, _, None) => ""
  }

  function ArgumentsSaid(fragments: seq<Fragment>, index: int): string {
    if fragments == [] then ""
    else
      ArgumentsSaid(fragments[..|fragments| - 1], index) +
      match fragments[|fragments| - 1]
      case Fragment(i, _, Some(Function(_, arguments))) => if i == index then arguments else ""
      case Fragment(_, _, None) => ""
  }

  /** The last id of a call that is not empty. */
  function CallIdSaid(fragments: seq<Fragment>, index: int): string {
    if fragments == [] then ""
    else
      match fragments[|fragments| - 1]
      case Fragment(i, id, _) =>
        if i == index && id != "" then id else CallIdSaid(fragments[..|fragments| - 1], index)
  }

  /** The `n`th finished call; without an id it is named by its position. */
  function CallSaid(fragments: seq<Fragment>, index: int, n: nat): Item {
    var id := CallIdSaid(fragments, index);
    FunctionCall(NameSaid(fragments, index), ArgumentsSaid(fragments, index), if id == "" then "call_" + Decimal(n) else id)
  }

  /** The first `n` calls, each added and then done. */
  function CallsSaid(fragments: seq<Fragment>, indices: seq<int>, n: nat): seq<Out>
    requires n <= |indices|
  {
    if n == 0 then []
    else
      var call := CallSaid(fragments, indices[n - 1], n - 1);
      CallsSaid(fragments, indices, n - 1) + [ItemAdded(call), ItemDone(call)]
  }

  /** Each index once, from the lowest to the highest. */
  ghost predicate IndicesOf(fragments: seq<Fragment>, indices: seq<int>) {
    && (forall i, j :: 0 <= i < j < |indices| ==> indices[i] < indices[j])
    && forall x: int :: x in indices <==> exists i :: 0 <= i < |fragments| && fragments[i].index == x
  }

  // ----- The end

  /** How a stream ends: with `[DONE]`, an error, or just so. */
  datatype Ending = Done | Broken(err: StreamError) | Exhausted

  function EndingOf(events: seq<SseResult>): Ending {
    if events == [] then Exhausted
    else
      match events[0]
      case Failure(err) => Broken(err)
      case Event(data) => if TrimSpace(data) == "[DONE]" then Done else EndingOf(events[1..])
  }

  /** The error to report, if the stream must not be completed. */
  function ErrorSaid(ending: Ending, finished: bool): Option<string> {
    match ending
    case Done => None
    case Exhausted => if finished then None else Some("stream closed before response.completed")
    case Broken(StreamError(Timeout, _)) => Some("idle timeout waiting for SSE")
    case Broken(StreamError(Stream, message)) =>
      if message == "stream closed before completion" && finished then None else Some(message)
  }

  // ----- The run

  predicate DeltaOrSkeleton(o: Out) {
    o.TextDelta? || o.ReasoningDelta? || o == ItemAdded(Message([])) || o == ItemAdded(Reasoning)
  }

  function DeltaOf(o: Out): Option<Out> {
    if o.TextDelta? || o.ReasoningDelta? then Some(o) else None
  }

  /** The deltas, with each skeleton right before the first delta of its kind. */
  ghost predicate SaysDeltas(body: seq<Out>, chunks: seq<Chunk>) {
    && (forall i :: 0 <= i < |body| ==> DeltaOrSkeleton(body[i]))
    && Pick(body, DeltaOf) == DeltasSaid(chunks)
    && Opens(body, ItemAdded(Message([])), DeltaText)
    && Opens(body, ItemAdded(Reasoning), DeltaThought)
  }

  /** What a completed run says after its deltas. */
  ghost predicate SaysItems(items: seq<Out>, chunks: seq<Chunk>) {
    var fragments := FragmentsSaid(chunks);
    exists indices :: IndicesOf(fragments, indices) &&
      items == (if TextSaid(chunks) == "" then [] else [ItemDone(Message([TextSaid(chunks)]))])
               + CallsSaid(fragments, indices, |indices|)
               + [Completed(IdSaid(chunks), UsageSaid(chunks), fragments == [])]
  }

  /** The run of these events: `Created`, the deltas, and then the items or the error. */
  ghost predicate SaysAll(decode: Decoder, events: seq<SseResult>, body: seq<Out>, rest: seq<Out>) {
    var chunks := Payloads(decode, events);
    && SaysDeltas(body, chunks)
    && match ErrorSaid(EndingOf(events), FinishSaid(chunks))
       case Some(message) => rest == [Failed(message)]
       case None => SaysItems(rest, chunks)
  }

  // ----- The aggregator says it

  lemma {:induction false} HeardIsPick(read: SseResult -> Option<Chunk>, events: seq<SseResult>)
    ensures Heard(read, events) == Pick(events, read)
  {
    if events != [] {
      var before, last := events[..|events| - 1], events[|events| - 1];
      HeardIsPick(read, before);
      PickOne(before, last, read);
      assert events == before + [last];
    }
  }

  lemma HeardCons(read: SseResult -> Option<Chunk>, e: SseResult, rest: seq<SseResult>)
    ensures Heard(read, [e] + rest) == (match read(e) case Some(c) => [c] case None => []) + Heard(read, rest)
  {
    HeardIsPick(read, [e] + rest);
    HeardIsPick(read, rest);
    assert ([e] + rest)[1..] == rest;
  }

  lemma PayloadsStep(decode: Decoder, events: seq<SseResult>)
    requires events != [] && !Ends(events[0])
    ensures Payloads(decode, events) ==
            (match Reads(decode)(events[0]) case Some(c) => [c] case None => []) + Payloads(decode, events[1..])
  {
    assert [] + Payloads(decode, events[1..]) == Payloads(decode, events[1..]);
  }

  /** The events before the end of a stream, from its first event on. */
  lemma BeforeEnd(events: seq<SseResult>) returns (rest: seq<SseResult>)
    requires events != [] && !Ends(events[0])
    ensures rest == events[1..][..EndIndex(Ends, events[1..])] && events[..EndIndex(Ends, events)] == [events[0]] + rest
  {
    rest := events[1..][..EndIndex(Ends, events[1..])];
  }

  lemma {:induction false} PayloadsHeard(decode: Decoder, events: seq<SseResult>)
    ensures Payloads(decode, events) == Heard(Reads(decode), events[..EndIndex(Ends, events)])
  {
    if events != [] && !Ends(events[0]) {
      var rest := BeforeEnd(events);
      PayloadsHeard(decode, events[1..]);
      PayloadsStep(decode, events);
      HeardCons(Reads(decode), events[0], rest);
    }
  }

  lemma {:induction false} EndingFound(events: seq<SseResult>)
    ensures var k := EndIndex(Ends, events);
            EndingOf(events) == if k == |events| then Exhausted
                                else if events[k].Failure? then Broken(events[k].err) else Done
  {
    if events != [] && !Ends(events[0]) {
      var k := EndIndex(Ends, events[1..]);
      EndingFound(events[1..]);
      assert EndIndex(Ends, events) == k + 1;
      assert k < |events[1..]| ==> events[1..][k] == events[k + 1];
    }
  }

  lemma ChoicesOne(chunks: seq<Chunk>, c: Chunk)
    ensures c.choices == [] ==> Choices(chunks + [c]) == Choices(chunks)
    ensures c.choices != [] ==> Choices(chunks + [c]) == Choices(chunks) + [c.choices[0]]
  {
    PickOne(chunks, c, FirstChoice);
    assert Choices(chunks) + [] == Choices(chunks);
  }

  lemma LastApart(chunks: seq<Chunk>)
    requires chunks != []
    ensures chunks == chunks[..|chunks| - 1] + [chunks[|chunks| - 1]]
  {
  }

  lemma ContentSaid(before: seq<Chunk>, texts: seq<string>, c: Choice)
    requires TextSaid(before) == Concat(texts) && (TextSaid(before) == "" <==> texts == [])
    ensures var all := texts + match Content(c) case Some(d) => [d] case None => [];
            var said := TextSaid(before) + if c.content.Some? then c.content.value else "";
            said == Concat(all) && (said == "" <==> all == [])
  {
    if Content(c).Some? {
      ConcatAppend(texts, Content(c).value);
    } else {
      assert texts + [] == texts && TextSaid(before) + "" == TextSaid(before);
    }
  }

  lemma {:induction false} TextIsSaid(chunks: seq<Chunk>)
    ensures TextSaid(chunks) == Concat(Contents(Choices(chunks)))
    ensures TextSaid(chunks) == "" <==> Contents(Choices(chunks)) == []
  {
    if chunks != [] {
      var before, c := chunks[..|chunks| - 1], chunks[|chunks| - 1];
      LastApart(chunks);
      TextIsSaid(before);
      ChoicesOne(before, c);
      if c.choices != [] {
        PickOne(Choices(before), c.choices[0], Content);
        ContentSaid(before, Contents(Choices(before)), c.choices[0]);
      }
      assert TextSaid(before) + "" == TextSaid(before);
    }
  }

  lemma {:induction false} FragmentsAreSaid(chunks: seq<Chunk>)
    ensures FragmentsSaid(chunks) == Fragments(Choices(chunks))
  {
    if chunks != [] {
      var before, c := chunks[..|chunks| - 1], chunks[|chunks| - 1];
      LastApart(chunks);
      FragmentsAreSaid(before);
      ChoicesOne(before, c);
      if c.choices != [] {
        FragmentsAppend(Choices(before), c.choices[0]);
      } else {
        assert FragmentsSaid(before) + [] == FragmentsSaid(before);
      }
    }
  }

  lemma {:induction false} FinishIsSaid(chunks: seq<Chunk>)
    ensures FinishSaid(chunks) <==> FinishSeen(Choices(chunks))
  {
    if chunks != [] {
      var before, c := chunks[..|chunks| - 1], chunks[|chunks| - 1];
      LastApart(chunks);
      FinishIsSaid(before);
      ChoicesOne(before, c);
      if c.choices != [] {
        FinishSeenAppend(Choices(before), c.choices[0]);
      }
      FinishOne(before, c);
    }
  }

  lemma FinishOne(before: seq<Chunk>, c: Chunk)
    ensures FinishSaid(before + [c]) <==> FinishSaid(before) || SaysFinish(c)
  {
    var all := before + [c];
    assert all[|before|] == c;
    if i :| 0 <= i < |before| && SaysFinish(before[i]) {
      assert SaysFinish(all[i]);
    }
  }

  lemma {:induction false} HeadersAreSaid(chunks: seq<Chunk>)
    ensures IdSaid(chunks) == ResponseId(chunks) && UsageSaid(chunks) == LastUsage(chunks)
  {
    if chunks != [] {
      LastApart(chunks);
      HeadersAreSaid(chunks[..|chunks| - 1]);
      HeadersAppend(chunks[..|chunks| - 1], chunks[|chunks| - 1]);
    }
  }

  lemma {:induction false} CallIsSaid(fragments: seq<Fragment>, index: int)
    ensures Assembled(fragments, index) ==
            ToolCall(CallIdSaid(fragments, index), NameSaid(fragments, index), ArgumentsSaid(fragments, index))
  {
    if fragments != [] {
      var before, f := fragments[..|fragments| - 1], fragments[|fragments| - 1];
      assert fragments == before + [f];
      CallIsSaid(before, index);
      AssembledAppend(before, f, index);
    }
  }

  lemma CallAtIsSaid(fragments: seq<Fragment>, indices: seq<int>, n: nat)
    requires n < |indices|
    ensures CallAt(fragments, indices, n) == CallSaid(fragments, indices[n], n)
  {
    CallIsSaid(fragments, indices[n]);
  }

  lemma {:induction false} CallsAreSaid(fragments: seq<Fragment>, indices: seq<int>, n: nat)
    requires n <= |indices|
    ensures CallsSaid(fragments, indices, n) == CallItems(fragments, indices[..n])
    decreases n
  {
    if n > 0 {
      CallsAreSaid(fragments, indices, n - 1);
      CallItemsSnoc(fragments, indices, n - 1);
      CallAtIsSaid(fragments, indices, n - 1);
    }
  }

  lemma IndicesAreSaid(fragments: seq<Fragment>)
    ensures IndicesOf(fragments, Indices(fragments))
  {
    IndicesMeaning(fragments);
    var indices := Indices(fragments);
    assert forall i, j :: 0 <= i < j < |indices| ==> Below(indices[i], indices[j]);
    forall x: int
      ensures x in indices <==> exists i :: 0 <= i < |fragments| && fragments[i].index == x
    {
      assert x in indices <==> Mentions(fragments, x);
    }
  }

  lemma ThoughtsDelta(before: seq<Choice>, c: Choice)
    ensures Pick(ThoughtDeltas(before, c), DeltaOf) ==
            match c.reasoning case Some(s) => (if s != "" then [ReasoningDelta(s)] else []) case None => []
  {
    if Thought(c).Some? {
      PickOne(if Thoughts(before) == [] then [ItemAdded(Reasoning)] else [], ReasoningDelta(Thought(c).value), DeltaOf);
    }
  }

  lemma ContentsDelta(before: seq<Choice>, c: Choice)
    ensures Pick(ContentDeltas(before, c), DeltaOf) ==
            match c.content case Some(s) => (if s != "" then [TextDelta(s)] else []) case None => []
  {
    if Content(c).Some? {
      PickOne(if Contents(before) == [] then [ItemAdded(Message([]))] else [], TextDelta(Content(c).value), DeltaOf);
    }
  }

  lemma {:induction false} DeltasAreSaid(chunks: seq<Chunk>)
    ensures Pick(Deltas(Choices(chunks)), DeltaOf) == DeltasSaid(chunks)
  {
    if chunks != [] {
      var before, c := chunks[..|chunks| - 1], chunks[|chunks| - 1];
      LastApart(chunks);
      DeltasAreSaid(before);
      DeltasAppend(before, c);
      PickAppend(Deltas(Choices(before)), NewDeltas(before, c), DeltaOf);
      if c.choices != [] {
        ThoughtsDelta(Choices(before), c.choices[0]);
        ContentsDelta(Choices(before), c.choices[0]);
        PickAppend(ThoughtDeltas(Choices(before), c.choices[0]), ContentDeltas(Choices(before), c.choices[0]), DeltaOf);
      }
    }
  }

  lemma DeltasSay(chunks: seq<Chunk>)
    ensures SaysDeltas(Deltas(Choices(chunks)), chunks)
  {
    DeltasAreSaid(chunks);
    DeltasOnly(Choices(chunks));
    DeltasOpen(Choices(chunks));
  }

  lemma FlushSays(chunks: seq<Chunk>)
    ensures SaysItems(Flush(chunks), chunks)
  {
    var fragments := Fragments(Choices(chunks));
    var indices := Indices(fragments);
    TextIsSaid(chunks);
    FragmentsAreSaid(chunks);
    HeadersAreSaid(chunks);
    IndicesAreSaid(fragments);
    CallsAreSaid(fragments, indices, |indices|);
    assert indices[..|indices|] == indices;
  }

  lemma EndingSays(decode: Decoder, events: seq<SseResult>, k: nat, chunks: seq<Chunk>)
    requires k == EndIndex(Ends, events) && chunks == Heard(Reads(decode), events[..k])
    ensures match ErrorSaid(EndingOf(events), FinishSaid(chunks))
            case Some(message) => !Completes(decode, events, k) && ErrorText(events, k) == message
            case None => Completes(decode, events, k)
  {
    EndingFound(events);
    FinishIsSaid(chunks);
  }

  /** Every run says exactly what its payloads and its end say. */
  lemma RunSaysPayloads(decode: Decoder, events: seq<SseResult>) returns (body: seq<Out>, rest: seq<Out>)
    ensures Run(decode, events) == [Created] + body + rest
    ensures SaysAll(decode, events, body, rest)
  {
    var k := EndIndex(Ends, events);
    var chunks := Heard(Reads(decode), events[..k]);
    PayloadsHeard(decode, events);
    EndingSays(decode, events, k, chunks);
    body, rest := Deltas(Choices(chunks)), Closing(decode, events, k);
    DeltasSay(chunks);
    FlushSays(chunks);
  }
}
