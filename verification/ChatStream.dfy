/**
 The aggregation of a chat-completions stream into response events: the
 goroutine of `spawnChatCompletionsStream` (internal/api/chat_completions.go).
 */
module ChatStream {

  import opened PatchTypes
  import opened Sorting
  import opened Streams
  import opened Text
  import opened Whitespace

  // ----- Chunks and events

  datatype Function = Function(name: string, arguments: string)

  /** A fragment of a tool call. */
  datatype Fragment = Fragment(index: int, id: string, function_: Option<Function>)

  datatype Choice = Choice(
    content: Option<string>,
    reasoning: Option<string>,
    toolCalls: seq<Fragment>,
    finish: Option<string>)

  datatype ChatUsage = ChatUsage(prompt: int, completion: int, total: int, cached: Option<int>)

  datatype Chunk = Chunk(id: string, choices: seq<Choice>, usage: Option<ChatUsage>)

  datatype TokenUsage = TokenUsage(input: int, cachedInput: int, output: int, total: int)

  function ToTokenUsage(u: ChatUsage): TokenUsage {
    TokenUsage(u.prompt, if u.cached.Some? then u.cached.value else 0, u.completion, u.total)
  }

  datatype Item =
    | Reasoning
    | Message(content: seq<string>)
    | FunctionCall(name: string, arguments: string, callId: string)

  datatype Out =
    | Created
    | ItemAdded(item: Item)
    | ItemDone(item: Item)
    | TextDelta(delta: string)
    | ReasoningDelta(delta: string)
    | Completed(responseId: string, usage: Option<TokenUsage>, endTurn: bool)
    | Failed(message: string)

  /** The payload decoder; a payload it rejects is skipped. */
  type Decoder = string -> Option<Chunk>

  // ----- What the events say

  function NonEmpty(s: Option<string>): Option<string> {
    if s == Some("") then None else s
  }

  function Content(c: Choice): Option<string> {
    NonEmpty(c.content)
  }

  function Thought(c: Choice): Option<string> {
    NonEmpty(c.reasoning)
  }

  function FirstChoice(c: Chunk): Option<Choice> {
    if c.choices == [] then None else Some(c.choices[0])
  }

  function Choices(chunks: seq<Chunk>): seq<Choice> {
    Pick(chunks, FirstChoice)
  }

  function Contents(choices: seq<Choice>): seq<string> {
    Pick(choices, Content)
  }

  function Thoughts(choices: seq<Choice>): seq<string> {
    Pick(choices, Thought)
  }

  predicate FinishSeen(choices: seq<Choice>) {
    exists i :: 0 <= i < |choices| && NonEmpty(choices[i].finish).Some?
  }

  /** Every tool-call fragment, in arrival order. */
  function Fragments(choices: seq<Choice>): seq<Fragment> {
    if choices == [] then []
    else Fragments(choices[..|choices| - 1]) + choices[|choices| - 1].toolCalls
  }

  /** The last non-empty string. */
  function LastNonEmpty(s: seq<string>): string {
    if s == [] then ""
    else if s[|s| - 1] != "" then s[|s| - 1]
    else LastNonEmpty(s[..|s| - 1])
  }

  function ResponseId(chunks: seq<Chunk>): string {
    LastNonEmpty(seq(|chunks|, i requires 0 <= i < |chunks| => chunks[i].id))
  }

  function LastUsage(chunks: seq<Chunk>): Option<TokenUsage> {
    if chunks == [] then None
    else if chunks[|chunks| - 1].usage.Some? then Some(ToTokenUsage(chunks[|chunks| - 1].usage.value))
    else LastUsage(chunks[..|chunks| - 1])
  }

  /** The fragments of one call. */
  function Of(fragments: seq<Fragment>, index: int): seq<Fragment> {
    if fragments == [] then []
    else
      var last := fragments[|fragments| - 1];
      Of(fragments[..|fragments| - 1], index) + if last.index == index then [last] else []
  }

  function NameOf(f: Fragment): string {
    if f.function_.Some? then f.function_.value.name else ""
  }

  function ArgumentsOf(f: Fragment): string {
    if f.function_.Some? then f.function_.value.arguments else ""
  }

  function Parts(fragments: seq<Fragment>, part: Fragment -> string): seq<string> {
    seq(|fragments|, i requires 0 <= i < |fragments| => part(fragments[i]))
  }

  datatype ToolCall = ToolCall(id: string, name: string, arguments: string)

  /** A call put together: its fragments concatenated in arrival order, under its last id. */
  function Assembled(fragments: seq<Fragment>, index: int): ToolCall {
    var own := Of(fragments, index);
    ToolCall(
      LastNonEmpty(Parts(own, IdOf)),
      Concat(Parts(own, NameOf)),
      Concat(Parts(own, ArgumentsOf)))
  }

  function IdOf(f: Fragment): string {
    f.id
  }

  // ----- The calls in order

  predicate Below(x: int, y: int) {
    x < y
  }

  ghost predicate Ascending(s: seq<int>) {
    Ordered(s, Below)
  }

  /** The distinct indices, ascending. */
  function Indices(fragments: seq<Fragment>): seq<int> {
    if fragments == [] then []
    else
      var n := |fragments| - 1;
      Insert(fragments[n].index, Indices(fragments[..n]), Below)
  }

  predicate Mentions(fragments: seq<Fragment>, index: int) {
    exists i :: 0 <= i < |fragments| && fragments[i].index == index
  }

  lemma {:induction false} IndicesMeaning(fragments: seq<Fragment>)
    ensures Ascending(Indices(fragments))
    ensures forall x: int :: x in Indices(fragments) <==> Mentions(fragments, x)
  {
    if fragments != [] {
      var n := |fragments| - 1;
      var before := fragments[..n];
      IndicesMeaning(before);
      InsertOrdered(fragments[n].index, Indices(before), Below);
      InsertMembers(fragments[n].index, Indices(before), Below);
      forall x: int
        ensures Mentions(fragments, x) <==> x == fragments[n].index || Mentions(before, x)
      {
        MentionsAppend(before, fragments[n], x);
        assert fragments == before + [fragments[n]];
      }
    }
  }

  lemma MentionsAppend(before: seq<Fragment>, f: Fragment, x: int)
    ensures Mentions(before + [f], x) <==> x == f.index || Mentions(before, x)
  {
    var all := before + [f];
    assert all[|before|] == f;
    if i :| 0 <= i < |before| && before[i].index == x {
      assert all[i].index == x;
    }
  }

  lemma AscendingUnique(s: seq<int>, t: seq<int>)
    requires Ascending(s) && Ascending(t) && forall x: int :: x in s <==> x in t
    ensures s == t
  {
    forall i | 0 <= i < |s|
      ensures s[i] in t
    {
      assert s[i] in s;
    }
    forall i | 0 <= i < |t|
      ensures t[i] in s
    {
      assert t[i] in t;
    }
    OrderedUnique(s, t, Below);
  }

  // ----- The run

  /** The events emitted while the choices arrive. */
  function Deltas(choices: seq<Choice>): seq<Out> {
    if choices == [] then []
    else
      var before, last := choices[..|choices| - 1], choices[|choices| - 1];
      Deltas(before) + ThoughtDeltas(before, last) + ContentDeltas(before, last)
  }

  function ThoughtDeltas(before: seq<Choice>, c: Choice): seq<Out> {
    if Thought(c).None? then []
    else (if Thoughts(before) == [] then [ItemAdded(Reasoning)] else []) + [ReasoningDelta(Thought(c).value)]
  }

  function ContentDeltas(before: seq<Choice>, c: Choice): seq<Out> {
    if Content(c).None? then []
    else (if Contents(before) == [] then [ItemAdded(Message([]))] else []) + [TextDelta(Content(c).value)]
  }

  /** The finished message, if any text arrived. */
  function MessageItems(choices: seq<Choice>): seq<Out> {
    if Contents(choices) == [] then [] else [ItemDone(Message([Concat(Contents(choices))]))]
  }

  /** The `n`th finished call; a call without an id is named by its position. */
  function CallItem(call: ToolCall, n: nat): Item {
    FunctionCall(call.name, call.arguments, if call.id == "" then "call_" + Decimal(n) else call.id)
  }

  /** The `n`th call's item. */
  function CallAt(fragments: seq<Fragment>, indices: seq<int>, n: nat): Item
    requires n < |indices|
  {
    CallItem(Assembled(fragments, indices[n]), n)
  }

  /** Every call is added and then done. */
  function CallItems(fragments: seq<Fragment>, indices: seq<int>): (items: seq<Out>)
    ensures |items| == 2 * |indices|
  {
    seq(2 * |indices|, i requires 0 <= i < 2 * |indices| =>
      if i % 2 == 0 then ItemAdded(CallAt(fragments, indices, i / 2)) else ItemDone(CallAt(fragments, indices, i / 2)))
  }

  lemma CallItemsSnoc(fragments: seq<Fragment>, indices: seq<int>, n: nat)
    requires n < |indices|
    ensures CallItems(fragments, indices[..n + 1]) ==
            CallItems(fragments, indices[..n]) + [ItemAdded(CallAt(fragments, indices, n)), ItemDone(CallAt(fragments, indices, n))]
  {
  }

  lemma CallItemsPrefix(fragments: seq<Fragment>, indices: seq<int>, n: nat)
    requires n <= |indices|
    ensures CallItems(fragments, indices[..n]) <= CallItems(fragments, indices)
  {
  }

  function CompletedEvent(chunks: seq<Chunk>): Out {
    Completed(ResponseId(chunks), LastUsage(chunks), Fragments(Choices(chunks)) == [])
  }

  /** The flush after the last chunk. */
  function Flush(chunks: seq<Chunk>): seq<Out> {
    var choices := Choices(chunks);
    var fragments := Fragments(choices);
    MessageItems(choices) + CallItems(fragments, Indices(fragments)) + [CompletedEvent(chunks)]
  }

  predicate IsDone(e: SseResult) {
    e.Event? && TrimSpace(e.data) == "[DONE]"
  }

  /** The chunk an event carries, if it carries one. */
  function ChunkOf(decode: Decoder, e: SseResult): Option<Chunk> {
    if e.Failure? || IsDone(e) || TrimSpace(e.data) == "" then None else decode(TrimSpace(e.data))
  }

  function Reads(decode: Decoder): SseResult -> Option<Chunk> {
    e => ChunkOf(decode, e)
  }

  /** An error or a done marker. */
  predicate Ends(e: SseResult) {
    e.Failure? || IsDone(e)
  }

  /** The run completes on a done marker, or on a close after a finish reason. */
  predicate Completes(decode: Decoder, events: seq<SseResult>, k: nat)
    requires k <= |events|
  {
    || (k < |events| && IsDone(events[k]))
    || (ClosesAt(events, k) && FinishSeen(Choices(Heard(Reads(decode), events[..k]))))
  }

  function ErrorText(events: seq<SseResult>, k: nat): string
    requires k <= |events|
  {
    if k == |events| || events[k].Event? then CLOSED_MESSAGE
    else if events[k].err.kind == Timeout then IDLE_MESSAGE
    else events[k].err.message
  }

  function Closing(decode: Decoder, events: seq<SseResult>, k: nat): seq<Out>
    requires k <= |events|
  {
    if Completes(decode, events, k) then Flush(Heard(Reads(decode), events[..k]))
    else [Failed(ErrorText(events, k))]
  }

  /** Everything an uncancelled run emits. */
  function Run(decode: Decoder, events: seq<SseResult>): seq<Out> {
    var k := EndIndex(Ends, events);
    SoFar(decode, events, k) + Closing(decode, events, k)
  }

  function DeltasUpTo(decode: Decoder, events: seq<SseResult>, i: nat): seq<Out>
    requires i <= |events|
  {
    Deltas(Choices(Heard(Reads(decode), events[..i])))
  }

  /** What the `i`th event emits. */
  function EventDeltas(decode: Decoder, events: seq<SseResult>, i: nat): seq<Out>
    requires i < |events|
  {
    match ChunkOf(decode, events[i])
    case Some(chunk) => NewDeltas(Heard(Reads(decode), events[..i]), chunk)
    case None => []
  }

  lemma DeltasStep(decode: Decoder, events: seq<SseResult>, i: nat)
    requires i < |events|
    ensures DeltasUpTo(decode, events, i + 1) == DeltasUpTo(decode, events, i) + EventDeltas(decode, events, i)
  {
    HeardStep(Reads(decode), events, i);
    var before, chunk := Heard(Reads(decode), events[..i]), ChunkOf(decode, events[i]);
    if chunk.Some? {
      DeltasAppend(before, chunk.value);
    } else {
      assert Heard(Reads(decode), events[..i + 1]) == before;
    }
  }

  function SoFar(decode: Decoder, events: seq<SseResult>, i: nat): seq<Out>
    requires i <= |events|
  {
    [Created] + DeltasUpTo(decode, events, i)
  }

  lemma SoFarStep(decode: Decoder, events: seq<SseResult>, i: nat)
    requires i < |events|
    ensures SoFar(decode, events, i + 1) == SoFar(decode, events, i) + EventDeltas(decode, events, i)
  {
    DeltasStep(decode, events, i);
  }

  lemma DeltasGrow()
    ensures Grows(Deltas)
  {
    forall choices: seq<Choice>, c: Choice
      ensures Deltas(choices) <= Deltas(choices + [c])
    {
      ChoicesAppend(choices, c);
    }
  }

  lemma SoFarGrows(decode: Decoder, events: seq<SseResult>, i: nat, k: nat)
    requires i <= k <= |events|
    ensures SoFar(decode, events, i) <= SoFar(decode, events, k)
  {
    var chunks := HeardGrows(Reads(decode), events, i, k);
    var before := Heard(Reads(decode), events[..i]);
    PickAppend(before, chunks, FirstChoice);
    DeltasGrow();
    GrowsLonger(Deltas, Choices(before), Choices(chunks));
  }

  // ----- One more chunk

  lemma FinishSeenAppend(choices: seq<Choice>, c: Choice)
    ensures FinishSeen(choices + [c]) <==> FinishSeen(choices) || NonEmpty(c.finish).Some?
  {
    var all := choices + [c];
    assert all[|choices|] == c;
    if i :| 0 <= i < |choices| && NonEmpty(choices[i].finish).Some? {
      assert NonEmpty(all[i].finish).Some?;
    }
  }

  lemma FragmentsAppend(choices: seq<Choice>, c: Choice)
    ensures Fragments(choices + [c]) == Fragments(choices) + c.toolCalls
  {
    assert (choices + [c])[..|choices|] == choices;
  }

  lemma ChoicesAppend(choices: seq<Choice>, c: Choice)
    ensures Deltas(choices + [c]) == Deltas(choices) + (ThoughtDeltas(choices, c) + ContentDeltas(choices, c))
  {
    assert (choices + [c])[..|choices|] == choices;
  }

  lemma HeadersAppend(chunks: seq<Chunk>, c: Chunk)
    ensures ResponseId(chunks + [c]) == if c.id != "" then c.id else ResponseId(chunks)
    ensures LastUsage(chunks + [c]) == if c.usage.Some? then Some(ToTokenUsage(c.usage.value)) else LastUsage(chunks)
  {
    var all := chunks + [c];
    assert all[..|chunks|] == chunks;
    var ids := seq(|chunks|, i requires 0 <= i < |chunks| => chunks[i].id);
    var more := seq(|all|, i requires 0 <= i < |all| => all[i].id);
    assert more[..|chunks|] == ids;
  }

  /** What one more chunk emits. */
  function NewDeltas(chunks: seq<Chunk>, c: Chunk): seq<Out> {
    if c.choices == [] then []
    else ThoughtDeltas(Choices(chunks), c.choices[0]) + ContentDeltas(Choices(chunks), c.choices[0])
  }

  lemma DeltasAppend(chunks: seq<Chunk>, c: Chunk)
    ensures Deltas(Choices(chunks + [c])) == Deltas(Choices(chunks)) + NewDeltas(chunks, c)
  {
    PickOne(chunks, c, FirstChoice);
    if c.choices == [] {
      assert Choices(chunks + [c]) == Choices(chunks);
    } else {
      ChoicesAppend(Choices(chunks), c.choices[0]);
    }
  }

  /** A call after one more of its fragments. */
  function Merged(call: ToolCall, f: Fragment): ToolCall {
    ToolCall(if f.id != "" then f.id else call.id, call.name + NameOf(f), call.arguments + ArgumentsOf(f))
  }

  lemma PartsAppend(fragments: seq<Fragment>, f: Fragment, part: Fragment -> string)
    ensures Parts(fragments + [f], part) == Parts(fragments, part) + [part(f)]
  {
  }

  lemma AssembledAppend(fragments: seq<Fragment>, f: Fragment, index: int)
    ensures Assembled(fragments + [f], index) ==
            if f.index == index then Merged(Assembled(fragments, index), f) else Assembled(fragments, index)
  {
    assert (fragments + [f])[..|fragments|] == fragments;
    var own := Of(fragments, index);
    if f.index != index {
      assert Of(fragments + [f], index) == own;
    } else {
      assert Of(fragments + [f], index) == own + [f];
      PartsAppend(own, f, IdOf);
      assert Parts(own + [f], IdOf)[..|own|] == Parts(own, IdOf);
      PartsAppend(own, f, NameOf);
      ConcatAppend(Parts(own, NameOf), NameOf(f));
      PartsAppend(own, f, ArgumentsOf);
      ConcatAppend(Parts(own, ArgumentsOf), ArgumentsOf(f));
    }
  }

  lemma {:induction false} UnmentionedIsEmpty(fragments: seq<Fragment>, index: int)
    requires !Mentions(fragments, index)
    ensures Of(fragments, index) == []
  {
    if fragments != [] {
      var n := |fragments| - 1;
      var before := fragments[..n];
      assert fragments == before + [fragments[n]];
      MentionsAppend(before, fragments[n], index);
      UnmentionedIsEmpty(before, index);
    }
  }

  /** The accumulators are the calls put together so far. */
  ghost predicate CallsHold(calls: map<int, ToolCall>, fragments: seq<Fragment>) {
    && (forall x: int :: x in calls <==> Mentions(fragments, x))
    && forall x: int :: x in calls ==> calls[x] == Assembled(fragments, x)
  }

  method MergeCall(calls0: map<int, ToolCall>, tc: Fragment, ghost fragments: seq<Fragment>) returns (calls: map<int, ToolCall>)
    requires CallsHold(calls0, fragments)
    ensures CallsHold(calls, fragments + [tc])
  {
    var acc := if tc.index in calls0 then calls0[tc.index] else ToolCall("", "", "");
    ghost var before := acc;
    if tc.id != "" {
      acc := acc.(id := tc.id);
    }
    if tc.function_.Some? {
      if tc.function_.value.name != "" {
        acc := acc.(name := acc.name + tc.function_.value.name);
      }
      if tc.function_.value.arguments != "" {
        acc := acc.(arguments := acc.arguments + tc.function_.value.arguments);
      }
    }
    assert acc == Merged(before, tc);
    calls := calls0[tc.index := acc];
    if tc.index !in calls0 {
      UnmentionedIsEmpty(fragments, tc.index);
    }
    CallsHoldAppend(calls0, fragments, tc, before);
  }

  lemma CallsHoldAppend(calls: map<int, ToolCall>, fragments: seq<Fragment>, tc: Fragment, before: ToolCall)
    requires CallsHold(calls, fragments) && before == Assembled(fragments, tc.index)
    ensures CallsHold(calls[tc.index := Merged(before, tc)], fragments + [tc])
  {
    var more := calls[tc.index := Merged(before, tc)];
    forall x: int
      ensures x in more <==> Mentions(fragments + [tc], x)
      ensures x in more ==> more[x] == Assembled(fragments + [tc], x)
    {
      MentionsAppend(fragments, tc, x);
      AssembledAppend(fragments, tc, x);
    }
  }

  method MergeCalls(calls0: map<int, ToolCall>, toolCalls: seq<Fragment>, ghost fragments: seq<Fragment>) returns (calls: map<int, ToolCall>)
    requires CallsHold(calls0, fragments)
    ensures CallsHold(calls, fragments + toolCalls)
  {
    calls := calls0;
    assert fragments + toolCalls[..0] == fragments;
    for i := 0 to |toolCalls|
      invariant CallsHold(calls, fragments + toolCalls[..i])
    {
      calls := MergeCall(calls, toolCalls[i], fragments + toolCalls[..i]);
      assert fragments + toolCalls[..i + 1] == fragments + toolCalls[..i] + [toolCalls[i]];
    }
    assert toolCalls[..|toolCalls|] == toolCalls;
  }

  /** The indices of the accumulators, in whatever order the map yields them. */
  method Keys(calls: map<int, ToolCall>) returns (keys: seq<int>)
    ensures forall x: int :: x in keys <==> x in calls
  {
    keys := [];
    var rest := calls.Items;
    while rest != {}
      invariant rest <= calls.Items
      invariant forall x: int :: x in keys <==> x in calls && (x, calls[x]) !in rest
      decreases |rest|
    {
      var entry :| entry in rest;
      rest := rest - {entry};
      keys := keys + [entry.0];
    }
  }

  /** The indices in ascending order. */
  method SortedKeys(calls: map<int, ToolCall>, ghost fragments: seq<Fragment>) returns (indices: seq<int>)
    requires CallsHold(calls, fragments)
    ensures indices == Indices(fragments)
    ensures forall i :: 0 <= i < |indices| ==> indices[i] in calls
  {
    var keys := Keys(calls);
    indices := Sort(keys, Below);
    SortOrders(keys, Below);
    IndicesMeaning(fragments);
    assert forall x: int :: x in indices <==> x in keys;
    AscendingUnique(indices, Indices(fragments));
    forall i | 0 <= i < |indices|
      ensures indices[i] in calls
    {
      var x: int := indices[i];
      assert x in indices;
    }
  }

  class ChatAggregator {
    const outbox: Outbox<Out>
    var responseId: string
    var text: string
    var messageAdded: bool
    var reasoningAdded: bool
    var toolCalls: map<int, ToolCall>
    var usage: Option<TokenUsage>
    var sawFinish: bool

    constructor (outbox: Outbox<Out>)
      ensures this.outbox == outbox && Holds([])
    {
      this.outbox := outbox;
      responseId, text, messageAdded, reasoningAdded := "", "", false, false;
      toolCalls, usage, sawFinish := map[], None, false;
    }

    /** The accumulators after some chunks. */
    ghost predicate Holds(chunks: seq<Chunk>)
      reads this
    {
      && responseId == ResponseId(chunks) && usage == LastUsage(chunks)
      && HoldsChoices(Choices(chunks))
    }

    ghost predicate HoldsChoices(choices: seq<Choice>)
      reads this
    {
      && HoldsText(choices)
      && reasoningAdded == (Thoughts(choices) != [])
      && sawFinish == FinishSeen(choices)
      && CallsHold(toolCalls, Fragments(choices))
    }

    /** Sends a skeleton, unless it has been sent, and a delta. */
    method SendDelta(skeleton: Out, added: bool, delta: Out) returns (ok: bool)
      modifies outbox
      ensures Offered(old(outbox.sent), old(outbox.room), (if added then [] else [skeleton]) + [delta], outbox.sent, outbox.room, ok)
    {
      if !added {
        ok := outbox.Send(skeleton);
        if !ok {
          OfferedPart(old(outbox.sent), old(outbox.room), [skeleton], outbox.sent, outbox.room, [delta]);
          return;
        }
      } else {
        OfferedNothing(outbox.sent, outbox.room);
      }
      ghost var s, r := outbox.sent, outbox.room;
      ok := outbox.Send(delta);
      OfferedThen(old(outbox.sent), old(outbox.room), if added then [] else [skeleton], s, r, [delta], outbox.sent, outbox.room, ok);
    }

    /** The reasoning delta of a choice. */
    method SendThought(c: Choice, ghost before: seq<Choice>) returns (ok: bool)
      requires reasoningAdded == (Thoughts(before) != [])
      modifies this`reasoningAdded, outbox
      ensures reasoningAdded == (Thoughts(before + [c]) != [])
      ensures Offered(old(outbox.sent), old(outbox.room), ThoughtDeltas(before, c), outbox.sent, outbox.room, ok)
    {
      PickOne(before, c, Thought);
      if c.reasoning.Some? && c.reasoning.value != "" {
        var added := reasoningAdded;
        reasoningAdded := true;
        ok := SendDelta(ItemAdded(Reasoning), added, ReasoningDelta(c.reasoning.value));
      } else {
        OfferedNothing(outbox.sent, outbox.room);
        ok := true;
      }
    }

    ghost predicate HoldsText(choices: seq<Choice>)
      reads this
    {
      text == Concat(Contents(choices)) && messageAdded == (Contents(choices) != [])
    }

    /** The text delta of a choice. */
    method SendContent(c: Choice, ghost before: seq<Choice>) returns (ok: bool)
      requires HoldsText(before)
      modifies this`text, this`messageAdded, outbox
      ensures ok ==> HoldsText(before + [c])
      ensures Offered(old(outbox.sent), old(outbox.room), ContentDeltas(before, c), outbox.sent, outbox.room, ok)
    {
      PickOne(before, c, Content);
      if c.content.Some? && c.content.value != "" {
        var added := messageAdded;
        messageAdded := true;
        ConcatAppend(Contents(before), c.content.value);
        text := text + c.content.value;
        ok := SendDelta(ItemAdded(Message([])), added, TextDelta(c.content.value));
      } else {
        assert Contents(before + [c]) == Contents(before);
        OfferedNothing(outbox.sent, outbox.room);
        ok := true;
      }
    }

    method SendDeltas(c: Choice, ghost before: seq<Choice>) returns (ok: bool)
      requires HoldsText(before) && reasoningAdded == (Thoughts(before) != [])
      modifies this`text, this`messageAdded, this`reasoningAdded, outbox
      ensures ok ==> HoldsText(before + [c]) && reasoningAdded == (Thoughts(before + [c]) != [])
      ensures Offered(old(outbox.sent), old(outbox.room), ThoughtDeltas(before, c) + ContentDeltas(before, c), outbox.sent, outbox.room, ok)
    {
      ghost var sent0, room0, thoughts, texts := outbox.sent, outbox.room, ThoughtDeltas(before, c), ContentDeltas(before, c);
      ok := SendThought(c, before);
      if !ok {
        OfferedPart(sent0, room0, thoughts, outbox.sent, outbox.room, texts);
        return;
      }
      ghost var sent1, room1 := outbox.sent, outbox.room;
      ok := SendContent(c, before);
      OfferedThen(sent0, room0, thoughts, sent1, room1, texts, outbox.sent, outbox.room, ok);
    }

    /** The deltas of a choice and its accumulation. */
    method Accumulate(c: Choice, ghost before: seq<Choice>) returns (ok: bool)
      requires HoldsChoices(before)
      modifies this, outbox
      ensures responseId == old(responseId) && usage == old(usage)
      ensures ok ==> HoldsChoices(before + [c])
      ensures Offered(old(outbox.sent), old(outbox.room), ThoughtDeltas(before, c) + ContentDeltas(before, c), outbox.sent, outbox.room, ok)
    {
      NoteFinish(c, before);
      ok := SendDeltas(c, before);
      if ok {
        TakeCalls(c, before);
      }
    }

    method NoteFinish(c: Choice, ghost before: seq<Choice>)
      requires sawFinish == FinishSeen(before)
      modifies this`sawFinish
      ensures sawFinish == FinishSeen(before + [c])
    {
      FinishSeenAppend(before, c);
      if c.finish.Some? && c.finish.value != "" {
        sawFinish := true;
      }
    }

    method TakeCalls(c: Choice, ghost before: seq<Choice>)
      requires CallsHold(toolCalls, Fragments(before))
      modifies this`toolCalls
      ensures CallsHold(toolCalls, Fragments(before + [c]))
    {
      FragmentsAppend(before, c);
      toolCalls := MergeCalls(toolCalls, c.toolCalls, Fragments(before));
    }

    method Receive(chunk: Chunk, ghost chunks: seq<Chunk>) returns (ok: bool)
      requires Holds(chunks)
      modifies this, outbox
      ensures ok ==> Holds(chunks + [chunk])
      ensures Offered(old(outbox.sent), old(outbox.room), NewDeltas(chunks, chunk), outbox.sent, outbox.room, ok)
    {
      HeadersAppend(chunks, chunk);
      PickOne(chunks, chunk, FirstChoice);
      if chunk.id != "" {
        responseId := chunk.id;
      }
      if chunk.usage.Some? {
        usage := Some(ToTokenUsage(chunk.usage.value));
      }
      if |chunk.choices| == 0 {
        OfferedNothing(outbox.sent, outbox.room);
        assert Choices(chunks + [chunk]) == Choices(chunks);
        ok := true;
      } else {
        ok := Accumulate(chunk.choices[0], Choices(chunks));
      }
    }

    /** A finished call is added and at once done. */
    method SendCall(acc: ToolCall, n: nat) returns (ok: bool)
      modifies outbox
      ensures Offered(old(outbox.sent), old(outbox.room), [ItemAdded(CallItem(acc, n)), ItemDone(CallItem(acc, n))], outbox.sent, outbox.room, ok)
    {
      var callId := acc.id;
      if callId == "" {
        callId := "call_" + Decimal(n);
      }
      var item := FunctionCall(acc.name, acc.arguments, callId);
      ok := SendDelta(ItemAdded(item), false, ItemDone(item));
    }

    /** Sends the calls in order. */
    method SendCalls(indices: seq<int>, ghost fragments: seq<Fragment>) returns (ok: bool)
      requires CallsHold(toolCalls, fragments)
      requires forall i :: 0 <= i < |indices| ==> indices[i] in toolCalls
      modifies outbox
      ensures Offered(old(outbox.sent), old(outbox.room), CallItems(fragments, indices), outbox.sent, outbox.room, ok)
    {
      ghost var sent0, room0 := outbox.sent, outbox.room;
      OfferedNothing(sent0, room0);
      for n := 0 to |indices|
        invariant Offered(sent0, room0, CallItems(fragments, indices[..n]), outbox.sent, outbox.room, true)
      {
        ghost var item := CallAt(fragments, indices, n);
        ghost var sent1, room1, sofar := outbox.sent, outbox.room, CallItems(fragments, indices[..n]);
        ok := SendCall(toolCalls[indices[n]], n);
        CallItemsSnoc(fragments, indices, n);
        OfferedThen(sent0, room0, sofar, sent1, room1, [ItemAdded(item), ItemDone(item)], outbox.sent, outbox.room, ok);
        if !ok {
          CallItemsPrefix(fragments, indices, n + 1);
          sofar := CallItems(fragments, indices[..n + 1]);
          OfferedPart(sent0, room0, sofar, outbox.sent, outbox.room, CallItems(fragments, indices)[|sofar|..]);
          return;
        }
      }
      assert indices[..|indices|] == indices;
      ok := true;
    }

    method Finalize(ghost chunks: seq<Chunk>)
      requires Holds(chunks)
      modifies outbox
      ensures outbox.sent == old(outbox.sent) + Through(Flush(chunks), old(outbox.room))
    {
      ghost var sent0, room0 := outbox.sent, outbox.room;
      ghost var choices := Choices(chunks);
      ghost var fragments := Fragments(choices);
      ghost var calls := CallItems(fragments, Indices(fragments));
      var ok := true;
      if messageAdded {
        ok := outbox.Send(ItemDone(Message([text])));
        if !ok {
          OfferedPart(sent0, room0, MessageItems(choices), outbox.sent, outbox.room, calls + [CompletedEvent(chunks)]);
          assert MessageItems(choices) + (calls + [CompletedEvent(chunks)]) == Flush(chunks);
          return;
        }
      } else {
        OfferedNothing(sent0, room0);
      }
      var indices := SortedKeys(toolCalls, fragments);
      ghost var s, r := outbox.sent, outbox.room;
      ok := SendCalls(indices, fragments);
      OfferedThen(sent0, room0, MessageItems(choices), s, r, calls, outbox.sent, outbox.room, ok);
      if !ok {
        OfferedPart(sent0, room0, MessageItems(choices) + calls, outbox.sent, outbox.room, [CompletedEvent(chunks)]);
        return;
      }
      NoCallsNoFragments(toolCalls, fragments);
      s, r := outbox.sent, outbox.room;
      ok := outbox.Send(Completed(responseId, usage, |toolCalls| == 0));
      OfferedThen(sent0, room0, MessageItems(choices) + calls, s, r, [CompletedEvent(chunks)], outbox.sent, outbox.room, ok);
    }

    /** The flush, or the error, that ends the run at the `k`th event. */
    method Close(ghost decode: Decoder, events: seq<SseResult>, k: nat)
      requires k <= |events| && (k < |events| ==> Ends(events[k]))
      requires Holds(Heard(Reads(decode), events[..k]))
      modifies outbox
      ensures outbox.sent == old(outbox.sent) + Through(Closing(decode, events, k), old(outbox.room))
    {
      if k == |events| {
        if sawFinish {
          Finalize(Heard(Reads(decode), events[..k]));
        } else {
          var _ := outbox.Send(Failed(CLOSED_MESSAGE));
        }
      } else if events[k].Event? || (IsStreamClosed(events[k].err) && sawFinish) {
        Finalize(Heard(Reads(decode), events[..k]));
      } else if events[k].err.kind == Timeout {
        var _ := outbox.Send(Failed(IDLE_MESSAGE));
      } else {
        var _ := outbox.Send(Failed(events[k].err.message));
      }
    }

    /** One event that does not end the stream. */
    method Hear(decode: Decoder, events: seq<SseResult>, i: nat) returns (ok: bool)
      requires i < |events| && !Ends(events[i])
      requires Holds(Heard(Reads(decode), events[..i]))
      modifies this, outbox
      ensures ok ==> Holds(Heard(Reads(decode), events[..i + 1]))
      ensures Offered(old(outbox.sent), old(outbox.room), EventDeltas(decode, events, i), outbox.sent, outbox.room, ok)
    {
      HeardStep(Reads(decode), events, i);
      ghost var before := Heard(Reads(decode), events[..i]);
      OfferedNothing(outbox.sent, outbox.room);
      ok := true;
      var data := TrimSpace(events[i].data);
      if data != "" {
        var decoded := decode(data);
        if decoded.Some? {
          ok := Receive(decoded.value, before);
        } else {
          assert Heard(Reads(decode), events[..i + 1]) == before;
        }
      } else {
        assert Heard(Reads(decode), events[..i + 1]) == before;
      }
    }

    /** One more event, after what has been sent since `sent0`. */
    method HearNext(decode: Decoder, events: seq<SseResult>, i: nat, ghost sent0: seq<Out>, ghost room0: nat) returns (ok: bool)
      requires i < |events| && !Ends(events[i])
      requires Holds(Heard(Reads(decode), events[..i]))
      requires Offered(sent0, room0, SoFar(decode, events, i), outbox.sent, outbox.room, true)
      modifies this, outbox
      ensures ok ==> Holds(Heard(Reads(decode), events[..i + 1]))
      ensures Offered(sent0, room0, SoFar(decode, events, i + 1), outbox.sent, outbox.room, ok)
    {
      ghost var sent1, room1 := outbox.sent, outbox.room;
      ok := Hear(decode, events, i);
      SoFarStep(decode, events, i);
      OfferedThen(sent0, room0, SoFar(decode, events, i), sent1, room1, EventDeltas(decode, events, i), outbox.sent, outbox.room, ok);
    }

    /** Listens until the stream ends or the consumer goes away. */
    method Listen(decode: Decoder, events: seq<SseResult>) returns (i: nat, ok: bool)
      requires Holds([])
      modifies this, outbox
      ensures i <= |events| && NoneEnds(Ends, events, i) && (ok ==> EndsAt(Ends, events, i))
      ensures ok ==> Holds(Heard(Reads(decode), events[..i]))
      ensures Offered(old(outbox.sent), old(outbox.room), SoFar(decode, events, i), outbox.sent, outbox.room, ok)
    {
      ghost var sent0, room0 := outbox.sent, outbox.room;
      ok := outbox.Send(Created);
      i := 0;
      while ok && i < |events| && !Ends(events[i])
        invariant i <= |events| && NoneEnds(Ends, events, i)
        invariant ok ==> Holds(Heard(Reads(decode), events[..i]))
        invariant Offered(sent0, room0, SoFar(decode, events, i), outbox.sent, outbox.room, ok)
      {
        ok := HearNext(decode, events, i, sent0, room0);
        NoneEndsStep(Ends, events, i);
        i := i + 1;
      }
    }

    /**
     The whole goroutine, over the events its loop receives. What the consumer
     takes is the run, or, after a cancellation, the part of it that fits.
     */
    method Aggregate(decode: Decoder, events: seq<SseResult>)
      requires Holds([])
      modifies this, outbox
      ensures outbox.sent == old(outbox.sent) + Through(Run(decode, events), old(outbox.room))
    {
      ghost var sent0, room0 := outbox.sent, outbox.room;
      var i, ok := Listen(decode, events);
      if !ok {
        RunStartsWith(decode, events, i);
        ThroughPart(sent0, room0, SoFar(decode, events, i), outbox.sent, outbox.room, Run(decode, events));
      } else {
        EndIndexUnique(Ends, events, i);
        ghost var sent1, room1 := outbox.sent, outbox.room;
        Close(decode, events, i);
        ThroughThen(sent0, room0, SoFar(decode, events, i), sent1, room1, Closing(decode, events, i));
      }
    }
  }

  /** The run so far is part of the run. */
  lemma RunStartsWith(decode: Decoder, events: seq<SseResult>, i: nat)
    requires i <= |events| && NoneEnds(Ends, events, i)
    ensures SoFar(decode, events, i) <= Run(decode, events)
  {
    SoFarGrows(decode, events, i, EndIndex(Ends, events));
  }

  lemma NoCallsNoFragments(calls: map<int, ToolCall>, fragments: seq<Fragment>)
    requires CallsHold(calls, fragments)
    ensures |calls| == 0 <==> fragments == []
  {
    if fragments != [] {
      assert Mentions(fragments, fragments[0].index);
      assert fragments[0].index in calls;
    } else {
      assert forall x: int :: x !in calls;
      assert calls == map[];
    }
  }
}
