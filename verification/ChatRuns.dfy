/**
 What every run of the chat-completions aggregator looks like to its consumer
 (internal/api/chat_completions.go). `ChatStream.ChatAggregator.Aggregate` emits `Run`,
 or a prefix of it when the run is cancelled.
 */
module ChatRuns {

  import opened PatchTypes
  import opened Streams
  import opened Text
  import opened ChatStream

  // ----- Reading a run

  predicate Terminal(o: Out) {
    o.Completed? || o.Failed?
  }

  function DeltaText(o: Out): Option<string> {
    if o.TextDelta? then Some(o.delta) else None
  }

  function DeltaThought(o: Out): Option<string> {
    if o.ReasoningDelta? then Some(o.delta) else None
  }

  function DoneMessage(o: Out): Option<seq<string>> {
    if o.ItemDone? && o.item.Message? then Some(o.item.content) else None
  }

  function DoneCall(o: Out): Option<Item> {
    if o.ItemDone? && o.item.FunctionCall? then Some(o.item) else None
  }

  function AddedCall(o: Out): Option<Item> {
    if o.ItemAdded? && o.item.FunctionCall? then Some(o.item) else None
  }

  /** The first choices of the chunks heard before the stream ends. */
  function ChoicesHeard(decode: Decoder, events: seq<SseResult>): seq<Choice> {
    Choices(Heard(Reads(decode), events[..EndIndex(Ends, events)]))
  }

  function Last(run: seq<Out>): Out
    requires run != []
  {
    run[|run| - 1]
  }

  // ----- Events of the middle of a run

  predicate IsDelta(o: Out) {
    o == ItemAdded(Reasoning) || o == ItemAdded(Message([])) || o.TextDelta? || o.ReasoningDelta?
  }

  predicate IsFlushed(o: Out) {
    || (o.ItemDone? && (o.item.Message? || o.item.FunctionCall?))
    || (o.ItemAdded? && o.item.FunctionCall?)
  }

  ghost predicate AllDeltas(s: seq<Out>) {
    forall i :: 0 <= i < |s| ==> IsDelta(s[i])
  }

  ghost predicate AllFlushed(s: seq<Out>) {
    forall i :: 0 <= i < |s| ==> IsFlushed(s[i])
  }

  lemma {:induction false} DeltasOnly(choices: seq<Choice>)
    ensures AllDeltas(Deltas(choices))
  {
    if choices != [] {
      var n := |choices| - 1;
      DeltasOnly(choices[..n]);
      DeltasOnlyStep(Deltas(choices[..n]), choices[..n], choices[n]);
    }
  }

  lemma DeltasOnlyStep(deltas: seq<Out>, before: seq<Choice>, c: Choice)
    requires AllDeltas(deltas)
    ensures AllDeltas(deltas + ThoughtDeltas(before, c) + ContentDeltas(before, c))
  {
  }

  lemma CallItemsFlushed(fragments: seq<Fragment>, indices: seq<int>)
    ensures AllFlushed(CallItems(fragments, indices))
  {
  }

  /** A run put together from its deltas, what it flushes, and its end. */
  function Whole(deltas: seq<Out>, flushed: seq<Out>, end: Out): seq<Out> {
    [Created] + deltas + flushed + [end]
  }

  lemma RunParts(decode: Decoder, events: seq<SseResult>) returns (deltas: seq<Out>, flushed: seq<Out>, end: Out)
    ensures Run(decode, events) == Whole(deltas, flushed, end)
    ensures deltas == Deltas(ChoicesHeard(decode, events)) && AllDeltas(deltas) && AllFlushed(flushed) && Terminal(end)
    ensures end.Completed? <==> Completes(decode, events, EndIndex(Ends, events))
    ensures end.Failed? ==> flushed == []
    ensures end.Completed? ==> end == CompletedEvent(Heard(Reads(decode), events[..EndIndex(Ends, events)]))
    ensures end.Completed? ==>
              var choices := ChoicesHeard(decode, events);
              var fragments := Fragments(choices);
              flushed == MessageItems(choices) + CallItems(fragments, Indices(fragments))
  {
    var k := EndIndex(Ends, events);
    var chunks := Heard(Reads(decode), events[..k]);
    var choices := Choices(chunks);
    var fragments := Fragments(choices);
    deltas := Deltas(choices);
    DeltasOnly(choices);
    var head := [Created] + deltas;
    if Completes(decode, events, k) {
      CallItemsFlushed(fragments, Indices(fragments));
      flushed, end := MessageItems(choices) + CallItems(fragments, Indices(fragments)), CompletedEvent(chunks);
      assert head + Flush(chunks) == head + flushed + [end];
    } else {
      flushed, end := [], Failed(ErrorText(events, k));
      assert head + [end] == head + [] + [end];
    }
  }

  // ----- The shape of every run

  /** `Created` comes first and once, and exactly one terminal result comes, last. */
  ghost predicate Shaped(run: seq<Out>) {
    && |run| >= 2 && run[0] == Created && Terminal(Last(run))
    && forall i :: 0 < i < |run| - 1 ==> !run[i].Created? && !Terminal(run[i])
  }

  lemma WholeShaped(deltas: seq<Out>, flushed: seq<Out>, end: Out)
    requires AllDeltas(deltas) && AllFlushed(flushed) && Terminal(end)
    ensures Shaped(Whole(deltas, flushed, end)) && Last(Whole(deltas, flushed, end)) == end
  {
    var run := Whole(deltas, flushed, end);
    forall i | 0 < i < |run| - 1
      ensures IsDelta(run[i]) || IsFlushed(run[i])
    {
      assert run[i] == if i <= |deltas| then deltas[i - 1] else flushed[i - 1 - |deltas|];
    }
  }

  lemma RunShape(decode: Decoder, events: seq<SseResult>)
    ensures Shaped(Run(decode, events))
  {
    var deltas, flushed, end := RunParts(decode, events);
    WholeShaped(deltas, flushed, end);
  }

  ghost predicate NothingDone(run: seq<Out>) {
    forall i :: 0 <= i < |run| ==> !run[i].ItemDone?
  }

  lemma FailedNothingDone(deltas: seq<Out>, end: Out)
    requires AllDeltas(deltas) && end.Failed?
    ensures NothingDone(Whole(deltas, [], end))
  {
  }

  /**
   A run completes exactly when a done marker ends it, or a close after a finish
   reason; a run that does not complete leaves no item done.
   */
  lemma RunCompletes(decode: Decoder, events: seq<SseResult>)
    ensures Shaped(Run(decode, events))
    ensures Last(Run(decode, events)).Completed? <==> Completes(decode, events, EndIndex(Ends, events))
    ensures Last(Run(decode, events)).Failed? ==> NothingDone(Run(decode, events))
  {
    var deltas, flushed, end := RunParts(decode, events);
    WholeShaped(deltas, flushed, end);
    if end.Failed? {
      FailedNothingDone(deltas, end);
    }
  }

  // ----- Text

  lemma ThoughtDeltasPicked(before: seq<Choice>, c: Choice)
    ensures Pick(ThoughtDeltas(before, c), DeltaText) == []
    ensures Pick(ThoughtDeltas(before, c), DeltaThought) == match Thought(c) case Some(d) => [d] case None => []
  {
    PickNone(ThoughtDeltas(before, c), DeltaText);
    if Thought(c).Some? {
      PickOne(if Thoughts(before) == [] then [ItemAdded(Reasoning)] else [], ReasoningDelta(Thought(c).value), DeltaThought);
    }
  }

  lemma ContentDeltasPicked(before: seq<Choice>, c: Choice)
    ensures Pick(ContentDeltas(before, c), DeltaThought) == []
    ensures Pick(ContentDeltas(before, c), DeltaText) == match Content(c) case Some(d) => [d] case None => []
  {
    PickNone(ContentDeltas(before, c), DeltaThought);
    if Content(c).Some? {
      PickOne(if Contents(before) == [] then [ItemAdded(Message([]))] else [], TextDelta(Content(c).value), DeltaText);
    }
  }

  lemma {:induction false} DeltasPicked(choices: seq<Choice>)
    ensures Pick(Deltas(choices), DeltaText) == Contents(choices)
    ensures Pick(Deltas(choices), DeltaThought) == Thoughts(choices)
  {
    if choices != [] {
      var n := |choices| - 1;
      DeltasPicked(choices[..n]);
      DeltasPickedStep(choices[..n], choices[n]);
      assert choices == choices[..n] + [choices[n]];
    }
  }

  lemma DeltasPickedStep(before: seq<Choice>, c: Choice)
    requires Pick(Deltas(before), DeltaText) == Contents(before)
    requires Pick(Deltas(before), DeltaThought) == Thoughts(before)
    ensures Pick(Deltas(before + [c]), DeltaText) == Contents(before + [c])
    ensures Pick(Deltas(before + [c]), DeltaThought) == Thoughts(before + [c])
  {
    ChoicesAppend(before, c);
    ThoughtDeltasPicked(before, c);
    ContentDeltasPicked(before, c);
    assert Deltas(before) + (ThoughtDeltas(before, c) + ContentDeltas(before, c)) ==
           Deltas(before) + ThoughtDeltas(before, c) + ContentDeltas(before, c);
    TextPicked(Deltas(before), ThoughtDeltas(before, c), ContentDeltas(before, c), before, c);
    ThoughtPicked(Deltas(before), ThoughtDeltas(before, c), ContentDeltas(before, c), before, c);
  }

  lemma TextPicked(deltas: seq<Out>, thoughts: seq<Out>, texts: seq<Out>, before: seq<Choice>, c: Choice)
    requires Pick(deltas, DeltaText) == Contents(before) && Pick(thoughts, DeltaText) == []
    requires Pick(texts, DeltaText) == match Content(c) case Some(d) => [d] case None => []
    ensures Pick(deltas + thoughts + texts, DeltaText) == Contents(before + [c])
  {
    PickThree(deltas, thoughts, texts, DeltaText);
    PickOne(before, c, Content);
  }

  lemma ThoughtPicked(deltas: seq<Out>, thoughts: seq<Out>, texts: seq<Out>, before: seq<Choice>, c: Choice)
    requires Pick(deltas, DeltaThought) == Thoughts(before) && Pick(texts, DeltaThought) == []
    requires Pick(thoughts, DeltaThought) == match Thought(c) case Some(d) => [d] case None => []
    ensures Pick(deltas + thoughts + texts, DeltaThought) == Thoughts(before + [c])
  {
    PickThree(deltas, thoughts, texts, DeltaThought);
    PickOne(before, c, Thought);
  }

  /** What a selection that ignores the head and the end of a run finds in it. */
  lemma PickRun<U>(deltas: seq<Out>, flushed: seq<Out>, end: Out, f: Out -> Option<U>)
    requires f(Created).None? && f(end).None?
    ensures Pick(Whole(deltas, flushed, end), f) == Pick(deltas, f) + Pick(flushed, f)
  {
    PickThree([Created], deltas, flushed, f);
    PickOne([Created] + deltas + flushed, end, f);
  }

  lemma PickMessageItems(choices: seq<Choice>)
    ensures Pick(MessageItems(choices), DoneMessage) == if Contents(choices) == [] then [] else [[Concat(Contents(choices))]]
  {
    var text := [Concat(Contents(choices))];
    assert Pick([ItemDone(Message(text))], DoneMessage) == [text] + Pick([], DoneMessage);
  }

  lemma CallsAreNotMessages(fragments: seq<Fragment>, indices: seq<int>)
    ensures Pick(CallItems(fragments, indices), DoneMessage) == []
  {
    PickNone(CallItems(fragments, indices), DoneMessage);
  }

  lemma FlushedMessages(choices: seq<Choice>, calls: seq<Out>)
    requires Pick(calls, DoneMessage) == []
    ensures Pick(MessageItems(choices) + calls, DoneMessage) ==
            if Contents(choices) == [] then [] else [[Concat(Contents(choices))]]
  {
    PickAppend(MessageItems(choices), calls, DoneMessage);
    PickMessageItems(choices);
  }

  lemma PickedFromDeltas<U>(deltas: seq<Out>, flushed: seq<Out>, end: Out, f: Out -> Option<U>)
    requires f(Created).None? && f(end).None? && forall i :: 0 <= i < |flushed| ==> f(flushed[i]).None?
    ensures Pick(Whole(deltas, flushed, end), f) == Pick(deltas, f)
  {
    PickRun(deltas, flushed, end, f);
    PickNone(flushed, f);
  }

  lemma PickedFromFlushed<U>(deltas: seq<Out>, flushed: seq<Out>, end: Out, f: Out -> Option<U>)
    requires f(Created).None? && f(end).None? && forall i :: 0 <= i < |deltas| ==> f(deltas[i]).None?
    ensures Pick(Whole(deltas, flushed, end), f) == Pick(flushed, f)
  {
    PickRun(deltas, flushed, end, f);
    PickNone(deltas, f);
  }

  /** Selections that deltas and flushed items answer separately. */
  lemma WholePicked(deltas: seq<Out>, flushed: seq<Out>, end: Out)
    requires AllDeltas(deltas) && AllFlushed(flushed) && Terminal(end)
    ensures Pick(Whole(deltas, flushed, end), DeltaText) == Pick(deltas, DeltaText)
    ensures Pick(Whole(deltas, flushed, end), DeltaThought) == Pick(deltas, DeltaThought)
    ensures Pick(Whole(deltas, flushed, end), DoneMessage) == Pick(flushed, DoneMessage)
    ensures Pick(Whole(deltas, flushed, end), AddedCall) == Pick(flushed, AddedCall)
    ensures Pick(Whole(deltas, flushed, end), DoneCall) == Pick(flushed, DoneCall)
  {
    PickedFromDeltas(deltas, flushed, end, DeltaText);
    PickedFromDeltas(deltas, flushed, end, DeltaThought);
    PickedFromFlushed(deltas, flushed, end, DoneMessage);
    PickedFromFlushed(deltas, flushed, end, AddedCall);
    PickedFromFlushed(deltas, flushed, end, DoneCall);
  }

  /**
   The deltas of a run are the non-empty contents and thoughts heard, in order,
   and the text deltas concatenate to the text of the one message that a
   completed run finishes; without text there is no message.
   */
  lemma TextConcatenates(decode: Decoder, events: seq<SseResult>)
    ensures var run := Run(decode, events);
            var texts := Pick(run, DeltaText);
            && texts == Contents(ChoicesHeard(decode, events))
            && Pick(run, DeltaThought) == Thoughts(ChoicesHeard(decode, events))
            && Pick(run, DoneMessage) ==
               if texts == [] || !Completes(decode, events, EndIndex(Ends, events)) then [] else [[Concat(texts)]]
  {
    var deltas, flushed, end := RunParts(decode, events);
    var choices := ChoicesHeard(decode, events);
    DeltasPicked(choices);
    WholePicked(deltas, flushed, end);
    if end.Completed? {
      var calls := CallItems(Fragments(choices), Indices(Fragments(choices)));
      CallsAreNotMessages(Fragments(choices), Indices(Fragments(choices)));
      FlushedMessages(choices, calls);
    }
  }

  // ----- Skeletons

  /** The skeleton occurs once, right before the first delta; without a delta, not at all. */
  ghost predicate Opens(s: seq<Out>, skeleton: Out, delta: Out -> Option<string>) {
    if Pick(s, delta) == [] then skeleton !in s
    else exists i :: OpensAt(s, skeleton, delta, i)
  }

  ghost predicate OpensAt(s: seq<Out>, skeleton: Out, delta: Out -> Option<string>, i: int) {
    && 0 <= i < |s| - 1 && s[i] == skeleton && delta(s[i + 1]).Some?
    && (forall j :: 0 <= j < |s| && s[j] == skeleton ==> j == i)
    && (forall j :: 0 <= j < i ==> delta(s[j]).None?)
  }

  /** Events that are neither may follow and precede. */
  lemma OpensWithin(r: seq<Out>, s: seq<Out>, t: seq<Out>, skeleton: Out, delta: Out -> Option<string>)
    requires Opens(s, skeleton, delta) && delta(skeleton).None?
    requires forall i :: 0 <= i < |r| ==> r[i] != skeleton && delta(r[i]).None?
    requires forall i :: 0 <= i < |t| ==> t[i] != skeleton && delta(t[i]).None?
    ensures Opens(r + s + t, skeleton, delta)
  {
    var all := r + s + t;
    PickThree(r, s, t, delta);
    PickNone(r, delta);
    PickNone(t, delta);
    if Pick(s, delta) != [] {
      var i :| OpensAt(s, skeleton, delta, i);
      OpensAtWithin(r, s, t, skeleton, delta, i);
    }
  }

  lemma OpensAtWithin(r: seq<Out>, s: seq<Out>, t: seq<Out>, skeleton: Out, delta: Out -> Option<string>, i: int)
    requires OpensAt(s, skeleton, delta, i)
    requires forall i :: 0 <= i < |r| ==> r[i] != skeleton && delta(r[i]).None?
    requires forall i :: 0 <= i < |t| ==> t[i] != skeleton
    ensures OpensAt(r + s + t, skeleton, delta, |r| + i)
  {
    var all := r + s + t;
    assert all[|r| + i] == s[i] && all[|r| + i + 1] == s[i + 1];
    forall j | 0 <= j < |all| && all[j] == skeleton
      ensures j == |r| + i
    {
      assert j >= |r| && j < |r| + |s|;
      assert s[j - |r|] == skeleton;
    }
    forall j | 0 <= j < |r| + i
      ensures delta(all[j]).None?
    {
      if j >= |r| {
        assert all[j] == s[j - |r|];
      }
    }
  }

  /** A further delta, opened if it is the first. */
  lemma OpensMore(s: seq<Out>, skeleton: Out, delta: Out -> Option<string>, d: Out)
    requires Opens(s, skeleton, delta) && delta(skeleton).None? && delta(d).Some? && d != skeleton
    ensures Opens(s + (if Pick(s, delta) == [] then [skeleton] else []) + [d], skeleton, delta)
  {
    if Pick(s, delta) == [] {
      SilentDeltas(s, delta);
      FirstOpens(s, skeleton, delta, d);
    } else {
      var i :| OpensAt(s, skeleton, delta, i);
      LaterOpens(s, skeleton, delta, d, i);
      assert s + [] + [d] == s + [d];
    }
  }

  lemma FirstOpens(s: seq<Out>, skeleton: Out, delta: Out -> Option<string>, d: Out)
    requires skeleton !in s && (forall j :: 0 <= j < |s| ==> delta(s[j]).None?) && delta(d).Some? && d != skeleton
    ensures Opens(s + [skeleton] + [d], skeleton, delta)
  {
    var all := s + [skeleton] + [d];
    PickOne(s + [skeleton], d, delta);
    assert all[|s|] == skeleton && all[|s| + 1] == d;
    assert OpensAt(all, skeleton, delta, |s|);
  }

  lemma LaterOpens(s: seq<Out>, skeleton: Out, delta: Out -> Option<string>, d: Out, i: int)
    requires OpensAt(s, skeleton, delta, i) && delta(d).Some? && d != skeleton
    ensures Opens(s + [d], skeleton, delta)
  {
    PickOne(s, d, delta);
    OpensAtWithin([], s, [d], skeleton, delta, i);
    assert [] + s + [d] == s + [d];
  }

  lemma {:induction false} SilentDeltas(s: seq<Out>, delta: Out -> Option<string>)
    requires Pick(s, delta) == []
    ensures forall j :: 0 <= j < |s| ==> delta(s[j]).None?
  {
    if s != [] {
      SilentDeltas(s[1..], delta);
      assert forall j :: 1 <= j < |s| ==> s[j] == s[1..][j - 1];
    }
  }

  lemma {:induction false} DeltasOpen(choices: seq<Choice>)
    ensures Opens(Deltas(choices), ItemAdded(Message([])), DeltaText)
    ensures Opens(Deltas(choices), ItemAdded(Reasoning), DeltaThought)
  {
    if choices != [] {
      var n := |choices| - 1;
      DeltasOpen(choices[..n]);
      DeltasPicked(choices[..n]);
      DeltasOpenStep(Deltas(choices[..n]), choices[..n], choices[n]);
    }
  }

  lemma DeltasOpenStep(deltas: seq<Out>, before: seq<Choice>, c: Choice)
    requires Opens(deltas, ItemAdded(Message([])), DeltaText) && Pick(deltas, DeltaText) == Contents(before)
    requires Opens(deltas, ItemAdded(Reasoning), DeltaThought) && Pick(deltas, DeltaThought) == Thoughts(before)
    ensures Opens(deltas + ThoughtDeltas(before, c) + ContentDeltas(before, c), ItemAdded(Message([])), DeltaText)
    ensures Opens(deltas + ThoughtDeltas(before, c) + ContentDeltas(before, c), ItemAdded(Reasoning), DeltaThought)
  {
    MessageOpens(deltas, ThoughtDeltas(before, c), before, c);
    ThoughtsOpen(deltas, before, c);
    ReasoningOpens(deltas + ThoughtDeltas(before, c), before, c);
  }

  lemma MessageOpens(deltas: seq<Out>, thoughts: seq<Out>, before: seq<Choice>, c: Choice)
    requires Opens(deltas, ItemAdded(Message([])), DeltaText) && Pick(deltas, DeltaText) == Contents(before)
    requires thoughts == ThoughtDeltas(before, c)
    ensures Opens(deltas + thoughts + ContentDeltas(before, c), ItemAdded(Message([])), DeltaText)
  {
    OpensThen(deltas, thoughts, ItemAdded(Message([])), DeltaText);
    PickAppend(deltas, thoughts, DeltaText);
    PickNone(thoughts, DeltaText);
    ContentsOpen(deltas + thoughts, before, c);
  }

  lemma ReasoningOpens(s: seq<Out>, before: seq<Choice>, c: Choice)
    requires Opens(s, ItemAdded(Reasoning), DeltaThought)
    ensures Opens(s + ContentDeltas(before, c), ItemAdded(Reasoning), DeltaThought)
  {
    OpensThen(s, ContentDeltas(before, c), ItemAdded(Reasoning), DeltaThought);
  }

  lemma OpensThen(s: seq<Out>, t: seq<Out>, skeleton: Out, delta: Out -> Option<string>)
    requires Opens(s, skeleton, delta) && delta(skeleton).None?
    requires forall i :: 0 <= i < |t| ==> t[i] != skeleton && delta(t[i]).None?
    ensures Opens(s + t, skeleton, delta)
  {
    OpensWithin([], s, t, skeleton, delta);
    assert [] + s + t == s + t;
  }

  lemma ThoughtsOpen(s: seq<Out>, before: seq<Choice>, c: Choice)
    requires Opens(s, ItemAdded(Reasoning), DeltaThought) && Pick(s, DeltaThought) == Thoughts(before)
    ensures Opens(s + ThoughtDeltas(before, c), ItemAdded(Reasoning), DeltaThought)
  {
    if Thought(c).Some? {
      OpensMore(s, ItemAdded(Reasoning), DeltaThought, ReasoningDelta(Thought(c).value));
      assert s + ThoughtDeltas(before, c) ==
             s + (if Thoughts(before) == [] then [ItemAdded(Reasoning)] else []) + [ReasoningDelta(Thought(c).value)];
    } else {
      assert s + [] == s;
    }
  }

  lemma ContentsOpen(s: seq<Out>, before: seq<Choice>, c: Choice)
    requires Opens(s, ItemAdded(Message([])), DeltaText) && Pick(s, DeltaText) == Contents(before)
    ensures Opens(s + ContentDeltas(before, c), ItemAdded(Message([])), DeltaText)
  {
    if Content(c).Some? {
      OpensMore(s, ItemAdded(Message([])), DeltaText, TextDelta(Content(c).value));
      assert s + ContentDeltas(before, c) ==
             s + (if Contents(before) == [] then [ItemAdded(Message([]))] else []) + [TextDelta(Content(c).value)];
    } else {
      assert s + [] == s;
    }
  }

  /** In every run the message and the reasoning are added once, right before their first delta. */
  lemma SkeletonsComeFirst(decode: Decoder, events: seq<SseResult>)
    ensures Opens(Run(decode, events), ItemAdded(Message([])), DeltaText)
    ensures Opens(Run(decode, events), ItemAdded(Reasoning), DeltaThought)
  {
    var deltas, flushed, end := RunParts(decode, events);
    DeltasOpen(ChoicesHeard(decode, events));
    WholeOpens(deltas, flushed, end, ItemAdded(Message([])), DeltaText);
    WholeOpens(deltas, flushed, end, ItemAdded(Reasoning), DeltaThought);
  }

  lemma WholeOpens(deltas: seq<Out>, flushed: seq<Out>, end: Out, skeleton: Out, delta: Out -> Option<string>)
    requires AllFlushed(flushed) && Terminal(end) && Opens(deltas, skeleton, delta)
    requires skeleton == ItemAdded(Message([])) || skeleton == ItemAdded(Reasoning)
    requires delta(skeleton).None? && forall o: Out :: delta(o).Some? ==> o.TextDelta? || o.ReasoningDelta?
    ensures Opens(Whole(deltas, flushed, end), skeleton, delta)
  {
    OpensWithin([Created], deltas, flushed + [end], skeleton, delta);
    assert [Created] + deltas + (flushed + [end]) == Whole(deltas, flushed, end);
  }

  // ----- Tool calls

  /** The items of the calls, by ascending index. */
  function Calls(fragments: seq<Fragment>, indices: seq<int>): seq<Item> {
    seq(|indices|, n requires 0 <= n < |indices| => CallAt(fragments, indices, n))
  }

  lemma {:induction false} CallsPicked(fragments: seq<Fragment>, indices: seq<int>)
    ensures Pick(CallItems(fragments, indices), AddedCall) == Calls(fragments, indices)
    ensures Pick(CallItems(fragments, indices), DoneCall) == Calls(fragments, indices)
  {
    if indices != [] {
      var n := |indices| - 1;
      var before := CallItems(fragments, indices[..n]);
      CallsPicked(fragments, indices[..n]);
      CallItemsSnoc(fragments, indices, n);
      assert indices[..n + 1] == indices;
      PairAppended(before, CallAt(fragments, indices, n));
      CallsLast(fragments, indices);
    }
  }

  lemma CallsLast(fragments: seq<Fragment>, indices: seq<int>)
    requires indices != []
    ensures var n := |indices| - 1;
            Calls(fragments, indices) == Calls(fragments, indices[..n]) + [CallAt(fragments, indices, n)]
  {
  }

  lemma PairAppended(before: seq<Out>, item: Item)
    requires item.FunctionCall?
    ensures Pick(before + [ItemAdded(item), ItemDone(item)], AddedCall) == Pick(before, AddedCall) + [item]
    ensures Pick(before + [ItemAdded(item), ItemDone(item)], DoneCall) == Pick(before, DoneCall) + [item]
  {
    PickAppend(before, [ItemAdded(item), ItemDone(item)], AddedCall);
    PickAppend(before, [ItemAdded(item), ItemDone(item)], DoneCall);
    PairPicked(item);
  }

  lemma PairPicked(item: Item)
    requires item.FunctionCall?
    ensures Pick([ItemAdded(item), ItemDone(item)], AddedCall) == [item]
    ensures Pick([ItemAdded(item), ItemDone(item)], DoneCall) == [item]
  {
    var pair := [ItemAdded(item), ItemDone(item)];
    PickOne([ItemAdded(item)], ItemDone(item), AddedCall);
    PickOne([ItemAdded(item)], ItemDone(item), DoneCall);
    PickOne([], ItemAdded(item), AddedCall);
    PickOne([], ItemAdded(item), DoneCall);
    assert pair == [ItemAdded(item)] + [ItemDone(item)];
    assert [] + [ItemAdded(item)] == [ItemAdded(item)];
  }

  /**
   A completed run adds and finishes one call per distinct index, in ascending
   order of the indices; every call is its fragments put together in arrival
   order; and the turn ends exactly when there is no call. A run that does not
   complete emits no call.
   */
  lemma ToolCallsAssembled(decode: Decoder, events: seq<SseResult>) returns (indices: seq<int>)
    ensures Ascending(indices)
    ensures forall x: int :: x in indices <==> Mentions(Fragments(ChoicesHeard(decode, events)), x)
    ensures Shaped(Run(decode, events)) && CallsAre(Run(decode, events), Fragments(ChoicesHeard(decode, events)), indices)
    ensures CallsFinish(Run(decode, events))
  {
    var deltas, flushed, end := RunParts(decode, events);
    var choices := ChoicesHeard(decode, events);
    var fragments := Fragments(choices);
    indices := Indices(fragments);
    IndicesMeaning(fragments);
    WholeShaped(deltas, flushed, end);
    if end.Completed? {
      FlushedCalls(choices, fragments, indices);
      PairsFinish(deltas, choices, fragments, indices, end);
      NoIndices(fragments);
    } else {
      FailedFinishes(deltas, end);
    }
    WholeCalls(deltas, flushed, end, fragments, indices);
  }

  lemma WholeCalls(deltas: seq<Out>, flushed: seq<Out>, end: Out, fragments: seq<Fragment>, indices: seq<int>)
    requires AllDeltas(deltas) && AllFlushed(flushed) && Terminal(end)
    requires end.Completed? ==> Pick(flushed, AddedCall) == Calls(fragments, indices) == Pick(flushed, DoneCall)
    requires end.Completed? ==> (end.endTurn <==> indices == [])
    requires end.Failed? ==> flushed == []
    ensures CallsAre(Whole(deltas, flushed, end), fragments, indices)
  {
    WholePicked(deltas, flushed, end);
  }

  lemma FailedFinishes(deltas: seq<Out>, end: Out)
    requires AllDeltas(deltas) && end.Failed?
    ensures CallsFinish(Whole(deltas, [], end))
  {
  }

  /** What a run says of its calls. */
  ghost predicate CallsAre(run: seq<Out>, fragments: seq<Fragment>, indices: seq<int>) {
    && run != []
    && Pick(run, DoneCall) == Pick(run, AddedCall)
    && (Last(run).Completed? ==> Pick(run, DoneCall) == Calls(fragments, indices))
    && (Last(run).Completed? ==> (Last(run).endTurn <==> Pick(run, DoneCall) == []))
    && (Last(run).Failed? ==> Pick(run, DoneCall) == [])
  }

  /** Every call that is added is finished by the next event. */
  ghost predicate CallsFinish(run: seq<Out>) {
    forall i :: 0 <= i < |run| && AddedCall(run[i]).Some? ==> i + 1 < |run| && run[i + 1] == ItemDone(run[i].item)
  }

  lemma NoIndices(fragments: seq<Fragment>)
    ensures fragments == [] <==> Indices(fragments) == []
  {
    IndicesMeaning(fragments);
    if fragments != [] {
      assert Mentions(fragments, fragments[0].index);
      assert fragments[0].index in Indices(fragments);
    }
  }

  lemma FlushedCalls(choices: seq<Choice>, fragments: seq<Fragment>, indices: seq<int>)
    ensures Pick(MessageItems(choices) + CallItems(fragments, indices), AddedCall) == Calls(fragments, indices)
    ensures Pick(MessageItems(choices) + CallItems(fragments, indices), DoneCall) == Calls(fragments, indices)
  {
    CallsPicked(fragments, indices);
    PickAppend(MessageItems(choices), CallItems(fragments, indices), AddedCall);
    PickAppend(MessageItems(choices), CallItems(fragments, indices), DoneCall);
    PickNone(MessageItems(choices), AddedCall);
    PickNone(MessageItems(choices), DoneCall);
  }

  ghost predicate AddsNoCall(s: seq<Out>) {
    forall i :: 0 <= i < |s| ==> AddedCall(s[i]).None?
  }

  lemma PairsFinish(deltas: seq<Out>, choices: seq<Choice>, fragments: seq<Fragment>, indices: seq<int>, end: Out)
    requires AllDeltas(deltas) && Terminal(end)
    ensures CallsFinish(Whole(deltas, MessageItems(choices) + CallItems(fragments, indices), end))
  {
    assert AddsNoCall(MessageItems(choices));
    WholeRegrouped(deltas, MessageItems(choices), CallItems(fragments, indices), end);
    HeadAddsNoCall(deltas, MessageItems(choices));
    CallsFinishAfter([Created] + deltas + MessageItems(choices), fragments, indices, end);
  }

  lemma WholeRegrouped(deltas: seq<Out>, message: seq<Out>, calls: seq<Out>, end: Out)
    ensures Whole(deltas, message + calls, end) == [Created] + deltas + message + calls + [end]
  {
  }

  lemma HeadAddsNoCall(deltas: seq<Out>, message: seq<Out>)
    requires AllDeltas(deltas) && AddsNoCall(message)
    ensures AddsNoCall([Created] + deltas + message)
  {
  }

  lemma CallsFinishAfter(head: seq<Out>, fragments: seq<Fragment>, indices: seq<int>, end: Out)
    requires AddsNoCall(head) && AddedCall(end).None?
    ensures CallsFinish(head + CallItems(fragments, indices) + [end])
  {
    var calls := CallItems(fragments, indices);
    CallItemsFinish(fragments, indices);
    Embedded(head, calls, end);
  }

  /** Among the call events alone, an added call is finished by the next event, within them. */
  lemma CallItemsFinish(fragments: seq<Fragment>, indices: seq<int>)
    ensures CallsFinish(CallItems(fragments, indices))
  {
    var calls := CallItems(fragments, indices);
    forall i | 0 <= i < |calls| && AddedCall(calls[i]).Some?
      ensures i + 1 < |calls| && calls[i + 1] == ItemDone(calls[i].item)
    {
      assert i % 2 == 0 && (i + 1) / 2 == i / 2;
    }
  }

  lemma Embedded(head: seq<Out>, calls: seq<Out>, end: Out)
    requires AddsNoCall(head) && CallsFinish(calls) && AddedCall(end).None?
    ensures CallsFinish(head + calls + [end])
  {
    var run := head + calls + [end];
    forall i | 0 <= i < |run| && AddedCall(run[i]).Some?
      ensures i + 1 < |run| && run[i + 1] == ItemDone(run[i].item)
    {
      assert |head| <= i < |head| + |calls|;
      assert run[i] == calls[i - |head|];
      assert run[i + 1] == calls[i + 1 - |head|];
    }
  }

  lemma {:induction false} MentionedIff(fragments: seq<Fragment>, index: int)
    ensures Mentions(fragments, index) <==> Of(fragments, index) != []
  {
    if fragments != [] {
      var n := |fragments| - 1;
      var before := fragments[..n];
      assert fragments == before + [fragments[n]];
      MentionsAppend(before, fragments[n], index);
      MentionedIff(before, index);
    }
  }

  /** How the fragments of different calls interleave does not show in the finished calls. */
  lemma InterleavingIrrelevant(p: seq<Fragment>, q: seq<Fragment>)
    requires forall x: int :: Of(p, x) == Of(q, x)
    ensures Calls(p, Indices(p)) == Calls(q, Indices(q))
  {
    IndicesMeaning(p);
    IndicesMeaning(q);
    forall x: int
      ensures x in Indices(p) <==> x in Indices(q)
    {
      MentionedIff(p, x);
      MentionedIff(q, x);
      assert Of(p, x) == Of(q, x);
    }
    AscendingUnique(Indices(p), Indices(q));
    SameAssembled(p, q, Indices(p));
  }

  lemma SameAssembled(p: seq<Fragment>, q: seq<Fragment>, indices: seq<int>)
    requires forall x: int :: Of(p, x) == Of(q, x)
    ensures Calls(p, indices) == Calls(q, indices)
  {
    forall n | 0 <= n < |indices|
      ensures CallAt(p, indices, n) == CallAt(q, indices, n)
    {
      assert Of(p, indices[n]) == Of(q, indices[n]);
    }
  }
}
