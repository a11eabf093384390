/**
 What the two stream aggregators share: the results of the server-sent-event
 reader (internal/client/sse.go), and an output channel whose consumer may go
 away (the `send` closures of internal/api).
 */
module Streams {

  import opened PatchTypes

  datatype StreamErrorKind = Stream | Timeout

  datatype StreamError = StreamError(kind: StreamErrorKind, message: string)

  datatype SseResult = Event(data: string) | Failure(err: StreamError)

  const CLOSED_MESSAGE := "stream closed before response.completed"
  const IDLE_MESSAGE := "idle timeout waiting for SSE"

  predicate IsStreamClosed(err: StreamError) {
    err.kind == Stream && err.message == "stream closed before completion"
  }

  // ----- Selecting from a run

  /** The values that `f` finds in a sequence, in order. */
  function Pick<T, U>(s: seq<T>, f: T -> Option<U>): seq<U> {
    if s == [] then []
    else (match f(s[0]) case Some(u) => [u] case None => []) + Pick(s[1..], f)
  }

  lemma {:induction false} PickAppend<T, U>(s: seq<T>, t: seq<T>, f: T -> Option<U>)
    ensures Pick(s + t, f) == Pick(s, f) + Pick(t, f)
  {
    if s == [] {
      assert s + t == t;
    } else {
      assert (s + t)[1..] == s[1..] + t;
      PickAppend(s[1..], t, f);
    }
  }

  lemma {:induction false} PickNone<T, U>(s: seq<T>, f: T -> Option<U>)
    requires forall i :: 0 <= i < |s| ==> f(s[i]).None?
    ensures Pick(s, f) == []
  {
    if s != [] {
      PickNone(s[1..], f);
    }
  }

  lemma PickOne<T, U>(s: seq<T>, x: T, f: T -> Option<U>)
    ensures Pick(s + [x], f) == Pick(s, f) + match f(x) case Some(u) => [u] case None => []
  {
    PickAppend(s, [x], f);
    assert [x][1..] == [];
  }

  lemma PickThree<T, U>(r: seq<T>, s: seq<T>, t: seq<T>, f: T -> Option<U>)
    ensures Pick(r + s + t, f) == Pick(r, f) + Pick(s, f) + Pick(t, f)
  {
    PickAppend(r + s, t, f);
    PickAppend(r, s, f);
  }

  // ----- Where a stream ends

  /** What ends a stream, if it comes. */
  type Ending = SseResult -> bool

  predicate NoneEnds(ends: Ending, events: seq<SseResult>, k: nat)
    requires k <= |events|
  {
    forall i :: 0 <= i < k ==> !ends(events[i])
  }

  /** The stream ends at its `k`th event, or, if there is none, after its last. */
  predicate EndsAt(ends: Ending, events: seq<SseResult>, k: nat) {
    && k <= |events| && NoneEnds(ends, events, k)
    && (k < |events| ==> ends(events[k]))
  }

  function EndIndex(ends: Ending, events: seq<SseResult>): (k: nat)
    ensures EndsAt(ends, events, k)
  {
    if events == [] || ends(events[0]) then 0
    else
      var k := EndIndex(ends, events[1..]);
      assert forall i :: 1 <= i < k + 1 ==> events[i] == events[1..][i - 1];
      k + 1
  }

  lemma EndIndexUnique(ends: Ending, events: seq<SseResult>, k: nat)
    requires EndsAt(ends, events, k)
    ensures k == EndIndex(ends, events)
  {
  }

  lemma EndsLater(ends: Ending, events: seq<SseResult>, i: nat)
    requires i <= |events| && NoneEnds(ends, events, i)
    ensures i <= EndIndex(ends, events)
  {
  }

  /** The stream was closed without an error of its own: by its end, or as the reader reports an end. */
  predicate ClosesAt(events: seq<SseResult>, k: nat)
    requires k <= |events|
  {
    k == |events| || (events[k].Failure? && IsStreamClosed(events[k].err))
  }

  lemma NoneEndsStep(ends: Ending, events: seq<SseResult>, i: nat)
    requires i < |events| && NoneEnds(ends, events, i) && !ends(events[i])
    ensures NoneEnds(ends, events, i + 1)
  {
  }

  /** What `read` finds in the events, in order. */
  function Heard<C>(read: SseResult -> Option<C>, events: seq<SseResult>): seq<C> {
    if events == [] then []
    else
      var last := read(events[|events| - 1]);
      Heard(read, events[..|events| - 1]) + match last case Some(c) => [c] case None => []
  }

  lemma HeardStep<C>(read: SseResult -> Option<C>, events: seq<SseResult>, i: nat)
    requires i < |events|
    ensures Heard(read, events[..i + 1]) ==
            Heard(read, events[..i]) + match read(events[i]) case Some(c) => [c] case None => []
  {
    assert events[..i + 1][..i] == events[..i];
  }

  /** Later, more has been heard. */
  lemma {:induction false} HeardGrows<C>(read: SseResult -> Option<C>, events: seq<SseResult>, i: nat, k: nat) returns (more: seq<C>)
    requires i <= k <= |events|
    ensures Heard(read, events[..k]) == Heard(read, events[..i]) + more
  {
    if i == k {
      more := [];
    } else {
      more := HeardGrows(read, events, i, k - 1);
      HeardStep(read, events, k - 1);
      more := more + match read(events[k - 1]) case Some(c) => [c] case None => [];
    }
  }

  // ----- A channel that closes after some sends

  /** What comes through when `items` are sent one by one and the consumer takes `room` of them. */
  function Through<T>(items: seq<T>, room: nat): seq<T> {
    if |items| <= room then items else items[..room]
  }

  /**
   The sender's side of a channel. A cancellation takes effect at some send,
   after `room` successful ones; every sender stops at its first failed send.
   */
  class Outbox<T> {
    var sent: seq<T>
    var room: nat

    constructor (room: nat)
      ensures sent == [] && this.room == room
    {
      sent, this.room := [], room;
    }

    method Send(x: T) returns (ok: bool)
      modifies this
      ensures Offered(old(sent), old(room), [x], sent, room, ok)
    {
      ok := room > 0;
      if ok {
        sent, room := sent + [x], room - 1;
      }
    }
  }

  /** Sending `items` until a send fails takes a channel from `(sent0, room0)` to `(sent, room)`. */
  predicate Offered<T(==)>(sent0: seq<T>, room0: nat, items: seq<T>, sent: seq<T>, room: nat, ok: bool) {
    && ok == (|items| <= room0)
    && sent == sent0 + Through(items, room0)
    && room == if ok then room0 - |items| else 0
  }

  lemma OfferedNothing<T>(sent: seq<T>, room: nat)
    ensures Offered(sent, room, [], sent, room, true)
  {
    assert sent + [] == sent;
  }

  lemma OfferedThen<T>(sent0: seq<T>, room0: nat, items: seq<T>, sent1: seq<T>, room1: nat, more: seq<T>, sent: seq<T>, room: nat, ok: bool)
    requires Offered(sent0, room0, items, sent1, room1, true)
    requires Offered(sent1, room1, more, sent, room, ok)
    ensures Offered(sent0, room0, items + more, sent, room, ok)
  {
    assert sent0 + items + Through(more, room1) == sent0 + Through(items + more, room0);
  }

  lemma OfferedPart<T>(sent0: seq<T>, room0: nat, items: seq<T>, sent: seq<T>, room: nat, more: seq<T>)
    requires Offered(sent0, room0, items, sent, room, false)
    ensures Offered(sent0, room0, items + more, sent, room, false)
  {
    assert (items + more)[..room0] == items[..room0];
  }

  lemma ThroughThen<T>(sent0: seq<T>, room0: nat, items: seq<T>, sent1: seq<T>, room1: nat, more: seq<T>)
    requires Offered(sent0, room0, items, sent1, room1, true)
    ensures sent1 + Through(more, room1) == sent0 + Through(items + more, room0)
  {
    assert sent0 + items + Through(more, room1) == sent0 + Through(items + more, room0);
  }

  lemma ThroughPart<T>(sent0: seq<T>, room0: nat, items: seq<T>, sent1: seq<T>, room1: nat, all: seq<T>)
    requires Offered(sent0, room0, items, sent1, room1, false)
    requires items <= all
    ensures sent1 == sent0 + Through(all, room0)
  {
    assert all[..room0] == items[..room0];
  }

  // ----- Growing runs

  /** One more element at the end only adds to what `f` makes of a sequence. */
  ghost predicate Grows<T(!new), O>(f: seq<T> -> seq<O>) {
    forall s, x :: f(s) <= f(s + [x])
  }

  lemma {:induction false} GrowsLonger<T(!new), O>(f: seq<T> -> seq<O>, s: seq<T>, more: seq<T>)
    requires Grows(f)
    ensures f(s) <= f(s + more)
  {
    if more == [] {
      assert s + more == s;
    } else {
      var n := |more| - 1;
      GrowsLonger(f, s, more[..n]);
      assert s + more == s + more[..n] + [more[n]];
    }
  }
}
