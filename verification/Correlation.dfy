/**
 How the app-server clients match responses to requests
 (internal/appserverclient/remote.go, in_process.go, routing_sink.go), as a
 state machine whose steps are the atomic sections of the concurrent
 methods. Ids are matched as section 5 (Response object) of the JSON-RPC 2.0
 specification asks.
 */
module Correlation {

  import opened PatchTypes

  /** A channel with one slot; every request makes one, so the request's number names it. */
  type Channel = nat

  // ----- What the lock protects

  datatype Core = Core(nextId: nat, closed: bool, pending: map<int, Channel>)

  function WithNewId(c: Core): Core {
    c.(nextId := c.nextId + 1)
  }

  function WithRegistered(c: Core, id: int, ch: Channel): Core {
    if c.closed then c else c.(pending := c.pending[id := ch])
  }

  function Without(c: Core, id: int): Core {
    c.(pending := c.pending - {id})
  }

  function WithClosed(c: Core): Core {
    if c.closed then c else c.(closed := true, pending := map[])
  }

  /** The client's fields, and the sections of its methods that run under the lock. */
  class Client {
    var nextId: nat
    var closed: bool
    var pending: map<int, Channel>

    constructor ()
      ensures State() == Core(0, false, map[])
    {
      nextId, closed, pending := 0, false, map[];
    }

    ghost function State(): Core
      reads this
    {
      Core(nextId, closed, pending)
    }

    /** The counter's atomic increment. */
    method NewId() returns (id: nat)
      modifies this
      ensures State() == WithNewId(old(State())) && id == State().nextId
    {
      nextId := nextId + 1;
      id := nextId;
    }

    /** Registers the channel of a request, unless the client is closed. */
    method Register(id: int, respCh: Channel) returns (ok: bool)
      modifies this
      ensures State() == WithRegistered(old(State()), id, respCh)
      ensures ok <==> !old(closed)
    {
      if closed {
        return false;
      }
      pending := pending[id := respCh];
      ok := true;
    }

    /** Gives up on a request. */
    method Abandon(id: int)
      modifies this
      ensures State() == Without(old(State()), id)
    {
      pending := pending - {id};
    }

    /** The lookup of `deliver`: at most one caller gets the channel. */
    method Take(id: int) returns (ch: Option<Channel>)
      modifies this
      ensures State() == Without(old(State()), id)
      ensures ch == if id in old(pending) then Some(old(pending)[id]) else None
    {
      if id in pending {
        ch := Some(pending[id]);
        pending := pending - {id};
      } else {
        ch := None;
        assert pending - {id} == pending;
      }
    }

    /** The swap of `Shutdown`; only the first caller has channels to fail. */
    method Close() returns (drained: map<int, Channel>)
      modifies this
      ensures State() == WithClosed(old(State()))
      ensures drained == if old(closed) then map[] else old(pending)
    {
      if closed {
        return map[];
      }
      closed := true;
      drained := pending;
      pending := map[];
    }
  }

  // ----- Requests, deliveries, and the whole state

  /** What the server answers. */
  datatype Body = ResultBody(text: string) | ErrorBody(text: string)

  /** What a channel carries: a result or error from the server, or the error of a shutdown. */
  datatype Reply = FromServer(body: Body) | ClientClosed

  datatype Outcome = Got(reply: Reply) | Failed | Cancelled | ErrClosed

  /** Where a request is between two atomic sections. */
  datatype Phase =
    | Arrived
    | Registered
    | Waiting
    | Abandoning(outcome: Outcome)
    | Finished(outcome: Outcome)

  /** A call of `Request`: its id, and everything sent to and received from its channel. */
  datatype Request = Request(id: int, phase: Phase, sent: seq<Reply>, received: nat)

  predicate HasRoom(q: Request) {
    |q.sent| <= q.received
  }

  datatype DeliveryPhase = Looking | Holding(ch: Channel) | Done

  /** A call of `deliver`. */
  datatype Delivery = Delivery(id: int, body: Body, phase: DeliveryPhase)

  /** An id on the wire. */
  datatype RequestId = Integer(n: int) | Text(s: string)

  datatype Message =
    | Response(id: RequestId, text: string)
    | Error(id: RequestId, text: string)
    | Notification

  /** `inbound` remembers every response the server sent. */
  datatype State = State(
    core: Core,
    requests: seq<Request>,
    deliveries: seq<Delivery>,
    draining: map<int, Channel>,
    readDone: bool,
    inbound: set<(int, Body)>)

  const INITIAL := State(Core(0, false, map[]), [], [], map[], false, {})

  /** The atomic sections, interleaved in any order. */
  datatype Step =
    | Begin
    | MarshalFails(r: nat)
    | Register(r: nat)
    | WriteSucceeds(r: nat)
    | WriteFails(r: nat)
    | Receive(r: nat)
    | Cancel(r: nat)
    | SeeReadDone(r: nat)
    | Abandon(r: nat)
    | Arrive(message: Message)
    | Look(d: nat)
    | Send(d: nat)
    | ReadEnds
    | Shutdown
    | Drain(id: int)

  predicate At(s: State, r: nat, phase: Phase) {
    r < |s.requests| && s.requests[r].phase == phase
  }

  function Move(s: State, r: nat, phase: Phase): State
    requires r < |s.requests|
  {
    s.(requests := s.requests[r := s.requests[r].(phase := phase)])
  }

  function Put(s: State, ch: Channel, reply: Reply): State
    requires ch < |s.requests|
  {
    s.(requests := s.requests[ch := s.requests[ch].(sent := s.requests[ch].sent + [reply])])
  }

  function MoveDelivery(s: State, d: nat, phase: DeliveryPhase): State
    requires d < |s.deliveries|
  {
    s.(deliveries := s.deliveries[d := s.deliveries[d].(phase := phase)])
  }

  /** The integer id and body that `route` delivers; anything else is an event or is ignored. */
  function Routed(m: Message): Option<(int, Body)> {
    match m
    case Response(Integer(n), text) => Some((n, ResultBody(text)))
    case Error(Integer(n), text) => Some((n, ErrorBody(text)))
    case _ => None
  }

  /** The state after a step, unless the step cannot be taken. */
  function Next(s: State, step: Step): Option<State> {
    match step
    case Begin =>
      var core := WithNewId(s.core);
      Some(s.(core := core, requests := s.requests + [Request(core.nextId, Arrived, [], 0)]))
    case MarshalFails(r) =>
      if At(s, r, Arrived) then Some(Move(s, r, Finished(Failed))) else None
    case Register(r) =>
      if !At(s, r, Arrived) then None
      else Some(Move(s.(core := WithRegistered(s.core, s.requests[r].id, r)), r,
                     if s.core.closed then Finished(ErrClosed) else Registered))
    case WriteSucceeds(r) =>
      if At(s, r, Registered) then Some(Move(s, r, Waiting)) else None
    case WriteFails(r) =>
      if At(s, r, Registered) then Some(Move(s, r, Abandoning(Failed))) else None
    case Receive(r) =>
      if !At(s, r, Waiting) || HasRoom(s.requests[r]) then None
      else
        var q := s.requests[r];
        Some(s.(requests := s.requests[r := q.(phase := Finished(Got(q.sent[q.received])), received := q.received + 1)]))
    case Cancel(r) =>
      if At(s, r, Waiting) then Some(Move(s, r, Abandoning(Cancelled))) else None
    case SeeReadDone(r) =>
      if At(s, r, Waiting) && s.readDone then Some(Move(s, r, Finished(ErrClosed))) else None
    case Abandon(r) =>
      if r < |s.requests| && s.requests[r].phase.Abandoning? then
        Some(Move(s.(core := Without(s.core, s.requests[r].id)), r, Finished(s.requests[r].phase.outcome)))
      else None
    case Arrive(m) =>
      Some(match Routed(m)
           case Some((id, body)) =>
             s.(inbound := s.inbound + {(id, body)}, deliveries := s.deliveries + [Delivery(id, body, Looking)])
           case None => s)
    case Look(d) =>
      if d < |s.deliveries| && s.deliveries[d].phase == Looking then
        var id := s.deliveries[d].id;
        Some(MoveDelivery(s.(core := Without(s.core, id)), d,
                          if id in s.core.pending then Holding(s.core.pending[id]) else Done))
      else None
    case Send(d) =>
      if d < |s.deliveries| && s.deliveries[d].phase.Holding? then
        var ch := s.deliveries[d].phase.ch;
        if ch < |s.requests| && HasRoom(s.requests[ch]) then
          Some(MoveDelivery(Put(s, ch, FromServer(s.deliveries[d].body)), d, Done))
        else None
      else None
    case ReadEnds =>
      Some(s.(readDone := true))
    case Shutdown =>
      Some(s.(core := WithClosed(s.core), draining := if s.core.closed then s.draining else s.core.pending))
    case Drain(id) =>
      if id !in s.draining then None
      else
        var ch := s.draining[id];
        var rest := s.(draining := s.draining - {id});
        Some(if ch < |s.requests| && HasRoom(s.requests[ch]) then Put(rest, ch, ClientClosed) else rest)
  }

  /** The state after a run, unless one of its steps cannot be taken. */
  function After(steps: seq<Step>): Option<State> {
    if steps == [] then Some(INITIAL)
    else
      match After(steps[..|steps| - 1])
      case Some(s) => Next(s, steps[|steps| - 1])
      case None => None
  }

  // ----- The invariant

  /** Ids are positive, and no two requests share one. */
  ghost predicate IdsUnique(s: State) {
    && (forall r :: 0 <= r < |s.requests| ==> 0 < s.requests[r].id <= s.core.nextId)
    && forall r, q :: 0 <= r < q < |s.requests| ==> s.requests[r].id != s.requests[q].id
  }

  /** An unused channel of a request that has been registered under `id`. */
  predicate Unused(s: State, id: int, ch: Channel) {
    && ch < |s.requests| && s.requests[ch].id == id
    && s.requests[ch].sent == [] && s.requests[ch].phase != Arrived
  }

  /** Whoever may send to a channel may do so alone: the registry, the shutdown, or one delivery. */
  ghost predicate Exclusive(s: State) {
    && (forall id: int :: id in s.core.pending ==> Unused(s, id, s.core.pending[id]))
    && (forall id: int :: id in s.draining ==> id !in s.core.pending && Unused(s, id, s.draining[id]))
    && (forall d :: 0 <= d < |s.deliveries| && s.deliveries[d].phase.Holding? ==> HeldAlone(s, d))
  }

  ghost predicate HeldAlone(s: State, d: nat)
    requires d < |s.deliveries| && s.deliveries[d].phase.Holding?
  {
    var id := s.deliveries[d].id;
    && Unused(s, id, s.deliveries[d].phase.ch)
    && id !in s.core.pending && id !in s.draining
    && forall e :: 0 <= e < |s.deliveries| && e != d && s.deliveries[e].phase.Holding? ==> s.deliveries[e].id != id
  }

  /** A channel takes at most one send, and it comes from the request's own response or from the shutdown. */
  ghost predicate OneSend(s: State) {
    forall r :: 0 <= r < |s.requests| ==> SendOk(s, s.requests[r])
  }

  ghost predicate SendOk(s: State, q: Request) {
    && |q.sent| <= 1 && q.received <= |q.sent|
    && (q.phase == Arrived ==> q.sent == [])
    && (q.phase == Registered || q.phase == Waiting ==> q.received == 0)
    && (q.phase.Abandoning? ==> !q.phase.outcome.Got? && q.phase.outcome != ErrClosed)
    && (q.phase.Finished? && q.phase.outcome.Got? ==> q.sent == [q.phase.outcome.reply])
    && (q.sent != [] && q.sent[0].FromServer? ==> (q.id, q.sent[0].body) in s.inbound)
    && (q.sent != [] && q.sent[0].ClientClosed? ==> s.core.closed)
  }

  ghost predicate DeliveriesArrived(s: State) {
    forall d :: 0 <= d < |s.deliveries| ==> (s.deliveries[d].id, s.deliveries[d].body) in s.inbound
  }

  ghost predicate ClosedEmpty(s: State) {
    if s.core.closed then s.core.pending == map[] else s.draining == map[]
  }

  /** Somebody will send to the channel of request `r`, or has done so. */
  ghost predicate Expected(s: State, r: nat)
    requires r < |s.requests|
  {
    || s.requests[r].sent != []
    || s.requests[r].id in s.core.pending
    || s.requests[r].id in s.draining
    || exists d :: 0 <= d < |s.deliveries| && s.deliveries[d].phase == Holding(r)
  }

  /** The call is under way and has not given up. */
  predicate Waits(q: Request) {
    q.phase == Registered || q.phase == Waiting
  }

  /** The call waits, or it returned without its reply because reading had ended. */
  predicate Owed(s: State, q: Request) {
    Waits(q) || (q.phase == Finished(ErrClosed) && !s.core.closed)
  }

  /** No request that still waits is forgotten, nor is one that returned because reading had ended. */
  ghost predicate NoneForgotten(s: State) {
    forall r :: 0 <= r < |s.requests| && Owed(s, s.requests[r]) ==> Expected(s, r)
  }

  ghost predicate Safe(s: State) {
    IdsUnique(s) && Exclusive(s) && OneSend(s) && DeliveriesArrived(s) && ClosedEmpty(s)
  }

  ghost predicate Inv(s: State) {
    Safe(s) && NoneForgotten(s)
  }

  /** Every step keeps the invariant. */
  lemma StepKeeps(s: State, step: Step)
    requires Inv(s) && Next(s, step).Some?
    ensures Inv(Next(s, step).value)
  {
    match step {
      case Begin => BeginKeeps(s);
      case MarshalFails(r) => MoveKeeps(s, r, Finished(Failed));
      case Register(r) => RegisterKeeps(s, r);
      case WriteSucceeds(r) => MoveKeeps(s, r, Waiting);
      case WriteFails(r) => MoveKeeps(s, r, Abandoning(Failed));
      case Receive(r) => ReceiveKeeps(s, r);
      case Cancel(r) => MoveKeeps(s, r, Abandoning(Cancelled));
      case SeeReadDone(r) => MoveKeeps(s, r, Finished(ErrClosed));
      case Abandon(r) => AbandonKeeps(s, r);
      case Arrive(m) => ArriveKeeps(s, m);
      case Look(d) => LookKeeps(s, d);
      case Send(d) => SendKeeps(s, d);
      case ReadEnds => ReadEndsKeeps(s);
      case Shutdown => ShutdownKeeps(s);
      case Drain(id) => DrainKeeps(s, id);
    }
  }

  /** A step that leaves a request's id where it was, or hands it on, leaves the request expected. */
  lemma StillExpected(s: State, t: State, r: nat)
    requires r < |s.requests| && r < |t.requests| && Expected(s, r)
    requires t.requests[r].id == s.requests[r].id
    requires s.requests[r].sent != [] ==> t.requests[r].sent != []
    requires s.requests[r].id in s.core.pending ==> t.requests[r].id in t.core.pending || t.requests[r].id in t.draining
    requires s.requests[r].id in s.draining ==> t.requests[r].id in t.draining || t.requests[r].sent != []
    requires |s.deliveries| <= |t.deliveries| && forall e :: 0 <= e < |s.deliveries| ==> t.deliveries[e] == s.deliveries[e]
    ensures Expected(t, r)
  {
    if e :| 0 <= e < |s.deliveries| && s.deliveries[e].phase == Holding(r) {
      assert t.deliveries[e].phase == Holding(r);
    }
  }

  lemma BeginKeeps(s: State)
    requires Inv(s)
    ensures Inv(Next(s, Begin).value)
  {
    var t := Next(s, Begin).value;
    BeginSafe(s);
    forall r | 0 <= r < |t.requests| && Owed(t, t.requests[r])
      ensures Expected(t, r)
    {
      assert t.requests[r] == s.requests[r];
      StillExpected(s, t, r);
    }
  }

  lemma BeginSafe(s: State)
    requires Safe(s)
    ensures Safe(Next(s, Begin).value)
  {
    var t := Next(s, Begin).value;
    assert forall r :: 0 <= r < |s.requests| ==> t.requests[r] == s.requests[r];
    assert forall id: int, ch: Channel :: Unused(s, id, ch) ==> Unused(t, id, ch);
    forall d | 0 <= d < |t.deliveries| && t.deliveries[d].phase.Holding?
      ensures HeldAlone(t, d)
    {
      assert HeldAlone(s, d);
    }
  }

  /** A request moves on without touching the registry; it may only stop waiting. */
  lemma MoveKeeps(s: State, r: nat, phase: Phase)
    requires Inv(s) && r < |s.requests|
    requires phase != Arrived && (phase.Finished? || phase.Abandoning? ==> !phase.outcome.Got?)
    requires phase == Registered || phase == Waiting ==> Waits(s.requests[r])
    requires phase == Finished(ErrClosed) ==> Waits(s.requests[r]) || s.core.closed
    requires phase.Abandoning? ==> phase.outcome != ErrClosed
    ensures Inv(Move(s, r, phase))
  {
    var t := Move(s, r, phase);
    MoveSafe(s, r, phase);
    forall q | 0 <= q < |t.requests| && Owed(t, t.requests[q])
      ensures Expected(t, q)
    {
      assert Owed(s, s.requests[q]);
      StillExpected(s, t, q);
    }
  }

  lemma MoveSafe(s: State, r: nat, phase: Phase)
    requires Safe(s) && r < |s.requests|
    requires phase != Arrived && (phase.Finished? || phase.Abandoning? ==> !phase.outcome.Got?)
    requires phase == Registered || phase == Waiting ==> Waits(s.requests[r])
    requires phase.Abandoning? ==> phase.outcome != ErrClosed
    ensures Safe(Move(s, r, phase))
  {
    MoveExclusive(s, r, phase);
    MoveSends(s, r, phase);
  }

  lemma MoveExclusive(s: State, r: nat, phase: Phase)
    requires Exclusive(s) && r < |s.requests| && phase != Arrived
    ensures Exclusive(Move(s, r, phase))
  {
    var t := Move(s, r, phase);
    assert forall id: int, ch: Channel :: Unused(s, id, ch) ==> Unused(t, id, ch);
    forall d | 0 <= d < |t.deliveries| && t.deliveries[d].phase.Holding?
      ensures HeldAlone(t, d)
    {
      assert HeldAlone(s, d);
    }
  }

  lemma MoveSends(s: State, r: nat, phase: Phase)
    requires OneSend(s) && r < |s.requests|
    requires phase != Arrived && (phase.Finished? || phase.Abandoning? ==> !phase.outcome.Got?)
    requires phase == Registered || phase == Waiting ==> Waits(s.requests[r])
    requires phase.Abandoning? ==> phase.outcome != ErrClosed
    ensures OneSend(Move(s, r, phase))
  {
    var t := Move(s, r, phase);
    forall q | 0 <= q < |t.requests|
      ensures SendOk(t, t.requests[q])
    {
      assert SendOk(s, s.requests[q]);
    }
  }

  lemma RegisterKeeps(s: State, r: nat)
    requires Inv(s) && At(s, r, Arrived)
    ensures Inv(Next(s, Register(r)).value)
  {
    if s.core.closed {
      MoveKeeps(s, r, Finished(ErrClosed));
    } else {
      var t := Next(s, Register(r)).value;
      RegisterSafe(s, r);
      forall q | 0 <= q < |t.requests| && Owed(t, t.requests[q])
        ensures Expected(t, q)
      {
        if q != r {
          assert Owed(s, s.requests[q]);
          StillExpected(s, t, q);
        }
      }
    }
  }

  lemma RegisterSafe(s: State, r: nat)
    requires Safe(s) && At(s, r, Arrived) && !s.core.closed
    ensures Safe(Move(s.(core := s.core.(pending := s.core.pending[s.requests[r].id := r])), r, Registered))
  {
  }

  lemma ReceiveKeeps(s: State, r: nat)
    requires Inv(s) && Next(s, Receive(r)).Some?
    ensures Inv(Next(s, Receive(r)).value)
  {
    var t := Next(s, Receive(r)).value;
    ReceiveSafe(s, r);
    forall q | 0 <= q < |t.requests| && Owed(t, t.requests[q])
      ensures Expected(t, q)
    {
      assert q != r && Owed(s, s.requests[q]);
      StillExpected(s, t, q);
    }
  }

  lemma ReceiveSafe(s: State, r: nat)
    requires Safe(s) && Next(s, Receive(r)).Some?
    ensures Safe(Next(s, Receive(r)).value)
  {
    assert SendOk(s, s.requests[r]);
    assert forall id: int, ch: Channel :: Unused(s, id, ch) ==> Unused(Next(s, Receive(r)).value, id, ch);
  }

  lemma AbandonKeeps(s: State, r: nat)
    requires Inv(s) && Next(s, Abandon(r)).Some?
    ensures Inv(Next(s, Abandon(r)).value)
  {
    var moved := Move(s, r, Finished(s.requests[r].phase.outcome));
    assert SendOk(s, s.requests[r]);
    MoveKeeps(s, r, Finished(s.requests[r].phase.outcome));
    DropKeeps(moved, r);
    assert Next(s, Abandon(r)).value == moved.(core := Without(moved.core, moved.requests[r].id));
  }

  /** A request that no longer waits may leave the registry. */
  lemma DropKeeps(s: State, r: nat)
    requires Inv(s) && r < |s.requests| && s.requests[r].phase.Finished? && s.requests[r].phase.outcome != ErrClosed
    ensures Inv(s.(core := Without(s.core, s.requests[r].id)))
  {
    var t := s.(core := Without(s.core, s.requests[r].id));
    DropSafe(s, s.requests[r].id);
    forall q | 0 <= q < |t.requests| && Owed(t, t.requests[q])
      ensures Expected(t, q)
    {
      assert s.requests[q].id != s.requests[r].id;
      StillExpected(s, t, q);
    }
  }

  lemma DropSafe(s: State, id: int)
    requires Safe(s)
    ensures Safe(s.(core := Without(s.core, id)))
  {
  }

  lemma ArriveKeeps(s: State, m: Message)
    requires Inv(s)
    ensures Inv(Next(s, Arrive(m)).value)
  {
    var t := Next(s, Arrive(m)).value;
    ArriveSafe(s, m);
    forall r | 0 <= r < |t.requests| && Owed(t, t.requests[r])
      ensures Expected(t, r)
    {
      StillExpected(s, t, r);
    }
  }

  lemma ArriveSafe(s: State, m: Message)
    requires Safe(s)
    ensures Safe(Next(s, Arrive(m)).value)
  {
    var t := Next(s, Arrive(m)).value;
    forall d | 0 <= d < |t.deliveries| && t.deliveries[d].phase.Holding?
      ensures HeldAlone(t, d)
    {
      assert t.deliveries[d] == s.deliveries[d];
      assert HeldAlone(s, d);
    }
  }

  lemma LookKeeps(s: State, d: nat)
    requires Inv(s) && Next(s, Look(d)).Some?
    ensures Inv(Next(s, Look(d)).value)
  {
    var t := Next(s, Look(d)).value;
    LookSafe(s, d);
    forall r | 0 <= r < |t.requests| && Owed(t, t.requests[r])
      ensures Expected(t, r)
    {
      assert Expected(s, r);
      if e :| 0 <= e < |s.deliveries| && s.deliveries[e].phase == Holding(r) {
        assert e != d && t.deliveries[e].phase == Holding(r);
      } else if s.requests[r].id == s.deliveries[d].id && s.requests[r].id in s.core.pending {
        assert t.deliveries[d].phase == Holding(r);
      }
    }
  }

  lemma LookSafe(s: State, d: nat)
    requires Safe(s) && Next(s, Look(d)).Some?
    ensures Safe(Next(s, Look(d)).value)
  {
    var t := Next(s, Look(d)).value;
    forall e | 0 <= e < |t.deliveries| && t.deliveries[e].phase.Holding?
      ensures HeldAlone(t, e)
    {
      if e != d {
        assert t.deliveries[e] == s.deliveries[e];
        assert HeldAlone(s, e);
      }
    }
  }

  lemma SendKeeps(s: State, d: nat)
    requires Inv(s) && Next(s, Send(d)).Some?
    ensures Inv(Next(s, Send(d)).value)
  {
    var t := Next(s, Send(d)).value;
    SendSafe(s, d);
    forall r | 0 <= r < |t.requests| && Owed(t, t.requests[r])
      ensures Expected(t, r)
    {
      assert Expected(s, r);
      if e :| 0 <= e < |s.deliveries| && s.deliveries[e].phase == Holding(r) {
        assert e != d ==> t.deliveries[e].phase == Holding(r);
      }
    }
  }

  lemma SendSafe(s: State, d: nat)
    requires Safe(s) && Next(s, Send(d)).Some?
    ensures Safe(Next(s, Send(d)).value)
  {
    var ch := s.deliveries[d].phase.ch;
    assert HeldAlone(s, d);
    var done := MoveDelivery(s, d, Done);
    assert Safe(done);
    PutSafe(done, ch, FromServer(s.deliveries[d].body));
    assert Next(s, Send(d)).value == Put(done, ch, FromServer(s.deliveries[d].body));
  }

  /** A reply to a channel to which nobody else may send. */
  lemma PutSafe(s: State, ch: Channel, reply: Reply)
    requires Safe(s) && ch < |s.requests| && Unused(s, s.requests[ch].id, ch)
    requires s.requests[ch].id !in s.core.pending && s.requests[ch].id !in s.draining
    requires forall d :: 0 <= d < |s.deliveries| && s.deliveries[d].phase.Holding? ==> s.deliveries[d].id != s.requests[ch].id
    requires reply.FromServer? ==> (s.requests[ch].id, reply.body) in s.inbound
    requires reply.ClientClosed? ==> s.core.closed
    ensures Safe(Put(s, ch, reply))
  {
    var t := Put(s, ch, reply);
    assert forall id: int, c: Channel :: id != s.requests[ch].id && Unused(s, id, c) ==> Unused(t, id, c);
    forall d | 0 <= d < |t.deliveries| && t.deliveries[d].phase.Holding?
      ensures HeldAlone(t, d)
    {
      assert HeldAlone(s, d);
    }
  }

  lemma ReadEndsKeeps(s: State)
    requires Inv(s)
    ensures Inv(Next(s, ReadEnds).value)
  {
    var t := Next(s, ReadEnds).value;
    assert Safe(t);
    forall r | 0 <= r < |t.requests| && Owed(t, t.requests[r])
      ensures Expected(t, r)
    {
      StillExpected(s, t, r);
    }
  }

  lemma ShutdownKeeps(s: State)
    requires Inv(s)
    ensures Inv(Next(s, Shutdown).value)
  {
    var t := Next(s, Shutdown).value;
    assert Safe(t);
    forall r | 0 <= r < |t.requests| && Owed(t, t.requests[r])
      ensures Expected(t, r)
    {
      StillExpected(s, t, r);
    }
  }

  lemma DrainKeeps(s: State, id: int)
    requires Inv(s) && Next(s, Drain(id)).Some?
    ensures Inv(Next(s, Drain(id)).value)
  {
    var t := Next(s, Drain(id)).value;
    DrainSafe(s, id);
    forall r | 0 <= r < |t.requests| && Owed(t, t.requests[r])
      ensures Expected(t, r)
    {
      assert Owed(s, s.requests[r]) && Unused(s, id, s.draining[id]);
      assert s.requests[r].id == id ==> r == s.draining[id];
      StillExpected(s, t, r);
    }
  }

  lemma DrainSafe(s: State, id: int)
    requires Safe(s) && Next(s, Drain(id)).Some?
    ensures Safe(Next(s, Drain(id)).value)
  {
    var ch := s.draining[id];
    assert Unused(s, id, ch);
    var rest := s.(draining := s.draining - {id});
    assert Safe(rest);
    PutSafe(rest, ch, ClientClosed);
  }

  // ----- Every run

  lemma {:induction false} RunKeeps(steps: seq<Step>)
    requires After(steps).Some?
    ensures Inv(After(steps).value)
  {
    if steps != [] {
      var n := |steps| - 1;
      RunKeeps(steps[..n]);
      StepKeeps(After(steps[..n]).value, steps[n]);
    }
  }

  /**
   In every run, a channel takes at most one send; so a delivery that holds a
   channel never blocks, and a shutdown never drops its error.
   */
  lemma SendsNeverBlock(steps: seq<Step>)
    requires After(steps).Some?
    ensures var s := After(steps).value;
            && (forall r :: 0 <= r < |s.requests| ==> |s.requests[r].sent| <= 1)
            && (forall d :: 0 <= d < |s.deliveries| && s.deliveries[d].phase.Holding? ==> Next(s, Send(d)).Some?)
            && (forall id: int :: id in s.draining ==>
                  s.draining[id] < |s.requests| && HasRoom(s.requests[s.draining[id]])
                  && Next(s, Drain(id)).Some?
                  && Next(s, Drain(id)).value.requests[s.draining[id]].sent == [ClientClosed])
  {
    RunKeeps(steps);
    var s := After(steps).value;
    forall d | 0 <= d < |s.deliveries| && s.deliveries[d].phase.Holding?
      ensures Next(s, Send(d)).Some?
    {
      assert HeldAlone(s, d);
    }
  }

  predicate IsArrival(step: Step, response: (int, Body)) {
    step.Arrive? && Routed(step.message) == Some(response)
  }

  /** The server sent this response in the course of a run. */
  predicate ArrivedIn(steps: seq<Step>, response: (int, Body)) {
    exists i :: 0 <= i < |steps| && IsArrival(steps[i], response)
  }

  lemma NextInbound(s: State, step: Step, response: (int, Body))
    requires Next(s, step).Some?
    ensures response in Next(s, step).value.inbound <==> response in s.inbound || IsArrival(step, response)
  {
  }

  lemma ArrivedInAppend(steps: seq<Step>, step: Step, response: (int, Body))
    ensures ArrivedIn(steps + [step], response) <==> ArrivedIn(steps, response) || IsArrival(step, response)
  {
    var all := steps + [step];
    assert all[|steps|] == step;
    if i :| 0 <= i < |steps| && IsArrival(steps[i], response) {
      assert IsArrival(all[i], response);
    }
  }

  lemma {:induction false} InboundArrived(steps: seq<Step>, response: (int, Body))
    requires After(steps).Some?
    ensures response in After(steps).value.inbound <==> ArrivedIn(steps, response)
  {
    if steps != [] {
      var n := |steps| - 1;
      InboundArrived(steps[..n], response);
      NextInbound(After(steps[..n]).value, steps[n], response);
      ArrivedInAppend(steps[..n], steps[n], response);
      assert steps == steps[..n] + [steps[n]];
    }
  }

  /**
   A request returns only what the server sent under the request's own id, or
   the error of a shutdown that has happened.
   */
  lemma OnlyOwnReplies(steps: seq<Step>, r: nat)
    requires After(steps).Some? && r < |After(steps).value.requests|
    requires var phase := After(steps).value.requests[r].phase; phase.Finished? && phase.outcome.Got?
    ensures var q := After(steps).value.requests[r];
            match q.phase.outcome.reply
            case FromServer(body) => ArrivedIn(steps, (q.id, body))
            case ClientClosed => After(steps).value.core.closed
  {
    RunKeeps(steps);
    var q := After(steps).value.requests[r];
    assert SendOk(After(steps).value, q);
    if q.phase.outcome.reply.FromServer? {
      InboundArrived(steps, (q.id, q.phase.outcome.reply.body));
    }
  }

  /** Once a channel has taken a reply, it takes no other: the first answer is final. */
  lemma {:induction false} FirstAnswerFinal(steps: seq<Step>, n: nat, r: nat)
    requires n <= |steps| && After(steps).Some? && After(steps[..n]).Some?
    requires r < |After(steps[..n]).value.requests| && After(steps[..n]).value.requests[r].sent != []
    ensures r < |After(steps).value.requests|
    ensures After(steps).value.requests[r].sent == After(steps[..n]).value.requests[r].sent
    ensures After(steps).value.requests[r].id == After(steps[..n]).value.requests[r].id
  {
    if n == |steps| {
      assert steps[..n] == steps;
    } else {
      var m := |steps| - 1;
      assert steps[..m][..n] == steps[..n];
      FirstAnswerFinal(steps[..m], n, r);
      RunKeeps(steps[..m]);
      AnsweredStays(After(steps[..m]).value, steps[m], r);
    }
  }

  /** The id of an answered request is no longer registered. */
  lemma AnsweredUnregistered(steps: seq<Step>, r: nat)
    requires After(steps).Some? && r < |After(steps).value.requests| && After(steps).value.requests[r].sent != []
    ensures After(steps).value.requests[r].id !in After(steps).value.core.pending
  {
    RunKeeps(steps);
  }

  lemma AnsweredStays(s: State, step: Step, r: nat)
    requires Inv(s) && Next(s, step).Some? && r < |s.requests| && s.requests[r].sent != []
    ensures var t := Next(s, step).value;
            r < |t.requests| && t.requests[r].id == s.requests[r].id && t.requests[r].sent == s.requests[r].sent
  {
    match step {
      case Send(d) => assert HeldAlone(s, d);
      case _ =>
    }
  }

  /** A response to an id that is not registered, unknown or already answered, changes nothing. */
  lemma UnknownIgnored(s: State, d: nat)
    requires Next(s, Look(d)).Some? && s.deliveries[d].id !in s.core.pending
    ensures var t := Next(s, Look(d)).value;
            t.core == s.core && t.requests == s.requests && t.draining == s.draining && t.deliveries[d].phase == Done
  {
    assert s.core.pending - {s.deliveries[d].id} == s.core.pending;
  }

  /** A further response to an answered request finds nothing and changes nothing, in every run. */
  lemma DuplicateIgnored(steps: seq<Step>, d: nat, r: nat)
    requires After(steps).Some? && Next(After(steps).value, Look(d)).Some?
    requires r < |After(steps).value.requests| && After(steps).value.requests[r].sent != []
    requires After(steps).value.deliveries[d].id == After(steps).value.requests[r].id
    ensures Next(After(steps).value, Look(d)) == Some(MoveDelivery(After(steps).value, d, Done))
  {
    AnsweredUnregistered(steps, r);
    UnknownIgnored(After(steps).value, d);
  }

  // ----- Replies reach their requests

  lemma AfterStep(steps: seq<Step>, step: Step)
    requires After(steps).Some?
    ensures After(steps + [step]) == Next(After(steps).value, step)
  {
    assert (steps + [step])[..|steps|] == steps;
  }

  /** The registry knows a request by its own channel. */
  lemma OwnChannel(s: State, r: nat)
    requires Inv(s) && r < |s.requests| && s.requests[r].id in s.core.pending
    ensures s.core.pending[s.requests[r].id] == r && s.requests[r].sent == []
  {
    assert Unused(s, s.requests[r].id, s.core.pending[s.requests[r].id]);
  }

  /** The server's answer to a request, a result or an error, under the request's id. */
  predicate Answers(m: Message, id: int, body: Body) {
    match body
    case ResultBody(text) => m == Response(Integer(id), text)
    case ErrorBody(text) => m == Error(Integer(id), text)
  }

  lemma LookFinds(s: State, r: nat, body: Body, d: nat)
    requires Inv(s) && At(s, r, Waiting) && s.requests[r].id in s.core.pending
    requires d < |s.deliveries| && s.deliveries[d] == Delivery(s.requests[r].id, body, Looking)
    ensures Next(s, Look(d)).Some?
    ensures var t := Next(s, Look(d)).value;
            && d < |t.deliveries| && t.deliveries[d] == Delivery(s.requests[r].id, body, Holding(r))
            && t.requests == s.requests && s.requests[r].sent == [] && s.requests[r].received == 0
  {
    OwnChannel(s, r);
    assert SendOk(s, s.requests[r]);
  }

  lemma SendThenReceive(s: State, r: nat, body: Body, d: nat)
    requires At(s, r, Waiting) && s.requests[r].sent == [] && s.requests[r].received == 0
    requires d < |s.deliveries| && s.deliveries[d].phase == Holding(r) && s.deliveries[d].body == body
    ensures Next(s, Send(d)).Some? && Next(Next(s, Send(d)).value, Receive(r)).Some?
    ensures At(Next(Next(s, Send(d)).value, Receive(r)).value, r, Finished(Got(FromServer(body))))
  {
    var t := Next(s, Send(d)).value;
    assert t.requests[r].sent == [FromServer(body)];
  }

  /** In every run, when the server answers a request that waits and is registered, the request returns the answer. */
  lemma AnswerReaches(steps: seq<Step>, r: nat, m: Message, body: Body, more: seq<Step>)
    requires After(steps).Some? && At(After(steps).value, r, Waiting)
    requires var s := After(steps).value; s.requests[r].id in s.core.pending && Answers(m, s.requests[r].id, body)
    requires var d := |After(steps).value.deliveries|; more == steps + [Arrive(m)] + [Look(d)] + [Send(d)] + [Receive(r)]
    ensures After(more).Some? && At(After(more).value, r, Finished(Got(FromServer(body))))
  {
    var s := After(steps).value;
    var d := |s.deliveries|;
    AfterStep(steps, Arrive(m));
    RunKeeps(steps + [Arrive(m)]);
    var arrived := After(steps + [Arrive(m)]).value;
    assert arrived.deliveries == s.deliveries + [Delivery(s.requests[r].id, body, Looking)];
    LookFinds(arrived, r, body, d);
    AfterStep(steps + [Arrive(m)], Look(d));
    SendThenReceive(Next(arrived, Look(d)).value, r, body, d);
    AfterStep(steps + [Arrive(m)] + [Look(d)], Send(d));
    AfterStep(steps + [Arrive(m)] + [Look(d)] + [Send(d)], Receive(r));
  }

  /** Notifications, and answers under an id that is no number, deliver nothing. */
  lemma OthersIgnored(s: State, m: Message)
    requires m.Notification? || m.id.Text?
    ensures Next(s, Arrive(m)) == Some(s)
  {
  }

  // ----- After a shutdown

  /** Not registered: still on its way, or finished. */
  predicate Outside(q: Request) {
    q.phase == Arrived || q.phase.Finished?
  }

  lemma StaysClosed(s: State, step: Step)
    requires Inv(s) && s.core.closed && Next(s, step).Some?
    ensures Next(s, step).value.core.closed && Next(s, step).value.core.pending == map[]
    ensures var t := Next(s, step).value;
            && |s.requests| <= |t.requests|
            && forall r :: 0 <= r < |t.requests| && (r < |s.requests| ==> Outside(s.requests[r])) ==> Outside(t.requests[r])
  {
    StepKeeps(s, step);
    var t := Next(s, step).value;
    forall r | 0 <= r < |t.requests| && (r < |s.requests| ==> Outside(s.requests[r]))
      ensures Outside(t.requests[r])
    {
      StaysOutside(s, step, r);
    }
  }

  lemma StaysOutside(s: State, step: Step, r: nat)
    requires s.core.closed && Next(s, step).Some? && r < |Next(s, step).value.requests|
    requires r < |s.requests| ==> Outside(s.requests[r])
    ensures Outside(Next(s, step).value.requests[r])
  {
  }

  /**
   Once the client is closed, nothing is registered: the registry stays empty,
   and a request that was not registered by then never is.
   */
  lemma {:induction false} NothingRegisteredAfterShutdown(steps: seq<Step>, n: nat)
    requires n <= |steps| && After(steps).Some? && After(steps[..n]).Some?
    requires After(steps[..n]).value.core.closed
    ensures After(steps).value.core.closed && After(steps).value.core.pending == map[]
    ensures var s, t := After(steps[..n]).value, After(steps).value;
            && |s.requests| <= |t.requests|
            && forall r :: 0 <= r < |t.requests| && (r < |s.requests| ==> Outside(s.requests[r])) ==> Outside(t.requests[r])
  {
    RunKeeps(steps);
    if n == |steps| {
      assert steps[..n] == steps;
    } else {
      var m := |steps| - 1;
      assert steps[..m][..n] == steps[..n];
      NothingRegisteredAfterShutdown(steps[..m], n);
      RunKeeps(steps[..m]);
      StaysClosed(After(steps[..m]).value, steps[m]);
    }
  }

  /**
   When a shutdown has failed its channels and no delivery is under way, every
   request that still waits has its reply and can return.
   */
  lemma ShutdownAnswersAll(steps: seq<Step>, r: nat)
    requires After(steps).Some? && After(steps).value.core.closed && After(steps).value.draining == map[]
    requires forall d :: 0 <= d < |After(steps).value.deliveries| ==> !After(steps).value.deliveries[d].phase.Holding?
    requires At(After(steps).value, r, Waiting)
    ensures Next(After(steps).value, Receive(r)).Some?
  {
    RunKeeps(steps);
    var s := After(steps).value;
    assert Expected(s, r) && SendOk(s, s.requests[r]);
  }

  /** A request that waits and is not yet answered will be: by the registry, the shutdown, or a delivery. */
  lemma NoneForgottenInRuns(steps: seq<Step>, r: nat)
    requires After(steps).Some? && At(After(steps).value, r, Waiting)
    ensures Next(After(steps).value, Receive(r)).Some? || (After(steps).value.requests[r].sent == [] && Expected(After(steps).value, r))
  {
    RunKeeps(steps);
    assert SendOk(After(steps).value, After(steps).value.requests[r]);
  }

  // ----- What stays registered

  /** A finished request whose id is still registered has returned because reading had ended. */
  ghost predicate OnlyReadDoneLeft(s: State) {
    forall id: int :: id in s.core.pending && s.core.pending[id] < |s.requests| ==>
      LeftFor(s.requests[s.core.pending[id]], s.readDone)
  }

  predicate LeftFor(q: Request, readDone: bool) {
    q.phase.Finished? ==> q.phase.outcome == ErrClosed && readDone
  }

  /** Only `Register` adds to the registry. */
  lemma RegistryShrinks(s: State, step: Step, id: int)
    requires Next(s, step).Some? && id in Next(s, step).value.core.pending
    ensures (step.Register? && id == s.requests[step.r].id && Next(s, step).value.core.pending[id] == step.r && !s.core.closed)
            || (id in s.core.pending && Next(s, step).value.core.pending[id] == s.core.pending[id])
  {
  }

  /** How a request that was not finished comes to be. */
  lemma HowFinished(s: State, step: Step, r: nat)
    requires Next(s, step).Some? && r < |s.requests| && !s.requests[r].phase.Finished?
    requires r < |Next(s, step).value.requests| && Next(s, step).value.requests[r].phase.Finished?
    ensures s.requests[r].phase == Arrived || (step == Receive(r) && !HasRoom(s.requests[r])) || step == Abandon(r)
            || (step == SeeReadDone(r) && s.readDone && Next(s, step).value.requests[r].phase == Finished(ErrClosed))
  {
  }

  lemma FinishedStays(s: State, step: Step, r: nat)
    requires Next(s, step).Some? && r < |s.requests| && s.requests[r].phase.Finished?
    ensures r < |Next(s, step).value.requests| && Next(s, step).value.requests[r].phase == s.requests[r].phase
  {
  }

  lemma ReadDoneStays(s: State, step: Step)
    requires Next(s, step).Some? && s.readDone
    ensures Next(s, step).value.readDone
  {
  }

  lemma StepLeaves(s: State, step: Step)
    requires Inv(s) && OnlyReadDoneLeft(s) && Next(s, step).Some?
    ensures OnlyReadDoneLeft(Next(s, step).value)
  {
    var t := Next(s, step).value;
    forall id: int | id in t.core.pending && t.core.pending[id] < |t.requests|
      ensures LeftFor(t.requests[t.core.pending[id]], t.readDone)
    {
      EntryLeaves(s, step, id);
    }
  }

  lemma EntryLeaves(s: State, step: Step, id: int)
    requires Inv(s) && OnlyReadDoneLeft(s) && Next(s, step).Some?
    requires id in Next(s, step).value.core.pending && Next(s, step).value.core.pending[id] < |Next(s, step).value.requests|
    ensures LeftFor(Next(s, step).value.requests[Next(s, step).value.core.pending[id]], Next(s, step).value.readDone)
  {
    RegistryShrinks(s, step, id);
    if id in s.core.pending && Next(s, step).value.core.pending[id] == s.core.pending[id] {
      var r := s.core.pending[id];
      assert Unused(s, id, r) && LeftFor(s.requests[r], s.readDone) && SendOk(s, s.requests[r]);
      if s.requests[r].phase.Finished? {
        FinishedStays(s, step, r);
        ReadDoneStays(s, step);
      } else if Next(s, step).value.requests[r].phase.Finished? {
        HowFinished(s, step, r);
      }
    }
  }

  lemma {:induction false} RunLeaves(steps: seq<Step>)
    requires After(steps).Some?
    ensures OnlyReadDoneLeft(After(steps).value)
  {
    if steps != [] {
      var n := |steps| - 1;
      RunKeeps(steps[..n]);
      RunLeaves(steps[..n]);
      StepLeaves(After(steps[..n]).value, steps[n]);
    }
  }

  /** It returned as if the client were closed, the client is open, and nobody has taken its channel or sent to it. */
  predicate LeftBehind(s: State, r: nat) {
    && At(s, r, Finished(ErrClosed)) && !s.core.closed && s.requests[r].sent == []
    && forall d :: 0 <= d < |s.deliveries| ==> s.deliveries[d].phase != Holding(r)
  }

  lemma LeftIsRegistered(s: State, r: nat)
    requires Inv(s) && LeftBehind(s, r)
    ensures s.requests[r].id in s.core.pending
  {
    assert Owed(s, s.requests[r]) && Expected(s, r);
  }

  lemma RegisteredIsLeft(s: State, r: nat)
    requires Inv(s) && OnlyReadDoneLeft(s) && r < |s.requests| && s.requests[r].phase.Finished? && s.requests[r].id in s.core.pending
    ensures LeftBehind(s, r) && s.readDone
  {
    var q := s.requests[r];
    assert Unused(s, q.id, s.core.pending[q.id]) && s.core.pending[q.id] == r;
    assert LeftFor(q, s.readDone);
    forall d | 0 <= d < |s.deliveries|
      ensures s.deliveries[d].phase != Holding(r)
    {
      assert s.deliveries[d].phase.Holding? ==> HeldAlone(s, d);
    }
  }

  /**
   In every run, a finished request is still registered if and only if it was left
   behind, and then reading has ended. A reply, a cancellation and a failed write
   leave nothing behind.
   */
  lemma FinishedRegisteredIff(steps: seq<Step>, r: nat)
    requires After(steps).Some? && r < |After(steps).value.requests|
    requires After(steps).value.requests[r].phase.Finished?
    ensures After(steps).value.requests[r].id in After(steps).value.core.pending <==> LeftBehind(After(steps).value, r)
    ensures LeftBehind(After(steps).value, r) ==> After(steps).value.readDone
  {
    var s := After(steps).value;
    RunKeeps(steps);
    RunLeaves(steps);
    if LeftBehind(s, r) {
      LeftIsRegistered(s, r);
    }
    if s.requests[r].id in s.core.pending {
      RegisteredIsLeft(s, r);
    }
  }

  /** A request is registered and written. */
  const SENT := [Begin, Register(0), WriteSucceeds(0)]

  /** Its response arrives and is taken by a delivery. */
  const RESPONSE_TAKEN := [Arrive(Response(Integer(1), "x")), Look(0)]

  /** Reading ends, and the request sees it. */
  const READ_DONE := [ReadEnds, SeeReadDone(0)]

  /** The request waits, with its channel in the registry or without. */
  function WaitsIn(pending: map<int, nat>, deliveries: seq<Delivery>): State {
    State(Core(1, false, pending), [Request(1, Waiting, [], 0)], deliveries, map[], false, {})
  }

  lemma SentRequest()
    ensures After(SENT) == Some(WaitsIn(map[1 := 0], []))
  {
    var begun, registered := [Begin], [Begin, Register(0)];
    AfterStep([], Begin);
    assert [] + [Begin] == begun;
    assert After([]) == Some(INITIAL);
    assert After(begun).value.requests == [Request(1, Arrived, [], 0)];
    AfterStep(begun, Register(0));
    assert begun + [Register(0)] == registered;
    assert After(registered).value.core.pending == map[1 := 0];
    assert After(registered).value.requests == [Request(1, Registered, [], 0)];
    AfterStep(registered, WriteSucceeds(0));
    assert registered + [WriteSucceeds(0)] == SENT;
    assert After(SENT).value.requests == [Request(1, Waiting, [], 0)];
  }

  lemma ReadDoneSeen(steps: seq<Step>)
    requires After(steps).Some? && At(After(steps).value, 0, Waiting)
    ensures After(steps + READ_DONE).Some? && After(steps + READ_DONE).value.core == After(steps).value.core
    ensures At(After(steps + READ_DONE).value, 0, Finished(ErrClosed))
    ensures After(steps + READ_DONE).value.requests[0].id == After(steps).value.requests[0].id
  {
    AfterStep(steps, ReadEnds);
    AfterStep(steps + [ReadEnds], SeeReadDone(0));
    assert steps + [ReadEnds] + [SeeReadDone(0)] == steps + READ_DONE;
  }

  lemma ResponseTaken(steps: seq<Step>)
    requires After(steps) == Some(WaitsIn(map[1 := 0], []))
    ensures After(steps + RESPONSE_TAKEN).Some? && After(steps + RESPONSE_TAKEN).value.core == Core(1, false, map[])
    ensures After(steps + RESPONSE_TAKEN).value.requests == [Request(1, Waiting, [], 0)]
  {
    var arrived := steps + [RESPONSE_TAKEN[0]];
    AfterStep(steps, RESPONSE_TAKEN[0]);
    AfterStep(arrived, Look(0));
    assert arrived + [Look(0)] == steps + RESPONSE_TAKEN;
    assert map[1 := 0] - {1} == map[];
  }

  /** The request returned because reading had ended, in an open client. */
  predicate ReturnedAtReadEnd(s: State) {
    At(s, 0, Finished(ErrClosed)) && !s.core.closed
  }

  /** Such a request may still be registered, or not, if its response was on the way. */
  lemma ReadDoneMayLeaveRegistered(left: seq<Step>, taken: seq<Step>)
    requires left == SENT + READ_DONE && taken == SENT + RESPONSE_TAKEN + READ_DONE
    ensures After(left).Some? && ReturnedAtReadEnd(After(left).value)
    ensures After(left).value.requests[0].id in After(left).value.core.pending
    ensures After(taken).Some? && ReturnedAtReadEnd(After(taken).value)
    ensures After(taken).value.requests[0].id !in After(taken).value.core.pending
  {
    SentRequest();
    ReadDoneSeen(SENT);
    ResponseTaken(SENT);
    ReadDoneSeen(SENT + RESPONSE_TAKEN);
  }
}
