/**
 The event path of one connection: a deterministic buffered session, whose
 goroutine moves events from one bounded channel to another, and the write loop
 that encodes what it receives into frames.  Sends, the goroutine, the write loop
 and Close interleave freely.  A panic in the write loop ends the process.
 */
module EventPipeline {
  import opened JsonValues
  import opened EventCodec

  const CAPACITY := 8

  datatype Runner = Idle | Holding(event: Event) | Exited

  datatype WriterEnd = StreamClosed | ContextDone | NotAllowed | NotEncodable | WriteFailed

  datatype Writer = Receiving | Handling(event: Event) | Stopped(why: WriterEnd) | Crashed

  /**
   `accepted` is every event a send has put into the queue, `taken` every event
   the write loop has received and `dropped` what the goroutine held when it quit.
   `panicked` records a send on the closed events channel.
   */
  datatype State = State(
    allowed: set<string>,
    queue: seq<Event>,
    events: seq<Event>,
    runner: Runner,
    onceFired: bool,
    doneCloses: nat,
    eventsCloses: nat,
    panicked: bool,
    writer: Writer,
    accepted: seq<Event>,
    dropped: seq<Event>,
    taken: seq<Event>,
    frames: seq<map<string, Json>>)

  /** The event every realtime session starts with, before its goroutine runs. */
  const CREATED := Event("session.created", "", Object([("type", Str("session.created")), ("event_id", Str("event_test")),
    ("session", Obj(map["id" := Str("sess_test"), "object" := Str("realtime.session"), "type" := Str("realtime")]))]))

  function Opened(realtime: bool, allowed: set<string>): State {
    var first := if realtime then [CREATED] else [];
    State(allowed, first, [], Idle, false, 0, 0, false, Receiving, first, [], [], [])
  }

  datatype Action =
    | Send(event: Event)
    | RefuseSend
    | RunnerTakes | RunnerPuts | RunnerQuits
    | Close
    | Receive | ReceiveClosed | ContextEnds
    | Handle(delivered: bool)

  /** A crashed process does nothing more. */
  predicate Enabled(s: State, a: Action) {
    !s.writer.Crashed? && Possible(s, a)
  }

  predicate Possible(s: State, a: Action) {
    match a
    case Send(_) => |s.queue| < CAPACITY
    case RefuseSend => s.doneCloses > 0
    case RunnerTakes => s.runner.Idle? && s.queue != []
    case RunnerPuts => s.runner.Holding? && |s.events| < CAPACITY
    case RunnerQuits => !s.runner.Exited? && s.doneCloses > 0
    case Close => true
    case Receive => s.writer.Receiving? && s.events != []
    case ReceiveClosed => s.writer.Receiving? && s.events == [] && s.eventsCloses > 0
    case ContextEnds => s.writer.Receiving?
    case Handle(_) => s.writer.Handling?
  }

  /** What the write loop does with an event it has received. */
  function Handled(s: State, event: Event, delivered: bool): State {
    var encoded := EncodeEvent(event);
    if event.kind !in s.allowed then s.(writer := Stopped(NotAllowed))
    else if encoded.Panics? then s.(writer := Crashed)
    else if !encoded.Encoded? then s.(writer := Stopped(NotEncodable))
    else if !delivered then s.(writer := Stopped(WriteFailed))
    else s.(writer := Receiving, frames := s.frames + [encoded.members])
  }

  function Next(s: State, a: Action): State
    requires Enabled(s, a)
  {
    match a
    case Send(event) => s.(queue := s.queue + [event], accepted := s.accepted + [event])
    case RefuseSend => s
    case RunnerTakes => s.(runner := Holding(s.queue[0]), queue := s.queue[1..])
    case RunnerPuts =>
      s.(runner := Idle, events := s.events + [s.runner.event], panicked := s.panicked || s.eventsCloses > 0)
    case RunnerQuits =>
      s.(runner := Exited, eventsCloses := s.eventsCloses + 1,
         dropped := if s.runner.Holding? then [s.runner.event] else [])
    case Close => if s.onceFired then s else s.(onceFired := true, doneCloses := s.doneCloses + 1)
    case Receive => s.(writer := Handling(s.events[0]), taken := s.taken + [s.events[0]], events := s.events[1..])
    case ReceiveClosed => s.(writer := Stopped(StreamClosed))
    case ContextEnds => s.(writer := Stopped(ContextDone))
    case Handle(delivered) => Handled(s, s.writer.event, delivered)
  }

  predicate Run(states: seq<State>, actions: seq<Action>) {
    && |states| == |actions| + 1
    && forall i :: 0 <= i < |actions| ==> StepAt(states, actions, i)
  }

  predicate StepAt(states: seq<State>, actions: seq<Action>, i: nat)
    requires |states| == |actions| + 1 && i < |actions|
  {
    Enabled(states[i], actions[i]) && states[i + 1] == Next(states[i], actions[i])
  }

  // ---- Invariant ----

  /** The event between the two channels: in the goroutine's hand, or lost when it quit. */
  function InHand(s: State): seq<Event> {
    if s.runner.Holding? then [s.runner.event] else s.dropped
  }

  /** Each frame is the encoding of the event in the same place, and that event was allowed. */
  predicate FramesEncode(allowed: set<string>, frames: seq<map<string, Json>>, events: seq<Event>) {
    && |frames| <= |events|
    && forall i :: 0 <= i < |frames| ==> events[i].kind in allowed && EncodeEvent(events[i]) == Encoded(frames[i])
  }

  /** An allowed event whose type is not blank and whose payload is null. */
  predicate Fatal(allowed: set<string>, event: Event) {
    event.kind in allowed && !Blank(event.kind) && event.data == Scalar(Null)
  }

  /** What each way to stop says about the last event received. */
  predicate StoppedFor(why: WriterEnd, s: State) {
    match why
    case StreamClosed => |s.taken| == |s.frames|
    case ContextDone => |s.taken| == |s.frames|
    case NotAllowed => |s.taken| == |s.frames| + 1 && s.taken[|s.frames|].kind !in s.allowed
    case NotEncodable =>
      |s.taken| == |s.frames| + 1 && s.taken[|s.frames|].kind in s.allowed && EncodeEvent(s.taken[|s.frames|]) == Refused
    case WriteFailed =>
      |s.taken| == |s.frames| + 1 && s.taken[|s.frames|].kind in s.allowed && EncodeEvent(s.taken[|s.frames|]).Encoded?
  }

  ghost predicate Inv(s: State) {
    && s.accepted == s.taken + (s.events + (InHand(s) + s.queue))
    && |s.queue| <= CAPACITY && |s.events| <= CAPACITY && |s.dropped| <= 1
    && (!s.runner.Exited? ==> s.dropped == [])
    && s.eventsCloses == (if s.runner.Exited? then 1 else 0)
    && s.doneCloses == (if s.onceFired then 1 else 0)
    && (s.runner.Exited? ==> s.onceFired)
    && !s.panicked
    && FramesEncode(s.allowed, s.frames, s.taken)
    && match s.writer
       case Receiving => |s.frames| == |s.taken|
       case Handling(e) => |s.frames| + 1 == |s.taken| && s.taken[|s.frames|] == e
       case Stopped(why) => StoppedFor(why, s)
       case Crashed => |s.taken| == |s.frames| + 1 && Fatal(s.allowed, s.taken[|s.frames|])
  }

  lemma HeadMoves(a: seq<Event>, b: seq<Event>, rest: seq<Event>)
    requires b != []
    ensures a + (b + rest) == (a + [b[0]]) + (b[1..] + rest)
  {
  }

  lemma SendKeepsInv(s: State, e: Event)
    requires Inv(s) && Enabled(s, Send(e))
    ensures Inv(Next(s, Send(e)))
  {
  }

  lemma RunnerKeepsInv(s: State, a: Action)
    requires Inv(s) && Enabled(s, a) && (a.RunnerTakes? || a.RunnerPuts? || a.RunnerQuits?)
    ensures Inv(Next(s, a))
  {
  }

  lemma ReceiveKeepsInv(s: State)
    requires Inv(s) && Enabled(s, Receive)
    ensures Inv(Next(s, Receive))
  {
    HeadMoves(s.taken, s.events, InHand(s) + s.queue);
  }

  lemma HandleKeepsInv(s: State, delivered: bool)
    requires Inv(s) && Enabled(s, Handle(delivered))
    ensures Inv(Next(s, Handle(delivered)))
  {
    var encoded := EncodeEvent(s.writer.event);
    PanicsExactly(s.writer.event);
    if encoded.Encoded? && s.writer.event.kind in s.allowed {
      FrameAdded(s.allowed, s.frames, s.taken, encoded.members);
    }
  }

  lemma FrameAdded(allowed: set<string>, frames: seq<map<string, Json>>, events: seq<Event>, frame: map<string, Json>)
    requires FramesEncode(allowed, frames, events) && |frames| < |events|
    requires events[|frames|].kind in allowed && EncodeEvent(events[|frames|]) == Encoded(frame)
    ensures FramesEncode(allowed, frames + [frame], events)
  {
  }

  lemma StepKeepsInv(s: State, a: Action)
    requires Inv(s) && Enabled(s, a)
    ensures Inv(Next(s, a))
  {
    match a
    case Send(e) => SendKeepsInv(s, e);
    case RefuseSend =>
    case Close =>
    case RunnerTakes => RunnerKeepsInv(s, a);
    case RunnerPuts => RunnerKeepsInv(s, a);
    case RunnerQuits => RunnerKeepsInv(s, a);
    case Receive => ReceiveKeepsInv(s);
    case Handle(delivered) => HandleKeepsInv(s, delivered);
    case _ =>
  }

  lemma StepGrows(s: State, a: Action)
    requires Enabled(s, a)
    ensures Grew(s, Next(s, a))
    ensures Next(s, a).allowed == s.allowed
  {
  }

  lemma {:induction false} ReachableInv(states: seq<State>, actions: seq<Action>, realtime: bool, i: nat)
    requires Run(states, actions) && states[0] == Opened(realtime, states[0].allowed) && i < |states|
    ensures Inv(states[i]) && states[i].allowed == states[0].allowed
    ensures states[0].accepted <= states[i].accepted
  {
    if i > 0 {
      ReachableInv(states, actions, realtime, i - 1);
      assert StepAt(states, actions, i - 1);
      StepKeepsInv(states[i - 1], actions[i - 1]);
      StepGrows(states[i - 1], actions[i - 1]);
    }
  }

  /**
   End to end.  In every state of every run: what the write loop has received is
   a prefix of what was accepted, with never more than 17 events between the two;
   a realtime session's first event is session.created; the frames written encode
   a prefix of the accepted events, all allowed; and neither channel is closed
   twice or sent to after its close.
   */
  lemma PipelineOrder(states: seq<State>, actions: seq<Action>, realtime: bool, i: nat)
    requires Run(states, actions) && states[0] == Opened(realtime, states[0].allowed) && i < |states|
    ensures var s := states[i];
            && s.taken <= s.accepted
            && |s.accepted| - |s.taken| <= 17
            && (realtime ==> s.accepted != [] && s.accepted[0] == CREATED)
            && FramesEncode(s.allowed, s.frames, s.accepted)
            && |s.taken| <= |s.frames| + 1
            && s.doneCloses <= 1 && s.eventsCloses <= 1 && !s.panicked
  {
    ReachableInv(states, actions, realtime, i);
  }

  // ---- What the actions have done ----

  datatype Kind = Sends | Takes | Puts | Receives | Closes | Quits | Other

  function KindOf(a: Action): Kind {
    match a
    case Send(_) => Sends
    case RunnerTakes => Takes
    case RunnerPuts => Puts
    case Receive => Receives
    case Close => Closes
    case RunnerQuits => Quits
    case _ => Other
  }

  function Count(actions: seq<Action>, i: nat, kind: Kind): nat
    requires i <= |actions|
  {
    if i == 0 then 0 else Count(actions, i - 1, kind) + (if KindOf(actions[i - 1]) == kind then 1 else 0)
  }

  /** The events sent, in order. */
  function Sent(actions: seq<Action>, i: nat): seq<Event>
    requires i <= |actions|
  {
    if i == 0 then []
    else if actions[i - 1].Send? then Sent(actions, i - 1) + [actions[i - 1].event]
    else Sent(actions, i - 1)
  }

  lemma StepAccounts(s: State, a: Action)
    requires Enabled(s, a)
    ensures var t := Next(s, a); var kind := KindOf(a);
            && t.accepted == s.accepted + (if a.Send? then [a.event] else [])
            && |t.accepted| - |t.queue| == |s.accepted| - |s.queue| + (if kind == Takes then 1 else 0)
            && |t.taken| + |t.events| == |s.taken| + |s.events| + (if kind == Puts then 1 else 0)
            && |t.taken| == |s.taken| + (if kind == Receives then 1 else 0)
            && (t.onceFired <==> s.onceFired || kind == Closes)
            && (t.runner.Exited? <==> s.runner.Exited? || kind == Quits)
  {
  }

  /**
   What every action has contributed: the accepted events are those sent, in order,
   after session.created on the realtime surface; each take empties the queue by one,
   each put and each receive moves one event on; Close and quitting have happened
   exactly if their actions have.
   */
  lemma {:induction false} Accounts(states: seq<State>, actions: seq<Action>, realtime: bool, i: nat)
    requires Run(states, actions) && states[0] == Opened(realtime, states[0].allowed) && i < |states|
    ensures var s := states[i];
            && s.accepted == (if realtime then [CREATED] else []) + Sent(actions, i)
            && |s.accepted| - |s.queue| == Count(actions, i, Takes)
            && |s.taken| + |s.events| == Count(actions, i, Puts)
            && |s.taken| == Count(actions, i, Receives)
            && (s.onceFired <==> Count(actions, i, Closes) > 0)
            && (s.runner.Exited? <==> Count(actions, i, Quits) > 0)
  {
    if i > 0 {
      Accounts(states, actions, realtime, i - 1);
      assert StepAt(states, actions, i - 1);
      StepAccounts(states[i - 1], actions[i - 1]);
    }
  }

  /** Why the write loop is no longer receiving, if the reason is not the event itself. */
  predicate Explained(writer: Writer, past: seq<Action>) {
    && (writer == Stopped(StreamClosed) <==> ReceiveClosed in past)
    && (writer == Stopped(ContextDone) <==> ContextEnds in past)
    && (writer == Stopped(WriteFailed) ==> Handle(false) in past)
    && (Handle(false) in past ==> writer.Crashed? || writer in {Stopped(WriteFailed), Stopped(NotAllowed), Stopped(NotEncodable)})
  }

  lemma StepExplained(s: State, a: Action, past: seq<Action>)
    requires Enabled(s, a) && Explained(s.writer, past)
    ensures Explained(Next(s, a).writer, past + [a])
  {
  }

  lemma {:induction false} AlwaysExplained(states: seq<State>, actions: seq<Action>, i: nat)
    requires Run(states, actions) && i < |states| && states[0].writer == Receiving
    ensures Explained(states[i].writer, actions[..i])
  {
    if i > 0 {
      AlwaysExplained(states, actions, i - 1);
      assert StepAt(states, actions, i - 1);
      StepExplained(states[i - 1], actions[i - 1], actions[..i - 1]);
      assert actions[..i] == actions[..i - 1] + [actions[i - 1]];
    }
  }

  /**
   Why a frame can be missing.  All events received have their frames, except perhaps
   the last one; and that one is still being handled, or is not allowed, or cannot be
   encoded, or its write failed.  The end of the stream and of the context leave none out.
   */
  lemma FramesAreComplete(states: seq<State>, actions: seq<Action>, realtime: bool, i: nat)
    requires Run(states, actions) && states[0] == Opened(realtime, states[0].allowed) && i < |states|
    ensures var s := states[i];
            && |s.frames| <= |s.taken| <= |s.frames| + 1
            && (|s.taken| == |s.frames| <==> s.writer in {Receiving, Stopped(StreamClosed), Stopped(ContextDone)})
            && (s.writer == Stopped(StreamClosed) <==> ReceiveClosed in actions[..i])
            && (s.writer == Stopped(ContextDone) <==> ContextEnds in actions[..i])
            && (|s.taken| == |s.frames| + 1 ==>
                  var last := s.taken[|s.frames|];
                  || s.writer == Handling(last)
                  || (s.writer == Stopped(NotAllowed) && last.kind !in s.allowed)
                  || (s.writer == Stopped(NotEncodable) && EncodeEvent(last) == Refused)
                  || (s.writer == Crashed && EncodeEvent(last) == Panics)
                  || (s.writer == Stopped(WriteFailed) && Handle(false) in actions[..i]))
  {
    ReachableInv(states, actions, realtime, i);
    AlwaysExplained(states, actions, i);
    if states[i].writer.Crashed? {
      PanicsExactly(states[i].taken[|states[i].frames|]);
    }
  }

  predicate Sendable(allowed: set<string>, e: Event) {
    e.kind in allowed && EncodeEvent(e).Encoded?
  }

  /** As long as nothing fails, closes or is cancelled, the loop is alive and has framed all it has handled. */
  lemma LoopStaysAlive(states: seq<State>, actions: seq<Action>, realtime: bool, i: nat)
    requires Run(states, actions) && states[0] == Opened(realtime, states[0].allowed) && i < |states|
    requires Handle(false) !in actions[..i] && ReceiveClosed !in actions[..i] && ContextEnds !in actions[..i]
    requires forall e :: e in states[i].taken ==> Sendable(states[i].allowed, e)
    ensures var s := states[i];
            && (s.writer == Receiving || s.writer.Handling?)
            && |s.frames| == |s.taken| - (if s.writer.Handling? then 1 else 0)
            && forall k :: 0 <= k < |s.frames| ==> EncodeEvent(s.taken[k]) == Encoded(s.frames[k])
  {
    FramesAreComplete(states, actions, realtime, i);
    ReachableInv(states, actions, realtime, i);
    var s := states[i];
    if |s.taken| == |s.frames| + 1 {
      assert s.taken[|s.frames|] in s.taken;
    }
  }

  // ---- Everything accepted can be delivered ----

  /** How many steps the accepted events still need. */
  function Undelivered(s: State): nat {
    4 * |s.queue| + (if s.runner.Holding? then 3 else 0) + 2 * |s.events| + (if s.writer.Handling? then 1 else 0)
  }

  ghost predicate Alive(s: State) {
    && Inv(s) && !s.runner.Exited? && (s.writer.Receiving? || s.writer.Handling?)
    && forall e :: e in s.accepted ==> Sendable(s.allowed, e)
  }

  predicate Delivery(a: Action) {
    a in {RunnerTakes, RunnerPuts, Receive, Handle(true)}
  }

  /** The step that brings some event on. */
  function Forward(s: State): Action {
    if s.writer.Handling? then Handle(true)
    else if s.events != [] then Receive
    else if s.runner.Holding? then RunnerPuts
    else RunnerTakes
  }

  lemma HandlingDelivers(s: State)
    requires Alive(s) && s.writer.Handling?
    ensures Enabled(s, Handle(true)) && Next(s, Handle(true)).writer == Receiving
    ensures Undelivered(Next(s, Handle(true))) < Undelivered(s) && Next(s, Handle(true)).accepted == s.accepted
  {
    assert s.accepted[|s.frames|] == s.taken[|s.frames|] == s.writer.event;
    assert s.writer.event in s.accepted;
  }

  lemma ForwardDelivers(s: State)
    requires Alive(s) && Undelivered(s) > 0
    ensures Enabled(s, Forward(s)) && Delivery(Forward(s))
    ensures Undelivered(Next(s, Forward(s))) < Undelivered(s) && Next(s, Forward(s)).accepted == s.accepted
    ensures Alive(Next(s, Forward(s)))
  {
    if s.writer.Handling? {
      HandlingDelivers(s);
    }
    StepKeepsInv(s, Forward(s));
    StepGrows(s, Forward(s));
  }

  /** A run from `s` of delivering steps, after which every event accepted has been received and framed and any can be sent. */
  ghost predicate Delivers(s: State, states: seq<State>, actions: seq<Action>) {
    && Run(states, actions) && states[0] == s && (forall a :: a in actions ==> Delivery(a))
    && var t := states[|actions|];
       && t.accepted == s.accepted && t.taken == s.accepted && |t.frames| == |s.accepted|
       && FramesEncode(t.allowed, t.frames, t.accepted) && t.writer == Receiving && forall e :: Enabled(t, Send(e))
  }

  lemma PrependRun(s: State, a: Action, states: seq<State>, actions: seq<Action>)
    requires Enabled(s, a) && Run(states, actions) && states[0] == Next(s, a)
    ensures Run([s] + states, [a] + actions)
  {
    var states', actions' := [s] + states, [a] + actions;
    forall i | 0 <= i < |actions'|
      ensures StepAt(states', actions', i)
    {
      if i > 0 {
        assert StepAt(states, actions, i - 1);
        assert states'[i] == states[i - 1] && states'[i + 1] == states[i] && actions'[i] == actions[i - 1];
      }
    }
  }

  lemma PrependDelivery(s: State, a: Action, states: seq<State>, actions: seq<Action>)
    requires Enabled(s, a) && Delivery(a) && Next(s, a).accepted == s.accepted
    requires Delivers(Next(s, a), states, actions)
    ensures Delivers(s, [s] + states, [a] + actions)
  {
    PrependRun(s, a, states, actions);
    assert ([s] + states)[|[a] + actions|] == states[|actions|];
    assert forall x :: x in [a] + actions ==> x == a || x in actions;
  }

  /**
   Nothing accepted is ever out of reach: while the session is open, the write loop is
   alive and the events may be sent, all of them can be delivered, and then the queue has room.
   */
  lemma {:induction false} CanDeliverAll(s: State) returns (states: seq<State>, actions: seq<Action>)
    requires Alive(s)
    ensures Delivers(s, states, actions)
    decreases Undelivered(s)
  {
    if Undelivered(s) == 0 {
      return [s], [];
    }
    ForwardDelivers(s);
    states, actions := CanDeliverAll(Next(s, Forward(s)));
    PrependDelivery(s, Forward(s), states, actions);
    states, actions := [s] + states, [Forward(s)] + actions;
  }

  lemma StepInRun(states: seq<State>, actions: seq<Action>, i: nat)
    requires Run(states, actions) && i < |actions|
    ensures Grew(states[i], states[i + 1])
  {
    assert StepAt(states, actions, i);
    StepGrows(states[i], actions[i]);
  }

  predicate Grew(before: State, after: State) {
    before.accepted <= after.accepted && before.taken <= after.taken && before.frames <= after.frames
  }

  lemma GrewFurther(a: State, b: State, c: State)
    requires Grew(a, b) && Grew(b, c)
    ensures Grew(a, c)
  {
  }

  /** Written frames and accepted events are never revised. */
  lemma {:induction false} HistoryGrows(states: seq<State>, actions: seq<Action>, i: nat, j: nat)
    requires Run(states, actions) && i <= j < |states|
    ensures Grew(states[i], states[j])
    decreases j - i
  {
    if i < j {
      HistoryGrows(states, actions, i, j - 1);
      StepInRun(states, actions, j - 1);
      GrewFurther(states[i], states[j - 1], states[j]);
    }
  }

  /**
   The process crashes exactly when the write loop handles an allowed event with a
   null payload: every state of every run is crashed if and only if such an event has
   been received and is no longer waiting to be handled.  A crash writes no frame and
   nothing follows it.
   */
  lemma CrashExactly(states: seq<State>, actions: seq<Action>, realtime: bool, i: nat)
    requires Run(states, actions) && states[0] == Opened(realtime, states[0].allowed) && i < |states|
    ensures var s := states[i];
            && (s.writer.Crashed? <==> !s.writer.Handling? && exists e :: e in s.taken && Fatal(s.allowed, e))
            && (s.writer.Crashed? ==> |s.taken| == |s.frames| + 1 && Fatal(s.allowed, s.taken[|s.frames|]) && i == |actions|)
  {
    ReachableInv(states, actions, realtime, i);
    FatalUnframed(states[i]);
    if i < |actions| {
      StepsAreAlive(states, actions, i);
    }
    if states[i].writer.Crashed? {
      assert states[i].taken[|states[i].frames|] in states[i].taken;
    }
  }

  lemma StepsAreAlive(states: seq<State>, actions: seq<Action>, i: nat)
    requires Run(states, actions) && i < |actions|
    ensures !states[i].writer.Crashed?
  {
    assert StepAt(states, actions, i);
  }

  /** An event that was framed did not crash the encoder. */
  lemma FatalUnframed(s: State)
    requires Inv(s)
    ensures forall k :: 0 <= k < |s.frames| ==> !Fatal(s.allowed, s.taken[k])
  {
    forall k | 0 <= k < |s.frames|
      ensures !Fatal(s.allowed, s.taken[k])
    {
      assert EncodeEvent(s.taken[k]) == Encoded(s.frames[k]);
    }
  }

  /**
   Close unblocks everyone: a send that finds the queue full can be refused, the
   goroutine can quit however full its channels are, and once it has, a receiver
   gets a buffered event or sees the channel closed.
   */
  lemma CloseUnblocks(states: seq<State>, actions: seq<Action>, realtime: bool, i: nat)
    requires Run(states, actions) && states[0] == Opened(realtime, states[0].allowed) && i < |states|
    requires states[i].onceFired && !states[i].writer.Crashed?
    ensures Enabled(states[i], RefuseSend)
    ensures states[i].runner.Exited? || Enabled(states[i], RunnerQuits)
    ensures states[i].runner.Exited? && states[i].writer.Receiving? ==>
              Enabled(states[i], Receive) || Enabled(states[i], ReceiveClosed)
  {
    ReachableInv(states, actions, realtime, i);
  }
}
