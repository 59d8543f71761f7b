/**
 The WebSocket session and shutdown protocol as a transition system.

 Connection handlers, their two loops and any number of Shutdown calls
 interleave freely.  A critical section of the registry is one step, so is each
 channel operation; authentication, OpenSession, Accept, the loops' inputs and
 the timer are choices of the environment.
 */
module SessionProtocol {
  import opened Wrappers
  import opened SessionRegistry

  // ---- One connection handler ----

  /** What a loop returns, as far as the close code distinguishes it. */
  datatype LoopError = Clean | Canceled | Violation(message: string) | PeerClosed(status: int) | Failure

  datatype Loop = Unstarted | Running | Sending(result: LoopError) | Gone

  datatype Deferred = DeferUnregister | DeferCancel | DeferCloseAll

  datatype Pc =
    | Arrived | Refused | Authenticating | Opening | Rejecting | Accepting
    | Serving | Ending | Draining | Unwinding | Returned

  datatype Denial = BadCredentials | NoCapability

  /** What the client is answered; when Accept fails it has answered itself. */
  datatype Reply = Error(status: int) | Switched | AcceptError

  /**
   `sent` is everything ever sent on the result channel and `taken` how much of
   it has been received, so the channel holds `sent[taken..]`.
   */
  datatype Conn = Conn(
    pc: Pc,
    id: Option<SessionId>,
    deferred: seq<Deferred>,
    cancelled: bool,
    hasSession: bool,
    sessionCloses: nat,
    closeOnce: bool,
    closedWith: seq<(int, string)>,
    reader: Loop,
    writer: Loop,
    sent: seq<LoopError>,
    taken: nat,
    replies: seq<Reply>)

  const NEW_CONN := Conn(Arrived, None, [], false, false, 0, false, [], Unstarted, Unstarted, [], 0, [])

  const RESULT_CAPACITY := 2
  const REASON_LIMIT := 120

  function TruncateReason(reason: string): string {
    if |reason| > REASON_LIMIT then reason[..REASON_LIMIT] else reason
  }

  function CloseReason(error: LoopError): (r: (int, string))
    ensures |r.1| <= 120
    ensures r == (1000, "OK") <==> error in {Clean, Canceled}
    ensures error.Violation? ==> r.0 == 1008 && r.1 <= error.message && (|error.message| > |r.1| ==> |r.1| == 120)
    ensures error.PeerClosed? && error.status != -1 ==> r == (error.status, "peer closed")
    ensures r == (1011, "backend session failed") <==> error.Failure? || error == PeerClosed(-1)
  {
    match error
    case Clean => (1000, "OK")
    case Canceled => (1000, "OK")
    case Violation(message) => (1008, TruncateReason(message))
    case PeerClosed(status) => if status != -1 then (status, "peer closed") else (1011, "backend session failed")
    case Failure => (1011, "backend session failed")
  }

  /** The body of closeAll; only the handler's own goroutine ever runs it. */
  function CloseAll(c: Conn, reason: (int, string)): Conn {
    if c.closeOnce then c
    else c.(closeOnce := true, cancelled := true, sessionCloses := c.sessionCloses + 1,
            closedWith := c.closedWith + [reason])
  }

  /** Steps of one connection that do not enter the registry. */
  datatype Move =
    | Abort(why: Denial) | Admit | OpenReturns(session: bool, failed: bool) | ReleaseRejected
    | AcceptFails | Upgrade
    | LoopEnds(ofReader: bool, result: LoopError) | LoopSends(byReader: bool)
    | TakeFirst | CloseFirst | TakeSecond | TimerFires | RunDeferred | ClientGone

  function LoopOf(c: Conn, reader: bool): Loop {
    if reader then c.reader else c.writer
  }

  function WithLoop(c: Conn, reader: bool, loop: Loop): Conn {
    if reader then c.(reader := loop) else c.(writer := loop)
  }

  function Answered(c: Conn, reply: Reply): Conn {
    c.(replies := c.replies + [reply])
  }

  predicate CanMove(c: Conn, move: Move) {
    match move
    case Abort(_) => c.pc == Authenticating
    case Admit => c.pc == Authenticating
    case OpenReturns(_, _) => c.pc == Opening
    case ReleaseRejected => c.pc == Rejecting
    case AcceptFails => c.pc == Accepting
    case Upgrade => c.pc == Accepting
    case LoopEnds(reader, _) => LoopOf(c, reader).Running?
    case LoopSends(reader) => LoopOf(c, reader).Sending? && |c.sent| - c.taken < RESULT_CAPACITY
    case TakeFirst => c.pc == Serving && c.taken < |c.sent|
    case CloseFirst => c.pc == Ending && c.sent != []
    case TakeSecond => c.pc == Draining && c.taken < |c.sent|
    case TimerFires => c.pc == Draining
    case RunDeferred => c.pc == Unwinding && c.deferred != [] && c.deferred[|c.deferred| - 1] != DeferUnregister
    case ClientGone => true
  }

  function Moved(c: Conn, move: Move): Conn
    requires CanMove(c, move)
  {
    match move
    case Abort(why) => Answered(c, Error(if why == BadCredentials then 401 else 501)).(pc := Unwinding)
    case Admit => c.(pc := Opening)
    case OpenReturns(session, failed) =>
      if !session then Answered(c, Error(500)).(pc := Unwinding)
      else c.(hasSession := true, pc := if failed then Rejecting else Accepting)
    case ReleaseRejected => Answered(c, Error(500)).(sessionCloses := c.sessionCloses + 1, pc := Unwinding)
    case AcceptFails => Answered(c, AcceptError).(sessionCloses := c.sessionCloses + 1, pc := Unwinding)
    case Upgrade => Answered(c, Switched).(pc := Serving, deferred := c.deferred + [DeferCloseAll], reader := Running, writer := Running)
    case LoopEnds(reader, result) => WithLoop(c, reader, Sending(result))
    case LoopSends(reader) => WithLoop(c, reader, Gone).(sent := c.sent + [LoopOf(c, reader).result])
    case TakeFirst => c.(pc := Ending, taken := c.taken + 1)
    case CloseFirst => CloseAll(c, CloseReason(c.sent[0])).(pc := Draining)
    case TakeSecond => c.(pc := Unwinding, taken := c.taken + 1)
    case TimerFires => c.(pc := Unwinding)
    case RunDeferred =>
      var popped := c.(deferred := c.deferred[..|c.deferred| - 1]);
      if c.deferred[|c.deferred| - 1] == DeferCancel then popped.(cancelled := true)
      else CloseAll(popped, (1000, "OK"))
    case ClientGone => c.(cancelled := true)
  }

  // ---- The whole handler ----

  datatype Phase = Cancelling | Waiting | ReturnedNil | ReturnedError

  datatype Call = Call(phase: Phase, snapshot: set<Owner>, remaining: seq<Owner>)

  type CallId = nat

  datatype State = State(
    registry: Registry,
    conns: map<Owner, Conn>,
    calls: map<CallId, Call>,
    registrations: nat)

  const INITIAL := State(NEW_REGISTRY, map[], map[], 0)

  datatype Action =
    | Arrive(conn: Owner)
    | Register(conn: Owner)
    | Local(conn: Owner, move: Move)
    | Unregister(conn: Owner)
    | Snapshot(call: CallId, order: seq<Owner>)
    | CancelNext(call: CallId)
    | BeginWait(call: CallId)
    | ReturnNil(call: CallId)
    | ReturnContextError(call: CallId)

  function Elements(order: seq<Owner>): set<Owner> {
    set c | c in order
  }

  predicate Enabled(s: State, a: Action) {
    match a
    case Arrive(c) => c !in s.conns
    case Register(c) => c in s.conns && s.conns[c].pc == Arrived
    case Local(c, move) => c in s.conns && CanMove(s.conns[c], move)
    case Unregister(c) =>
      && c in s.conns && s.conns[c].pc == Unwinding && s.conns[c].id.Some?
      && s.conns[c].deferred == [DeferUnregister]
    case Snapshot(k, order) =>
      && k !in s.calls
      && |order| == |s.registry.active|
      && Elements(order) == s.registry.active.Values
    case CancelNext(k) => k in s.calls && s.calls[k].phase == Cancelling && s.calls[k].remaining != []
    case BeginWait(k) => k in s.calls && s.calls[k].phase == Cancelling && s.calls[k].remaining == []
    case ReturnNil(k) => k in s.calls && s.calls[k].phase == Waiting && s.registry.doneCloses > 0
    case ReturnContextError(k) => k in s.calls && s.calls[k].phase == Waiting
  }

  function CancelConn(conns: map<Owner, Conn>, c: Owner): map<Owner, Conn> {
    if c in conns then conns[c := conns[c].(cancelled := true)] else conns
  }

  function Next(s: State, a: Action): State
    requires Enabled(s, a)
  {
    match a
    case Arrive(c) => s.(conns := s.conns[c := NEW_CONN])
    case Register(c) =>
      var (registry, id) := Registered(s.registry, c);
      if id.None? then s.(conns := s.conns[c := Answered(s.conns[c], Error(503)).(pc := Refused, cancelled := true)])
      else s.(registry := registry, registrations := s.registrations + 1,
              conns := s.conns[c := s.conns[c].(pc := Authenticating, id := id,
                                                deferred := [DeferUnregister, DeferCancel])])
    case Local(c, move) => s.(conns := s.conns[c := Moved(s.conns[c], move)])
    case Unregister(c) =>
      s.(registry := Unregistered(s.registry, s.conns[c].id.value),
         conns := s.conns[c := s.conns[c].(pc := Returned, deferred := [])])
    case Snapshot(k, order) =>
      s.(registry := ShutdownBegun(s.registry),
         calls := s.calls[k := Call(Cancelling, Elements(order), order)])
    case CancelNext(k) =>
      s.(conns := CancelConn(s.conns, s.calls[k].remaining[0]),
         calls := s.calls[k := s.calls[k].(remaining := s.calls[k].remaining[1..])])
    case BeginWait(k) => s.(calls := s.calls[k := s.calls[k].(phase := Waiting)])
    case ReturnNil(k) => s.(calls := s.calls[k := s.calls[k].(phase := ReturnedNil)])
    case ReturnContextError(k) => s.(calls := s.calls[k := s.calls[k].(phase := ReturnedError)])
  }

  /** `states` is the run that takes `actions` one after another from `states[0]`. */
  predicate Run(states: seq<State>, actions: seq<Action>) {
    && |states| == |actions| + 1
    && forall i :: 0 <= i < |actions| ==> StepAt(states, actions, i)
  }

  predicate StepAt(states: seq<State>, actions: seq<Action>, i: nat)
    requires |states| == |actions| + 1 && i < |actions|
  {
    Enabled(states[i], actions[i]) && states[i + 1] == Next(states[i], actions[i])
  }

  lemma StepInRun(states: seq<State>, actions: seq<Action>, i: nat)
    requires Run(states, actions) && i < |actions|
    ensures Enabled(states[i], actions[i]) && states[i + 1] == Next(states[i], actions[i])
  {
    assert StepAt(states, actions, i);
  }

  predicate InitialRun(states: seq<State>, actions: seq<Action>) {
    Run(states, actions) && states[0] == INITIAL
  }

  // ---- Invariants ----

  function GoneCount(c: Conn): nat {
    (if c.reader.Gone? then 1 else 0) + (if c.writer.Gone? then 1 else 0)
  }

  predicate LoopsIdle(c: Conn) {
    c.reader.Unstarted? && c.writer.Unstarted? && c.sent == [] && c.taken == 0 && !c.closeOnce && c.closedWith == []
  }

  predicate LoopsStarted(c: Conn) {
    !c.reader.Unstarted? && !c.writer.Unstarted? && |c.sent| == GoneCount(c) && c.taken <= |c.sent|
  }

  predicate ClosedOnce(c: Conn) {
    c.closeOnce && c.cancelled && c.taken >= 1 && c.sent != [] && c.closedWith == [CloseReason(c.sent[0])]
  }

  const PLAIN_STACK := [DeferUnregister, DeferCancel]
  const FULL_STACK := [DeferUnregister, DeferCancel, DeferCloseAll]

  /** Everything the pc of a handler says about the rest of its state. */
  predicate ConnInv(c: Conn) {
    && (c.id.None? <==> c.pc in {Arrived, Refused})
    && (LoopsIdle(c) || LoopsStarted(c))
    && match c.pc
       case Arrived => LoopsIdle(c) && c.deferred == [] && !c.hasSession && c.sessionCloses == 0
       case Refused => LoopsIdle(c) && c.deferred == [] && !c.hasSession && c.sessionCloses == 0
       case Authenticating => LoopsIdle(c) && c.deferred == PLAIN_STACK && !c.hasSession && c.sessionCloses == 0
       case Opening => LoopsIdle(c) && c.deferred == PLAIN_STACK && !c.hasSession && c.sessionCloses == 0
       case Rejecting => LoopsIdle(c) && c.deferred == PLAIN_STACK && c.hasSession && c.sessionCloses == 0
       case Accepting => LoopsIdle(c) && c.deferred == PLAIN_STACK && c.hasSession && c.sessionCloses == 0
       case Serving =>
         LoopsStarted(c) && c.deferred == FULL_STACK && c.hasSession && c.sessionCloses == 0
         && c.taken == 0 && !c.closeOnce && c.closedWith == []
       case Ending =>
         LoopsStarted(c) && c.deferred == FULL_STACK && c.hasSession && c.sessionCloses == 0
         && c.taken == 1 && !c.closeOnce && c.closedWith == []
       case Draining =>
         LoopsStarted(c) && ClosedOnce(c) && c.deferred == FULL_STACK && c.hasSession && c.sessionCloses == 1
       case Unwinding =>
         && (LoopsStarted(c) ==> ClosedOnce(c) && c.hasSession)
         && c.sessionCloses == (if c.hasSession then 1 else 0)
         && (c.deferred == PLAIN_STACK || (c.deferred == FULL_STACK && LoopsStarted(c))
             || (c.deferred == [DeferUnregister] && c.cancelled))
       case Returned =>
         && (LoopsStarted(c) ==> ClosedOnce(c) && c.hasSession)
         && c.sessionCloses == (if c.hasSession then 1 else 0)
         && c.deferred == [] && c.cancelled
  }

  /** The handler has registered and not yet unregistered. */
  predicate Live(c: Conn) {
    c.pc !in {Arrived, Refused, Returned}
  }

  ghost predicate ConnsInv(conns: map<Owner, Conn>) {
    forall c :: c in conns ==> ConnInv(conns[c])
  }

  /** The table lists exactly the live handlers, each under its own id. */
  ghost predicate TableInv(active: map<SessionId, Owner>, conns: map<Owner, Conn>) {
    && (forall id :: id in active ==>
          active[id] in conns && Live(conns[active[id]]) && conns[active[id]].id == Some(id))
    && (forall c :: c in conns && Live(conns[c]) ==>
          conns[c].id.Some? && conns[c].id.value in active && active[conns[c].id.value] == c)
  }

  /** The ids handed out so far are 1 to `registrations`, all different. */
  ghost predicate IdsInv(registrations: nat, nextSession: SessionId, conns: map<Owner, Conn>) {
    && nextSession == registrations
    && (forall c :: c in conns && conns[c].id.Some? ==> 1 <= conns[c].id.value <= registrations)
    && (forall c, d :: c in conns && d in conns && c != d && conns[c].id.Some? ==> conns[c].id != conns[d].id)
  }

  /** What holds of a Shutdown call from its critical section on. */
  ghost predicate CallInv(registry: Registry, conns: map<Owner, Conn>, call: Call) {
    && registry.shuttingDown
    && (forall id :: id in registry.active ==> registry.active[id] in call.snapshot)
    && (forall c :: c in call.snapshot ==> c in conns && (c in call.remaining || conns[c].cancelled))
    && (call.phase != Cancelling ==> call.remaining == [])
    && (call.phase == ReturnedNil ==> Drained(registry))
  }

  ghost predicate CallsInv(s: State) {
    forall k :: k in s.calls ==> CallInv(s.registry, s.conns, s.calls[k])
  }

  ghost predicate Inv(s: State) {
    && Consistent(s.registry)
    && ConnsInv(s.conns)
    && TableInv(s.registry.active, s.conns)
    && IdsInv(s.registrations, s.registry.nextSession, s.conns)
    && CallsInv(s)
  }

  // ---- Preservation ----

  ghost predicate MoveIsSafe(c: Conn, move: Move)
    requires CanMove(c, move)
  {
    var d := Moved(c, move);
    ConnInv(d) && d.id == c.id && Live(d) == Live(c) && (c.cancelled ==> d.cancelled)
  }

  lemma OpeningIsSafe(c: Conn, move: Move)
    requires ConnInv(c) && CanMove(c, move) && c.pc in {Authenticating, Opening, Rejecting, Accepting}
    requires !move.LoopEnds? && !move.LoopSends? && !move.ClientGone?
    ensures MoveIsSafe(c, move)
  {
  }

  lemma LoopIsSafe(c: Conn, move: Move)
    requires ConnInv(c) && CanMove(c, move) && (move.LoopEnds? || move.LoopSends?)
    ensures MoveIsSafe(c, move)
  {
  }

  lemma ServingIsSafe(c: Conn, move: Move)
    requires ConnInv(c) && CanMove(c, move) && move in {TakeFirst, CloseFirst, TakeSecond, TimerFires}
    ensures MoveIsSafe(c, move)
  {
  }

  lemma UnwindingIsSafe(c: Conn, move: Move)
    requires ConnInv(c) && CanMove(c, move) && move in {RunDeferred, ClientGone}
    ensures MoveIsSafe(c, move)
  {
  }

  lemma MoveKeepsConnInv(c: Conn, move: Move)
    requires ConnInv(c) && CanMove(c, move)
    ensures ConnInv(Moved(c, move))
    ensures Moved(c, move).id == c.id && Live(Moved(c, move)) == Live(c)
    ensures c.cancelled ==> Moved(c, move).cancelled
  {
    match move
    case LoopEnds(_, _) => LoopIsSafe(c, move);
    case LoopSends(_) => LoopIsSafe(c, move);
    case TakeFirst => ServingIsSafe(c, move);
    case CloseFirst => ServingIsSafe(c, move);
    case TakeSecond => ServingIsSafe(c, move);
    case TimerFires => ServingIsSafe(c, move);
    case RunDeferred => UnwindingIsSafe(c, move);
    case ClientGone => UnwindingIsSafe(c, move);
    case _ => OpeningIsSafe(c, move);
  }

  lemma UpdateConns(conns: map<Owner, Conn>, c: Owner, conn: Conn)
    requires ConnsInv(conns) && ConnInv(conn)
    ensures ConnsInv(conns[c := conn])
  {
  }

  /** A step that changes one handler without registering or unregistering it. */
  lemma QuietStep(s: State, c: Owner, conn: Conn)
    requires Inv(s) && ConnInv(conn)
    requires c in s.conns ==> conn.id == s.conns[c].id && Live(conn) == Live(s.conns[c])
    requires c in s.conns && s.conns[c].cancelled ==> conn.cancelled
    requires c !in s.conns ==> conn.id == None && !Live(conn)
    ensures Inv(s.(conns := s.conns[c := conn]))
  {
    UpdateConns(s.conns, c, conn);
    var t := s.(conns := s.conns[c := conn]);
    QuietTable(s.registry.active, s.conns, c, conn);
    QuietIds(s.registrations, s.registry.nextSession, s.conns, c, conn);
    forall k | k in t.calls
      ensures CallInv(t.registry, t.conns, t.calls[k])
    {
      assert CallInv(s.registry, s.conns, s.calls[k]);
    }
  }

  lemma QuietTable(active: map<SessionId, Owner>, conns: map<Owner, Conn>, c: Owner, conn: Conn)
    requires TableInv(active, conns)
    requires c in conns ==> conn.id == conns[c].id && Live(conn) == Live(conns[c])
    requires c !in conns ==> conn.id == None && !Live(conn)
    ensures TableInv(active, conns[c := conn])
  {
  }

  lemma QuietIds(registrations: nat, nextSession: SessionId, conns: map<Owner, Conn>, c: Owner, conn: Conn)
    requires IdsInv(registrations, nextSession, conns)
    requires conn.id == if c in conns then conns[c].id else None
    ensures IdsInv(registrations, nextSession, conns[c := conn])
  {
  }

  lemma RegisterKeepsInv(s: State, c: Owner)
    requires Inv(s) && Enabled(s, Register(c)) && Next(s, Register(c)).registrations < ID_SPACE
    ensures Inv(Next(s, Register(c)))
  {
    var t := Next(s, Register(c));
    assert ConnInv(s.conns[c]);
    if s.registry.shuttingDown {
      QuietStep(s, c, t.conns[c]);
    } else {
      assert t.registrations == s.registrations + 1 < ID_SPACE;
      assert NextId(s.registry) == s.registrations + 1;
      UpdateConns(s.conns, c, t.conns[c]);
      NewIds(s.registrations, s.registry.nextSession, s.registry.active, s.conns, c, t.conns[c]);
      CallsFollowShutdown(s);
    }
  }

  lemma CallsFollowShutdown(s: State)
    requires CallsInv(s)
    ensures s.calls != map[] ==> s.registry.shuttingDown
  {
  }

  lemma NewIds(n: nat, next: SessionId, active: map<SessionId, Owner>, conns: map<Owner, Conn>, c: Owner, conn: Conn)
    requires IdsInv(n, next, conns) && n + 1 < ID_SPACE && TableInv(active, conns)
    requires c in conns && !Live(conns[c]) && conns[c].id == None
    requires conn.id == Some(n + 1) && Live(conn)
    ensures IdsInv(n + 1, n + 1, conns[c := conn])
    ensures TableInv(active[n + 1 := c], conns[c := conn])
  {
  }

  lemma UnregisterKeepsCall(s: State, c: Owner, call: Call)
    requires Enabled(s, Unregister(c)) && CallInv(s.registry, s.conns, call)
    ensures CallInv(Next(s, Unregister(c)).registry, Next(s, Unregister(c)).conns, call)
  {
  }

  lemma UnregisterKeepsInv(s: State, c: Owner)
    requires Inv(s) && Enabled(s, Unregister(c))
    ensures Inv(Next(s, Unregister(c)))
  {
    var t := Next(s, Unregister(c));
    assert ConnInv(s.conns[c]);
    UpdateConns(s.conns, c, t.conns[c]);
    GoneFromTable(s.registry.active, s.conns, c, t.conns[c]);
    QuietIds(s.registrations, s.registry.nextSession, s.conns, c, t.conns[c]);
    forall k | k in t.calls
      ensures CallInv(t.registry, t.conns, t.calls[k])
    {
      UnregisterKeepsCall(s, c, s.calls[k]);
    }
  }

  lemma GoneFromTable(active: map<SessionId, Owner>, conns: map<Owner, Conn>, c: Owner, conn: Conn)
    requires TableInv(active, conns)
    requires c in conns && Live(conns[c]) && !Live(conn) && conn.id == conns[c].id
    ensures conn.id.Some? && TableInv(active - {conn.id.value}, conns[c := conn])
  {
  }

  lemma SnapshotKeepsInv(s: State, k: CallId, order: seq<Owner>)
    requires Inv(s) && Enabled(s, Snapshot(k, order))
    ensures Inv(Next(s, Snapshot(k, order)))
  {
    var t := Next(s, Snapshot(k, order));
    forall id | id in t.registry.active
      ensures t.registry.active[id] in t.calls[k].snapshot
    {
      assert s.registry.active[id] in s.registry.active.Values;
    }
    forall j | j in s.calls
      ensures CallInv(t.registry, t.conns, s.calls[j])
    {
      assert CallInv(s.registry, s.conns, s.calls[j]);
    }
  }

  lemma CancelKeepsInv(s: State, k: CallId)
    requires Inv(s) && Enabled(s, CancelNext(k))
    ensures Inv(Next(s, CancelNext(k)))
  {
    var c := s.calls[k].remaining[0];
    var u := s.(conns := CancelConn(s.conns, c));
    if c in s.conns {
      assert ConnInv(s.conns[c]);
      MoveKeepsConnInv(s.conns[c], ClientGone);
      QuietStep(s, c, u.conns[c]);
    }
    assert CallInv(u.registry, u.conns, u.calls[k]);
    var t := Next(s, CancelNext(k));
    assert t == u.(calls := t.calls);
    forall j | j in t.calls
      ensures CallInv(t.registry, t.conns, t.calls[j])
    {
      assert CallInv(u.registry, u.conns, u.calls[j]);
    }
  }

  lemma PhaseKeepsInv(s: State, a: Action)
    requires Inv(s) && Enabled(s, a)
    requires a.BeginWait? || a.ReturnNil? || a.ReturnContextError?
    ensures Inv(Next(s, a))
  {
    var t := Next(s, a);
    forall j | j in t.calls
      ensures CallInv(t.registry, t.conns, t.calls[j])
    {
      assert CallInv(s.registry, s.conns, s.calls[j]);
    }
  }

  /** The invariant is inductive as long as fewer than 2^64 registrations have happened. */
  lemma StepKeepsInv(s: State, a: Action)
    requires Inv(s) && Enabled(s, a) && Next(s, a).registrations < ID_SPACE
    ensures Inv(Next(s, a))
  {
    match a
    case Arrive(c) => QuietStep(s, c, NEW_CONN);
    case Register(c) => RegisterKeepsInv(s, c);
    case Local(c, move) =>
      assert ConnInv(s.conns[c]);
      MoveKeepsConnInv(s.conns[c], move);
      QuietStep(s, c, Moved(s.conns[c], move));
    case Unregister(c) => UnregisterKeepsInv(s, c);
    case Snapshot(k, order) => SnapshotKeepsInv(s, k, order);
    case CancelNext(k) => CancelKeepsInv(s, k);
    case _ => PhaseKeepsInv(s, a);
  }

  // ---- Results over whole runs ----

  lemma RegistryStep(s: State, a: Action)
    requires Consistent(s.registry) && Enabled(s, a)
    ensures Consistent(Next(s, a).registry)
    ensures Drained(s.registry) ==> Next(s, a).registry == s.registry
    ensures s.registry.shuttingDown ==> Next(s, a).registry.shuttingDown && Next(s, a).registrations == s.registrations
    ensures s.registrations <= Next(s, a).registrations
  {
  }

  /**
   No lost wakeup.  In every state of every run the completion channel has been
   closed exactly when shutdown has begun and no session is active, it is never
   closed twice, and that situation is never left.
   */
  lemma {:induction false} NoLostWakeup(states: seq<State>, actions: seq<Action>, i: nat, j: nat)
    requires InitialRun(states, actions) && i <= j < |states|
    ensures states[j].registry.doneCloses <= 1
    ensures states[j].registry.doneCloses == 1 <==> states[j].registry.shuttingDown && states[j].registry.active == map[]
    ensures Consistent(states[j].registry)
    ensures states[i].registry.doneCloses == 1 ==> states[j].registry == states[i].registry
    decreases j
  {
    if j > 0 {
      NoLostWakeup(states, actions, if i < j then i else j - 1, j - 1);
      StepInRun(states, actions, j - 1);
      RegistryStep(states[j - 1], actions[j - 1]);
    }
  }

  lemma {:induction false} ReachableInv(states: seq<State>, actions: seq<Action>, i: nat)
    requires InitialRun(states, actions) && i < |states| && states[i].registrations < ID_SPACE
    ensures Inv(states[i])
  {
    if i > 0 {
      NoLostWakeup(states, actions, i - 1, i - 1);
      StepInRun(states, actions, i - 1);
      RegistryStep(states[i - 1], actions[i - 1]);
      ReachableInv(states, actions, i - 1);
      StepKeepsInv(states[i - 1], actions[i - 1]);
    }
  }

  /** The handler got a session from OpenSession and has closed it exactly once, or got none and closed none. */
  predicate Released(c: Conn) {
    c.sessionCloses == if c.hasSession then 1 else 0
  }

  /**
   Exactly-once release.  A session is never closed twice; a handler whose id
   has left the table, or that has returned, has closed its session; the
   connection is closed at most once, with the reason of whichever loop ended
   first; and a loop that holds a result can always send it.
   */
  lemma SessionsReleasedOnce(states: seq<State>, actions: seq<Action>, i: nat, c: Owner)
    requires InitialRun(states, actions) && i < |states| && states[i].registrations < ID_SPACE
    requires c in states[i].conns
    ensures var conn := states[i].conns[c];
            && conn.sessionCloses <= 1
            && (conn.id.Some? && c !in states[i].registry.active.Values ==> conn.pc == Returned && Released(conn))
            && (conn.pc in {Unwinding, Returned} ==> Released(conn))
            && |conn.sent| <= 2
            && (conn.closedWith == [] || (conn.sent != [] && conn.closedWith == [CloseReason(conn.sent[0])]))
            && forall reader :: LoopOf(conn, reader).Sending? ==> CanMove(conn, LoopSends(reader))
  {
    ReachableInv(states, actions, i);
    var conn := states[i].conns[c];
    assert ConnInv(conn);
    if conn.id.Some? && c !in states[i].registry.active.Values {
      assert !Live(conn);
    }
  }

  lemma CallStep(s: State, a: Action, k: CallId)
    requires Enabled(s, a) && k in s.calls
    ensures k in Next(s, a).calls && Next(s, a).calls[k].snapshot == s.calls[k].snapshot
  {
  }

  lemma {:induction false} CallPersists(states: seq<State>, actions: seq<Action>, i: nat, j: nat, k: CallId)
    requires InitialRun(states, actions) && i <= j < |states|
    requires k in states[i].calls && states[i].registry.shuttingDown
    ensures k in states[j].calls && states[j].calls[k].snapshot == states[i].calls[k].snapshot
    ensures states[j].registry.shuttingDown && states[j].registrations == states[i].registrations
    decreases j - i
  {
    if i < j {
      CallPersists(states, actions, i, j - 1, k);
      NoLostWakeup(states, actions, j - 1, j - 1);
      StepInRun(states, actions, j - 1);
      RegistryStep(states[j - 1], actions[j - 1]);
      CallStep(states[j - 1], actions[j - 1], k);
    }
  }

  /**
   Shutdown reaches everyone.  From the critical section of a Shutdown call on,
   nobody registers, every active session is one the call took the cancel of,
   all of those are cancelled before it waits, and if it returns nil then every
   handler that ever registered has closed its session and unregistered.
   */
  lemma ShutdownReachesEveryone(states: seq<State>, actions: seq<Action>, i: nat, j: nat, k: CallId)
    requires InitialRun(states, actions) && i <= j < |states| && states[i].registrations < ID_SPACE
    requires k in states[i].calls
    ensures k in states[j].calls
    ensures var call := states[j].calls[k];
            && states[j].registrations == states[i].registrations
            && states[j].registry.active.Values <= states[i].calls[k].snapshot
            && (call.phase != Cancelling ==>
                  forall c :: c in states[i].calls[k].snapshot ==> c in states[j].conns && states[j].conns[c].cancelled)
            && (call.phase == ReturnedNil ==>
                  forall c :: c in states[j].conns && states[j].conns[c].id.Some? ==>
                    states[j].conns[c].pc == Returned && Released(states[j].conns[c]))
  {
    ReachableInv(states, actions, i);
    assert CallInv(states[i].registry, states[i].conns, states[i].calls[k]);
    CallPersists(states, actions, i, j, k);
    ReachableInv(states, actions, j);
    CallReaches(states[j], k);
  }

  lemma CallReaches(s: State, k: CallId)
    requires Inv(s) && k in s.calls
    ensures var call := s.calls[k];
            && s.registry.active.Values <= call.snapshot
            && (call.phase != Cancelling ==> forall c :: c in call.snapshot ==> c in s.conns && s.conns[c].cancelled)
            && (call.phase == ReturnedNil ==>
                  forall c :: c in s.conns && s.conns[c].id.Some? ==> s.conns[c].pc == Returned && Released(s.conns[c]))
  {
    assert CallInv(s.registry, s.conns, s.calls[k]);
    if s.calls[k].phase == ReturnedNil {
      forall c | c in s.conns && s.conns[c].id.Some?
        ensures s.conns[c].pc == Returned && Released(s.conns[c])
      {
        assert ConnInv(s.conns[c]);
      }
    }
  }

  // ---- What the implementation does on its own ----

  /**
   Steps that need nobody outside: a call that was handed the context (authentication,
   OpenSession, Accept, a loop waiting for its peer or its session) is only sure to
   return once the context is cancelled; until then an idle session stays as it is.
   */
  predicate OwnMove(c: Conn, move: Move) {
    match move
    case ClientGone => false
    case Abort(_) => c.cancelled
    case Admit => c.cancelled
    case OpenReturns(_, _) => c.cancelled
    case AcceptFails => c.cancelled
    case Upgrade => c.cancelled
    case LoopEnds(_, _) => c.cancelled
    case _ => true
  }

  predicate HandlerOwnStep(s: State, a: Action) {
    a.Unregister? || (a.Local? && a.conn in s.conns && OwnMove(s.conns[a.conn], a.move))
  }

  /** A step of the handlers or of the Shutdown call `k` that needs nobody outside. */
  predicate OwnStep(s: State, a: Action, k: CallId) {
    HandlerOwnStep(s, a) || a in {CancelNext(k), BeginWait(k)}
  }

  /** An idle session that nobody cancels has no step of its own to take, so Shutdown has to cancel it. */
  lemma IdleWaits(c: Conn, move: Move)
    requires c.pc == Serving && c.reader.Running? && c.writer.Running? && c.sent == [] && !c.cancelled
    ensures !(CanMove(c, move) && OwnMove(c, move))
  {
  }

  /** A step out of a cancelled connection. */
  function WayOut(c: Conn): Move {
    match c.pc
    case Authenticating => Abort(BadCredentials)
    case Opening => OpenReturns(false, true)
    case Rejecting => ReleaseRejected
    case Accepting => AcceptFails
    case Serving =>
      if c.sent != [] then TakeFirst
      else if c.reader.Sending? then LoopSends(true)
      else LoopEnds(true, Canceled)
    case Ending => CloseFirst
    case Draining => TimerFires
    case _ => RunDeferred
  }

  lemma WayOutIsOwn(c: Conn)
    requires ConnInv(c) && Live(c) && c.cancelled && c.deferred != [DeferUnregister]
    ensures CanMove(c, WayOut(c)) && OwnMove(c, WayOut(c))
  {
  }

  /** While a session is active, some handler has a step of its own, once a call has taken all its cancels. */
  lemma ActiveMeansOwnStep(s: State, k: CallId)
    requires Inv(s) && k in s.calls && s.calls[k].phase != Cancelling && s.registry.active != map[]
    ensures exists a :: HandlerOwnStep(s, a) && Enabled(s, a)
  {
    var id :| id in s.registry.active;
    var c := s.registry.active[id];
    CallReaches(s, k);
    assert c in s.registry.active.Values;
    assert ConnInv(s.conns[c]);
    if s.conns[c].deferred == [DeferUnregister] {
      assert Enabled(s, Unregister(c)) && HandlerOwnStep(s, Unregister(c));
    } else {
      WayOutIsOwn(s.conns[c]);
      assert Enabled(s, Local(c, WayOut(s.conns[c]))) && HandlerOwnStep(s, Local(c, WayOut(s.conns[c])));
    }
  }

  // ---- How much is left to do ----

  function PcRank(pc: Pc): nat {
    match pc
    case Arrived => 8
    case Refused => 0
    case Authenticating => 7
    case Opening => 6
    case Rejecting => 5
    case Accepting => 5
    case Serving => 4
    case Ending => 3
    case Draining => 2
    case Unwinding => 1
    case Returned => 0
  }

  function LoopRank(loop: Loop): nat {
    match loop
    case Unstarted => 2
    case Running => 2
    case Sending(_) => 1
    case Gone => 0
  }

  function Rank(c: Conn): nat {
    4 * PcRank(c.pc) + |c.deferred| + LoopRank(c.reader) + LoopRank(c.writer)
  }

  /** A step of a handler's own goroutines; a client that goes away only cancels. */
  predicate HandlerStep(a: Action) {
    a.Unregister? || (a.Local? && !a.move.ClientGone?)
  }

  /** How many of the actions from `i` up to `j` are handler steps. */
  function HandlerSteps(actions: seq<Action>, i: nat, j: nat): nat
    requires i <= j <= |actions|
  {
    if i == j then 0 else HandlerSteps(actions, i, j - 1) + (if HandlerStep(actions[j - 1]) then 1 else 0)
  }

  /** A bound on what a handler can still do; one that never registered does nothing. */
  function Work(c: Conn): nat {
    if c.id.None? then 0 else Rank(c)
  }

  ghost function TotalWork(conns: map<Owner, Conn>): nat
    decreases |conns|
  {
    if conns == map[] then 0
    else
      var c :| c in conns;
      assert (conns - {c}).Keys == conns.Keys - {c};
      Work(conns[c]) + TotalWork(conns - {c})
  }

  lemma {:induction false} WorkWithout(conns: map<Owner, Conn>, c: Owner)
    requires c in conns
    ensures TotalWork(conns) == Work(conns[c]) + TotalWork(conns - {c})
    decreases |conns|
  {
    var d :| d in conns && TotalWork(conns) == Work(conns[d]) + TotalWork(conns - {d});
    if c != d {
      assert (conns - {d}).Keys == conns.Keys - {d};
      WorkWithout(conns - {d}, c);
      WorkWithout(conns - {c}, d);
      assert conns - {d} - {c} == conns - {c} - {d};
    }
  }

  lemma WorkUpdated(conns: map<Owner, Conn>, c: Owner, conn: Conn)
    ensures TotalWork(conns[c := conn]) + (if c in conns then Work(conns[c]) else 0) == TotalWork(conns) + Work(conn)
  {
    WorkWithout(conns[c := conn], c);
    assert conns[c := conn] - {c} == conns - {c};
    if c in conns {
      WorkWithout(conns, c);
    } else {
      assert conns - {c} == conns;
    }
  }

  lemma LoopMoveRanks(c: Conn, move: Move)
    requires CanMove(c, move) && (move.LoopEnds? || move.LoopSends?)
    ensures Moved(c, move).id == c.id && Rank(Moved(c, move)) < Rank(c)
  {
  }

  lemma ClosingRanks(c: Conn, reason: (int, string))
    ensures CloseAll(c, reason).id == c.id && CloseAll(c, reason).deferred == c.deferred
    ensures Rank(CloseAll(c, reason)) == Rank(c)
  {
  }

  lemma ClosingMoveRanks(c: Conn, move: Move)
    requires CanMove(c, move) && (move.CloseFirst? || move.RunDeferred?)
    ensures Moved(c, move).id == c.id && Rank(Moved(c, move)) < Rank(c)
  {
    if move.CloseFirst? {
      ClosingRanks(c, CloseReason(c.sent[0]));
    } else {
      ClosingRanks(c.(deferred := c.deferred[..|c.deferred| - 1]), (1000, "OK"));
    }
  }

  lemma MoveRanks(c: Conn, move: Move)
    requires CanMove(c, move) && (move.Upgrade? ==> LoopsIdle(c))
    ensures Moved(c, move).id == c.id
    ensures if move.ClientGone? then Rank(Moved(c, move)) == Rank(c) else Rank(Moved(c, move)) < Rank(c)
  {
    match move
    case LoopEnds(_, _) => LoopMoveRanks(c, move);
    case LoopSends(_) => LoopMoveRanks(c, move);
    case CloseFirst => ClosingMoveRanks(c, move);
    case RunDeferred => ClosingMoveRanks(c, move);
    case _ =>
  }

  lemma UnregisteredIsIdle(c: Conn, move: Move)
    requires ConnInv(c) && CanMove(c, move) && c.id.None?
    ensures move.ClientGone?
  {
  }

  lemma MoveWorks(c: Conn, move: Move)
    requires ConnInv(c) && CanMove(c, move)
    ensures if move.ClientGone? then Work(Moved(c, move)) == Work(c) else Work(Moved(c, move)) < Work(c)
  {
    MoveRanks(c, move);
    if c.id.None? {
      UnregisteredIsIdle(c, move);
    }
  }

  lemma LocalWorks(s: State, c: Owner, move: Move)
    requires Inv(s) && Enabled(s, Local(c, move))
    ensures TotalWork(Next(s, Local(c, move)).conns) + (if move.ClientGone? then 0 else 1) <= TotalWork(s.conns)
  {
    assert ConnInv(s.conns[c]);
    MoveWorks(s.conns[c], move);
    WorkUpdated(s.conns, c, Moved(s.conns[c], move));
  }

  lemma ArrivalWorks(s: State, a: Action)
    requires Inv(s) && Enabled(s, a) && s.registry.shuttingDown && (a.Arrive? || a.Register?)
    ensures TotalWork(Next(s, a).conns) <= TotalWork(s.conns)
  {
    if a.Register? {
      assert ConnInv(s.conns[a.conn]);
    }
    WorkUpdated(s.conns, a.conn, Next(s, a).conns[a.conn]);
  }

  lemma LeavingWorks(c: Conn)
    requires c.pc == Unwinding && c.id.Some? && c.deferred == [DeferUnregister]
    ensures Work(c.(pc := Returned, deferred := [])) < Work(c)
  {
  }

  lemma UnregisterWorks(s: State, c: Owner)
    requires Enabled(s, Unregister(c))
    ensures TotalWork(Next(s, Unregister(c)).conns) + 1 <= TotalWork(s.conns)
  {
    LeavingWorks(s.conns[c]);
    WorkUpdated(s.conns, c, s.conns[c].(pc := Returned, deferred := []));
  }

  lemma CancelWorks(s: State, k: CallId)
    requires Enabled(s, CancelNext(k))
    ensures TotalWork(Next(s, CancelNext(k)).conns) == TotalWork(s.conns)
  {
    var c := s.calls[k].remaining[0];
    if c in s.conns {
      WorkUpdated(s.conns, c, s.conns[c].(cancelled := true));
    }
  }

  lemma StepWorks(s: State, a: Action)
    requires Inv(s) && Enabled(s, a) && s.registry.shuttingDown
    ensures TotalWork(Next(s, a).conns) + (if HandlerStep(a) then 1 else 0) <= TotalWork(s.conns)
  {
    match a
    case Arrive(_) => ArrivalWorks(s, a);
    case Register(_) => ArrivalWorks(s, a);
    case Local(c, move) => LocalWorks(s, c, move);
    case Unregister(c) => UnregisterWorks(s, c);
    case CancelNext(k) => CancelWorks(s, k);
    case _ =>
  }

  lemma StepWorksInRun(states: seq<State>, actions: seq<Action>, i: nat)
    requires InitialRun(states, actions) && i < |actions| && states[i].registrations < ID_SPACE
    requires states[i].registry.shuttingDown
    ensures states[i + 1].registry.shuttingDown && states[i + 1].registrations == states[i].registrations
    ensures TotalWork(states[i + 1].conns) + (if HandlerStep(actions[i]) then 1 else 0) <= TotalWork(states[i].conns)
  {
    ReachableInv(states, actions, i);
    StepInRun(states, actions, i);
    StepWorks(states[i], actions[i]);
    RegistryStep(states[i], actions[i]);
  }

  /**
   Once shutdown has begun, the handlers have a bounded number of steps left, however
   everything interleaves and however many clients still arrive.
   */
  lemma {:induction false} ShutdownBoundsWork(states: seq<State>, actions: seq<Action>, i: nat, j: nat)
    requires InitialRun(states, actions) && i <= j < |states| && states[i].registrations < ID_SPACE
    requires states[i].registry.shuttingDown
    ensures states[j].registry.shuttingDown && states[j].registrations == states[i].registrations
    ensures HandlerSteps(actions, i, j) + TotalWork(states[j].conns) <= TotalWork(states[i].conns)
    decreases j - i
  {
    if i < j {
      ShutdownBoundsWork(states, actions, i, j - 1);
      StepWorksInRun(states, actions, j - 1);
    }
  }

  /** A bound on the steps of one Shutdown call. */
  function CallWork(call: Call): nat {
    match call.phase
    case Cancelling => 2 + |call.remaining|
    case Waiting => 1
    case _ => 0
  }

  predicate StepOfCall(a: Action, k: CallId) {
    a in {CancelNext(k), BeginWait(k), ReturnNil(k), ReturnContextError(k)}
  }

  ghost function Distance(s: State, k: CallId): nat
    requires k in s.calls
  {
    TotalWork(s.conns) + CallWork(s.calls[k])
  }

  lemma CallWorks(s: State, a: Action, k: CallId)
    requires Enabled(s, a) && k in s.calls
    ensures k in Next(s, a).calls
    ensures CallWork(Next(s, a).calls[k]) + (if StepOfCall(a, k) then 1 else 0) <= CallWork(s.calls[k])
  {
  }

  /** How many of the actions from `i` up to `j` are steps of the handlers or of the call `k`. */
  function Steps(actions: seq<Action>, i: nat, j: nat, k: CallId): nat
    requires i <= j <= |actions|
  {
    if i == j then 0
    else Steps(actions, i, j - 1, k) + (if HandlerStep(actions[j - 1]) || StepOfCall(actions[j - 1], k) then 1 else 0)
  }

  lemma DistanceInRun(states: seq<State>, actions: seq<Action>, i: nat, k: CallId)
    requires InitialRun(states, actions) && i < |actions| && states[i].registrations < ID_SPACE
    requires k in states[i].calls && states[i].registry.shuttingDown
    ensures states[i + 1].registry.shuttingDown && states[i + 1].registrations == states[i].registrations
    ensures k in states[i + 1].calls
    ensures Distance(states[i + 1], k) + (if HandlerStep(actions[i]) || StepOfCall(actions[i], k) then 1 else 0) <= Distance(states[i], k)
  {
    StepWorksInRun(states, actions, i);
    StepInRun(states, actions, i);
    CallWorks(states[i], actions[i], k);
  }

  lemma {:induction false} DistanceShrinks(states: seq<State>, actions: seq<Action>, i: nat, j: nat, k: CallId)
    requires InitialRun(states, actions) && i <= j < |states| && states[i].registrations < ID_SPACE
    requires k in states[i].calls && states[i].registry.shuttingDown
    ensures states[j].registry.shuttingDown && states[j].registrations == states[i].registrations
    ensures k in states[j].calls
    ensures Steps(actions, i, j, k) + Distance(states[j], k) <= Distance(states[i], k)
    decreases j - i
  {
    if i < j {
      DistanceShrinks(states, actions, i, j - 1, k);
      DistanceInRun(states, actions, j - 1, k);
    }
  }

  lemma CallMeansShutdown(s: State, k: CallId)
    requires Inv(s) && k in s.calls
    ensures s.registry.shuttingDown
  {
    assert CallInv(s.registry, s.conns, s.calls[k]);
  }

  // ---- Shutdown completes ----

  ghost predicate NothingLeft(s: State, k: CallId) {
    forall a :: OwnStep(s, a, k) ==> !Enabled(s, a)
  }

  /** Every waiting call can return nil. */
  ghost predicate AllReleased(s: State) {
    Drained(s.registry) && forall j :: j in s.calls && s.calls[j].phase == Waiting ==> Enabled(s, ReturnNil(j))
  }

  lemma SomethingLeft(s: State, k: CallId)
    requires Inv(s) && k in s.calls && (s.calls[k].phase == Cancelling || s.registry.active != map[])
    ensures exists a :: OwnStep(s, a, k) && Enabled(s, a)
  {
    if s.calls[k].phase == Cancelling {
      var a := if s.calls[k].remaining != [] then CancelNext(k) else BeginWait(k);
      assert OwnStep(s, a, k) && Enabled(s, a);
    } else {
      ActiveMeansOwnStep(s, k);
      var a :| HandlerOwnStep(s, a) && Enabled(s, a);
      assert OwnStep(s, a, k);
    }
  }

  lemma NothingLeftMeansDrained(s: State, k: CallId)
    requires Inv(s) && k in s.calls && NothingLeft(s, k)
    ensures AllReleased(s) && s.calls[k].phase != Cancelling
  {
    CallMeansShutdown(s, k);
    if s.calls[k].phase == Cancelling || s.registry.active != map[] {
      SomethingLeft(s, k);
    }
  }

  /**
   Shutdown completes under every schedule.  From its critical section on, the handlers
   and the call have a bounded number of steps left, however many clients still arrive.
   Where neither has a step of its own to take, every session was cancelled and is gone:
   the table is empty, and this call and every other waiting one can return nil.
   */
  lemma ShutdownCompletes(states: seq<State>, actions: seq<Action>, i: nat, j: nat, k: CallId)
    requires InitialRun(states, actions) && i <= j < |states| && states[i].registrations < ID_SPACE
    requires k in states[i].calls
    ensures k in states[j].calls && Steps(actions, i, j, k) <= Distance(states[i], k)
    ensures NothingLeft(states[j], k) ==> AllReleased(states[j]) && states[j].calls[k].phase != Cancelling
  {
    ReachableInv(states, actions, i);
    CallMeansShutdown(states[i], k);
    DistanceShrinks(states, actions, i, j, k);
    ReachableInv(states, actions, j);
    if NothingLeft(states[j], k) {
      NothingLeftMeansDrained(states[j], k);
    }
  }

  lemma StepHasCall(s: State, a: Action)
    requires Enabled(s, a) && (s.registry.shuttingDown ==> exists k :: k in s.calls)
    ensures Next(s, a).registry.shuttingDown ==> exists k :: k in Next(s, a).calls
  {
    if s.registry.shuttingDown {
      var k :| k in s.calls;
      CallStep(s, a, k);
    } else if a.Snapshot? {
      assert a.call in Next(s, a).calls;
    }
  }

  lemma {:induction false} ShutdownHasCall(states: seq<State>, actions: seq<Action>, i: nat)
    requires InitialRun(states, actions) && i < |states|
    ensures states[i].registry.shuttingDown ==> exists k :: k in states[i].calls
  {
    if i > 0 {
      ShutdownHasCall(states, actions, i - 1);
      StepInRun(states, actions, i - 1);
      StepHasCall(states[i - 1], actions[i - 1]);
    }
  }

  /** The same without naming a call: a handler that is shutting down and at rest is drained. */
  lemma AtRestMeansDrained(states: seq<State>, actions: seq<Action>, i: nat)
    requires InitialRun(states, actions) && i < |states| && states[i].registrations < ID_SPACE
    requires states[i].registry.shuttingDown
    requires forall a, k :: OwnStep(states[i], a, k) ==> !Enabled(states[i], a)
    ensures AllReleased(states[i])
  {
    ReachableInv(states, actions, i);
    ShutdownHasCall(states, actions, i);
    var k :| k in states[i].calls;
    assert NothingLeft(states[i], k);
    NothingLeftMeansDrained(states[i], k);
  }

  /** A run from `s` of steps of the handlers and the call alone, which ends drained with every waiting call released. */
  ghost predicate Drains(s: State, k: CallId, states: seq<State>, actions: seq<Action>) {
    && Run(states, actions) && states[0] == s && AllReleased(states[|actions|])
    && (forall i :: 0 <= i < |actions| ==> OwnStep(states[i], actions[i], k))
    && k in states[|actions|].calls && states[|actions|].calls[k].phase != Cancelling
  }

  lemma Prepend(s: State, k: CallId, a: Action, states: seq<State>, actions: seq<Action>)
    requires Enabled(s, a) && OwnStep(s, a, k)
    requires Drains(Next(s, a), k, states, actions)
    ensures Drains(s, k, [s] + states, [a] + actions)
  {
    var states', actions' := [s] + states, [a] + actions;
    forall i | 0 <= i < |actions'|
      ensures StepAt(states', actions', i) && OwnStep(states'[i], actions'[i], k)
    {
      if i > 0 {
        StepInRun(states, actions, i - 1);
        assert states'[i] == states[i - 1] && states'[i + 1] == states[i] && actions'[i] == actions[i - 1];
        assert OwnStep(states[i - 1], actions[i - 1], k);
      }
    }
  }

  lemma OwnStepShrinks(s: State, a: Action, k: CallId)
    requires Inv(s) && k in s.calls && Enabled(s, a) && OwnStep(s, a, k)
    ensures k in Next(s, a).calls && Distance(Next(s, a), k) < Distance(s, k)
  {
    CallMeansShutdown(s, k);
    StepWorks(s, a);
    CallWorks(s, a, k);
  }

  lemma LateStepKeepsInv(s: State, a: Action)
    requires Inv(s) && s.registrations < ID_SPACE && s.registry.shuttingDown && Enabled(s, a)
    ensures Inv(Next(s, a)) && Next(s, a).registrations < ID_SPACE
  {
    RegistryStep(s, a);
    StepKeepsInv(s, a);
  }

  /**
   From every reachable state with a Shutdown call, the handlers and the call can bring
   each other to the end by steps of their own.
   */
  lemma {:induction false} CanAlwaysDrain(s: State, k: CallId) returns (states: seq<State>, actions: seq<Action>)
    requires Inv(s) && s.registrations < ID_SPACE && k in s.calls
    ensures Drains(s, k, states, actions)
    decreases Distance(s, k)
  {
    if NothingLeft(s, k) {
      NothingLeftMeansDrained(s, k);
      return [s], [];
    }
    var a :| OwnStep(s, a, k) && Enabled(s, a);
    OwnStepShrinks(s, a, k);
    CallMeansShutdown(s, k);
    LateStepKeepsInv(s, a);
    states, actions := CanAlwaysDrain(Next(s, a), k);
    Prepend(s, k, a, states, actions);
    states, actions := [s] + states, [a] + actions;
  }

  // ---- Every Shutdown call returns ----

  ghost predicate InfiniteRun(states: nat -> State, actions: nat -> Action) {
    states(0) == INITIAL && forall n: nat :: StepFrom(states, actions, n)
  }

  ghost predicate StepFrom(states: nat -> State, actions: nat -> Action, n: nat) {
    Enabled(states(n), actions(n)) && states(n + 1) == Next(states(n), actions(n))
  }

  /** The first `n` values of an infinite sequence. */
  ghost function First<T>(f: nat -> T, n: nat): (r: seq<T>)
    ensures |r| == n && forall i :: 0 <= i < n ==> r[i] == f(i)
  {
    seq(n, i requires 0 <= i < n => f(i))
  }

  lemma PrefixIsRun(states: nat -> State, actions: nat -> Action, n: nat)
    requires InfiniteRun(states, actions)
    ensures InitialRun(First(states, n + 1), First(actions, n))
  {
    var prefix, taken := First(states, n + 1), First(actions, n);
    forall i | 0 <= i < n
      ensures StepAt(prefix, taken, i)
    {
      assert StepFrom(states, actions, i);
    }
  }

  predicate Over(s: State, k: CallId) {
    k in s.calls && s.calls[k].phase in {ReturnedNil, ReturnedError}
  }

  predicate Progress(s: State, a: Action, k: CallId) {
    OwnStep(s, a, k) || a == ReturnNil(k)
  }

  ghost predicate CanProgress(s: State, k: CallId) {
    exists a :: Progress(s, a, k) && Enabled(s, a)
  }

  /** The scheduler is fair to handlers and call together: while one has a step of its own to take, some such step follows. */
  ghost predicate Fair(states: nat -> State, actions: nat -> Action, k: CallId) {
    forall n: nat :: CanProgress(states(n), k) ==> ServedFrom(states, actions, k, n)
  }

  ghost predicate ServedFrom(states: nat -> State, actions: nat -> Action, k: CallId, n: nat) {
    exists m: nat :: n <= m && Served(states, actions, k, m)
  }

  ghost predicate Served(states: nat -> State, actions: nat -> Action, k: CallId, m: nat) {
    Progress(states(m), actions(m), k) || Over(states(m), k)
  }

  lemma NeverStuck(s: State, k: CallId)
    requires Inv(s) && k in s.calls
    ensures Over(s, k) || CanProgress(s, k)
  {
    if NothingLeft(s, k) {
      NothingLeftMeansDrained(s, k);
      if s.calls[k].phase == Waiting {
        assert Progress(s, ReturnNil(k), k) && Enabled(s, ReturnNil(k));
      }
    } else {
      var a :| OwnStep(s, a, k) && Enabled(s, a);
      assert Progress(s, a, k);
    }
  }

  lemma ProgressShrinks(states: nat -> State, actions: nat -> Action, k: CallId, n: nat, m: nat)
    requires InfiniteRun(states, actions) && n <= m && states(n).registrations < ID_SPACE
    requires k in states(n).calls && states(n).registry.shuttingDown && Progress(states(m), actions(m), k)
    ensures k in states(m + 1).calls && states(m + 1).registrations < ID_SPACE
    ensures Distance(states(m + 1), k) < Distance(states(n), k)
  {
    PrefixIsRun(states, actions, m + 1);
    var prefix, taken := First(states, m + 2), First(actions, m + 1);
    DistanceShrinks(prefix, taken, n, m + 1, k);
    assert taken[m] == actions(m);
    assert HandlerStep(taken[m]) || StepOfCall(taken[m], k);
  }

  lemma InfiniteInv(states: nat -> State, actions: nat -> Action, n: nat)
    requires InfiniteRun(states, actions) && states(n).registrations < ID_SPACE
    ensures Inv(states(n))
  {
    PrefixIsRun(states, actions, n);
    ReachableInv(First(states, n + 1), First(actions, n), n);
  }

  lemma NextProgress(states: nat -> State, actions: nat -> Action, k: CallId, n: nat) returns (m: nat)
    requires InfiniteRun(states, actions) && Fair(states, actions, k)
    requires k in states(n).calls && states(n).registrations < ID_SPACE && !Over(states(n), k)
    ensures n <= m
    ensures Over(states(m), k)
            || (k in states(m + 1).calls && states(m + 1).registrations < ID_SPACE && Distance(states(m + 1), k) < Distance(states(n), k))
  {
    InfiniteInv(states, actions, n);
    NeverStuck(states(n), k);
    assert ServedFrom(states, actions, k, n);
    m :| n <= m && Served(states, actions, k, m);
    if !Over(states(m), k) {
      CallMeansShutdown(states(n), k);
      ProgressShrinks(states, actions, k, n, m);
    }
  }

  /**
   In every infinite run that is fair to it, a Shutdown call returns, although clients
   keep arriving, sessions may be idle and other calls may come and go.
   */
  lemma {:induction false} EveryShutdownReturns(states: nat -> State, actions: nat -> Action, k: CallId, n: nat) returns (m: nat)
    requires InfiniteRun(states, actions) && Fair(states, actions, k)
    requires k in states(n).calls && states(n).registrations < ID_SPACE
    ensures n <= m && Over(states(m), k)
    decreases Distance(states(n), k)
  {
    if Over(states(n), k) {
      return n;
    }
    m := NextProgress(states, actions, k, n);
    if !Over(states(m), k) {
      m := EveryShutdownReturns(states, actions, k, m + 1);
    }
  }

  /** It returns nil unless its context has expired. */
  lemma {:induction false} ErrorMeansExpired(states: nat -> State, actions: nat -> Action, k: CallId, n: nat)
    requires InfiniteRun(states, actions) && k in states(n).calls && states(n).calls[k].phase == ReturnedError
    ensures exists p: nat :: p < n && actions(p) == ReturnContextError(k)
  {
    if n > 0 {
      assert StepFrom(states, actions, n - 1);
      if actions(n - 1) != ReturnContextError(k) {
        ErrorMeansExpired(states, actions, k, n - 1);
      }
    }
  }
}
