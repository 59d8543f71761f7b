/**
 The aggregate server's Shutdown: it calls Shutdown on one mounted handler after
 another while all of them keep running and being called by others.
 */
module AggregateShutdown {
  import opened Wrappers
  import opened SessionRegistry
  import opened SessionProtocol
  import opened Ordering

  /**
   What is mounted at one pattern: a WebSocket handler by index (one may be
   mounted several times), another type with a Shutdown method, or a plain handler.
   */
  datatype Mount = Sessions(handler: nat) | Foreign | Plain

  datatype Outcome = NotCalled | Nil | Failed

  /** `pending` is the Shutdown call in progress on the mount numbered |outcomes|. */
  datatype Server = Server(mounts: seq<Mount>, pending: Option<CallId>, outcomes: seq<Outcome>)

  datatype System = System(handlers: seq<State>, server: Server)

  datatype Event =
    | HandlerStep(handler: nat, action: Action)
    | Skip
    | CallForeign(fails: bool)
    | CallSessions(call: CallId, order: seq<Owner>)
    | Collect

  predicate AtMount(sys: System, mount: Mount) {
    && sys.server.pending == None
    && |sys.server.outcomes| < |sys.server.mounts|
    && sys.server.mounts[|sys.server.outcomes|] == mount
  }

  /** The session handler the server is calling or about to call. */
  function CurrentHandler(sys: System): Option<nat> {
    if |sys.server.outcomes| < |sys.server.mounts| && sys.server.mounts[|sys.server.outcomes|].Sessions?
       && sys.server.mounts[|sys.server.outcomes|].handler < |sys.handlers|
    then Some(sys.server.mounts[|sys.server.outcomes|].handler)
    else None
  }

  function PendingPhase(sys: System): Option<Phase> {
    if CurrentHandler(sys).Some? && sys.server.pending.Some?
       && sys.server.pending.value in sys.handlers[CurrentHandler(sys).value].calls
    then Some(sys.handlers[CurrentHandler(sys).value].calls[sys.server.pending.value].phase)
    else None
  }

  predicate Possible(sys: System, e: Event) {
    match e
    case HandlerStep(h, a) => h < |sys.handlers| && Enabled(sys.handlers[h], a)
    case Skip => AtMount(sys, Plain)
    case CallForeign(_) => AtMount(sys, Foreign)
    case CallSessions(k, order) =>
      && CurrentHandler(sys).Some? && sys.server.pending == None
      && Enabled(sys.handlers[CurrentHandler(sys).value], Snapshot(k, order))
    case Collect => PendingPhase(sys) in {Some(ReturnedNil), Some(ReturnedError)}
  }

  function After(sys: System, e: Event): System
    requires Possible(sys, e)
  {
    match e
    case HandlerStep(h, a) => sys.(handlers := sys.handlers[h := Next(sys.handlers[h], a)])
    case Skip => sys.(server := sys.server.(outcomes := sys.server.outcomes + [NotCalled]))
    case CallForeign(fails) =>
      sys.(server := sys.server.(outcomes := sys.server.outcomes + [if fails then Failed else Nil]))
    case CallSessions(k, order) =>
      var h := CurrentHandler(sys).value;
      System(sys.handlers[h := Next(sys.handlers[h], Snapshot(k, order))], sys.server.(pending := Some(k)))
    case Collect =>
      var outcome := if PendingPhase(sys) == Some(ReturnedNil) then Nil else Failed;
      sys.(server := sys.server.(pending := None, outcomes := sys.server.outcomes + [outcome]))
  }

  function Start(handlers: nat, mounts: seq<Mount>): System {
    System(seq(handlers, i => INITIAL), Server(mounts, None, []))
  }

  predicate Execution(systems: seq<System>, events: seq<Event>) {
    && |systems| == |events| + 1
    && systems[0] == Start(|systems[0].handlers|, systems[0].server.mounts)
    && forall i {:trigger events[i]} :: 0 <= i < |events| ==> Possible(systems[i], events[i]) && systems[i + 1] == After(systems[i], events[i])
  }

  predicate Finished(sys: System) {
    |sys.server.outcomes| == |sys.server.mounts|
  }

  /** errors.Join of the collected errors: nil exactly when nothing was collected. */
  predicate ReturnsNil(sys: System) {
    Finished(sys) && Failed !in sys.server.outcomes
  }

  predicate Called(mount: Mount, outcome: Outcome) {
    outcome == NotCalled <==> mount == Plain
  }

  /** No handler has served 2^64 or more registrations. */
  predicate WithinIdSpace(sys: System) {
    forall h :: 0 <= h < |sys.handlers| ==> sys.handlers[h].registrations < ID_SPACE
  }

  ghost predicate HandlersInv(handlers: seq<State>) {
    forall h :: 0 <= h < |handlers| ==> Inv(handlers[h])
  }

  ghost predicate ServerInv(sys: System) {
    && |sys.server.outcomes| <= |sys.server.mounts|
    && (forall i :: 0 <= i < |sys.server.outcomes| ==> Called(sys.server.mounts[i], sys.server.outcomes[i]))
    && (forall i :: 0 <= i < |sys.server.outcomes| && sys.server.mounts[i].Sessions? && sys.server.outcomes[i] == Nil ==>
          sys.server.mounts[i].handler < |sys.handlers| && Drained(sys.handlers[sys.server.mounts[i].handler].registry))
  }

  lemma HandlerMoves(sys: System, h: nat, a: Action)
    requires h < |sys.handlers| && Enabled(sys.handlers[h], a)
    requires HandlersInv(sys.handlers) && ServerInv(sys)
    requires Next(sys.handlers[h], a).registrations < ID_SPACE
    ensures var handlers := sys.handlers[h := Next(sys.handlers[h], a)];
            HandlersInv(handlers) && ServerInv(sys.(handlers := handlers))
  {
    assert Inv(sys.handlers[h]);
    StepKeepsInv(sys.handlers[h], a);
    RegistryStep(sys.handlers[h], a);
  }

  lemma EventKeepsInv(sys: System, e: Event)
    requires Possible(sys, e) && HandlersInv(sys.handlers) && ServerInv(sys) && WithinIdSpace(After(sys, e))
    ensures HandlersInv(After(sys, e).handlers) && ServerInv(After(sys, e))
  {
    match e
    case HandlerStep(h, a) =>
      assert After(sys, e).handlers[h].registrations < ID_SPACE;
      HandlerMoves(sys, h, a);
    case CallSessions(k, order) =>
      var h := CurrentHandler(sys).value;
      assert After(sys, e).handlers[h].registrations < ID_SPACE;
      HandlerMoves(sys, h, Snapshot(k, order));
    case Collect =>
      var s := sys.handlers[CurrentHandler(sys).value];
      assert Inv(s);
      assert CallInv(s.registry, s.conns, s.calls[sys.server.pending.value]);
    case _ =>
  }

  lemma EventGrows(sys: System, e: Event)
    requires Possible(sys, e) && HandlersInv(sys.handlers)
    ensures |After(sys, e).handlers| == |sys.handlers| && After(sys, e).server.mounts == sys.server.mounts
    ensures sys.server.outcomes <= After(sys, e).server.outcomes
    ensures WithinIdSpace(After(sys, e)) ==> WithinIdSpace(sys)
  {
    if WithinIdSpace(After(sys, e)) {
      forall h | 0 <= h < |sys.handlers|
        ensures sys.handlers[h].registrations < ID_SPACE
      {
        assert After(sys, e).handlers[h].registrations < ID_SPACE;
      }
    }
  }

  lemma {:induction false} SystemInv(systems: seq<System>, events: seq<Event>, i: nat)
    requires Execution(systems, events) && i < |systems|
    requires forall j :: 0 <= j <= i ==> WithinIdSpace(systems[j])
    ensures HandlersInv(systems[i].handlers) && ServerInv(systems[i])
  {
    if i > 0 {
      SystemInv(systems, events, i - 1);
      EventKeepsInv(systems[i - 1], events[i - 1]);
    }
  }

  lemma FinishedStep(sys: System, e: Event)
    requires Possible(sys, e) && HandlersInv(sys.handlers) && ServerInv(After(sys, e)) && Finished(sys)
    ensures Finished(After(sys, e)) && After(sys, e).server.outcomes == sys.server.outcomes
    ensures After(sys, e).server.mounts == sys.server.mounts
  {
    EventGrows(sys, e);
  }

  lemma {:induction false} FinishedStays(systems: seq<System>, events: seq<Event>, i: nat, j: nat)
    requires Execution(systems, events) && i <= j < |systems|
    requires forall m :: 0 <= m <= j ==> WithinIdSpace(systems[m])
    requires Finished(systems[i])
    ensures Finished(systems[j]) && systems[j].server.outcomes == systems[i].server.outcomes
    ensures systems[j].server.mounts == systems[i].server.mounts
    decreases j
  {
    if i < j {
      FinishedStays(systems, events, i, j - 1);
      SystemInv(systems, events, j - 1);
      SystemInv(systems, events, j);
      FinishedStep(systems[j - 1], events[j - 1]);
    }
  }

  /** Every connection handler that ever registered has returned and released its session. */
  predicate AllReturned(s: State) {
    forall c :: c in s.conns && s.conns[c].id.Some? ==> s.conns[c].pc == Returned && Released(s.conns[c])
  }

  /**
   When the server's Shutdown has finished, every mount that can be shut down has
   been called, whatever the others returned.  If it returned nil then, at that
   moment and at every later one, all mounted session handlers are drained
   together: none has an active session or a handler still running.
   */
  lemma AggregateShutdownDrainsEverything(systems: seq<System>, events: seq<Event>, i: nat, j: nat)
    requires Execution(systems, events) && i <= j < |systems|
    requires forall m :: 0 <= m <= j ==> WithinIdSpace(systems[m])
    requires Finished(systems[i])
    ensures var server := systems[i].server;
            && |server.outcomes| == |server.mounts|
            && (forall m :: 0 <= m < |server.mounts| ==> Called(server.mounts[m], server.outcomes[m]))
    ensures ReturnsNil(systems[i]) ==>
              forall m :: 0 <= m < |systems[i].server.mounts| && systems[i].server.mounts[m].Sessions? ==>
                var h := systems[i].server.mounts[m].handler;
                h < |systems[j].handlers| && Drained(systems[j].handlers[h].registry) && AllReturned(systems[j].handlers[h])
  {
    SystemInv(systems, events, i);
    FinishedStays(systems, events, i, j);
    SystemInv(systems, events, j);
    if ReturnsNil(systems[i]) {
      var mounts := systems[i].server.mounts;
      forall m | 0 <= m < |mounts| && mounts[m].Sessions?
        ensures var h := mounts[m].handler;
                h < |systems[j].handlers| && Drained(systems[j].handlers[h].registry) && AllReturned(systems[j].handlers[h])
      {
        assert Called(mounts[m], systems[j].server.outcomes[m]);
        assert systems[j].server.outcomes[m] == Nil;
        DrainedMeansReturned(systems[j].handlers[mounts[m].handler]);
      }
    }
  }

  lemma DrainedMeansReturned(s: State)
    requires Inv(s) && Drained(s.registry)
    ensures AllReturned(s)
  {
  }

  // ---- What the server does in which order, and what it returns ----

  /** A shutdowner has reported an error: a foreign one failed, or the call on a session handler did not return nil. */
  predicate ReportsError(sys: System, e: Event) {
    e == CallForeign(true) || (e == Collect && PendingPhase(sys) != Some(ReturnedNil))
  }

  ghost predicate ErrorReported(systems: seq<System>, events: seq<Event>, i: nat) {
    exists j: nat :: j < i && ErrorReportedAt(systems, events, j)
  }

  ghost predicate ErrorReportedAt(systems: seq<System>, events: seq<Event>, j: nat) {
    j < |systems| && j < |events| && ReportsError(systems[j], events[j])
  }

  lemma EventReports(sys: System, e: Event)
    requires Possible(sys, e)
    ensures Failed in After(sys, e).server.outcomes <==> Failed in sys.server.outcomes || ReportsError(sys, e)
  {
  }

  lemma ReportedNext(systems: seq<System>, events: seq<Event>, i: nat)
    ensures ErrorReported(systems, events, i + 1) <==> ErrorReported(systems, events, i) || ErrorReportedAt(systems, events, i)
  {
    if j: nat :| j < i + 1 && ErrorReportedAt(systems, events, j) {
      assert j < i || j == i;
    }
  }

  lemma {:induction false} FailureMeansReport(systems: seq<System>, events: seq<Event>, i: nat)
    requires Execution(systems, events) && i < |systems|
    ensures Failed in systems[i].server.outcomes <==> ErrorReported(systems, events, i)
  {
    if i > 0 {
      FailureMeansReport(systems, events, i - 1);
      EventReports(systems[i - 1], events[i - 1]);
      ReportedNext(systems, events, i - 1);
    }
  }

  /** Once finished, the server's Shutdown returns nil exactly if no shutdowner has reported an error. */
  lemma NilMeansNoError(systems: seq<System>, events: seq<Event>, i: nat)
    requires Execution(systems, events) && i < |systems| && Finished(systems[i])
    ensures ReturnsNil(systems[i]) <==> !ErrorReported(systems, events, i)
  {
    FailureMeansReport(systems, events, i);
  }

  datatype Turn = Skipped | ForeignCall | SessionCall | Collected

  /** What the server does for each mount. */
  function TurnsFor(mounts: seq<Mount>): seq<Turn> {
    if mounts == [] then []
    else
      TurnsFor(mounts[..|mounts| - 1]) +
      match mounts[|mounts| - 1]
      case Plain => [Skipped]
      case Foreign => [ForeignCall]
      case Sessions(_) => [SessionCall, Collected]
  }

  function TurnOf(e: Event): seq<Turn> {
    match e
    case Skip => [Skipped]
    case CallForeign(_) => [ForeignCall]
    case CallSessions(_, _) => [SessionCall]
    case Collect => [Collected]
    case HandlerStep(_, _) => []
  }

  function Turns(events: seq<Event>, i: nat): seq<Turn>
    requires i <= |events|
  {
    if i == 0 then [] else Turns(events, i - 1) + TurnOf(events[i - 1])
  }

  predicate InTurn(sys: System, turns: seq<Turn>) {
    && |sys.server.outcomes| <= |sys.server.mounts|
    && turns == TurnsFor(sys.server.mounts[..|sys.server.outcomes|]) + (if sys.server.pending.Some? then [SessionCall] else [])
  }

  lemma NextMount(mounts: seq<Mount>, n: nat)
    requires n < |mounts|
    ensures TurnsFor(mounts[..n + 1]) ==
            TurnsFor(mounts[..n]) + (match mounts[n] case Plain => [Skipped] case Foreign => [ForeignCall] case Sessions(_) => [SessionCall, Collected])
  {
    assert mounts[..n + 1][..n] == mounts[..n];
  }

  lemma EventInTurn(sys: System, e: Event, turns: seq<Turn>)
    requires Possible(sys, e) && InTurn(sys, turns)
    ensures InTurn(After(sys, e), turns + TurnOf(e))
  {
    var n := |sys.server.outcomes|;
    if n < |sys.server.mounts| {
      NextMount(sys.server.mounts, n);
    }
    if e.Collect? {
      Associative(TurnsFor(sys.server.mounts[..n]), [SessionCall], [Collected]);
    }
  }

  /** The server goes through its mounts in order: it skips, calls, or calls and collects, each once. */
  lemma {:induction false} MountsInTurn(systems: seq<System>, events: seq<Event>, i: nat)
    requires Execution(systems, events) && i < |systems|
    ensures InTurn(systems[i], Turns(events, i))
  {
    if i > 0 {
      MountsInTurn(systems, events, i - 1);
      EventInTurn(systems[i - 1], events[i - 1], Turns(events, i - 1));
    }
  }

  // ---- The server's Shutdown is never stuck ----

  /** A step of the Shutdown call on the mount reached, or of the loop over the mounts. */
  predicate ServerMove(sys: System, e: Event) {
    match e
    case HandlerStep(h, a) =>
      && CurrentHandler(sys) == Some(h) && sys.server.pending.Some?
      && var k := sys.server.pending.value; a in {CancelNext(k), BeginWait(k), ReturnNil(k), ReturnContextError(k)}
    case _ => true
  }

  /** The call in progress is one of the handler's calls. */
  predicate PendingInv(sys: System) {
    sys.server.pending.Some? ==> PendingPhase(sys).Some?
  }

  lemma {:induction false} PendingHolds(systems: seq<System>, events: seq<Event>, i: nat)
    requires Execution(systems, events) && i < |systems|
    ensures PendingInv(systems[i])
  {
    if i > 0 {
      PendingHolds(systems, events, i - 1);
      EventKeepsPending(systems[i - 1], events[i - 1]);
    }
  }

  lemma EventKeepsPending(sys: System, e: Event)
    requires Possible(sys, e) && PendingInv(sys)
    ensures PendingInv(After(sys, e))
  {
    if e.HandlerStep? && sys.server.pending.Some? && CurrentHandler(sys) == Some(e.handler) {
      CallStep(sys.handlers[e.handler], e.action, sys.server.pending.value);
    }
  }

  /** Every session mount refers to a handler. */
  predicate MountsExist(sys: System) {
    forall m :: m in sys.server.mounts && m.Sessions? ==> m.handler < |sys.handlers|
  }

  lemma {:induction false} AnyOrder(active: map<SessionId, Owner>) returns (order: seq<Owner>)
    ensures |order| == |active| && Elements(order) == active.Values
    decreases |active|
  {
    if active == map[] {
      return [];
    }
    var id :| id in active;
    var rest := active - {id};
    assert rest.Keys == active.Keys - {id};
    assert |rest.Keys| == |active.Keys| - 1;
    var earlier := AnyOrder(rest);
    order := earlier + [active[id]];
    forall c
      ensures c in Elements(order) <==> c in active.Values
    {
      if c in active.Values {
        var other :| other in active && active[other] == c;
        assert other != id ==> other in rest && rest[other] == c;
        assert c != active[id] ==> c in rest.Values && c in Elements(earlier);
      }
      if c in rest.Values {
        var other :| other in rest && rest[other] == c;
        assert active[other] == c;
      }
    }
  }

  lemma {:induction false} FreshCall(used: set<CallId>) returns (k: CallId)
    ensures forall j :: j in used ==> j < k
    decreases |used|
  {
    k := 0;
    if used != {} {
      var j :| j in used;
      var bound := FreshCall(used - {j});
      k := if j < bound then bound else j + 1;
      assert forall x :: x in used ==> x == j || x in used - {j};
    }
  }

  lemma CanCall(sys: System) returns (e: Event)
    requires CurrentHandler(sys).Some? && sys.server.pending == None
    ensures e.CallSessions? && Possible(sys, e)
  {
    var s := sys.handlers[CurrentHandler(sys).value];
    var k := FreshCall(s.calls.Keys);
    var order := AnyOrder(s.registry.active);
    e := CallSessions(k, order);
  }

  /** What brings the server's Shutdown on: its own steps, and those of the handler it waits for that need nobody outside. */
  predicate Advances(sys: System, e: Event) {
    ServerMove(sys, e)
    || (e.HandlerStep? && PendingPhase(sys).Some? && CurrentHandler(sys) == Some(e.handler)
        && HandlerOwnStep(sys.handlers[e.handler], e.action))
  }

  /** Some such step is possible that does not need the context to expire. */
  ghost predicate CanAdvance(sys: System) {
    exists e :: Advances(sys, e) && Possible(sys, e) && !ContextExpires(e)
  }

  predicate ContextExpires(e: Event) {
    e.HandlerStep? && e.action.ReturnContextError?
  }

  /** The call in progress, or the handler it waits for, has a step to take. */
  lemma CanContinue(sys: System)
    requires PendingPhase(sys).Some? && HandlersInv(sys.handlers)
    ensures CanAdvance(sys)
  {
    var h, k := CurrentHandler(sys).value, sys.server.pending.value;
    var s := sys.handlers[h];
    assert Inv(s);
    if Over(s, k) {
      assert Advances(sys, Collect) && Possible(sys, Collect);
    } else {
      NeverStuck(s, k);
      var a :| Progress(s, a, k) && Enabled(s, a);
      assert Advances(sys, HandlerStep(h, a)) && Possible(sys, HandlerStep(h, a));
    }
  }

  lemma UnfinishedCanAdvance(sys: System)
    requires HandlersInv(sys.handlers) && ServerInv(sys) && PendingInv(sys) && MountsExist(sys) && !Finished(sys)
    ensures CanAdvance(sys)
  {
    if sys.server.pending.Some? {
      CanContinue(sys);
    } else {
      var mount := sys.server.mounts[|sys.server.outcomes|];
      assert mount in sys.server.mounts;
      var next: Event;
      match mount {
        case Plain => next := Skip;
        case Foreign => next := CallForeign(false);
        case Sessions(_) => next := CanCall(sys);
      }
      assert Advances(sys, next) && Possible(sys, next);
    }
  }

  /**
   Whatever happened before, an unfinished Shutdown of the server, or the handler it
   waits for, has a step of its own to take: no peer has to act and no context to expire.
   */
  lemma ShutdownNeverStuck(systems: seq<System>, events: seq<Event>, i: nat)
    requires Execution(systems, events) && i < |systems| && MountsExist(systems[i])
    requires forall j :: 0 <= j <= i ==> WithinIdSpace(systems[j])
    requires !Finished(systems[i])
    ensures CanAdvance(systems[i])
  {
    SystemInv(systems, events, i);
    PendingHolds(systems, events, i);
    UnfinishedCanAdvance(systems[i]);
  }

  // ---- and gets closer to its end with every step ----

  function MountsLeft(sys: System): nat {
    if |sys.server.outcomes| <= |sys.server.mounts| then |sys.server.mounts| - |sys.server.outcomes| else 0
  }

  function Stage(sys: System): nat {
    match PendingPhase(sys)
    case None => 3
    case Some(Cancelling) => 2
    case Some(Waiting) => 1
    case Some(_) => 0
  }

  function ToCancel(sys: System): nat {
    if PendingPhase(sys).Some? then |sys.handlers[CurrentHandler(sys).value].calls[sys.server.pending.value].remaining| else 0
  }

  /** What the handler waited for still has to do. */
  ghost function ToWaitFor(sys: System): nat {
    if PendingPhase(sys).Some? then TotalWork(sys.handlers[CurrentHandler(sys).value].conns) else 0
  }

  predicate SameCall(after: System, before: System) {
    MountsLeft(after) == MountsLeft(before) && Stage(after) == Stage(before) && ToCancel(after) == ToCancel(before)
  }

  predicate CallCloser(after: System, before: System) {
    || MountsLeft(after) < MountsLeft(before)
    || (MountsLeft(after) == MountsLeft(before) && Stage(after) < Stage(before))
    || (MountsLeft(after) == MountsLeft(before) && Stage(after) == Stage(before) && ToCancel(after) < ToCancel(before))
  }

  ghost predicate Closer(after: System, before: System) {
    CallCloser(after, before) || (SameCall(after, before) && ToWaitFor(after) < ToWaitFor(before))
  }

  ghost predicate NotFarther(after: System, before: System) {
    Closer(after, before) || (SameCall(after, before) && ToWaitFor(after) == ToWaitFor(before))
  }

  /** Each step of the server's Shutdown brings it closer to its end, and no other event touches it. */
  lemma ServerMoveProgresses(sys: System, e: Event)
    requires Possible(sys, e) && PendingInv(sys)
    ensures if ServerMove(sys, e) then CallCloser(After(sys, e), sys) else SameCall(After(sys, e), sys)
  {
  }

  /** A step of the handler waited for leaves it less to do, or no more. */
  lemma AwaitedWorks(sys: System, a: Action)
    requires PendingPhase(sys).Some? && HandlersInv(sys.handlers)
    requires Possible(sys, HandlerStep(CurrentHandler(sys).value, a)) && !ServerMove(sys, HandlerStep(CurrentHandler(sys).value, a))
    ensures var after := After(sys, HandlerStep(CurrentHandler(sys).value, a));
            ToWaitFor(after) + (if SessionProtocol.HandlerStep(a) then 1 else 0) <= ToWaitFor(sys)
  {
    var h := CurrentHandler(sys).value;
    var s := sys.handlers[h];
    assert Inv(s);
    CallMeansShutdown(s, sys.server.pending.value);
    StepWorks(s, a);
    EventKeepsPending(sys, HandlerStep(h, a));
  }

  /** Steps of the other handlers leave it as it is. */
  lemma OthersWork(sys: System, h: nat, a: Action)
    requires Possible(sys, HandlerStep(h, a)) && PendingInv(sys)
    requires PendingPhase(sys).Some? ==> CurrentHandler(sys) != Some(h)
    ensures ToWaitFor(After(sys, HandlerStep(h, a))) == ToWaitFor(sys)
  {
    EventKeepsPending(sys, HandlerStep(h, a));
  }

  lemma LessToWaitFor(after: System, before: System, worked: bool)
    requires SameCall(after, before) && ToWaitFor(after) + (if worked then 1 else 0) <= ToWaitFor(before)
    ensures NotFarther(after, before) && (worked ==> Closer(after, before))
  {
  }

  lemma AwaitedEventProgresses(sys: System, a: Action)
    requires PendingPhase(sys).Some? && HandlersInv(sys.handlers)
    requires Possible(sys, HandlerStep(CurrentHandler(sys).value, a)) && !ServerMove(sys, HandlerStep(CurrentHandler(sys).value, a))
    requires SameCall(After(sys, HandlerStep(CurrentHandler(sys).value, a)), sys)
    ensures NotFarther(After(sys, HandlerStep(CurrentHandler(sys).value, a)), sys)
    ensures SessionProtocol.HandlerStep(a) ==> Closer(After(sys, HandlerStep(CurrentHandler(sys).value, a)), sys)
  {
    AwaitedWorks(sys, a);
    LessToWaitFor(After(sys, HandlerStep(CurrentHandler(sys).value, a)), sys, SessionProtocol.HandlerStep(a));
  }

  lemma HandlerEventProgresses(sys: System, h: nat, a: Action)
    requires Possible(sys, HandlerStep(h, a)) && PendingInv(sys) && HandlersInv(sys.handlers)
    requires !ServerMove(sys, HandlerStep(h, a)) && SameCall(After(sys, HandlerStep(h, a)), sys)
    ensures NotFarther(After(sys, HandlerStep(h, a)), sys)
    ensures Advances(sys, HandlerStep(h, a)) ==> Closer(After(sys, HandlerStep(h, a)), sys)
  {
    if PendingPhase(sys).Some? && CurrentHandler(sys) == Some(h) {
      AwaitedEventProgresses(sys, a);
    } else {
      OthersWork(sys, h, a);
      LessToWaitFor(After(sys, HandlerStep(h, a)), sys, false);
    }
  }

  lemma EventProgresses(sys: System, e: Event)
    requires Possible(sys, e) && PendingInv(sys) && HandlersInv(sys.handlers)
    ensures NotFarther(After(sys, e), sys)
    ensures Advances(sys, e) ==> Closer(After(sys, e), sys)
  {
    ServerMoveProgresses(sys, e);
    if !ServerMove(sys, e) {
      HandlerEventProgresses(sys, e.handler, e.action);
    }
  }

  // ---- The server's Shutdown returns ----

  ghost predicate InfiniteExecution(systems: nat -> System, events: nat -> Event) {
    && systems(0) == Start(|systems(0).handlers|, systems(0).server.mounts)
    && MountsExist(systems(0))
    && (forall n: nat :: EventFrom(systems, events, n))
    && (forall n: nat :: WithinIdSpace(systems(n)))
  }

  ghost predicate EventFrom(systems: nat -> System, events: nat -> Event, n: nat) {
    Possible(systems(n), events(n)) && systems(n + 1) == After(systems(n), events(n))
  }

  /** While the server's Shutdown can advance, some step that advances it follows, or it is over. */
  ghost predicate FairToServer(systems: nat -> System, events: nat -> Event) {
    forall n: nat :: CanAdvance(systems(n)) ==> AdvancedFrom(systems, events, n)
  }

  ghost predicate AdvancedFrom(systems: nat -> System, events: nat -> Event, n: nat) {
    exists m: nat :: n <= m && AdvancedAt(systems, events, m)
  }

  ghost predicate AdvancedAt(systems: nat -> System, events: nat -> Event, m: nat) {
    Advances(systems(m), events(m)) || Finished(systems(m))
  }

  ghost predicate SystemHolds(sys: System) {
    HandlersInv(sys.handlers) && ServerInv(sys) && PendingInv(sys) && MountsExist(sys)
  }

  lemma EventKeepsSystem(sys: System, e: Event)
    requires SystemHolds(sys) && Possible(sys, e) && WithinIdSpace(After(sys, e))
    ensures SystemHolds(After(sys, e))
  {
    EventKeepsInv(sys, e);
    EventKeepsPending(sys, e);
    EventGrows(sys, e);
  }

  lemma {:induction false} InfiniteSystem(systems: nat -> System, events: nat -> Event, n: nat)
    requires InfiniteExecution(systems, events)
    ensures SystemHolds(systems(n))
  {
    if n > 0 {
      InfiniteSystem(systems, events, n - 1);
      assert EventFrom(systems, events, n - 1);
      EventKeepsSystem(systems(n - 1), events(n - 1));
    }
  }

  lemma FartherThan(a: System, b: System, c: System)
    requires NotFarther(b, a) && NotFarther(c, b)
    ensures NotFarther(c, a)
    ensures Closer(c, b) ==> Closer(c, a)
  {
  }

  lemma SameDistance(sys: System)
    ensures NotFarther(sys, sys)
  {
  }

  lemma {:induction false} NeverFarther(systems: nat -> System, events: nat -> Event, n: nat, m: nat)
    requires InfiniteExecution(systems, events) && n <= m
    ensures NotFarther(systems(m), systems(n))
    decreases m - n
  {
    SameDistance(systems(n));
    if n < m {
      NeverFarther(systems, events, n, m - 1);
      InfiniteSystem(systems, events, m - 1);
      assert EventFrom(systems, events, m - 1);
      EventProgresses(systems(m - 1), events(m - 1));
      FartherThan(systems(n), systems(m - 1), systems(m));
    }
  }

  lemma AdvanceIsCloser(systems: nat -> System, events: nat -> Event, n: nat, m: nat)
    requires InfiniteExecution(systems, events) && n <= m && Advances(systems(m), events(m))
    ensures Closer(systems(m + 1), systems(n))
  {
    NeverFarther(systems, events, n, m);
    InfiniteSystem(systems, events, m);
    assert EventFrom(systems, events, m);
    EventProgresses(systems(m), events(m));
    FartherThan(systems(n), systems(m), systems(m + 1));
  }

  lemma NextAdvance(systems: nat -> System, events: nat -> Event, n: nat) returns (m: nat)
    requires InfiniteExecution(systems, events) && FairToServer(systems, events) && !Finished(systems(n))
    ensures n <= m && (Finished(systems(m)) || Closer(systems(m + 1), systems(n)))
  {
    InfiniteSystem(systems, events, n);
    UnfinishedCanAdvance(systems(n));
    assert AdvancedFrom(systems, events, n);
    m :| n <= m && AdvancedAt(systems, events, m);
    if !Finished(systems(m)) {
      AdvanceIsCloser(systems, events, n, m);
    }
  }

  /**
   In every infinite execution that is fair to it, the server's Shutdown calls every
   mount and returns, although sessions may be idle, clients keep arriving on later
   handlers and other Shutdown calls come and go.
   */
  lemma {:induction false} ServerShutdownFinishes(systems: nat -> System, events: nat -> Event, n: nat) returns (m: nat)
    requires InfiniteExecution(systems, events) && FairToServer(systems, events)
    ensures n <= m && Finished(systems(m))
    decreases MountsLeft(systems(n)), Stage(systems(n)), ToCancel(systems(n)), ToWaitFor(systems(n))
  {
    if Finished(systems(n)) {
      return n;
    }
    var p := NextAdvance(systems, events, n);
    if Finished(systems(p)) {
      return p;
    }
    m := ServerShutdownFinishes(systems, events, p + 1);
  }
}
