/**
 The course of one connection handler, read off the actions of a run: which ways
 through the source there are, what each answers the client, and whose result closes
 the connection.
 */
module SessionPaths {
  import opened Wrappers
  import opened SessionRegistry
  import opened SessionProtocol

  // ---- The ways through a registered handler ----

  datatype Path =
    | Denied(why: Denial)
    | NoSession(failed: bool)
    | BadSession
    | NotAccepted
    | Served(second: bool)

  /** What the handler does on each way, from registration to the last deferred call but unregister. */
  function Moves(path: Path): seq<Move> {
    match path
    case Denied(why) => [Abort(why), RunDeferred]
    case NoSession(failed) => [Admit, OpenReturns(false, failed), RunDeferred]
    case BadSession => [Admit, OpenReturns(true, true), ReleaseRejected, RunDeferred]
    case NotAccepted => [Admit, OpenReturns(true, false), AcceptFails, RunDeferred]
    case Served(second) =>
      [Admit, OpenReturns(true, false), Upgrade, TakeFirst, CloseFirst, if second then TakeSecond else TimerFires,
       RunDeferred, RunDeferred]
  }

  function ReplyOn(path: Path): Reply {
    match path
    case Denied(BadCredentials) => Error(401)
    case Denied(NoCapability) => Error(501)
    case NoSession(_) => Error(500)
    case BadSession => Error(500)
    case NotAccepted => AcceptError
    case Served(_) => Switched
  }

  predicate HasSessionOn(path: Path) {
    path.BadSession? || path.NotAccepted? || path.Served?
  }

  /** A move of the handler's own goroutine. */
  predicate IsMain(move: Move) {
    !move.LoopEnds? && !move.LoopSends? && !move.ClientGone?
  }

  /** The moves of the handler `c`'s own goroutine among the first `i` actions. */
  function MainMoves(actions: seq<Action>, i: nat, c: Owner): seq<Move>
    requires i <= |actions|
  {
    if i == 0 then []
    else if actions[i - 1].Local? && actions[i - 1].conn == c && IsMain(actions[i - 1].move) then
      MainMoves(actions, i - 1, c) + [actions[i - 1].move]
    else MainMoves(actions, i - 1, c)
  }

  // ---- A handler in the middle of its way ----

  predicate Unwound(c: Conn, t: seq<Move>, path: Path) {
    && 1 <= |c.deferred| <= 3 && (|c.deferred| == 3 ==> path.Served?)
    && t == Moves(path)[..|Moves(path)| + 1 - |c.deferred|]
    && c.replies == [ReplyOn(path)] && (c.hasSession <==> HasSessionOn(path))
    && (path.Served? <==> !c.reader.Unstarted?)
  }

  predicate Completed(c: Conn, t: seq<Move>, path: Path) {
    && t == Moves(path) && c.replies == [ReplyOn(path)] && (c.hasSession <==> HasSessionOn(path))
    && (path.Served? <==> !c.reader.Unstarted?)
  }

  /** What the moves so far say about the handler. */
  ghost predicate Follows(c: Conn, t: seq<Move>) {
    match c.pc
    case Arrived => t == [] && c.replies == []
    case Refused => t == [] && c.replies == [Error(503)]
    case Authenticating => t == [] && c.replies == []
    case Opening => t == [Admit] && c.replies == []
    case Rejecting => t == [Admit, OpenReturns(true, true)] && c.replies == []
    case Accepting => t == [Admit, OpenReturns(true, false)] && c.replies == []
    case Serving => t == [Admit, OpenReturns(true, false), Upgrade] && c.replies == [Switched]
    case Ending => t == [Admit, OpenReturns(true, false), Upgrade, TakeFirst] && c.replies == [Switched]
    case Draining => t == [Admit, OpenReturns(true, false), Upgrade, TakeFirst, CloseFirst] && c.replies == [Switched]
    case Unwinding => exists path :: Unwound(c, t, path)
    case Returned => exists path :: Completed(c, t, path)
  }

  lemma SideMoveFollows(c: Conn, move: Move, t: seq<Move>)
    requires ConnInv(c) && CanMove(c, move) && Follows(c, t) && !IsMain(move)
    ensures Follows(Moved(c, move), t)
  {
    var d := Moved(c, move);
    if c.pc == Unwinding {
      var path :| Unwound(c, t, path);
      assert Unwound(d, t, path);
    } else if c.pc == Returned {
      var path :| Completed(c, t, path);
      assert Completed(d, t, path);
    }
  }

  /** The moves that start the unwinding, each the last of its way before the deferred calls. */
  lemma EndingFollows(c: Conn, move: Move, t: seq<Move>, path: Path)
    requires ConnInv(c) && CanMove(c, move) && Follows(c, t) && Moved(c, move).pc == Unwinding && c.pc != Unwinding && IsMain(move)
    requires match move
             case Abort(why) => path == Denied(why)
             case OpenReturns(_, failed) => path == NoSession(failed)
             case ReleaseRejected => path == BadSession
             case AcceptFails => path == NotAccepted
             case TakeSecond => path == Served(true)
             case _ => path == Served(false)
    ensures Unwound(Moved(c, move), t + [move], path)
  {
  }

  lemma NextDeferred(path: Path, n: nat)
    requires |Moves(path)| - 2 <= n < |Moves(path)| && (n == |Moves(path)| - 2 ==> path.Served?)
    ensures Moves(path)[..n + 1] == Moves(path)[..n] + [RunDeferred]
  {
    assert Moves(path)[n] == RunDeferred;
  }

  lemma UnwindingFollows(c: Conn, t: seq<Move>)
    requires ConnInv(c) && CanMove(c, RunDeferred) && Follows(c, t)
    ensures Follows(Moved(c, RunDeferred), t + [RunDeferred])
  {
    var path :| Unwound(c, t, path);
    NextDeferred(path, |Moves(path)| + 1 - |c.deferred|);
    ClosingRanks(c.(deferred := c.deferred[..|c.deferred| - 1]), (1000, "OK"));
    assert Unwound(Moved(c, RunDeferred), t + [RunDeferred], path);
  }

  /** The way a move that ends the handler's work is on. */
  function PathOf(move: Move): Path {
    match move
    case Abort(why) => Denied(why)
    case OpenReturns(_, failed) => NoSession(failed)
    case ReleaseRejected => BadSession
    case AcceptFails => NotAccepted
    case TakeSecond => Served(true)
    case _ => Served(false)
  }

  lemma MainMoveFollows(c: Conn, move: Move, t: seq<Move>)
    requires ConnInv(c) && CanMove(c, move) && Follows(c, t) && IsMain(move)
    ensures Follows(Moved(c, move), t + [move])
  {
    if move.RunDeferred? {
      UnwindingFollows(c, t);
    } else if Moved(c, move).pc == Unwinding {
      EndingFollows(c, move, t, PathOf(move));
    }
  }

  lemma ReturnFollows(c: Conn, t: seq<Move>)
    requires ConnInv(c) && c.pc == Unwinding && c.deferred == [DeferUnregister] && Follows(c, t)
    ensures Follows(c.(pc := Returned, deferred := []), t)
  {
    var path :| Unwound(c, t, path);
    assert Moves(path)[..|Moves(path)|] == Moves(path);
    assert Completed(c.(pc := Returned, deferred := []), t, path);
  }

  lemma CancelFollows(c: Conn, t: seq<Move>)
    requires Follows(c, t)
    ensures Follows(c.(cancelled := true), t)
  {
    var d := c.(cancelled := true);
    if c.pc == Unwinding {
      var path :| Unwound(c, t, path);
      assert Unwound(d, t, path);
    } else if c.pc == Returned {
      var path :| Completed(c, t, path);
      assert Completed(d, t, path);
    }
  }

  // ---- Over runs ----

  predicate IsMainOf(a: Action, c: Owner) {
    a.Local? && a.conn == c && IsMain(a.move)
  }

  ghost predicate Tracked(s: State, c: Owner, t: seq<Move>) {
    if c in s.conns then Follows(s.conns[c], t) else t == []
  }

  lemma LocalTracks(s: State, d: Owner, move: Move, c: Owner, t: seq<Move>)
    requires Inv(s) && Enabled(s, Local(d, move)) && Tracked(s, c, t)
    ensures Tracked(Next(s, Local(d, move)), c, if IsMainOf(Local(d, move), c) then t + [move] else t)
  {
    if c == d {
      assert ConnInv(s.conns[c]);
      if IsMain(move) {
        MainMoveFollows(s.conns[c], move, t);
      } else {
        SideMoveFollows(s.conns[c], move, t);
      }
    }
  }

  lemma UnregisterTracks(s: State, d: Owner, c: Owner, t: seq<Move>)
    requires Inv(s) && Enabled(s, Unregister(d)) && Tracked(s, c, t)
    ensures Tracked(Next(s, Unregister(d)), c, t)
  {
    if c == d {
      assert ConnInv(s.conns[c]);
      ReturnFollows(s.conns[c], t);
    }
  }

  lemma CancelTracks(s: State, k: CallId, c: Owner, t: seq<Move>)
    requires Enabled(s, CancelNext(k)) && Tracked(s, c, t)
    ensures Tracked(Next(s, CancelNext(k)), c, t)
  {
    if c in s.conns {
      CancelFollows(s.conns[c], t);
    }
  }

  lemma StepTracks(s: State, a: Action, c: Owner, t: seq<Move>)
    requires Inv(s) && Enabled(s, a) && Tracked(s, c, t)
    ensures Tracked(Next(s, a), c, if IsMainOf(a, c) then t + [a.move] else t)
  {
    match a
    case Local(d, move) => LocalTracks(s, d, move, c, t);
    case Unregister(d) => UnregisterTracks(s, d, c, t);
    case CancelNext(k) => CancelTracks(s, k, c, t);
    case _ =>
  }

  lemma {:induction false} AlwaysTracked(states: seq<State>, actions: seq<Action>, i: nat, c: Owner)
    requires InitialRun(states, actions) && i < |states| && states[i].registrations < ID_SPACE
    ensures Tracked(states[i], c, MainMoves(actions, i, c))
  {
    if i > 0 {
      NoLostWakeup(states, actions, i - 1, i - 1);
      StepInRun(states, actions, i - 1);
      RegistryStep(states[i - 1], actions[i - 1]);
      AlwaysTracked(states, actions, i - 1, c);
      ReachableInv(states, actions, i - 1);
      StepTracks(states[i - 1], actions[i - 1], c, MainMoves(actions, i - 1, c));
    }
  }

  lemma BeginsAWay(c: Conn, t: seq<Move>) returns (path: Path)
    requires Follows(c, t)
    ensures t <= Moves(path)
    ensures c.pc == Unwinding ==> Unwound(c, t, path)
    ensures c.pc == Returned ==> Completed(c, t, path)
  {
    match c.pc {
      case Unwinding => path :| Unwound(c, t, path);
      case Returned => path :| Completed(c, t, path);
      case Rejecting => path := BadSession;
      case _ => path := Served(true);
    }
  }

  const SERVING_MOVES := [Admit, OpenReturns(true, false), Upgrade]

  /** Loops run for a connection exactly if its session was opened without an error and then accepted. */
  predicate LoopsStartedBy(c: Conn, t: seq<Move>) {
    && (!c.reader.Unstarted? || !c.writer.Unstarted? || c.closedWith != [] ==> SERVING_MOVES <= t)
    && (SERVING_MOVES <= t ==> !c.reader.Unstarted? && !c.writer.Unstarted?)
  }

  lemma LoopsFollow(c: Conn, t: seq<Move>)
    requires ConnInv(c) && Follows(c, t)
    ensures LoopsStartedBy(c, t)
  {
    if c.pc == Unwinding || c.pc == Returned {
      var path := BeginsAWay(c, t);
      WaysApart(path, t);
    }
  }

  lemma WaysApart(path: Path, t: seq<Move>)
    requires t <= Moves(path)
    ensures SERVING_MOVES <= t <==> path.Served? && |t| >= 3
  {
    if SERVING_MOVES <= t {
      assert Moves(path)[0] == Admit && Moves(path)[1] == OpenReturns(true, false) && Moves(path)[2] == Upgrade;
    }
  }

  /** Answered so far: nothing before the way is decided, and its own reply from then on. */
  ghost predicate AnsweredAs(c: Conn, t: seq<Move>) {
    && |c.replies| <= 1
    && (c.pc == Refused ==> c.replies == [Error(503)])
    && (c.pc == Returned ==> exists path :: t == Moves(path) && c.replies == [ReplyOn(path)] && c.hasSession == HasSessionOn(path))
  }

  /**
   The course of every handler.  Its moves are the beginning of one way through the
   source, all of it when it has returned; it gives one reply, the one of that way, or
   503 if it was refused; and its loops run exactly if OpenSession returned a session
   without an error and the upgrade was then accepted.
   */
  lemma HandlersFollowTheSource(states: seq<State>, actions: seq<Action>, i: nat, c: Owner)
    requires InitialRun(states, actions) && i < |states| && states[i].registrations < ID_SPACE
    requires c in states[i].conns
    ensures var conn, t := states[i].conns[c], MainMoves(actions, i, c);
            && (exists path :: t <= Moves(path))
            && AnsweredAs(conn, t) && LoopsStartedBy(conn, t)
  {
    AlwaysTracked(states, actions, i, c);
    ReachableInv(states, actions, i);
    var conn, t := states[i].conns[c], MainMoves(actions, i, c);
    assert ConnInv(conn);
    var path := BeginsAWay(conn, t);
    LoopsFollow(conn, t);
  }

  // ---- What a handler can do next ----

  predicate Waits(move: Move) {
    move in {TakeFirst, TakeSecond}
  }

  /** The move continues some way. */
  ghost predicate Continues(t: seq<Move>, move: Move) {
    exists path :: ContinuesOn(t, move, path)
  }

  predicate ContinuesOn(t: seq<Move>, move: Move, path: Path) {
    |t| < |Moves(path)| && t == Moves(path)[..|t|] && move == Moves(path)[|t|]
  }

  lemma NextIsOnWay(c: Conn, t: seq<Move>, move: Move)
    requires ConnInv(c) && Follows(c, t) && IsMain(move) && CanMove(c, move)
    ensures Continues(t, move)
  {
    MainMoveFollows(c, move, t);
    var path := BeginsAWay(Moved(c, move), t + [move]);
    assert (t + [move])[..|t|] == t && (t + [move])[|t|] == move;
    assert Moves(path)[..|t|] == t && Moves(path)[|t|] == move;
    assert ContinuesOn(t, move, path);
  }

  lemma StraightIsOpen(c: Conn, t: seq<Move>, move: Move, path: Path)
    requires ConnInv(c) && Follows(c, t) && c.pc in {Authenticating, Opening, Rejecting, Accepting, Serving, Ending, Draining}
    requires ContinuesOn(t, move, path) && (Waits(move) ==> c.taken < |c.sent|)
    ensures CanMove(c, move)
  {
    assert |t| > 0 ==> t[0] == Moves(path)[0];
    assert |t| > 1 ==> t[1] == Moves(path)[1];
    assert |t| > 2 ==> t[2] == Moves(path)[2];
    match path
    case Denied(_) =>
    case NoSession(_) =>
    case BadSession =>
    case NotAccepted =>
    case Served(_) =>
  }

  lemma WayIsOpen(c: Conn, t: seq<Move>, move: Move, path: Path)
    requires ConnInv(c) && Follows(c, t) && c.id.Some? && ContinuesOn(t, move, path)
    requires Waits(move) ==> c.taken < |c.sent|
    ensures CanMove(c, move)
  {
    if c.pc == Unwinding || c.pc == Returned {
      UnwindingIsOpen(c, t, move, path);
    } else {
      StraightIsOpen(c, t, move, path);
    }
  }

  lemma UnwindingIsOpen(c: Conn, t: seq<Move>, move: Move, path: Path)
    requires ConnInv(c) && Follows(c, t) && (c.pc == Unwinding || c.pc == Returned) && ContinuesOn(t, move, path)
    ensures CanMove(c, move)
  {
    var own := BeginsAWay(c, t);
    SameWay(t, own, path);
  }

  /** After the last move before the deferred calls, only one way is left, up to what follows the unwinding. */
  lemma SameWay(t: seq<Move>, own: Path, path: Path)
    requires t <= Moves(own) && t <= Moves(path) && |t| >= |Moves(own)| - (if own.Served? then 2 else 1)
    ensures path == own
  {
    assert Moves(own)[0] == t[0] == Moves(path)[0];
    if |t| > 1 {
      assert Moves(own)[1] == t[1] == Moves(path)[1];
    }
    if |t| > 2 {
      assert Moves(own)[2] == t[2] == Moves(path)[2];
    }
    if |t| > 5 {
      assert Moves(own)[5] == t[5] == Moves(path)[5];
    }
  }

  /**
   A registered handler can always make the moves the source has next, and no others;
   receiving a result needs one in the channel.
   */
  lemma HandlersGoOn(states: seq<State>, actions: seq<Action>, i: nat, c: Owner, move: Move)
    requires InitialRun(states, actions) && i < |states| && states[i].registrations < ID_SPACE
    requires c in states[i].conns && states[i].conns[c].id.Some? && IsMain(move)
    ensures Enabled(states[i], Local(c, move)) <==>
            Continues(MainMoves(actions, i, c), move) && (Waits(move) ==> states[i].conns[c].taken < |states[i].conns[c].sent|)
  {
    AlwaysTracked(states, actions, i, c);
    ReachableInv(states, actions, i);
    var conn, t := states[i].conns[c], MainMoves(actions, i, c);
    assert ConnInv(conn);
    if CanMove(conn, move) {
      NextIsOnWay(conn, t, move);
    }
    if Continues(t, move) && (Waits(move) ==> conn.taken < |conn.sent|) {
      var path :| ContinuesOn(t, move, path);
      WayIsOpen(conn, t, move, path);
    }
  }

  // ---- Refusal ----

  predicate IsRefused(s: State, c: Owner) {
    c in s.conns && s.conns[c].pc == Refused
  }

  predicate IsRegistered(s: State, c: Owner) {
    c in s.conns && s.conns[c].id.Some?
  }

  /** The handler tried to register in step `j`, during shutdown or before. */
  ghost predicate TriedAt(states: seq<State>, actions: seq<Action>, j: nat, c: Owner, late: bool) {
    j < |actions| && j < |states| && actions[j] == Register(c) && states[j].registry.shuttingDown == late
  }

  ghost predicate Tried(states: seq<State>, actions: seq<Action>, i: nat, c: Owner, late: bool) {
    exists j: nat :: j < i && TriedAt(states, actions, j, c, late)
  }

  lemma TriedNext(states: seq<State>, actions: seq<Action>, i: nat, c: Owner, late: bool)
    ensures Tried(states, actions, i + 1, c, late) <==> Tried(states, actions, i, c, late) || TriedAt(states, actions, i, c, late)
  {
    if j: nat :| j < i + 1 && TriedAt(states, actions, j, c, late) {
      assert j < i || j == i;
    }
  }

  /** A handler is refused exactly if it tried to register after shutdown began, and registered exactly if it tried before. */
  lemma {:induction false} RefusedWhenShuttingDown(states: seq<State>, actions: seq<Action>, i: nat, c: Owner)
    requires InitialRun(states, actions) && i < |states| && states[i].registrations < ID_SPACE
    ensures IsRefused(states[i], c) <==> Tried(states, actions, i, c, true)
    ensures IsRegistered(states[i], c) <==> Tried(states, actions, i, c, false)
  {
    if i > 0 {
      NoLostWakeup(states, actions, i - 1, i - 1);
      StepInRun(states, actions, i - 1);
      RegistryStep(states[i - 1], actions[i - 1]);
      RefusedWhenShuttingDown(states, actions, i - 1, c);
      ReachableInv(states, actions, i - 1);
      StepRefuses(states[i - 1], actions[i - 1], c);
      TriedNext(states, actions, i - 1, c, true);
      TriedNext(states, actions, i - 1, c, false);
    }
  }

  lemma LocalRefuses(s: State, d: Owner, move: Move, c: Owner)
    requires Inv(s) && Enabled(s, Local(d, move))
    ensures IsRefused(Next(s, Local(d, move)), c) <==> IsRefused(s, c)
    ensures IsRegistered(Next(s, Local(d, move)), c) <==> IsRegistered(s, c)
  {
    if d == c {
      assert ConnInv(s.conns[c]);
      MoveKeepsConnInv(s.conns[c], move);
    }
  }

  lemma RegisterRefuses(s: State, d: Owner, c: Owner)
    requires Inv(s) && Enabled(s, Register(d))
    ensures IsRefused(Next(s, Register(d)), c) <==> IsRefused(s, c) || (d == c && s.registry.shuttingDown)
    ensures IsRegistered(Next(s, Register(d)), c) <==> IsRegistered(s, c) || (d == c && !s.registry.shuttingDown)
  {
    if d == c {
      assert ConnInv(s.conns[c]);
    }
  }

  lemma UnregisterRefuses(s: State, d: Owner, c: Owner)
    requires Inv(s) && Enabled(s, Unregister(d))
    ensures IsRefused(Next(s, Unregister(d)), c) <==> IsRefused(s, c)
    ensures IsRegistered(Next(s, Unregister(d)), c) <==> IsRegistered(s, c)
  {
  }

  lemma StepRefuses(s: State, a: Action, c: Owner)
    requires Inv(s) && Enabled(s, a)
    ensures IsRefused(Next(s, a), c) <==> IsRefused(s, c) || (a == Register(c) && s.registry.shuttingDown)
    ensures IsRegistered(Next(s, a), c) <==> IsRegistered(s, c) || (a == Register(c) && !s.registry.shuttingDown)
  {
    match a
    case Register(d) => RegisterRefuses(s, d, c);
    case Local(d, move) => LocalRefuses(s, d, move, c);
    case Unregister(d) => UnregisterRefuses(s, d, c);
    case _ =>
  }

  // ---- Whose result closes the connection ----

  /** The result with which a loop of `c` has ended. */
  function EndOf(actions: seq<Action>, i: nat, c: Owner, reader: bool): Option<LoopError>
    requires i <= |actions|
  {
    if i == 0 then None
    else if actions[i - 1].Local? && actions[i - 1].conn == c && actions[i - 1].move.LoopEnds? && actions[i - 1].move.ofReader == reader then
      Some(actions[i - 1].move.result)
    else EndOf(actions, i - 1, c, reader)
  }

  /** The results the loops of `c` have sent, in the order of their sends. */
  function Results(actions: seq<Action>, i: nat, c: Owner): seq<Option<LoopError>>
    requires i <= |actions|
  {
    if i == 0 then []
    else if actions[i - 1].Local? && actions[i - 1].conn == c && actions[i - 1].move.LoopSends? then
      Results(actions, i - 1, c) + [EndOf(actions, i - 1, c, actions[i - 1].move.byReader)]
    else Results(actions, i - 1, c)
  }

  predicate Recorded(c: Conn, results: seq<Option<LoopError>>, reader: Option<LoopError>, writer: Option<LoopError>) {
    && |results| == |c.sent| && (forall k :: 0 <= k < |c.sent| ==> results[k] == Some(c.sent[k]))
    && (c.reader.Sending? ==> reader == Some(c.reader.result))
    && (c.writer.Sending? ==> writer == Some(c.writer.result))
  }

  lemma LoopMoveRecords(c: Conn, move: Move, results: seq<Option<LoopError>>, reader: Option<LoopError>, writer: Option<LoopError>)
    requires CanMove(c, move) && Recorded(c, results, reader, writer) && (move.LoopEnds? || move.LoopSends?)
    ensures Recorded(Moved(c, move),
              if move.LoopSends? then results + [if move.byReader then reader else writer] else results,
              if move.LoopEnds? && move.ofReader then Some(move.result) else reader,
              if move.LoopEnds? && !move.ofReader then Some(move.result) else writer)
  {
  }

  lemma OtherMovesKeepLoops(c: Conn, move: Move)
    requires CanMove(c, move) && !move.LoopEnds? && !move.LoopSends?
    ensures Moved(c, move).sent == c.sent
    ensures Moved(c, move).reader.Sending? ==> Moved(c, move).reader == c.reader
    ensures Moved(c, move).writer.Sending? ==> Moved(c, move).writer == c.writer
  {
  }

  lemma MoveRecords(c: Conn, move: Move, results: seq<Option<LoopError>>, reader: Option<LoopError>, writer: Option<LoopError>)
    requires CanMove(c, move) && Recorded(c, results, reader, writer)
    ensures Recorded(Moved(c, move),
              if move.LoopSends? then results + [if move.byReader then reader else writer] else results,
              if move.LoopEnds? && move.ofReader then Some(move.result) else reader,
              if move.LoopEnds? && !move.ofReader then Some(move.result) else writer)
  {
    if move.LoopEnds? || move.LoopSends? {
      LoopMoveRecords(c, move, results, reader, writer);
    } else {
      OtherMovesKeepLoops(c, move);
    }
  }

  ghost predicate RecordedIn(s: State, actions: seq<Action>, i: nat, c: Owner)
    requires i <= |actions|
  {
    c in s.conns ==> Recorded(s.conns[c], Results(actions, i, c), EndOf(actions, i, c, true), EndOf(actions, i, c, false))
  }

  /** No action of `c` before it has arrived. */
  lemma {:induction false} NothingYet(states: seq<State>, actions: seq<Action>, i: nat, c: Owner)
    requires InitialRun(states, actions) && i < |states| && c !in states[i].conns
    ensures Results(actions, i, c) == []
  {
    if i > 0 {
      StepInRun(states, actions, i - 1);
      assert c !in states[i - 1].conns;
      NothingYet(states, actions, i - 1, c);
    }
  }

  lemma {:induction false} AlwaysRecorded(states: seq<State>, actions: seq<Action>, i: nat, c: Owner)
    requires InitialRun(states, actions) && i < |states|
    ensures RecordedIn(states[i], actions, i, c)
  {
    if i > 0 {
      StepInRun(states, actions, i - 1);
      AlwaysRecorded(states, actions, i - 1, c);
      var s, a := states[i - 1], actions[i - 1];
      if c !in s.conns {
        NothingYet(states, actions, i - 1, c);
      } else if a.Local? && a.conn == c {
        MoveRecords(s.conns[c], a.move, Results(actions, i - 1, c), EndOf(actions, i - 1, c, true), EndOf(actions, i - 1, c, false));
      }
    }
  }

  /** A closed connection was closed with the reason of the loop whose result was sent first. */
  lemma FirstResultCloses(states: seq<State>, actions: seq<Action>, i: nat, c: Owner)
    requires InitialRun(states, actions) && i < |states| && states[i].registrations < ID_SPACE
    requires c in states[i].conns
    ensures var conn, results := states[i].conns[c], Results(actions, i, c);
            conn.closedWith == [] || (results != [] && results[0].Some? && conn.closedWith == [CloseReason(results[0].value)])
  {
    AlwaysRecorded(states, actions, i, c);
    SessionsReleasedOnce(states, actions, i, c);
  }
}
