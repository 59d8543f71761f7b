/**
 The mutex-protected part of the WebSocket handler: the table of active
 sessions, the shutdown flag, and the once-guarded completion channel.

 The functions give the effect of the three critical sections on a value; the
 class performs them on fields, as the source does, and is proved against the
 functions.  The session protocol uses the functions as its atomic steps.
 */
module SessionRegistry {
  import opened Wrappers

  const ID_SPACE := 0x1_0000_0000_0000_0000

  /** Session ids are 64-bit machine words; the counter wraps. */
  type SessionId = n: int | 0 <= n < ID_SPACE

  /** The connection handler whose cancel function a table entry holds. */
  type Owner = nat

  /** `doneCloses` counts the closes of the completion channel: a second one would panic. */
  datatype Registry = Registry(
    shuttingDown: bool,
    nextSession: SessionId,
    active: map<SessionId, Owner>,
    onceFired: bool,
    doneCloses: nat)

  const NEW_REGISTRY := Registry(false, 0, map[], false, 0)

  function FireOnce(r: Registry): Registry {
    if r.onceFired then r else r.(onceFired := true, doneCloses := r.doneCloses + 1)
  }

  function NextId(r: Registry): SessionId {
    (r.nextSession + 1) % ID_SPACE
  }

  function Registered(r: Registry, owner: Owner): (Registry, Option<SessionId>) {
    if r.shuttingDown then (r, None)
    else (r.(nextSession := NextId(r), active := r.active[NextId(r) := owner]), Some(NextId(r)))
  }

  function Unregistered(r: Registry, id: SessionId): Registry {
    var removed := r.(active := r.active - {id});
    if removed.shuttingDown && removed.active == map[] then FireOnce(removed) else removed
  }

  function ShutdownBegun(r: Registry): Registry {
    var flagged := r.(shuttingDown := true);
    if flagged.active == map[] then FireOnce(flagged) else flagged
  }

  predicate Drained(r: Registry) {
    r.shuttingDown && r.active == map[]
  }

  /** No lost wakeup and no double close, as one invariant of the locked state. */
  predicate Consistent(r: Registry) {
    && r.doneCloses == (if Drained(r) then 1 else 0)
    && r.onceFired == Drained(r)
  }

  /** One critical section of any caller. */
  datatype Section = EnterRegister(owner: Owner) | EnterUnregister(id: SessionId) | EnterShutdown

  function Enter(r: Registry, section: Section): Registry {
    match section
    case EnterRegister(owner) => Registered(r, owner).0
    case EnterUnregister(id) => Unregistered(r, id)
    case EnterShutdown => ShutdownBegun(r)
  }

  function EnterAll(r: Registry, sections: seq<Section>): Registry
    decreases |sections|
  {
    if sections == [] then r else EnterAll(Enter(r, sections[0]), sections[1..])
  }

  /**
   After any sequence of critical sections, in whatever order callers won the
   mutex, the channel has been closed exactly when shutdown has begun and the
   table is empty, and never twice.
   */
  lemma {:induction false} AlwaysConsistent(r: Registry, sections: seq<Section>)
    requires Consistent(r)
    ensures Consistent(EnterAll(r, sections))
    decreases |sections|
  {
    if sections != [] {
      AlwaysConsistent(Enter(r, sections[0]), sections[1..]);
    }
  }

  /** Once drained, no sequence of critical sections changes anything. */
  lemma {:induction false} DrainedForever(r: Registry, sections: seq<Section>)
    requires Consistent(r) && Drained(r)
    ensures EnterAll(r, sections) == r
    decreases |sections|
  {
    if sections != [] {
      assert forall id: SessionId :: r.active - {id} == map[];
      assert Enter(r, sections[0]) == r;
      DrainedForever(r, sections[1..]);
    }
  }

  /**
   Registration adds its owner and loses nobody exactly when the wrapped counter
   does not land on an id still in use.
   */
  lemma RegisterKeepsOthers(r: Registry, owner: Owner)
    requires !r.shuttingDown
    ensures (forall id :: id in r.active ==> id in Registered(r, owner).0.active && Registered(r, owner).0.active[id] == r.active[id])
            && |Registered(r, owner).0.active| == |r.active| + 1
            <==> NextId(r) !in r.active
  {
  }

  lemma SameResidue(a: nat, b: nat)
    requires a <= b
    ensures a % ID_SPACE == b % ID_SPACE <==> (b - a) % ID_SPACE == 0
  {
  }

  function Registrations(owners: seq<Owner>): (r: seq<Section>)
    ensures |r| == |owners|
  {
    seq(|owners|, i requires 0 <= i < |owners| => EnterRegister(owners[i]))
  }

  lemma {:induction false} CounterAfter(r: Registry, owners: seq<Owner>)
    requires !r.shuttingDown
    ensures var after := EnterAll(r, Registrations(owners));
            !after.shuttingDown && after.nextSession == (r.nextSession + |owners|) % ID_SPACE
    decreases |owners|
  {
    if owners != [] {
      assert Registrations(owners)[1..] == Registrations(owners[1..]);
      CounterAfter(Registered(r, owners[0]).0, owners[1..]);
      WrapSum(r.nextSession + 1, |owners| - 1);
    }
  }

  /** The id handed to the registration that follows `earlier` ones on a new handler. */
  function IssuedId(earlier: seq<Owner>, owner: Owner): Option<SessionId> {
    Registered(EnterAll(NEW_REGISTRY, Registrations(earlier)), owner).1
  }

  /**
   Two registrations receive the same id exactly when a multiple of 2^64
   registrations separates them; so the first 2^64 - 1 ids are all different.
   */
  lemma IdsRepeatExactly(first: seq<Owner>, second: seq<Owner>, one: Owner, other: Owner)
    requires |first| <= |second|
    ensures IssuedId(first, one).Some? && IssuedId(second, other).Some?
    ensures IssuedId(first, one) == IssuedId(second, other) <==> (|second| - |first|) % ID_SPACE == 0
  {
    CounterAfter(NEW_REGISTRY, first);
    CounterAfter(NEW_REGISTRY, second);
    WrapSum(|first|, 1);
    WrapSum(|second|, 1);
    SameResidue(|first| + 1, |second| + 1);
  }

  lemma WrapSum(a: nat, b: nat)
    ensures (a % ID_SPACE + b) % ID_SPACE == (a + b) % ID_SPACE
  {
  }

  class Handler {
    var shuttingDown: bool
    var nextSession: SessionId
    var active: map<SessionId, Owner>
    var onceFired: bool
    var doneCloses: nat

    function View(): Registry
      reads this
    {
      Registry(shuttingDown, nextSession, active, onceFired, doneCloses)
    }

    ghost predicate Valid()
      reads this
    {
      Consistent(View())
    }

    constructor ()
      ensures Valid() && View() == NEW_REGISTRY
    {
      shuttingDown, nextSession, active, onceFired, doneCloses := false, 0, map[], false, 0;
    }

    method CloseDone()
      modifies this
      ensures View() == FireOnce(old(View()))
    {
      if !onceFired {
        onceFired := true;
        doneCloses := doneCloses + 1;
      }
    }

    method Register(owner: Owner) returns (id: Option<SessionId>)
      requires Valid()
      modifies this
      ensures Valid()
      ensures (View(), id) == Registered(old(View()), owner)
    {
      if shuttingDown {
        return None;
      }
      nextSession := (nextSession + 1) % ID_SPACE;
      active := active[nextSession := owner];
      return Some(nextSession);
    }

    method Unregister(id: SessionId)
      requires Valid()
      modifies this
      ensures Valid()
      ensures View() == Unregistered(old(View()), id)
    {
      active := active - {id};
      if shuttingDown && active == map[] {
        CloseDone();
      }
    }

    /** The critical section of Shutdown: the cancels it takes are one per table entry. */
    method BeginShutdown() returns (cancels: seq<Owner>)
      requires Valid()
      modifies this
      ensures Valid()
      ensures View() == ShutdownBegun(old(View()))
      ensures |cancels| == |old(active)|
      ensures forall owner :: owner in cancels <==> owner in old(active).Values
    {
      shuttingDown := true;
      cancels := [];
      var pending := active.Keys;
      while pending != {}
        invariant pending <= active.Keys
        invariant active == old(active) && shuttingDown && onceFired == old(onceFired)
        invariant doneCloses == old(doneCloses) && nextSession == old(nextSession)
        invariant |cancels| + |pending| == |active.Keys|
        invariant forall id :: id in active.Keys - pending ==> active[id] in cancels
        invariant forall owner :: owner in cancels ==> owner in active.Values
      {
        var id :| id in pending;
        cancels := cancels + [active[id]];
        pending := pending - {id};
      }
      if active == map[] {
        CloseDone();
      }
    }
  }
}
