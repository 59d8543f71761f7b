/** The backend registry: options fill a configuration, which is frozen once all have been accepted. */
module BackendServices {
  import opened Wrappers
  import OperationTable

  /** A backend object; None in an option is a nil interface or a typed nil. */
  type Backend = nat

  datatype Registration =
    | NilOption
    | WithHandler(handler: Option<Backend>)
    | WithCapability(capability: string, handler: Option<Backend>)
    | WithSession(surface: string, service: Option<Backend>)

  datatype Services = Services(
    defaultHandler: Option<Backend>,
    handlers: map<string, Backend>,
    sessions: map<string, Backend>)

  const CAPABILITIES := {
    "responses", "chat", "completions", "embeddings", "audio", "images", "videos", "moderations", "models", "files",
    "uploads", "batches", "assistants", "vector_stores", "fine_tuning", "evals", "containers", "skills", "chatkit",
    "organization", "conversations", "realtime"}

  const SURFACES := {"realtime", "responses_websocket"}

  /** The option is not nil, registers something, and names a known slot. */
  predicate Acceptable(option: Registration) {
    match option
    case NilOption => false
    case WithHandler(handler) => handler.Some?
    case WithCapability(capability, handler) => capability in CAPABILITIES && handler.Some?
    case WithSession(surface, service) => surface in SURFACES && service.Some?
  }

  datatype Slot = DefaultSlot | CapabilitySlot(capability: string) | SurfaceSlot(surface: string)

  function SlotOf(option: Registration): Slot {
    match option
    case NilOption => DefaultSlot
    case WithHandler(_) => DefaultSlot
    case WithCapability(capability, _) => CapabilitySlot(capability)
    case WithSession(surface, _) => SurfaceSlot(surface)
  }

  predicate DistinctSlots(options: seq<Registration>) {
    forall i, j :: 0 <= i < j < |options| ==> SlotOf(options[i]) != SlotOf(options[j])
  }

  predicate WellFormed(options: seq<Registration>) {
    (forall option :: option in options ==> Acceptable(option)) && DistinctSlots(options)
  }

  /** The backend registered for a slot. */
  function Registered(option: Registration): Option<Backend> {
    match option
    case NilOption => None
    case WithHandler(handler) => handler
    case WithCapability(_, handler) => handler
    case WithSession(_, service) => service
  }

  function InSlot(services: Services, slot: Slot): Option<Backend> {
    match slot
    case DefaultSlot => services.defaultHandler
    case CapabilitySlot(c) => if c in services.handlers then Some(services.handlers[c]) else None
    case SurfaceSlot(s) => if s in services.sessions then Some(services.sessions[s]) else None
  }

  /** Some option registers `backend` for the slot. */
  predicate Supplies(options: seq<Registration>, slot: Slot, backend: Backend) {
    exists i :: 0 <= i < |options| && SlotOf(options[i]) == slot && Registered(options[i]) == Some(backend)
  }

  /** Each slot holds what the options registered there, and nothing else is registered. */
  ghost predicate Holds(services: Services, options: seq<Registration>) {
    forall slot, backend: Backend :: InSlot(services, slot) == Some(backend) <==> Supplies(options, slot, backend)
  }

  /** The surfaces a session can be registered for are those the WebSocket handler knows events of. */
  lemma KnownSurfaces(surface: string, service: Backend)
    ensures Acceptable(WithSession(surface, Some(service))) <==> OperationTable.SurfaceNames(surface) != {}
  {
    assert "realtime" in OperationTable.SurfaceNames("realtime");
    assert "responses_websocket" in OperationTable.SurfaceNames("responses_websocket");
  }

  class ServiceConfig {
    var defaultHandler: Option<Backend>
    var handlers: map<string, Backend>
    var sessions: map<string, Backend>

    function View(): Services
      reads this
    {
      Services(defaultHandler, handlers, sessions)
    }

    constructor ()
      ensures View() == Services(None, map[], map[])
    {
      defaultHandler, handlers, sessions := None, map[], map[];
    }

    /** Runs one option: it fills its own free slot, or fails and changes nothing. */
    method Apply(option: Registration) returns (ok: bool)
      requires option != NilOption
      modifies this
      ensures ok <==> Acceptable(option) && InSlot(old(View()), SlotOf(option)) == None
      ensures forall slot :: InSlot(View(), slot) ==
                if ok && slot == SlotOf(option) then Registered(option) else InSlot(old(View()), slot)
      ensures !ok ==> View() == old(View())
    {
      match option {
        case WithHandler(handler) =>
          if handler.None? || defaultHandler.Some? {
            return false;
          }
          defaultHandler := handler;
        case WithCapability(capability, handler) =>
          if capability !in CAPABILITIES || handler.None? || capability in handlers {
            return false;
          }
          handlers := handlers[capability := handler.value];
        case WithSession(surface, service) =>
          if surface !in SURFACES || service.None? || surface in sessions {
            return false;
          }
          sessions := sessions[surface := service.value];
      }
      return true;
    }
  }

  method NewServices(options: seq<Registration>) returns (r: Option<Services>)
    ensures r.Some? <==> WellFormed(options)
    ensures r.Some? ==> Holds(r.value, options)
  {
    var config := new ServiceConfig();
    for i := 0 to |options|
      invariant WellFormed(options[..i]) && Holds(config.View(), options[..i])
    {
      assert options[..i + 1] == options[..i] + [options[i]];
      if options[i] == NilOption {
        assert options[i] in options && !Acceptable(options[i]);
        return None;
      }
      ghost var before := config.View();
      var ok := config.Apply(options[i]);
      if !ok {
        assert options[i] in options;
        if InSlot(before, SlotOf(options[i])).Some? {
          SlotTaken(before, options, i);
        }
        return None;
      }
      SlotFree(before, options, i);
      ApplyHolds(before, config.View(), options, i);
    }
    assert options[..|options|] == options;
    return Some(config.View());
  }

  lemma SlotTaken(services: Services, options: seq<Registration>, i: nat)
    requires i < |options| && Holds(services, options[..i]) && InSlot(services, SlotOf(options[i])).Some?
    ensures !DistinctSlots(options)
  {
    var backend := InSlot(services, SlotOf(options[i])).value;
    assert Supplies(options[..i], SlotOf(options[i]), backend);
    var k :| 0 <= k < i && SlotOf(options[..i][k]) == SlotOf(options[i]) && Registered(options[..i][k]) == Some(backend);
    assert SlotOf(options[k]) == SlotOf(options[i]);
  }

  lemma SlotFree(services: Services, options: seq<Registration>, i: nat)
    requires i < |options| && Holds(services, options[..i]) && InSlot(services, SlotOf(options[i])) == None
    requires WellFormed(options[..i]) && Acceptable(options[i])
    ensures WellFormed(options[..i + 1])
  {
    forall k | 0 <= k < i
      ensures SlotOf(options[k]) != SlotOf(options[i])
    {
      assert options[..i][k] == options[k] && Acceptable(options[..i][k]);
      var backend := Registered(options[k]).value;
      assert Supplies(options[..i], SlotOf(options[..i][k]), backend);
      assert InSlot(services, SlotOf(options[k])) == Some(backend);
    }
  }

  lemma ApplyHolds(before: Services, after: Services, options: seq<Registration>, i: nat)
    requires i < |options| && Holds(before, options[..i]) && InSlot(before, SlotOf(options[i])) == None
    requires Registered(options[i]).Some?
    requires forall slot :: InSlot(after, slot) == if slot == SlotOf(options[i]) then Registered(options[i]) else InSlot(before, slot)
    ensures Holds(after, options[..i + 1])
  {
    var shorter, longer := options[..i], options[..i + 1];
    forall slot, backend: Backend
      ensures InSlot(after, slot) == Some(backend) <==> Supplies(longer, slot, backend)
    {
      if Supplies(shorter, slot, backend) {
        var k :| 0 <= k < i && SlotOf(shorter[k]) == slot && Registered(shorter[k]) == Some(backend);
        assert longer[k] == shorter[k];
      }
      if slot == SlotOf(options[i]) && Registered(options[i]) == Some(backend) {
        assert longer[i] == options[i];
      }
      if Supplies(longer, slot, backend) {
        var k :| 0 <= k <= i && SlotOf(longer[k]) == slot && Registered(longer[k]) == Some(backend);
        assert k < i ==> shorter[k] == longer[k];
      }
    }
  }

  // ---- Lookups ----

  function HandlerFor(services: Services, capability: string): Option<Backend> {
    if capability in services.handlers then Some(services.handlers[capability]) else services.defaultHandler
  }

  function SessionFor(services: Services, surface: string): Option<Backend> {
    if surface in services.sessions then Some(services.sessions[surface]) else None
  }

  /**
   Lookups in terms of the options: a capability's own registration wins, the
   default serves the rest, and a surface has no default.
   */
  lemma LookupMeaning(services: Services, options: seq<Registration>, capability: string, surface: string, backend: Backend)
    requires Holds(services, options)
    ensures HandlerFor(services, capability) == Some(backend) <==>
            || Supplies(options, CapabilitySlot(capability), backend)
            || ((forall other: Backend :: !Supplies(options, CapabilitySlot(capability), other)) && Supplies(options, DefaultSlot, backend))
    ensures SessionFor(services, surface) == Some(backend) <==> Supplies(options, SurfaceSlot(surface), backend)
  {
    assert InSlot(services, CapabilitySlot(capability)) == Some(backend) <==> Supplies(options, CapabilitySlot(capability), backend);
    assert InSlot(services, DefaultSlot) == Some(backend) <==> Supplies(options, DefaultSlot, backend);
    assert InSlot(services, SurfaceSlot(surface)) == Some(backend) <==> Supplies(options, SurfaceSlot(surface), backend);
    if capability in services.handlers {
      assert InSlot(services, CapabilitySlot(capability)) == Some(services.handlers[capability]);
      assert Supplies(options, CapabilitySlot(capability), services.handlers[capability]);
    } else {
      forall other: Backend
        ensures !Supplies(options, CapabilitySlot(capability), other)
      {
        assert InSlot(services, CapabilitySlot(capability)) != Some(other);
      }
    }
  }

  /** Construction does not depend on the order of the options. */
  lemma OrderDoesNotMatter(options: seq<Registration>, other: seq<Registration>, services: Services, services': Services)
    requires multiset(options) == multiset(other)
    ensures WellFormed(options) <==> WellFormed(other)
    ensures Holds(services, options) && Holds(services', other) ==> services == services'
  {
    SameOptions(options, other);
    SameOptions(other, options);
    if Holds(services, options) && Holds(services', other) {
      forall slot
        ensures InSlot(services, slot) == InSlot(services', slot)
      {
        SameSupply(options, other, slot);
        SameSlot(services, options, services', other, slot);
      }
      SameEverywhere(services, services');
    }
  }

  lemma SameOptions(options: seq<Registration>, other: seq<Registration>)
    requires multiset(options) == multiset(other)
    ensures WellFormed(options) ==> WellFormed(other)
  {
    if WellFormed(options) {
      forall option | option in other
        ensures Acceptable(option)
      {
        assert option in multiset(options);
        assert option in options;
      }
      forall i, j | 0 <= i < j < |other|
        ensures SlotOf(other[i]) != SlotOf(other[j])
      {
        PairOccurs(options, other, i, j);
      }
    }
  }

  /** An element that occurs twice in one order occurs twice in any other. */
  lemma TwinOccurs(options: seq<Registration>, other: seq<Registration>, i: nat, j: nat, k: nat)
    requires multiset(options) == multiset(other) && i < j < |other| && other[i] == other[j]
    requires k < |options| && options[k] == other[i]
    ensures exists m :: 0 <= m < |options| && m != k && options[m] == other[i]
  {
    assert other == other[..i] + [other[i]] + other[i + 1..j] + [other[j]] + other[j + 1..];
    assert multiset(options)[other[i]] >= 2;
    assert options == options[..k] + [options[k]] + options[k + 1..];
    assert other[i] in multiset(options[..k] + options[k + 1..]);
    if other[i] in options[..k] {
      var m :| 0 <= m < k && options[m] == other[i];
    } else {
      assert other[i] in options[k + 1..];
      var m :| k < m < |options| && options[m] == other[i];
    }
  }

  /** Two positions of one order are two positions of any other. */
  lemma PairOccurs(options: seq<Registration>, other: seq<Registration>, i: nat, j: nat)
    requires multiset(options) == multiset(other) && i < j < |other|
    ensures exists k, m :: 0 <= k < |options| && 0 <= m < |options| && k != m && options[k] == other[i] && options[m] == other[j]
  {
    assert other[i] in multiset(options) && other[j] in multiset(options);
    var k: nat :| k < |options| && options[k] == other[i];
    if other[i] != other[j] {
      var m :| 0 <= m < |options| && options[m] == other[j];
    } else {
      TwinOccurs(options, other, i, j, k);
    }
  }

  lemma SameSupply(options: seq<Registration>, other: seq<Registration>, slot: Slot)
    requires multiset(options) == multiset(other)
    ensures forall backend: Backend :: Supplies(options, slot, backend) <==> Supplies(other, slot, backend)
  {
    forall backend: Backend
      ensures Supplies(options, slot, backend) <==> Supplies(other, slot, backend)
    {
      if i :| 0 <= i < |options| && SlotOf(options[i]) == slot && Registered(options[i]) == Some(backend) {
        assert options[i] in multiset(other);
      }
      if i :| 0 <= i < |other| && SlotOf(other[i]) == slot && Registered(other[i]) == Some(backend) {
        assert other[i] in multiset(options);
      }
    }
  }

  lemma SameSlot(services: Services, options: seq<Registration>, services': Services, other: seq<Registration>, slot: Slot)
    requires Holds(services, options) && Holds(services', other)
    requires forall backend: Backend :: Supplies(options, slot, backend) <==> Supplies(other, slot, backend)
    ensures InSlot(services, slot) == InSlot(services', slot)
  {
  }

  lemma SameEverywhere(services: Services, services': Services)
    requires forall slot :: InSlot(services, slot) == InSlot(services', slot)
    ensures services == services'
  {
    assert InSlot(services, DefaultSlot) == InSlot(services', DefaultSlot);
    forall c: string
      ensures c in services.handlers <==> c in services'.handlers
      ensures c in services.handlers ==> services.handlers[c] == services'.handlers[c]
      ensures c in services.sessions <==> c in services'.sessions
      ensures c in services.sessions ==> services.sessions[c] == services'.sessions[c]
    {
      assert InSlot(services, CapabilitySlot(c)) == InSlot(services', CapabilitySlot(c));
      assert InSlot(services, SurfaceSlot(c)) == InSlot(services', SurfaceSlot(c));
    }
    assert services.handlers == services'.handlers && services.sessions == services'.sessions;
  }
}
