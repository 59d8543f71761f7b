/**
 The unary request pipeline: a long line of gates in front of the backend, and the
 handling of what the backend answers.  The router, the schema validators, the
 authenticator and the backend are oracles.
 */
module RestPipeline {
  import opened Wrappers
  import opened JsonValues
  import opened OperationTable
  import opened BackendServices
  import SseWriter

  type Bytes = seq<bv8>

  // ---- Bounded reading ----

  const MAX_INT64 := 0x7FFF_FFFF_FFFF_FFFF
  const TWO_64 := 0x1_0000_0000_0000_0000

  /** A request body; `fails` makes the read that follows the last byte fail. */
  datatype BodySource = BodySource(bytes: Bytes, fails: bool)

  /** limit+1 in 64-bit arithmetic. */
  function LimitPlusOne(limit: int): int {
    if limit == MAX_INT64 then limit + 1 - TWO_64 else limit + 1
  }

  /** Everything a reader limited to `n` bytes delivers, or None if reading fails. */
  function ReadLimited(source: BodySource, n: int): Option<Bytes> {
    if n <= 0 then Some([])
    else if |source.bytes| >= n then Some(source.bytes[..n])
    else if source.fails then None
    else Some(source.bytes)
  }

  datatype BodyVerdict = Unreadable | TooLarge | Whole(body: Bytes)

  function ReadBody(source: BodySource, limit: int): BodyVerdict {
    var read := ReadLimited(source, LimitPlusOne(limit));
    if read.None? then Unreadable
    else if |read.value| > limit then TooLarge
    else Whole(read.value)
  }

  /**
   For every limit below the largest 64-bit integer the body is delivered byte for
   byte, or refused for being longer, or unreadable.  At the largest the sum wraps
   and nothing is read at all.
   */
  lemma BoundedBody(source: BodySource, limit: int)
    requires 1 <= limit <= MAX_INT64
    ensures limit < MAX_INT64 ==>
              ReadBody(source, limit) == if |source.bytes| > limit then TooLarge
                                         else if source.fails then Unreadable
                                         else Whole(source.bytes)
    ensures limit == MAX_INT64 ==> ReadBody(source, limit) == Whole([])
    ensures ReadBody(source, limit).Whole? ==>
              (ReadBody(source, limit).body == source.bytes <==> limit < MAX_INT64 || source.bytes == [])
  {
  }

  // ---- Choosing the operation and the schema ----

  /** One operation of the OpenAPI document. */
  datatype Route = Route(path: string, verb: string, operationId: string)

  /** Paths of the document with, under each, methods and operation ids. */
  type Document = map<string, map<string, string>>

  ghost predicate Documents(doc: Document, path: string, verb: string, id: string) {
    path in doc && verb in doc[path] && doc[path][verb] == id
  }

  /** Every non-empty operation id leads to one of its operations, under the path without its query. */
  ghost predicate IsRouteIndex(index: map<string, Route>, doc: Document) {
    && (forall id :: id in index ==> exists path :: IndexedAt(index, doc, id, path))
    && (forall path, verb, id :: Documents(doc, path, verb, id) && id != "" ==> id in index)
  }

  ghost predicate IndexedAt(index: map<string, Route>, doc: Document, id: string, path: string)
    requires id in index
  {
    && id != "" && Documents(doc, path, index[id].verb, id)
    && index[id] == Route(Cut(path, '?').0, index[id].verb, id)
  }

  ghost predicate UniqueDocumentIds(doc: Document) {
    forall path, verb, path', verb', id :: id != "" && Documents(doc, path, verb, id) && Documents(doc, path', verb', id) ==>
      path == path' && verb == verb'
  }

  /** With unique ids the index is the same whatever order the document is walked in. */
  lemma RouteIndexIsUnique(doc: Document, a: map<string, Route>, b: map<string, Route>)
    requires IsRouteIndex(a, doc) && IsRouteIndex(b, doc) && UniqueDocumentIds(doc)
    ensures a == b
  {
    SameRoutes(doc, a, b);
    SameRoutes(doc, b, a);
  }

  lemma SameRoutes(doc: Document, a: map<string, Route>, b: map<string, Route>)
    requires IsRouteIndex(a, doc) && IsRouteIndex(b, doc) && UniqueDocumentIds(doc)
    ensures forall id :: id in a ==> id in b && a[id] == b[id]
  {
  }

  method BuildRouteIndex(doc: Document) returns (index: map<string, Route>)
    ensures IsRouteIndex(index, doc)
  {
    index := map[];
    var paths := doc.Keys;
    while paths != {}
      invariant paths <= doc.Keys
      invariant forall id :: id in index ==> exists path :: IndexedAt(index, doc, id, path)
      invariant forall path, verb, id :: Documents(doc, path, verb, id) && id != "" && path !in paths ==> id in index
    {
      var path :| path in paths;
      var verbs := doc[path].Keys;
      while verbs != {}
        invariant verbs <= doc[path].Keys
        invariant forall id :: id in index ==> exists p :: IndexedAt(index, doc, id, p)
        invariant forall p, verb, id ::
                    (Documents(doc, p, verb, id) && id != "" && (p !in paths || (p == path && verb !in verbs))) ==> id in index
      {
        var verb :| verb in verbs;
        var id := doc[path][verb];
        if id != "" {
          ghost var before := index;
          index := index[id := Route(Cut(path, '?').0, verb, id)];
          IndexGrows(before, index, doc, id, path);
        }
        verbs := verbs - {verb};
      }
      paths := paths - {path};
    }
  }

  lemma IndexGrows(before: map<string, Route>, after: map<string, Route>, doc: Document, id: string, path: string)
    requires forall x :: x in before ==> exists p :: IndexedAt(before, doc, x, p)
    requires id in after && after == before[id := after[id]] && IndexedAt(after, doc, id, path)
    ensures forall x :: x in after ==> exists p :: IndexedAt(after, doc, x, p)
  {
    forall x | x in after
      ensures exists p :: IndexedAt(after, doc, x, p)
    {
      if x != id {
        var p :| IndexedAt(before, doc, x, p);
        assert IndexedAt(after, doc, x, p);
      } else {
        assert IndexedAt(after, doc, x, path);
      }
    }
  }

  function ValidationRoute(index: map<string, Route>, matched: Route, operation: Operation): Route {
    if operation.id in index then
      matched.(path := index[operation.id].path, operationId := index[operation.id].operationId)
    else matched
  }

  /** The operation a matched route is served by: selected by its query, else found by the document's id. */
  function Resolve(table: seq<Operation>, at: Lookup, matched: Route): Option<Operation> {
    if Selected(table, at).Some? then Selected(table, at) else ById(table, matched.operationId)
  }

  /** The document describes every operation of the table. */
  ghost predicate Covers(doc: Document, table: seq<Operation>) {
    forall op :: op in table ==> op.id != "" && exists path, verb :: Documents(doc, path, verb, op.id)
  }

  lemma {:induction false} SelectedInTable(table: seq<Operation>, at: Lookup)
    ensures Selected(table, at).Some? ==> Selected(table, at).value in table
  {
    if FirstMet(table, at).Some? {
      FirstMetIn(table, at);
    } else {
      LastPlainIn(table, at);
    }
  }

  lemma {:induction false} LastPlainIn(table: seq<Operation>, at: Lookup)
    ensures LastPlain(table, at).Some? ==> LastPlain(table, at).value in table
  {
    if table != [] {
      LastPlainIn(table[..|table| - 1], at);
      assert forall x :: x in table[..|table| - 1] ==> x in table;
    }
  }

  /**
   The schema a request is validated against is that of the operation it is
   dispatched to, exactly when the document indexes that operation or the matched
   route is its own; a document that covers the table always satisfies this.
   */
  lemma ValidationAgrees(doc: Document, index: map<string, Route>, table: seq<Operation>, at: Lookup, matched: Route)
    requires IsRouteIndex(index, doc) && Resolve(table, at, matched).Some?
    ensures var op := Resolve(table, at, matched).value;
            && (ValidationRoute(index, matched, op).operationId == op.id <==> op.id in index || matched.operationId == op.id)
            && (Covers(doc, table) ==> op.id in index && ValidationRoute(index, matched, op).operationId == op.id)
            && (Selected(table, at).None? ==> ValidationRoute(index, matched, op).operationId == op.id)
            && (op.id !in index ==> ValidationRoute(index, matched, op) == matched)
            && (op.id in index ==> ValidationRoute(index, matched, op).verb == matched.verb)
            && (op.id in index ==>
                  exists path, verb :: Documents(doc, path, verb, op.id) && ValidationRoute(index, matched, op).path == Cut(path, '?').0)
  {
    var op := Resolve(table, at, matched).value;
    SelectedInTable(table, at);
    ByIdMeaning(table, matched.operationId);
    if op.id in index {
      var path :| IndexedAt(index, doc, op.id, path);
      assert Documents(doc, path, index[op.id].verb, op.id);
    }
    if Covers(doc, table) {
      var path, verb :| Documents(doc, path, verb, op.id);
    }
  }

  /**
   Which operation that is: the first of the matched route whose query is met, else the
   last of the route without a query, else the one with the document's id.
   */
  lemma DispatchMeaning(table: seq<Operation>, at: Lookup, matched: Route, i: nat)
    requires i < |table|
    ensures MetVariant(table[i], at) && (forall j :: 0 <= j < i ==> !MetVariant(table[j], at)) ==>
              Resolve(table, at, matched) == Some(table[i])
    ensures PlainEntry(table[i], at) && (forall j :: i < j < |table| ==> !PlainEntry(table[j], at))
              && (forall j :: 0 <= j < |table| ==> !MetVariant(table[j], at)) ==>
              Resolve(table, at, matched) == Some(table[i])
  {
    if MetVariant(table[i], at) && forall j :: 0 <= j < i ==> !MetVariant(table[j], at) {
      FirstMetMeaning(table, at, i);
    } else if PlainEntry(table[i], at) && forall j :: i < j < |table| ==> !PlainEntry(table[j], at) {
      NoneMet(table, at);
      LastPlainMeaning(table, at, i);
    }
  }

  lemma DispatchById(table: seq<Operation>, at: Lookup, matched: Route)
    requires forall op :: op in table ==> !OnRoute(op, at)
    ensures Resolve(table, at, matched).Some? <==> exists op :: op in table && op.id == matched.operationId
    ensures Resolve(table, at, matched).Some? ==> Resolve(table, at, matched).value.id == matched.operationId
  {
    OffRoute(table, at);
    FoundById(table, matched.operationId);
  }

  lemma OffRoute(table: seq<Operation>, at: Lookup)
    requires forall op :: op in table ==> !OnRoute(op, at)
    ensures Selected(table, at) == None
  {
    assert forall i :: 0 <= i < |table| ==> table[i] in table;
    NoneMet(table, at);
    NonePlain(table, at);
  }

  lemma FoundById(table: seq<Operation>, id: string)
    ensures ById(table, id).Some? <==> exists op :: op in table && op.id == id
    ensures ById(table, id).Some? ==> ById(table, id).value.id == id
  {
    ByIdMeaning(table, id);
    if op :| op in table && op.id == id {
      var i :| 0 <= i < |table| && table[i] == op;
    }
  }

  // ---- Parameters ----

  function QueryValue(values: seq<string>): Json {
    if |values| == 1 then Str(values[0]) else Arr(seq(|values|, i requires 0 <= i < |values| => Str(values[i])))
  }

  /** One value is given as itself, any other number as the list of them, in order. */
  lemma QueryValueMeaning(values: seq<string>)
    ensures |values| == 1 ==> QueryValue(values) == Str(values[0])
    ensures |values| != 1 ==>
              && QueryValue(values).Arr? && |QueryValue(values).items| == |values|
              && forall i :: 0 <= i < |values| ==> QueryValue(values).items[i] == Str(values[i])
  {
  }

  /** Path and query parameters in one map; a query key hides a path parameter of the same name. */
  predicate AreParameters(result: map<string, Json>, pathParams: map<string, string>, query: Query) {
    && result.Keys == pathParams.Keys + query.Keys
    && (forall key :: key in query ==> result[key] == QueryValue(query[key]))
    && (forall key :: key in pathParams && key !in query ==> result[key] == Str(pathParams[key]))
  }

  method Parameters(pathParams: map<string, string>, query: Query) returns (result: map<string, Json>)
    ensures AreParameters(result, pathParams, query)
  {
    result := map[];
    var pending := pathParams.Keys;
    while pending != {}
      invariant pending <= pathParams.Keys && result.Keys == pathParams.Keys - pending
      invariant forall key :: key in result ==> result[key] == Str(pathParams[key])
    {
      var key :| key in pending;
      result := result[key := Str(pathParams[key])];
      pending := pending - {key};
    }
    pending := query.Keys;
    while pending != {}
      invariant pending <= query.Keys && result.Keys == pathParams.Keys + (query.Keys - pending)
      invariant forall key :: key in query && key !in pending ==> result[key] == QueryValue(query[key])
      invariant forall key :: key in pathParams && (key !in query || key in pending) ==> result[key] == Str(pathParams[key])
    {
      var key :| key in pending;
      result := result[key := QueryValue(query[key])];
      pending := pending - {key};
    }
  }

  /** A path value survives exactly when the query does not use its name, or gives just that one value. */
  lemma PathValueSurvives(result: map<string, Json>, pathParams: map<string, string>, query: Query, key: string)
    requires AreParameters(result, pathParams, query) && key in pathParams
    ensures result[key] == Str(pathParams[key]) <==> key !in query || query[key] == [pathParams[key]]
  {
    if key in query && |query[key]| == 1 {
      assert query[key] == [query[key][0]];
    }
  }

  // ---- The exchange ----

  datatype Config = Config(maxBodyBytes: int, validate: bool)

  datatype Request = Request(httpMethod: string, query: Query, body: BodySource)

  datatype RouteOutcome = Found(route: Route, pathParams: map<string, string>) | WrongMethod | Unknown

  /** What the backend is called with. */
  datatype Call = Call(backend: Backend, capability: string, operation: string, body: Bytes, parameters: map<string, Json>)

  /** `json` is empty when absent; `body` and `stream` stand for non-nil values with what they deliver. */
  datatype Response = Response(
    status: int,
    mediaIsJson: bool,
    json: Bytes,
    body: Option<Bytes>,
    stream: Option<seq<SseWriter.Turn>>)

  /** An error carries the HTTP status its kind maps to. */
  datatype Answer = Failed(status: int) | Answered(response: Response)

  datatype World = World(
    authenticates: Request -> bool,
    findRoute: (Request, Bytes) -> RouteOutcome,
    parse: string -> Option<Query>,
    acceptsRequest: (Route, Request, Bytes) -> bool,
    handle: Call -> Answer,
    acceptsResponse: (Route, int, Bytes) -> bool,
    canFlush: bool)

  datatype Chunk = ErrorObject | Raw(bytes: Bytes) | Events(text: string)

  function ModeCount(r: Response): nat {
    (if r.json != [] then 1 else 0) + (if r.body.Some? then 1 else 0) + (if r.stream.Some? then 1 else 0)
  }

  function FinalStatus(operation: Operation, r: Response): int {
    if r.status == 0 then operation.successStatus else r.status
  }

  predicate StatusInRange(status: int) {
    100 <= status <= 599
  }

  /** The one path on which a stream is left open. */
  predicate LeaksStream(operation: Operation, r: Response) {
    r.stream.Some? && ModeCount(r) == 1 && !StatusInRange(FinalStatus(operation, r))
  }

  /**
   Generated operations have a success status in range, so a lone stream leaks exactly
   when the backend sets a status itself and sets it out of range; such answers exist.
   */
  lemma LoneStreamLeaks(operation: Operation, r: Response)
    requires StatusInRange(operation.successStatus) && r.stream.Some? && r.json == [] && r.body == None
    ensures LeaksStream(operation, r) <==> r.status != 0 && !StatusInRange(r.status)
    ensures LeaksStream(operation, Response(700, false, [], None, r.stream))
  {
  }

  function LookupOf(world: World, request: Request, route: Route): Lookup {
    Lookup(request.httpMethod, route.path, request.query, world.parse)
  }

  /** What the gates let through. */
  datatype Admission = Admission(operation: Operation, schema: Route, body: Bytes, pathParams: map<string, string>, backend: Backend)

  /** Everything the gates are asked. */
  datatype Gates = Gates(world: World, config: Config, services: Services, table: seq<Operation>, index: map<string, Route>)

  function ResolveFor(g: Gates, request: Request, route: Route): Option<Operation> {
    Resolve(g.table, LookupOf(g.world, request, route), route)
  }

  predicate SchemaAccepts(g: Gates, request: Request, schema: Route, body: Bytes) {
    g.config.validate ==> g.world.acceptsRequest(schema, request, body)
  }

  /** `a` is what passes every gate in front of the backend. */
  predicate Passes(g: Gates, request: Request, a: Admission) {
    && g.world.authenticates(request)
    && ReadBody(request.body, g.config.maxBodyBytes) == Whole(a.body)
    && var outcome := g.world.findRoute(request, a.body);
    && outcome.Found? && a.pathParams == outcome.pathParams
    && ResolveFor(g, request, outcome.route) == Some(a.operation)
    && a.schema == ValidationRoute(g.index, outcome.route, a.operation)
    && SchemaAccepts(g, request, a.schema, a.body)
    && HandlerFor(g.services, a.operation.capability) == Some(a.backend)
  }

  /** The status of the first gate that refuses, or what they let through. */
  datatype Decision = Refuse(status: int) | Allow(admission: Admission)

  function Decide(g: Gates, request: Request): Decision {
    if !g.world.authenticates(request) then Refuse(401)
    else match ReadBody(request.body, g.config.maxBodyBytes)
      case Unreadable => Refuse(400)
      case TooLarge => Refuse(413)
      case Whole(body) =>
        match g.world.findRoute(request, body)
        case WrongMethod => Refuse(405)
        case Unknown => Refuse(404)
        case Found(route, pathParams) => DecideOperation(g, request, body, route, pathParams)
  }

  function DecideOperation(g: Gates, request: Request, body: Bytes, route: Route, pathParams: map<string, string>): Decision {
    match ResolveFor(g, request, route)
    case None => Refuse(501)
    case Some(operation) =>
      var schema := ValidationRoute(g.index, route, operation);
      if !SchemaAccepts(g, request, schema, body) then Refuse(400)
      else match HandlerFor(g.services, operation.capability)
        case None => Refuse(501)
        case Some(backend) => Allow(Admission(operation, schema, body, pathParams, backend))
  }

  /** The decision allows exactly what passes every gate, so at most one thing does. */
  lemma DecisionMeaning(g: Gates, request: Request, a: Admission)
    ensures Decide(g, request) == Allow(a) <==> Passes(g, request, a)
    ensures Decide(g, request).Refuse? ==> Decide(g, request).status in {400, 401, 404, 405, 413, 501}
  {
  }

  /** What a request with a readable body that is not too long gets from the router on. */
  predicate RoutedTo(g: Gates, request: Request, body: Bytes, route: Route) {
    && g.world.authenticates(request) && ReadBody(request.body, g.config.maxBodyBytes) == Whole(body)
    && g.world.findRoute(request, body).Found? && g.world.findRoute(request, body).route == route
  }

  /** Which gate refuses, and with which status. */
  lemma RefusalMeaning(g: Gates, request: Request)
    ensures Decide(g, request) == Refuse(401) <==> !g.world.authenticates(request)
    ensures Decide(g, request) == Refuse(413) <==>
            g.world.authenticates(request) && ReadBody(request.body, g.config.maxBodyBytes) == TooLarge
    ensures Decide(g, request) == Refuse(405) <==>
            g.world.authenticates(request)
            && exists body :: ReadBody(request.body, g.config.maxBodyBytes) == Whole(body) && g.world.findRoute(request, body) == WrongMethod
    ensures Decide(g, request) == Refuse(404) <==>
            g.world.authenticates(request)
            && exists body :: ReadBody(request.body, g.config.maxBodyBytes) == Whole(body) && g.world.findRoute(request, body) == Unknown
    ensures Decide(g, request) == Refuse(400) <==>
            (g.world.authenticates(request) && ReadBody(request.body, g.config.maxBodyBytes) == Unreadable)
            || exists body, route :: RoutedTo(g, request, body, route)
                 && ResolveFor(g, request, route).Some? && g.config.validate
                 && !g.world.acceptsRequest(ValidationRoute(g.index, route, ResolveFor(g, request, route).value), request, body)
    ensures Decide(g, request) == Refuse(501) <==>
            exists body, route :: RoutedTo(g, request, body, route)
              && (ResolveFor(g, request, route) == None
                  || (HandlerFor(g.services, ResolveFor(g, request, route).value.capability) == None
                      && (g.config.validate ==>
                            g.world.acceptsRequest(ValidationRoute(g.index, route, ResolveFor(g, request, route).value), request, body))))
  {
    var read := ReadBody(request.body, g.config.maxBodyBytes);
    if g.world.authenticates(request) && read.Whole? && g.world.findRoute(request, read.body).Found? {
      assert RoutedTo(g, request, read.body, g.world.findRoute(request, read.body).route);
    }
  }

  /** The status sent, and when an answer is ambiguous. */
  lemma AnswerMeaning(operation: Operation, r: Response)
    ensures FinalStatus(operation, r) == (if r.status != 0 then r.status else operation.successStatus)
    ensures ModeCount(r) <= 1 <==>
            !(r.json != [] && r.body.Some?) && !(r.json != [] && r.stream.Some?) && !(r.body.Some? && r.stream.Some?)
    ensures ModeCount(r) == 0 <==> r.json == [] && r.body == None && r.stream == None
  {
  }

  /** The backend is told the admitted operation and capability and gets the whole admitted body and all parameters. */
  predicate Carries(call: Call, a: Admission, request: Request) {
    && call.backend == a.backend && call.capability == a.operation.capability && call.operation == a.operation.id
    && call.body == a.body && AreParameters(call.parameters, a.pathParams, request.query)
  }

  class Exchange {
    var statuses: seq<int>
    var sent: seq<Chunk>
    var calls: seq<Call>
    var validatedAs: seq<string>
    var bodyCloses: nat
    var streamCloses: nat

    constructor ()
      ensures statuses == [] && sent == [] && calls == [] && validatedAs == [] && bodyCloses == 0 && streamCloses == 0
    {
      statuses, sent, calls, validatedAs, bodyCloses, streamCloses := [], [], [], [], 0, 0;
    }

    method WriteError(status: int)
      modifies this`statuses, this`sent
      ensures statuses == old(statuses) + [status] && sent == old(sent) + [ErrorObject]
    {
      statuses, sent := statuses + [status], sent + [ErrorObject];
    }

    /** The writing loop; the deferred close runs on every path. */
    method WriteEvents(canFlush: bool, status: int, turns: seq<SseWriter.Turn>)
      modifies this`statuses, this`sent, this`streamCloses
      ensures streamCloses == old(streamCloses) + 1
      ensures statuses == old(statuses) + [if canFlush then status else 500]
      ensures sent == old(sent) + [if canFlush then Events(SseWriter.Written(turns)) else ErrorObject]
    {
      if !canFlush {
        WriteError(500);
        streamCloses := streamCloses + 1;
        return;
      }
      statuses := statuses + [status];
      var text := SseWriter.WriteTurns(turns);
      sent := sent + [Events(text)];
      streamCloses := streamCloses + 1;
    }

    /** Everything after the backend has answered without an error. */
    method Respond(world: World, config: Config, operation: Operation, route: Route, response: Response)
      modifies this`statuses, this`sent, this`bodyCloses, this`streamCloses
      ensures |statuses| == |old(statuses)| + 1 && old(statuses) <= statuses
      ensures bodyCloses == old(bodyCloses) + (if response.body.Some? then 1 else 0)
      ensures streamCloses == old(streamCloses) +
                (if response.stream.Some? && !LeaksStream(operation, response) then 1 else 0)
      ensures ModeCount(response) > 1 || !StatusInRange(FinalStatus(operation, response)) ==>
                statuses[|statuses| - 1] == 500 && sent == old(sent) + [ErrorObject]
      ensures ModeCount(response) <= 1 && StatusInRange(FinalStatus(operation, response)) ==>
                && (response.stream.Some? && world.canFlush ==>
                      statuses[|statuses| - 1] == FinalStatus(operation, response)
                      && sent == old(sent) + [Events(SseWriter.Written(response.stream.value))])
                && (response.body.Some? ==>
                      statuses[|statuses| - 1] == FinalStatus(operation, response)
                      && sent == old(sent) + [Raw(response.body.value)])
                && (response.stream.Some? && !world.canFlush ==>
                      statuses[|statuses| - 1] == 500 && sent == old(sent) + [ErrorObject])
                && (response.json != [] ==>
                      var status := FinalStatus(operation, response);
                      if config.validate && response.mediaIsJson && !world.acceptsResponse(route, status, response.json) then
                        statuses[|statuses| - 1] == 500 && sent == old(sent) + [ErrorObject]
                      else statuses[|statuses| - 1] == status && sent == old(sent) + [Raw(response.json)])
                && (ModeCount(response) == 0 ==>
                      statuses[|statuses| - 1] == FinalStatus(operation, response) && sent == old(sent))
    {
      if ModeCount(response) > 1 {
        if response.stream.Some? {
          streamCloses := streamCloses + 1;
        }
        WriteError(500);
        CloseBody(response);
        return;
      }
      var status := FinalStatus(operation, response);
      if status < 100 || status > 599 {
        WriteError(500);
        CloseBody(response);
        return;
      }
      if response.stream.Some? {
        WriteEvents(world.canFlush, status, response.stream.value);
        CloseBody(response);
        return;
      }
      if response.body.Some? {
        statuses, sent := statuses + [status], sent + [Raw(response.body.value)];
        CloseBody(response);
        return;
      }
      if config.validate && response.json != [] && response.mediaIsJson && !world.acceptsResponse(route, status, response.json) {
        WriteError(500);
        CloseBody(response);
        return;
      }
      statuses := statuses + [status];
      if response.json != [] {
        sent := sent + [Raw(response.json)];
      }
      CloseBody(response);
    }

    /** The deferred close of the response body. */
    method CloseBody(response: Response)
      modifies this`bodyCloses
      ensures bodyCloses == old(bodyCloses) + (if response.body.Some? then 1 else 0)
    {
      if response.body.Some? {
        bodyCloses := bodyCloses + 1;
      }
    }

    method FindOperation(g: Gates, profile: Profile, request: Request, route: Route) returns (found: Option<Operation>)
      requires profile.Valid() && profile.operations == g.table
      modifies profile
      ensures profile.Valid() && found == ResolveFor(g, request, route)
    {
      found := OperationForRoute(g.table, LookupOf(g.world, request, route));
      if found.None? {
        found := profile.OperationByID(route.operationId);
      }
    }

    /** The gates behind the router. */
    method AdmitOperation(g: Gates, profile: Profile, request: Request, body: Bytes, route: Route, pathParams: map<string, string>)
      returns (decision: Decision)
      requires profile.Valid() && profile.operations == g.table
      modifies this`validatedAs, profile
      ensures profile.Valid() && decision == DecideOperation(g, request, body, route, pathParams)
      ensures decision.Allow? ==>
                validatedAs == old(validatedAs) + (if g.config.validate then [decision.admission.schema.operationId] else [])
    {
      var operation := FindOperation(g, profile, request, route);
      if operation.None? {
        return Refuse(501);
      }
      var schema := ValidationRoute(g.index, route, operation.value);
      if g.config.validate {
        validatedAs := validatedAs + [schema.operationId];
        if !g.world.acceptsRequest(schema, request, body) {
          return Refuse(400);
        }
      }
      var handler := HandlerFor(g.services, operation.value.capability);
      if handler.None? {
        return Refuse(501);
      }
      return Allow(Admission(operation.value, schema, body, pathParams, handler.value));
    }

    /** The gates, in the order they are tried; each refusal is one status. */
    method Admit(g: Gates, profile: Profile, request: Request) returns (decision: Decision)
      requires profile.Valid() && profile.operations == g.table
      modifies this`validatedAs, profile
      ensures profile.Valid() && decision == Decide(g, request)
      ensures decision.Allow? ==>
                validatedAs == old(validatedAs) + (if g.config.validate then [decision.admission.schema.operationId] else [])
    {
      if !g.world.authenticates(request) {
        return Refuse(401);
      }
      var read := ReadLimited(request.body, LimitPlusOne(g.config.maxBodyBytes));
      if read.None? {
        return Refuse(400);
      }
      var body := read.value;
      if |body| > g.config.maxBodyBytes {
        return Refuse(413);
      }
      var outcome := g.world.findRoute(request, body);
      if !outcome.Found? {
        return Refuse(if outcome.WrongMethod? then 405 else 404);
      }
      decision := AdmitOperation(g, profile, request, body, outcome.route, outcome.pathParams);
    }

    /**
     Every path writes exactly one status.  The backend is called at most once, and
     exactly when every gate passes, with the body the bound let through and the
     operation its schema was looked up for; whatever it answers without an error is
     released, except a lone stream with an invalid status.
     */
    method ServeHTTP(g: Gates, profile: Profile, request: Request) returns (decision: Decision)
      requires profile.Valid() && profile.operations == g.table
      modifies this, profile
      ensures profile.Valid()
      ensures |statuses| == |old(statuses)| + 1 && old(statuses) <= statuses
      ensures forall a :: decision == Allow(a) <==> Passes(g, request, a)
      ensures decision.Refuse? ==>
                && decision == Decide(g, request)
                && calls == old(calls) && bodyCloses == old(bodyCloses) && streamCloses == old(streamCloses)
                && statuses == old(statuses) + [decision.status] && sent == old(sent) + [ErrorObject]
      ensures decision.Allow? ==>
                && |calls| == |old(calls)| + 1 && old(calls) <= calls
                && Carries(calls[|calls| - 1], decision.admission, request)
                && validatedAs == old(validatedAs) + (if g.config.validate then [decision.admission.schema.operationId] else [])
      ensures decision.Allow? && g.world.handle(calls[|calls| - 1]).Failed? ==>
                && statuses == old(statuses) + [g.world.handle(calls[|calls| - 1]).status]
                && bodyCloses == old(bodyCloses) && streamCloses == old(streamCloses)
      ensures decision.Allow? && g.world.handle(calls[|calls| - 1]).Answered? ==>
                var response := g.world.handle(calls[|calls| - 1]).response;
                && bodyCloses == old(bodyCloses) + (if response.body.Some? then 1 else 0)
                && streamCloses == old(streamCloses) +
                     (if response.stream.Some? && !LeaksStream(decision.admission.operation, response) then 1 else 0)
    {
      decision := Admit(g, profile, request);
      forall a
        ensures decision == Allow(a) <==> Passes(g, request, a)
      {
        DecisionMeaning(g, request, a);
      }
      if decision.Refuse? {
        WriteError(decision.status);
        return;
      }
      var admission := decision.admission;
      var parameters := Parameters(admission.pathParams, request.query);
      var operation := admission.operation;
      var call := Call(admission.backend, operation.capability, operation.id, admission.body, parameters);
      calls := calls + [call];
      var answer := g.world.handle(call);
      if answer.Failed? {
        WriteError(answer.status);
        return;
      }
      Respond(g.world, g.config, operation, admission.schema, answer.response);
    }
  }

  /**
   What a served request can rely on, for every limit from 1 to 2^63 - 2: whatever
   passes the gates is authenticated, carries the entire request body, and is
   dispatched to the operation whose schema it was checked against, if the document
   covers the table; and a longer body is refused with 413, never delivered.
   */
  lemma AdmittedIsWhole(g: Gates, doc: Document, request: Request)
    requires 1 <= g.config.maxBodyBytes < MAX_INT64
    requires IsRouteIndex(g.index, doc) && Covers(doc, g.table)
    ensures forall a :: Passes(g, request, a) ==>
              && g.world.authenticates(request)
              && a.body == request.body.bytes && |a.body| <= g.config.maxBodyBytes && !request.body.fails
              && a.schema.operationId == a.operation.id
              && (g.config.validate ==> g.world.acceptsRequest(a.schema, request, a.body))
              && a.operation in g.table
    ensures g.world.authenticates(request) ==>
              (Decide(g, request) == Refuse(413) <==> |request.body.bytes| > g.config.maxBodyBytes)
  {
    BoundedBody(request.body, g.config.maxBodyBytes);
    forall a | Passes(g, request, a)
      ensures a.schema.operationId == a.operation.id && a.operation in g.table
    {
      var route := g.world.findRoute(request, a.body).route;
      ValidationAgrees(doc, g.index, g.table, LookupOf(g.world, request, route), route);
      SelectedInTable(g.table, LookupOf(g.world, request, route));
      ByIdMeaning(g.table, route.operationId);
    }
  }
}
