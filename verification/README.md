# ai-server-shell: models and proofs

The repository is a Go server shell. It speaks the wire protocol of an AI service over REST, server-sent events
and WebSocket, and leaves the actual work to backends that an application registers. This project models the parts
of the shell in which something can go subtly wrong and proves what those parts promise. Values are Dafny
datatypes; code that works on fields or arrays is a class or a method, proved against a function of its inputs;
code that interleaves is a transition system with one step per critical section or channel operation.

| file | subject |
|---|---|
| `SessionRegistry.dfy` | the mutex-protected table of WebSocket sessions: register, unregister, the start of a shutdown |
| `SessionProtocol.dfy` | connection handlers, their read and write loops and any number of Shutdown calls, interleaved |
| `SessionPaths.dfy` | the course of one connection handler, its reply and whose result closes it, read off the actions of a run |
| `AggregateShutdown.dfy` | the server's Shutdown over all mounted handlers while they keep running |
| `Json.dfy` | decoded JSON values |
| `RouterSchemas.dfy` | the rewrite of the frozen OpenAPI document for the router |
| `RewriteMeaning.dfy` | what the rewrite of one object computes, member by member, in terms of JSON |
| `SchemaMeaning.dfy` | a JSON Schema evaluator, and the proof that the rewrite preserves meaning |
| `SchemaLimits.dfy` | exactly where it does not |
| `SecondPass.dfy` | exactly when a second pass of the rewrite changes nothing |
| `EventStream.dfy` | the event stream parser of sections 9.2.5 and 9.2.6 of the WHATWG HTML Living Standard |
| `SseWriter.dfy` | the writer of server-sent events, and its round trip through that parser |
| `EventCodec.dfy` | decoding and encoding of WebSocket events, and their round trip |
| `EventPipeline.dfy` | the bounded two-channel session and the write loop, end to end |
| `Ordering.dfy` | string order, sorting, and why a sort erases the order things were collected in |
| `Generator.dfy` | the generator of the operation and event tables, and its evidence checks |
| `OperationTable.dfy` | the generated tables at run time: lazily filled indexes and route selection |
| `BackendServices.dfy` | the backend registry built from options |
| `RestPipeline.dfy` | the REST handler: its gates, the backend call, and the handling of the response |

## What the proofs rest on

* **Sessions.** A call that takes the handler's context (authentication, `OpenSession`, `Accept`, a loop's read, write or
  wait) may return at any moment with any outcome, and is only assumed to return once that context is cancelled: a loop
  whose context is cancelled ends, an idle one may never. `session.Close` returns, the timer fires, and a mounted
  foreign Shutdown returns. Statements that Shutdown returns are about runs whose scheduler, while some such step of
  its own is possible, eventually takes one. "Drained" means that handlers have returned and sessions are closed. A
  loop that outlives the timer may still be running, and only a nil return of Shutdown says anything, because a call
  whose context has expired may return an error although everything has drained. Sessions are told apart by 64-bit
  ids, so the statements about tables of sessions hold while fewer than 2^64 registrations have happened.
* **Schemas.** The frozen document mixes two spellings of exclusive bounds and of null. `SourceReading` is how such a
  document is meant; `RouterReading` is what the validator behind the router understands, which ignores the other
  spelling. The rewrite has a native mode (3.1 validators) and a legacy mode (3.0 validators). Every keyword the
  rewrite does not touch is an arbitrary predicate of its value and the instance. `Suits` is the condition on a
  schema: a decidable walk over the document. A `$ref` is followed at most `depth` times, and the theorem holds for
  every depth.
* **Pipelines.** Authentication, the router, query parsing, the validators and the backend are arbitrary functions.

## Where the code and its documentation part

* `openai/internal/profile/profile.go:85` promises a semantically equivalent document. It is one for every suitable
  schema (`MeaningPreserved`). `SchemaLimits.dfy` takes six families of schemas, each isolating one condition of
  `Suits`, and shows that within each the rewrite preserves meaning exactly when the condition holds: values of a
  keyword the rewrite does not know, and values under `enum`, that look like schemas the rewrite would change; in
  legacy mode, an enum with non-null values beside the type null; in legacy mode, numeric exclusive bounds; in legacy
  mode, a nullable branch of a union whose common type is promoted; in native mode, a forbidden property named
  `exclusiveMinimum` or `exclusiveMaximum`. The rest of `Suits` only asks that keywords have the shape JSON Schema
  gives them, and that no named schema that forbids everything is dropped for its name.
* The rewrite is one pre-order pass and not idempotent (`SecondPassCanPromote`). A second pass changes nothing exactly
  when no untyped union has branches that come to share a type by their own rewrite (`SecondPassExactly`).
* `docs/backend-contract.md:9-10` says the shell closes bodies and streams after serving them. A response that has
  only a stream and carries a status outside 100 to 599 leaves the stream open (`LoneStreamLeaks`); every other body and
  stream is closed exactly once.
* `docs/backend-contract.md:14-15` says path and query values are both preserved. A path value
  survives exactly when the query does not use its name or gives just that value (`PathValueSurvives`).
* At the largest 64-bit body limit, limit+1 wraps and every body is delivered as empty (`BoundedBody`).
* Session ids repeat after 2^64 registrations, and a repeated id that is still active silently replaces the older
  session (`IdsRepeatExactly`, `RegisterKeepsOthers`).
* Encoding an event whose payload is JSON null panics, exactly if its type is not blank (`PanicsExactly`). The write
  loop runs on its own goroutine, so the process ends exactly when it handles such an event (`CrashExactly`).
* Two spellings of one member name can break the event codec: encoding is refused, or an id that decoding overruled
  comes back (`CodecCanFail`; `CodecRoundTrip` is the exact condition).
* Two method keys of one path that differ only in case make the generated listing depend on iteration order, unless
  their descriptions are equal (`ListingUniqueExactly`).
* The joined key of an event is exact only for surfaces and directions without NUL (`KeysAgreeExactly`), which is all
  the handler asks for.
* Server-sent data with a CR that neither precedes LF nor ends the data breaks its frame, and a NUL makes a reader
  ignore an id (`RoundTrip` is an equivalence).
* A variant of a route asks for the last value of a query key but looks at the first one of the request, so a variant
  that repeats a key with different values does not find itself (`EntryFindsItself`).

## Main results

* Sessions: `HandlersFollowTheSource`, `NoLostWakeup`, `SessionsReleasedOnce`, `ShutdownReachesEveryone`, `ShutdownCompletes`,
  `EveryShutdownReturns`, and over the whole server `AggregateShutdownDrainsEverything` and `ServerShutdownFinishes`.
* Schemas: `MeaningPreserved` with the exactness lemmas of `SchemaLimits.dfy`, `NormalizeRouterSchemas` for every order
  of members, `SecondPassExactly`.
* Events: `RoundTrip` and `ReaderSeesPrefix` for server-sent events, `CodecRoundTrip`, `PipelineOrder`,
  `FramesAreComplete` and `CrashExactly` for WebSocket events.
* Tables: `ListingUniqueExactly`, `EventListingIsUnique`, `ValidatedIndexes`, `SelectionMeaning`, `KeysAgreeExactly`.
* Requests: `ServeHTTP`, `AdmittedIsWhole`, `ValidationAgrees`, and for the registry `NewServices` and
  `OrderDoesNotMatter`.

Rows below that begin with "helper" state a fact close to one definition, which the main results build on.

## Model

| member | source | states |
|---|---|---|
| SessionRegistry.AlwaysConsistent | openai/internal/websocket/handler.go:124-157 | after any sequence of critical sections the completion channel is closed exactly when shutdown has begun and no session is active, and never twice |
| SessionRegistry.DrainedForever | openai/internal/websocket/handler.go:124-157 | once drained, no sequence of register, unregister and shutdown sections changes anything |
| SessionRegistry.RegisterKeepsOthers | openai/internal/websocket/handler.go:130-132 | helper: registering loses no other session exactly when the wrapped counter does not land on an id in use |
| SessionRegistry.IdsRepeatExactly | openai/internal/websocket/handler.go:130-133 | two registrations get the same id exactly when a multiple of 2^64 registrations separates them |
| SessionRegistry.Handler.Register | openai/internal/websocket/handler.go:124-134 | the field updates refine the registry's register function and keep no-lost-wakeup |
| SessionRegistry.Handler.Unregister | openai/internal/websocket/handler.go:136-143 | the field updates refine the registry's unregister function and keep no-lost-wakeup |
| SessionRegistry.Handler.BeginShutdown | openai/internal/websocket/handler.go:147-157 | the critical section refines the shutdown function and snapshots one cancel per active session, in any map order |
| SessionProtocol.StepKeepsInv | openai/internal/websocket/handler.go:39-167 | the protocol's invariant (handler control state, table, ids, shutdown calls) survives every step of every thread |
| SessionProtocol.NoLostWakeup | openai/internal/websocket/handler.go:124-167 | in every reachable state the channel is closed exactly when shutting down with nothing active, at most once, and that state is never left |
| SessionProtocol.SessionsReleasedOnce | openai/internal/websocket/handler.go:45-122 | in every run: each opened session is closed at most once and before its id leaves the table; the connection gets one close, with the first result's reason; a loop can always send its result |
| SessionPaths.HandlersFollowTheSource | openai/internal/websocket/handler.go:39-122 | in every run, a handler's moves are the beginning of one of the source's ways, all of it once returned; it gives at most one reply, which is that way's (401, 501, 500, Accept's own, or the upgrade) or 503 when refused; its loops run exactly if OpenSession returned a session without an error and the upgrade was then accepted |
| SessionPaths.HandlersGoOn | openai/internal/websocket/handler.go:39-122 | a registered handler can always make exactly the moves some way has next; receiving a result needs one in the channel |
| SessionPaths.RefusedWhenShuttingDown | openai/internal/websocket/handler.go:124-134 | a handler is refused exactly if it tried to register after shutdown began, and registered exactly if it tried before |
| SessionPaths.FirstResultCloses | openai/internal/websocket/handler.go:112-117 | a closed connection was closed with the reason of the loop whose result was sent first |
| SessionProtocol.CloseReason | openai/internal/websocket/handler.go:279-299 | 1000 OK for a clean end or a cancellation and nothing else; 1008 with the violated rule's message, whole or its first 120 bytes; a peer's own status as "peer closed"; 1011 for a failure |
| SessionProtocol.ShutdownReachesEveryone | openai/internal/websocket/handler.go:145-167 | after a call's critical section nobody registers, the active sessions are among those it snapshotted, all of those are cancelled before it waits, and nil means every registered handler has released and returned |
| SessionProtocol.CanAlwaysDrain | openai/internal/websocket/handler.go:39-167 | from every reachable state with a Shutdown call, some run made only of the handlers' and the call's own steps, in which loops end only once cancelled, drains the table and releases every waiting call |
| SessionProtocol.IdleWaits | openai/internal/websocket/handler.go:182-225 | helper: an idle session nobody has cancelled has no step of its own, so completion rests on the cancels |
| SessionProtocol.ShutdownCompletes | openai/internal/websocket/handler.go:145-167 | from a call's critical section on, the handlers' and the call's steps are bounded, whoever still arrives; where neither has a step of its own left, everything is drained and every waiting call can return nil |
| SessionProtocol.AtRestMeansDrained | openai/internal/websocket/handler.go:145-167 | in every reachable shutting-down state without a step of the handlers' or calls' own, everything is drained and every waiting call can return nil |
| SessionProtocol.EveryShutdownReturns | openai/internal/websocket/handler.go:145-167 | in every infinite run fair to the handlers and the call, a Shutdown call returns, with idle sessions, arriving clients and other calls around |
| SessionProtocol.ErrorMeansExpired | openai/internal/websocket/handler.go:161-166 | a call returns an error only if its context expired |
| SessionProtocol.ShutdownBoundsWork | openai/internal/websocket/handler.go:39-167 | in every run each handler step uses up some of that work and no other step adds to it |
| AggregateShutdown.AggregateShutdownDrainsEverything | server.go:119-129 | every mounted shutdowner is called whatever the others return; nil means all mounted session handlers are drained together, then and ever after |
| AggregateShutdown.EventKeepsInv | server.go:119-129 | a collected nil keeps meaning drained while handlers, other callers and the loop over mounts take steps |
| AggregateShutdown.NilMeansNoError | server.go:119-129 | a finished Shutdown returns nil exactly if no foreign shutdowner failed and every call on a session handler returned nil |
| AggregateShutdown.MountsInTurn | server.go:119-129 | mounts are gone through in order: skipped, called, or called and collected, each once |
| AggregateShutdown.ShutdownNeverStuck | server.go:119-129 | in every run, an unfinished server Shutdown, or the handler it waits for, has a step of its own to take; no peer has to act and no context to expire |
| AggregateShutdown.ServerMoveProgresses | server.go:119-129 | helper: every step of the server's Shutdown brings it closer to its end, and no other event touches it |
| AggregateShutdown.EventProgresses | server.go:119-129 | what is left, counting the work of the handler waited for, falls in a well-founded order with each such step and never rises |
| AggregateShutdown.ServerShutdownFinishes | server.go:119-129 | in every infinite execution fair to it, the server's Shutdown calls every mount and returns |
| RouterSchemas.RequiredFilterMeaning | openai/internal/profile/profile.go:108-124 | the filter is the first-occurrence dedupe of strings: same values, no string twice, other values in order, first occurrences in order |
| RouterSchemas.FilterRequired | openai/internal/profile/profile.go:108-124 | filtering inside the array's own cells computes that dedupe and leaves the cells past the result alone |
| RouterSchemas.AgreedMeaning | openai/internal/profile/profile.go:169-191 | a type is promoted exactly when every branch names a non-null type and, past leading empty names, all name that one |
| RouterSchemas.CommonTypeMeaning | openai/internal/profile/profile.go:169-191 | in terms of JSON: a non-empty union has the common type exactly when every branch is an object whose type is a string, not null, and past leading empty names all are that one; whatever else branches hold |
| RouterSchemas.FindCommonAnyOfType | openai/internal/profile/profile.go:169-191 | the loop with early exits finds that type, or none |
| RouterSchemas.RewrittenMembersLighter | openai/internal/profile/profile.go:105-166 | the walk, which also enters members it has just inserted, terminates |
| RouterSchemas.RewriteInPlace | openai/internal/profile/profile.go:105-158 | the guarded in-place updates of one object compute the object rewrite |
| RouterSchemas.NormalizeRouterSchemas | openai/internal/profile/profile.go:105-167 | the recursive in-place walk gives the same document for every order of members |
| RewriteMeaning.TypeComputed | openai/internal/profile/profile.go:141-158 | an object keeps its type unless that is a null to be spelled out; any other gets the type its union shares, and none if there is none |
| RewriteMeaning.UnionOfOneType | openai/internal/profile/profile.go:148-158 | an untyped union all of whose branches have one non-null type gets that type, enums and all |
| RewriteMeaning.NullComputed | openai/internal/profile/profile.go:141-147 | spelling out null sets nullable and leaves a given enum or adds [null]; otherwise both members are only visited |
| RewriteMeaning.BoundsComputed | openai/internal/profile/profile.go:125-140 | in native mode a false bound goes and a true one takes over its partner's number; nothing else happens to bounds |
| RewriteMeaning.RequiredComputed | openai/internal/profile/profile.go:108-124 | a list of names loses its repeats |
| RewriteMeaning.OthersComputed | openai/internal/profile/profile.go:105-167 | no other member is added, dropped or touched before it is visited |
| SchemaMeaning.InertUnchanged | openai/internal/profile/profile.go:105-167 | data that trips none of the rewrite's guards comes out unchanged |
| SchemaMeaning.UnchangedInert | openai/internal/profile/profile.go:105-167 | data that comes out unchanged trips none of the guards |
| SchemaMeaning.BoundsKept | openai/internal/profile/profile.go:125-140 | boolean exclusive bounds and the numeric ones that replace them exclude the same numbers |
| SchemaMeaning.TypeAndEnumKept | openai/internal/profile/profile.go:141-158 | spelling null as nullable with enum [null], and promoting the common type of a satisfied union, changes nothing |
| SchemaMeaning.RequiredKept | openai/internal/profile/profile.go:108-124 | deduplicated names require the same members |
| SchemaMeaning.MeaningPreserved | openai/internal/profile/profile.go:85-167 | for every suitable schema, reference context and JSON value, the rewritten schema accepts the value exactly when the source schema does |
| SecondPass.SettledIsInert | openai/internal/profile/profile.go:105-166 | a rewritten document trips none of the guards exactly when no untyped union's branches share a type after their own rewrite |
| SecondPass.SecondPassExactly | openai/internal/profile/profile.go:105-166 | a second pass changes nothing exactly under that condition, which a walk over the document decides |
| SecondPass.SecondPassCanPromote | openai/internal/profile/profile.go:148-166 | a witness: a document that breaks the condition and that a second pass changes |
| SchemaLimits.AssertionDataExactly | openai/internal/profile/profile.go:159-166 | the value of a keyword the rewrite does not know survives under every meaning of the keyword exactly when it trips none of the guards |
| SchemaLimits.EnumDataExactly | openai/internal/profile/profile.go:159-166 | an enum value survives exactly when it trips none of the guards |
| SchemaLimits.NullEnumExactly | openai/internal/profile/profile.go:141-147 | with legacy spelling, an enum beside the type null survives exactly when it lists only null |
| SchemaLimits.NumericBoundExactly | openai/internal/profile/profile.go:125-140 | a numeric exclusive bound, lower or upper, survives exactly in native mode |
| SchemaLimits.NullableBranchExactly | openai/internal/profile/profile.go:148-158 | with legacy spelling, a promoted union of any number of branches survives exactly when none of them is nullable |
| SchemaLimits.ForbiddenPropertyExactly | openai/internal/profile/profile.go:125-140 | a forbidden property survives exactly unless native mode takes its name for a boolean bound |
| EventStream.CutStream | openai/internal/rest/stream.go:50-52 | a stream cut anywhere reads as a prefix of what the whole reads as |
| EventStream.StaysClean | openai/internal/rest/stream.go:28-60 | whatever is fed, a reader never sees CR in data or NUL in an id |
| SseWriter.RoundTrip | openai/internal/rest/stream.go:27-60 | parsing the concatenated frames yields one message per event, in order, with sanitised type, sticky id and data less line-ending CRs, exactly when no id holds NUL and no data holds another CR |
| SseWriter.OrdinaryEventsArrive | openai/internal/rest/stream.go:27-60 | for one-line types and ids without NUL and data without CR, the reader receives the events' own types, data and ids, the last id sticking; without data, an object naming the type |
| SseWriter.SanitizeExactly | openai/internal/rest/stream.go:58-60 | exactly CR and LF are removed and the rest keeps its order |
| SseWriter.TypeObjectNamesType | openai/internal/rest/stream.go:43-45 | the object sent for an event without data reads back, by section 7 of RFC 8259, as naming the event's type |
| SseWriter.OrdinaryFrame | openai/internal/rest/stream.go:36-49 | the lines written for an event with one line of data |
| SseWriter.TakenMeaning | openai/internal/rest/stream.go:28-54 | every event up to the end, the cancellation or the first failed flush is taken |
| SseWriter.WriteTurns | openai/internal/rest/stream.go:27-56 | the select loop writes the frames of the events taken, up to the end, cancellation or a failed flush |
| SseWriter.ReaderSeesPrefix | openai/internal/rest/stream.go:27-56 | however the loop ends, the reader has received an initial part of the events taken, in order, and all of them if no write failed |
| EventCodec.CodecRoundTrip | openai/internal/websocket/handler.go:238-271 | a decoded event, encoded with its keys in byte order, decodes back to its type and id exactly when its exact type member, if a string, is the decoded type, and its id is non-empty or every non-empty spelling of the id is followed in byte order by an empty one; one spelling of each suffices |
| EventCodec.AgreeingSurvives | openai/internal/websocket/handler.go:238-271 | if all spellings agree the event survives every order of the encoded members |
| EventCodec.CodecCanFail | openai/internal/websocket/handler.go:238-271 | helper: witnesses for both ways to fail |
| EventCodec.LayoutWrites | openai/internal/websocket/handler.go:270 | helper: the encoder's layout has each member of the map once |
| EventCodec.DecodingExactly | openai/internal/websocket/handler.go:238-250 | decoding succeeds exactly on an object whose last type and id strings are the event's, the type not blank and no spelling holding anything but strings and null, and keeps the text |
| EventCodec.EncodingExactly | openai/internal/websocket/handler.go:252-271 | when encoding is refused, what an event without data becomes, and which members an encoded object has |
| EventCodec.CollapsedLast | openai/internal/websocket/handler.go:259-262 | helper: of members with one name the last counts |
| EventCodec.FoldsMeaning | openai/internal/websocket/handler.go:239-242 | helper: a key names a field in any mix of ASCII capitals and small letters |
| EventCodec.PanicsExactly | openai/internal/websocket/handler.go:252-271 | helper: encoding panics exactly for a null payload under a type that is not blank |
| EventCodec.EncodingKeepsMembers | openai/internal/websocket/handler.go:252-271 | helper: encoding keeps every other member's value and succeeds only if the payload names no other type |
| EventCodec.BackendEventArrives | openai/internal/websocket/handler.go:252-271 | a peer decodes a backend event's own type and id from any layout of its frame |
| EventPipeline.StepKeepsInv | internal/testutil/fake_session.go:60-92 | accepted events are, in order, those taken, buffered, in hand and queued, after every step of sender, goroutine, Close and write loop |
| EventPipeline.PipelineOrder | internal/testutil/fake_session.go:14-92 | what the write loop takes is a prefix of what was accepted, at most 17 behind; realtime starts with session.created; frames encode a prefix; each channel is closed at most once and never sent to after |
| EventPipeline.Accounts | internal/testutil/fake_session.go:60-92 | accepted events are those sent, in order; every take, put and receive moves one event on; Close and quitting have happened exactly if their actions have |
| EventPipeline.FramesAreComplete | openai/internal/websocket/handler.go:204-225 | every event received has its frame, except perhaps the last, which is being handled, not allowed, not encodable, fatal, or whose write failed; the stream's end and the context's leave none out |
| EventPipeline.LoopStaysAlive | openai/internal/websocket/handler.go:204-225 | while no write fails and nothing is closed or cancelled, sendable events keep the loop alive and all it has handled is framed |
| EventPipeline.CanDeliverAll | internal/testutil/fake_session.go:71-85 | while the session is open and the loop alive, steps of the goroutine and the loop can deliver every accepted event, and then the queue has room |
| EventPipeline.CrashExactly | openai/internal/websocket/handler.go:204-225 | in every run the process is crashed exactly when an allowed event with a null payload has been received and handled; it is the last one received, no frame follows it and no step either |
| EventPipeline.HistoryGrows | openai/internal/websocket/handler.go:204-225 | accepted events, taken events and written frames are only ever extended |
| EventPipeline.CloseUnblocks | internal/testutil/fake_session.go:60-92 | after Close, in a process that has not crashed, a send can be refused, the goroutine can quit with full channels, and then a receiver is never blocked |
| OperationTable.OperationForRoute | openai/internal/profile/profile.go:207-235 | the scan with a fallback returns the selected entry |
| OperationTable.SelectionMeaning | openai/internal/profile/profile.go:207-235 | the selection is the first entry of the route whose query is met, else the last without a query, else nothing |
| OperationTable.MetMeaning | openai/internal/profile/profile.go:221-231 | a required query is met exactly when for each key the request's first value is the last required one, a missing value counting as empty |
| OperationTable.UnansweredVariant | openai/internal/profile/profile.go:207-235 | a variant with a key the request does not answer is never selected |
| OperationTable.PlainRequest | openai/internal/profile/profile.go:207-235 | a request without a query gets the plain entry of its route whenever each variant asks for something |
| OperationTable.RouteMeaning | openai/internal/profile/profile.go:210-214 | an entry is on a route exactly when its path is the route's, with or without a query after it |
| OperationTable.OwnQuery | openai/internal/profile/profile.go:221-231 | helper: a variant is met by its own query exactly when each key's first and last values coincide |
| OperationTable.EntryFindsItself | openai/internal/profile/profile.go:207-235 | asked for by its own method, path and query, an entry is selected exactly when it is plain or its query meets itself, if no other entry competes |
| OperationTable.SelectionIgnoresOrder | openai/internal/profile/profile.go:207-235 | permuting the table changes nothing when at most one variant is met and at most one entry is plain |
| OperationTable.ByIdMeaning | openai/internal/profile/profile.go:194-203 | the index finds an id exactly when the table has it, and then its last entry |
| OperationTable.IndexIsScan | openai/internal/profile/profile.go:194-203 | with distinct ids the last-wins index equals a linear search |
| OperationTable.EventKeyInjective | openai/internal/profile/profile.go:75-83 | the joined key tells triples apart for every event type if surfaces and directions hold no NUL |
| OperationTable.KeysAgreeExactly | openai/internal/profile/profile.go:75-83 | the joined key agrees with triple membership for every NUL-free table and every event type exactly when the surface and direction asked for hold no NUL |
| OperationTable.KeyMembership | openai/internal/profile/profile.go:75-83 | membership of the joined key is membership of the triple |
| OperationTable.Profile.OperationByID | openai/internal/profile/profile.go:194-203 | the lazily filled index answers like the table, on the first and every later call |
| OperationTable.Profile.EventAllowed | openai/internal/profile/profile.go:75-83 | the lazily filled key set answers triple membership |
| OperationTable.Profile.SurfaceAllows | openai/internal/websocket/handler.go:227-236 | a WebSocket surface accepts exactly its own events, realtime also those of the translation protocol |
| Ordering.SortedIsUnique | internal/cmd/openai-gen/main.go:242-247 | two sorted arrangements of the same elements are equal if nothing ties |
| Ordering.StringLeqMeaning | internal/cmd/openai-gen/main.go:229-247 | strings are ordered by prefix, or by the smaller character at the first difference |
| Ordering.SumIgnoresOrder | internal/cmd/openai-gen/main.go:198-241 | what is collected over the keys of a map does not depend on their order |
| Generator.SortedKeys | internal/cmd/openai-gen/main.go:219-229 | collecting a map's keys in any order and sorting gives one sequence |
| Generator.ResponseMedia | internal/cmd/openai-gen/main.go:224-230 | the response media are the sorted set over all responses, in any map order |
| Generator.SuccessStatus | internal/cmd/openai-gen/main.go:299-311 | the least numeric code in 200 to 299, in any map order, else 200 |
| Generator.OperationTransports | internal/cmd/openai-gen/main.go:257-284 | transports are the first occurrences of the evidence |
| Generator.DistinctMeaning | internal/cmd/openai-gen/main.go:257-284 | no repeats, the same values, in order of first occurrence |
| Generator.PathTransportsMeaning | internal/cmd/openai-gen/main.go:265-270 | path is listed exactly if the path has a brace, query exactly if there is a query parameter or the path has a question mark |
| Generator.MediaTransportsMeaning | internal/cmd/openai-gen/main.go:271-282 | multipart, sse, json and binary are listed exactly for the media they stand for, and nothing else is |
| Generator.TransportsOrder | internal/cmd/openai-gen/main.go:265-270 | path comes first, then query, then the media |
| Generator.AtoiReads | internal/cmd/openai-gen/main.go:302 | helper: every decimal number is read as itself, with its sign |
| Generator.AtoiAccepts | internal/cmd/openai-gen/main.go:302 | helper: a number is an optional sign and at least one digit |
| Generator.CaseMeaning | internal/cmd/openai-gen/main.go:200-207 | a method key matches a word in any mix of cases and becomes its capitals |
| Generator.DescribeOperation | internal/cmd/openai-gen/main.go:206-238 | every derived field of one entry, independent of map order |
| Generator.CollectOperations | internal/cmd/openai-gen/main.go:195-249 | succeeds exactly when every entry has an id and a capability, and then lists one description per entry, sorted |
| Generator.ListingOrder | internal/cmd/openai-gen/main.go:242-247 | by path, and by method under one path, each in byte order |
| Generator.ListingUniqueExactly | internal/cmd/openai-gen/main.go:195-249 | given one listing of a document, every map order and every sort produces it exactly when entries with the same path and upper-cased method have the same description |
| Generator.ListingIsUnique | internal/cmd/openai-gen/main.go:195-249 | in particular any two listings are equal if no path has two methods differing only in case |
| Generator.CollectEvents | internal/cmd/openai-gen/main.go:422-442 | a sorted arrangement of all events of all surfaces |
| Generator.EventListingOrder | internal/cmd/openai-gen/main.go:432-440 | by surface, then direction, then type |
| Generator.EventListingIsUnique | internal/cmd/openai-gen/main.go:422-442 | any two event listings of an inventory are equal, repeats included |
| Generator.ListedEvents | internal/cmd/openai-gen/main.go:422-442 | an event is listed exactly when the inventory names it |
| Generator.ValidateEvidence | internal/cmd/openai-gen/main.go:155-193 | accepts exactly when evidence is complete, ids, cases and events are pairwise distinct and every exception is present |
| Generator.UniqueEventsMeaning | internal/cmd/openai-gen/main.go:184-191 | on surfaces without slashes the check refuses exactly repeated events |
| Generator.ValidatedIndexes | internal/cmd/openai-gen/main.go:155-193 | what is accepted makes ids distinct, hence the runtime index a linear search, and the key set exact for the inventory |
| BackendServices.ServiceConfig.Apply | backend/services.go:49-127 | an option fills its own free slot or fails and changes nothing |
| BackendServices.NewServices | backend/services.go:26-45 | succeeds exactly when every option is non-nil, valid and names a slot no other names; then each slot holds what was registered |
| BackendServices.KnownSurfaces | backend/services.go:113-127 | a session can be registered exactly for the surfaces the WebSocket handler knows events of |
| BackendServices.LookupMeaning | backend/services.go:130-142 | helper: a capability's own registration wins, the default serves the rest, a surface has no default |
| BackendServices.OrderDoesNotMatter | backend/services.go:26-45 | permuting the options changes neither success nor the registry |
| RestPipeline.BoundedBody | openai/internal/rest/handler.go:51-61 | helper: below the largest limit: too large, unreadable or delivered byte for byte; at the largest nothing is read |
| RestPipeline.BuildRouteIndex | openai/internal/rest/handler.go:184-203 | every non-empty id is indexed under a path that has it, in any map order |
| RestPipeline.RouteIndexIsUnique | openai/internal/rest/handler.go:184-203 | helper: with unique ids the index does not depend on the walk |
| RestPipeline.ValidationAgrees | openai/internal/rest/handler.go:68-76 | the schema validated against is the dispatched operation's, exactly when it is indexed or the matched route is its own, always so if the document covers the table; an indexed one has a path the document gives that id, without its query |
| RestPipeline.DispatchMeaning | openai/internal/rest/handler.go:68-75 | the operation is the first of the route whose query is met, else the last without a query |
| RestPipeline.DispatchById | openai/internal/rest/handler.go:68-75 | off every route of the table, it is the one with the document's id, if any |
| RestPipeline.Parameters | openai/internal/rest/handler.go:217-232 | path and query parameters in one map, the query winning, in any map order |
| RestPipeline.QueryValueMeaning | openai/internal/rest/handler.go:223-230 | helper: one value is given as itself, any other number as the list of them, in order |
| RestPipeline.PathValueSurvives | openai/internal/rest/handler.go:217-232 | helper: a path value survives exactly when the query does not use its name or gives just that value |
| RestPipeline.DecisionMeaning | openai/internal/rest/handler.go:45-104 | helper: a request is allowed exactly when it passes every gate, else refused with one of six statuses |
| RestPipeline.RefusalMeaning | openai/internal/rest/handler.go:45-104 | which gate refuses with which of 401, 413, 400, 404, 405 and 501, each exactly |
| RestPipeline.AnswerMeaning | openai/internal/rest/handler.go:121-132 | helper: the status sent, and when an answer is ambiguous |
| RestPipeline.Exchange.AdmitOperation | openai/internal/rest/handler.go:68-104 | selection, validation and capability gates in order, with the route validated against |
| RestPipeline.Exchange.WriteEvents | openai/internal/rest/stream.go:14-56 | one status, the frames or an error, and one close of the stream on every path |
| RestPipeline.LoneStreamLeaks | openai/internal/rest/handler.go:129-141 | helper: a stream-only answer is left open exactly when the backend sets a status out of range; status 700 is a witness |
| RestPipeline.Exchange.Respond | openai/internal/rest/handler.go:120-170 | one status; body and stream closed exactly once except the leaking case; what each response mode sends |
| RestPipeline.Exchange.ServeHTTP | openai/internal/rest/handler.go:38-170 | one status on every path; the backend is called at most once and exactly when every gate passes, with the admitted operation, body and parameters; responses are released |
| RestPipeline.AdmittedIsWhole | openai/internal/rest/handler.go:45-104 | for every limit from 1 to 2^63-2 what passes is authenticated, carries the whole body and is dispatched to the operation it was validated as; longer bodies and only those give 413 |

## Left out

- SessionProtocol.CanAlwaysDrain: exhibits one schedule; `EveryShutdownReturns` is about all fair ones.
- SessionProtocol.EveryShutdownReturns: that calls of libraries and backends return once their context is cancelled is an assumption, in the form of fairness to the steps that end them.
- SessionProtocol.SessionsReleasedOnce: a panic inside a backend or a library call is not modelled; the crash of the write loop is in the pipeline's model, and here it would cut a run short.
- RouterSchemas.NormalizeRouterSchemas: works on JSON values, so sharing of one map between two places of a document (which decoding never produces) is not modelled; the array of required names is an array, modified in place.
- SchemaMeaning.MeaningPreserved: `patternProperties`, `if`, `prefixItems` and other applicators the evaluator does not interpret count as assertions, whose values must trip none of the guards; numbers are exact, not float64; the objects of the document around its schemas (paths, parameters, responses) are not given a meaning.
- SchemaLimits.EnumDataExactly: like its neighbours, about one family of schemas that isolates one condition; that `Suits` is necessary for every schema is false, because another keyword may hide the damage.
- SseWriter.RoundTrip: text is a sequence of characters; invalid UTF-8 and the reconnection time of the standard are not modelled.
- EventCodec.CodecRoundTrip: JSON syntax, invalid UTF-8 and the rounding of numbers to float64 are not modelled; the order of keys is.
- EventPipeline.PipelineOrder: the mapping from client events to server events in the session's Handle, a fixed table, is replaced by arbitrary sends.
- AggregateShutdown.AggregateShutdownDrainsEverything: the loop over mounts is a step relation rather than a method, because other threads run between its iterations.
- Generator.CollectOperations: stops at the first unacceptable entry without modelling which message is printed; capability and live classification are arbitrary functions.
- Generator.SuccessStatus: codes outside the machine integer range are numbers here and errors in the source; neither is a success.
- RestPipeline.Exchange.ServeHTTP: headers, request ids, media types and the table from error kinds to statuses are parameters or absent; a response with a status in the 100s counts as the response.
- OperationTable.Profile.OperationByID: the once-guard is a flag; concurrent first calls are not modelled.
- The OpenAPI router, the request and response validators, query parsing and ServeMux are arbitrary functions.
- The WebSocket handshake, framing, TLS and real time are nondeterministic outcomes.
- Rendering of generated files, command-line flags and file writing are text layout and I/O.
- Option parsing, base-path cleaning and header filtering are short string checks.
