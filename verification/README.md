# Verified model of the server core

A Dafny model of the parts of this repository whose correctness rests on many steps at once: the
conversion of endpoint types to JSON Schema and the hoisting of shared definitions, the
length-delimited transport, the per-connection queue with its policy close, shutdown flag and
session loop, admission, connection lifecycle and replies, the MCP router, the subscription index,
the connect header and the error aggregate. `dafny verify dfyconfig.toml` checks all of it.

How the model is laid out:

- A component that updates state in place is a class whose methods are proved equal to functions on
  values; the theorems are about those functions.
- A component that several parties share is a state machine. In `Outbound`, `Signal`, `Toolbox` and
  `Admission` a step is one lock hold or one atomic operation. In `Session`, `Reply` and `Lifecycle`
  it is the stretch of one task between two awaits, taken as a whole: one `priority4` poll; issuing
  a connection id and filing it; looking a connection up and setting its end flag. `SessionWakes`
  puts the session together with the wakes of its queue and the broadcasts of its flag. Theorems quantify over every sequence of enabled steps. The methods of the classes are tied to the
  steps (`SessionLoop`, `Toolbox.UninterruptedCall`, `Admission.AcquiredAlone`,
  `Lifecycle.ServedAlone`, `Signal.CancelledAlone`, the methods of `Outbound.Shared`).
- What the surroundings decide is an input: read chunks, partial writes and pending answers of a
  stream, which handler completes, which hook suspends, when a deadline or the idle timer fires, at
  which await a future is dropped, in which order a hash map lists its keys.
- Case conversion, `pattern` and `format` matching, message normalization and the printing of
  floats and composite JSON are arbitrary functions; a float's text holds a point or an exponent. Where a collision of names would
  matter the hypothesis says so (`InjectiveNames`, `DistinctKeys`, `WellFormed`).
- JSON Schema validation is written out from JSON Schema Core and Validation 2020-12 for the keywords
  the conversion emits (`Validation`), independently of the conversion.

Where the code and its documentation differ the model follows the code:

- `relocate_refs` is documented as idempotent for any prefix; `ApiDocument.RelocateIdempotentIff`
  says for which prefixes it is.
- `OnConnect` is documented as running after authentication; `serve_connection` runs it before.
- `Int64` and `TimeStampMs` fragments carry no bounds, so their meaning is any integer.
- A refusal under a limit does not mean that the slots were taken
  (`Admission.RefusedWithNothingLive`), and a limit of zero keeps one error record that
  `get_all_errors` does not show (`ErrorAggregation.AllErrorsIff`).
- The connect header carries nine parameters, and not every value of each type: `Headers.HeaderRoundTrip`
  says exactly which requests come through.
- `object_schema` is commented as needing nothing that `collect` has not gathered;
  `SharedComponents.CollectedSchemaIff` says when that is so and `SchemaLimits.ClashBreaksCollected`
  shows that it is not always.
- Connection ids wrap at 2^32, and the state table is keyed by them: `Lifecycle.TableTrueIff` says
  exactly when that does no harm.

## Model

| member | source | states |
|---|---|---|
| Types.TypeRegistry.Add | src/model/json_schema.rs:35-49 | indexing in place leaves exactly the registry that the recursive definition says, later definitions replacing earlier ones, every entry under its own name |
| Types.IndexedKeeps | src/model/json_schema.rs:35-49 | indexing a type keeps the registry well formed and forgets no name |
| Types.IndexedCaptures | src/model/json_schema.rs:35-49 | whatever a type defines inline, at any depth, resolves by name afterwards |
| JsonSchema.Convert | src/model/json_schema.rs:161-251 | conversion terminates on every registry, cyclic ones included, by the struct names not yet in `defs` and then the weight of the head; it never removes a definition |
| JsonSchema.WalkFields | src/model/json_schema.rs:98-131 | the field walk terminates by the same measure and yields one fragment per field |
| JsonSchema.DefMap.ToJsonSchema | src/model/json_schema.rs:161-251 | the conversion that updates the shared `defs` in place returns and leaves exactly what the value-level conversion says |
| JsonSchema.DefMap.FieldsToObjectSchema | src/model/json_schema.rs:98-131 | the loop that fills `properties` and `required` and converts each field builds exactly the object schema of the field walk |
| SchemaClosure.WalkCloses | src/model/json_schema.rs:161-251 | on success from empty `defs` no reserved Null slot is left, each entry is the finished schema of a reachable definition, and all that definition mentions is there too |
| SchemaClosure.WalkCollectsReachable | src/model/json_schema.rs:98-251 | with injective names the keys of `defs` are exactly the names reachable through fields and registry references, and each entry depends on its definition and the registry alone |
| SchemaClosure.WalkSucceedsIff | src/model/json_schema.rs:161-251 | with injective names conversion succeeds if and only if every reachable reference is in the registry |
| SchemaClosure.ConvertAdds | src/model/json_schema.rs:161-251 | what one conversion adds to any `defs` is settled: finished, reachable, and closed under mention |
| SchemaClosure.WalkAdds | src/model/json_schema.rs:98-131 | the same of a walk over fields |
| SchemaClosure.ConvertSucceeds | src/model/json_schema.rs:161-251 | a conversion all of whose reachable references resolve succeeds, whatever `defs` it starts from |
| SchemaMeaning.McpSchemaMeaning | src/model/json_schema.rs:255-284 | for every type, registry and JSON value: the generated schema with its own `$defs` accepts the value if and only if the value fits the field list read directly (optional fields omissible, no extra keys, ranges, nesting, recursion, tables) |
| SchemaMeaning.FragmentMeaning | src/model/json_schema.rs:161-251 | each fragment accepts exactly the values of its type, through any chain of references |
| SchemaMeaning.RootMeaning | src/model/json_schema.rs:98-131 | each object schema accepts exactly the objects that fit its fields |
| SchemaMeaning.EnumMeaning | src/model/json_schema.rs:133-150 | the `oneOf` of an enum accepts exactly the integers that are the value of one and only one variant |
| SchemaMeaning.EnumAcceptsItsVariantsIff | src/model/json_schema.rs:133-150 | every variant's value is accepted if and only if the variant values are distinct |
| SchemaMeaning.AttachedResolves | src/model/json_schema.rs:255-262 | a reference to an attached definition with a plain name resolves to that definition |
| SchemaMeaning.ScalarMeaning | src/model/json_schema.rs:166-205 | the schemas of scalar types, integer ranges included, accept exactly their values |
| SchemaLimits.NameClashHidesUnresolved | src/model/json_schema.rs:207-218 | two structs of one name: conversion succeeds although a reference in the second resolves nowhere |
| SchemaLimits.ClashBreaksCollected | src/model/api_document.rs:130-142 | two endpoints with structs of one name: both are collected, and then the schema of the second cannot be built, although a comment says that all it needs is there |
| SchemaLimits.SlashMisleads | src/model/json_schema.rs:91-93 | the reference to a definition name with a slash is read as a path into another definition or nowhere; what is filed under the name itself is not consulted |
| SchemaLimits.FoundIffNoSlash | src/model/json_schema.rs:91-93 | among names that need no decoding, exactly those without a slash are always found by the reference to them |
| ToolSchemas.ListedSchemasMeanTheEndpoint | src/libs/ws/mcp.rs:282-318 | the schemas listed for a tool accept exactly the arguments and results that fit the endpoint its calls are dispatched to; an output schema is there exactly when the endpoint returns something |
| ApiDocument.RelocateMapsRefs | src/model/api_document.rs:197-216 | the references after relocation are exactly the collected references, each mapped once |
| ApiDocument.RelocateIdempotentIff | src/model/api_document.rs:182-216 | relocation is idempotent on all values if and only if the prefix is `#/$defs/` or neither it nor `#/$defs/` begins with the other; the documentation promises it for every prefix |
| ApiDocument.RelocateToComponentsIdempotent | src/model/api_document.rs:197-216 | for the components prefix it is idempotent on every value |
| ApiDocument.RelocateAll | src/model/api_document.rs:91-93 | every shared definition is relocated once |
| ApiDocument.CollectFields | src/model/api_document.rs:70-77 | one field list of the emitters' walk, continuing the walk so far |
| ApiDocument.CollectStream | src/model/api_document.rs:79-83 | a stream response adds the definitions its type mentions |
| ApiDocument.CollectErrors | src/model/api_document.rs:85-89 | error fields are walked in order, the first failure reported |
| ApiDocument.CollectEndpoint | src/model/api_document.rs:70-89 | all parts of one endpoint, in order, on the same definitions |
| ApiDocument.Collect | src/model/api_document.rs:67-96 | the loop over endpoints collects the relocated definitions of one walk over all their fields, or the first reference that does not resolve |
| ApiDocument.WalkAppend | src/model/api_document.rs:67-96 | walking two field lists in a row is walking their concatenation |
| SharedComponents.ComponentsOrderIndependent | src/model/api_document.rs:67-96 | with injective names the document does not depend on the order or repetition of endpoints |
| SharedComponents.SharedEqualsMcp | src/model/api_document.rs:118-142 | each definition of an endpoint's self-contained MCP schema is, relocated, the document's shared definition of that name |
| SharedComponents.DocumentResolves | src/model/api_document.rs:100-142 | every reference in the request and response schemas of a collected endpoint, once they are built, is the components prefix and the name of a shared schema, whatever the names, clashing ones included |
| SharedComponents.CollectedSchemaIff | src/model/api_document.rs:130-142 | that they can be built, which a comment promises of every collected endpoint, holds when the names of the document are distinct; where the names of the endpoint are, it holds if and only if everything it refers to is in the registry |
| SharedComponents.SharedSchemasResolve | src/model/api_document.rs:67-96 | and so is every reference inside the shared schemas |
| SharedMeaning.DocumentPointsHome | src/model/api_document.rs:67-142 | in a document that publishes the shared schemas, all of those references, read as JSON pointers, find a shared schema when the shared names are plain, distinct or not |
| SharedMeaning.MovedValidates | src/model/api_document.rs:197-216 | relocation keeps the meaning of a schema: it validates the same instances in the document as the original does beside its own definitions |
| SharedMeaning.SharedSchemaMeaning | src/model/api_document.rs:100-142 | for every value: the request and response schemas, in a document that publishes the shared schemas, accept it if and only if it fits the field list read directly |
| SharedComponents.RootRefs | src/model/json_schema.rs:98-131 | an object schema refers to nothing but what its fields mention |
| Utf8.DecodeEncodeUtf8 | src/libs/ws/message.rs:99-106 | text survives encoding (section 4 of RFC 3629) |
| Utf8.EncodeDecodeUtf8 | src/libs/ws/message.rs:99-106 | octets that decode are the encoding of what they decode to, so there is one encoding of each text |
| Framed.DecodeEncode | src/libs/ws/transport/framed.rs:123-183 | every message decodes from its encoding |
| Framed.EncodeDecode | src/libs/ws/transport/framed.rs:123-183 | every body that decodes is the encoding of its message |
| Framed.U32RoundTrip | src/libs/ws/transport/framed.rs:257-259 | the big-endian length prefix reads back |
| Framed.NeutralFramed.TakeFrame | src/libs/ws/transport/framed.rs:252-278 | one whole frame is taken, or the buffer is left alone, or the prefix is oversized |
| Framed.NeutralFramed.Poll | src/libs/ws/transport/framed.rs:286-331 | the read loop is the specification of `poll_next` against any schedule, and the buffer never exceeds max + 3 + 8192 bytes |
| Framed.NeutralFramed.StartSend | src/libs/ws/transport/framed.rs:351-376 | a frame is queued whole or refused with the buffer unchanged |
| Framed.NeutralFramed.PollFlush | src/libs/ws/transport/framed.rs:378-398 | the write loop is the specification of `poll_flush` against any partial writes |
| Framed.NeutralFramed.PollReady | src/libs/ws/transport/framed.rs:339-349 | ready leaves less than `max` bytes or none |
| Framed.NeutralFramed.PollClose | src/libs/ws/transport/framed.rs:400-409 | close flushes first and closes only after a complete flush |
| Framed.FlushReadyMeansEmpty | src/libs/ws/transport/framed.rs:378-398 | bytes written and bytes kept are the old buffer in order, and ready means nothing is kept |
| Framed.WriteBufBound | src/libs/ws/transport/framed.rs:339-376 | a send after a ready `poll_ready` keeps the buffer within 2 * max + 3 |
| FramedLink.PollRefinesParse | src/libs/ws/transport/framed.rs:286-331 | whatever the chunking, `poll_next` delivers what the one-shot parser finds in the bytes read; pending holds nothing back, the clean end is only on a frame boundary, a malformed body uses up exactly its frame |
| FramedLink.TerminalAnswersRepeat | src/libs/ws/transport/framed.rs:286-331 | the clean end, the truncated tail and the oversized prefix are permanent |
| FramedLink.ParseGrows | src/libs/ws/transport/framed.rs:252-331 | more bytes only ever add items |
| FramedLink.ReceiveExplains | src/libs/ws/transport/framed.rs:286-331 | each poll keeps the delivered items and the buffer in step with the bytes read |
| FramedLink.NextKeepsInv | src/libs/ws/transport/framed.rs:286-409 | sends, flushes, closes and polls keep the link's invariant |
| FramedLink.ReceivedIsPrefix | src/libs/ws/transport/framed.rs:286-409 | at every point of every run bytes written plus bytes buffered are the frames of what was accepted, and what was received is an in-order prefix of it |
| FramedLink.ClosedLinkDelivers | src/libs/ws/transport/framed.rs:286-409 | after flush and close, against any mixture of data and pending answers, each poll uses up a pending answer or yields the next accepted message, and the clean end comes exactly when none of either is left |
| FramedLink.ClosedLinkDeliversAll | src/libs/ws/transport/framed.rs:286-409 | so exactly all of them are received, then a clean end, however many pending answers come between |
| FramedLink.AnswersTellTheTruth | src/libs/ws/transport/framed.rs:286-409 | at every poll of every run over a lossless channel a clean end means that the writer closed and everything accepted was received, and an error is only one the byte stream itself answered with |
| FramedLink.ParsedBytes | src/libs/ws/transport/framed.rs:123-278 | a byte string that parses to well-formed items and nothing else is the frames of those items |
| Outbound.Shared.constructor | src/libs/ws/outbound.rs:104-118 | a new queue |
| Outbound.Shared.CloneSender | src/libs/ws/outbound.rs:120-127 | a clone adds a handle and no capacity |
| Outbound.Shared.DropSender | src/libs/ws/outbound.rs:129-144 | the last handle takes the parked waker out |
| Outbound.Shared.TrySend | src/libs/ws/outbound.rs:146-169 | the whole effect of a send: Closed before Full, the waker taken out on success |
| Outbound.Shared.TryRecv | src/libs/ws/outbound.rs:177-188 | the whole effect of taking a message |
| Outbound.Shared.Recv | src/libs/ws/outbound.rs:220-238 | the whole effect of one poll: the waker replaced only if it names another |
| Outbound.Shared.DropReceiver | src/libs/ws/outbound.rs:171-175 | the receiver's drop |
| Outbound.NextKeepsInv | src/libs/ws/outbound.rs:120-238 | every step of every party keeps the contents, the parked waker and the waiting receiver in order |
| Outbound.NoLostWakeup | src/libs/ws/outbound.rs:129-168 | over every interleaving: a receiver left pending, with no wake outstanding for it, is parked, with the queue empty and a sender alive |
| Outbound.QueueContents | src/libs/ws/outbound.rs:146-218 | accepted values are delivered values followed by the queue; the length is at most the capacity whatever the number of clones; the sender count is the number of live handles |
| Outbound.RefusalsMean | src/libs/ws/outbound.rs:152-162 | Closed if and only if the receiver is gone, even when full; Full if and only if it lives and the queue holds `capacity` |
| Outbound.EndMeansDrained | src/libs/ws/outbound.rs:203-237 | `recv` yields None if and only if every handle is gone and everything accepted was delivered |
| Outbound.EndIsForever | src/libs/ws/outbound.rs:203-237 | and then it yields None on every later poll |
| Signal.Shutdown.Cancel | src/libs/signal.rs:40-43 | cancelling sets the flag and then reaches every waiter that has registered |
| Signal.CancelledAlone | src/libs/signal.rs:40-43 | the two atomic steps, run alone, are that method, and leave nobody parked un-notified |
| Signal.NextKeepsInv | src/libs/signal.rs:40-71 | every step of every canceller and waiter keeps the invariant |
| Signal.NoLostCancellation | src/libs/signal.rs:8-71 | once some `cancel` has returned no waiter is parked without having been notified and each can step towards returning; one that has returned saw the flag |
| Signal.OthersDoNotHinder | src/libs/signal.rs:40-71 | nobody else's step takes a waiter further away, and the flag stays set |
| Signal.ReturnsWithinFour | src/libs/signal.rs:56-71 | four own steps suffice, however they are interleaved |
| Toolbox.EnqueueFrame | src/libs/ws/toolbox.rs:258-287 | one call, on the queue and the flag themselves, has the specified effect on both |
| Toolbox.CloseConnection | src/libs/ws/toolbox.rs:289-294 | a policy close tries to queue `Close` and sets the flag whether or not it fits |
| Toolbox.RefusedForFullnessFlags | src/libs/ws/toolbox.rs:258-294 | over every interleaving of calls, receives and drops: when a call whose frame a full queue refused has returned, and the policy asks for it, the flag is set; a set flag was asked for |
| Toolbox.FlagIsSticky | src/libs/ws/toolbox.rs:258-294 | the flag never goes back, and a caller that passed none never sets it |
| Toolbox.UninterruptedCall | src/libs/ws/toolbox.rs:258-294 | the lock-by-lock steps of a call, run alone, are the specified effect |
| SessionLoop.WsClientSession.Proceed | src/libs/ws/session.rs:482-609 | one stretch of the loop between awaits, on the shared queue and flag, is one step of the machine |
| SessionLoop.WsClientSession.DrainQueue | src/libs/ws/session.rs:497-512 | the drain loop's next frame, the idle check after it, and the flag once the queue is empty |
| SessionLoop.WsClientSession.Poll | src/libs/ws/session.rs:539-603 | one poll of the four arms in strict priority and what each does |
| SessionLoop.WsClientSession.PollHandlers | src/libs/ws/session.rs:543-549 | handlers are polled in order until one completes |
| SessionLoop.WsClientSession.HandleInbound | src/libs/ws/session.rs:592-597 | one inbound frame: answered, turned into a task, or the end |
| Session.NothingAbandoned | src/libs/ws/session.rs:482-609 | over every run: accepted frames are the sent ones, at most one in flight or lost with it, and the queue; every exit other than idle expiry, a failed send or header_only has sent everything ever accepted; header_only sends at most one frame |
| Session.DispatchMeans | src/libs/ws/session.rs:539-600 | an inbound frame is dispatched only by a poll in which no handler finished, with every frame accepted before it already sent |
| Session.AtMostOneDispatchOnceFlagged | src/libs/ws/session.rs:508-549 | once the policy flag is set at most one more inbound frame is taken in |
| Session.McpOnlyNeverHangsUp | src/libs/ws/session.rs:141-192 | with mcp_only a peer's Close never ends the session |
| Session.NextKeepsInv | src/libs/ws/session.rs:482-609 | every step of the session and of everybody else keeps the account of frames |
| SessionWakes.NoLostWake | src/libs/ws/session.rs:482-609 | over every interleaving of sends, drops, wakes taken out and delivered later, flag stores and their later broadcasts: a session that waits while its queue holds a frame, its last sender is gone or its flag is set, has been woken, or a wake or a broadcast for it is on its way |
| SessionWakes.AtRestAllIsSent | src/libs/ws/session.rs:482-609 | a waiting session with nothing on its way to wake it has sent every frame its queue ever accepted, its flag is not set and somebody can still send |
| SessionWakes.PollActs | src/libs/ws/session.rs:539-603 | no wake is in vain: a poll that has a frame to take, or finds the senders gone or the broadcast arrived, does not go back to waiting |
| SessionWakes.NextKeepsInv | src/libs/ws/session.rs:482-609 | every step of every party keeps the parked waker and the flag future watched |
| Admission.Limit.Acquire | src/libs/ws/server.rs:170-211 | one acquisition run alone: verdict, counter, warning flag and the events it emits, in order |
| Admission.AcquiredAlone | src/libs/ws/server.rs:170-211 | the atomic steps of an acquisition, run alone from any state, have that effect |
| Admission.Limit.DropSlot | src/libs/ws/server.rs:79-88 | dropping a slot counts down |
| Admission.CounterCounts | src/libs/ws/server.rs:170-211 | over every interleaving the counter is live slots plus acquisitions between increment and verdict, and zero when there are none |
| Admission.LiveWithinCap | src/libs/ws/server.rs:196-210 | granted slots never exceed the cap, even while the counter does |
| Admission.GrantedIff | src/libs/ws/server.rs:187-210 | an acquisition is granted if and only if the live slots and other counted acquisitions it found were fewer than the cap |
| Admission.ClaimsAreTrue | src/libs/ws/server.rs:187-187 | what an acquisition found is what the run held at its increment |
| Admission.EventsTell | src/libs/ws/server.rs:170-211 | Refuse events equal refusals, there is at most one Warn, and once quiet exactly one if and only if some acquisition reached the threshold |
| Admission.NothingStuck | src/libs/ws/server.rs:170-211 | every acquisition in progress can go on and every slot can be dropped |
| Admission.RefusedWithNothingLive | src/libs/ws/server.rs:187-208 | a run in which an acquisition that found no slot live is refused, because another has yet to take itself back |
| Lifecycle.JobsRunOnce | src/libs/ws/server.rs:91-124 | over every interleaving and every drop at an await, ids reused or not: a registered connection is cleaned up exactly once, when it goes, its hooks dispatched exactly once if there are any; nobody else is |
| Lifecycle.TableTrueIff | src/libs/ws/server.rs:95-98 | over every run: the table holds exactly the connections whose job is held, at every point, if and only if every registration finds its id unused, if and only if none finds a connection still held from a multiple of 2^32 registrations ago |
| Lifecycle.TableTrueWhileYoung | src/libs/utils.rs:15-21 | so it is in every run in which no connection is held across 2^32 registrations |
| Lifecycle.TableTrueForOneSpan | src/libs/utils.rs:15-21 | and in every run of at most 2^32 registrations |
| Lifecycle.CleanedUpExactlyOnce | src/libs/ws/server.rs:91-124 | in such a run a connection is in the table exactly while its job is held, and its own end flag is set while it flushes after failed authentication |
| Lifecycle.RefusedNeverRegistered | src/libs/ws/server.rs:448-459 | in any run a peer refused by OnConnect is never registered, removed or dispatched |
| Lifecycle.WrappedIdEvicts | src/libs/ws/server.rs:95-98 | an id used again: the newcomer takes the entry, an end flag meant for the elder lands on the newcomer, and the elder, however it goes, takes the newcomer's entry along |
| Lifecycle.WrapIsReachable | src/libs/utils.rs:15-21 | a run that gets there: one connection is served while 2^32 - 1 others come and go |
| Lifecycle.ServedAlone | src/libs/ws/server.rs:441-520 | the steps of one connection of any fate, run alone from any state, have the effect of the method below |
| Lifecycle.ServeConnection | src/libs/ws/server.rs:441-520 | for every fate of one connection the table ends as it began and the hooks are spawned exactly once if it was registered |
| Lifecycle.ConnectionCleanup.Dispatch | src/libs/ws/server.rs:96-115 | the job is taken once: state removed, hooks spawned if any |
| Lifecycle.ConnectionCleanup.Finish | src/libs/ws/server.rs:116-118 | finishing, and the drop that follows, clean up once |
| Lifecycle.ConnectionCleanup.Drop | src/libs/ws/server.rs:120-124 | dropping the guard cleans up if nobody has |
| Lifecycle.NextKeepsTable | src/libs/ws/server.rs:441-520 | every step that reuses no id keeps the table and the jobs in agreement |
| Reply.ExactlyOneReply | src/libs/ws/session.rs:264-331 | over every placement of suspensions and of the deadline, on both protocols, whatever hooks do to the context: never two replies, exactly one when the request is finished unless the handler asked for none; and a reply is addressed to its own request if and only if it is safe from what hooks made of the context |
| Reply.EveryRequestIsAnswered | src/libs/ws/session.rs:223-402 | and for every request, admitted or not: one reply in the end unless its handler asked for none, always addressed to it when it was refused |
| Reply.RepliesAreTold | src/libs/ws/session.rs:197-331 | no reply can be taken for that of another request: one addressed to two requests has them on one connection and protocol, under one id, or one method and sequence number |
| Reply.RunIsShort | src/libs/ws/session.rs:274-327 | the request finishes: each step leaves fewer awaits ahead |
| Reply.ProtocolsAgree | src/libs/ws/handler.rs:99-223 | both protocols tell the same about what a handler did: silence, the same value, the same application code, an internal error |
| Reply.FramesAddressedIff | src/libs/ws/session.rs:280-324 | for every frame of both protocols: the timeout is always addressed to its request; on the JSON-RPC path a rejection is too, and a handler's or a malformed request's reply if and only if the connection is unchanged; on the legacy path every other reply if and only if the context is |
| Reply.LeavingHooksDoNoHarm | src/libs/ws/session.rs:264-331 | with hooks that leave the addressing context alone every reply of every run is addressed to its request |
| JsonRpc.ParseMeans | src/libs/ws/mcp.rs:120-138 | detection is by the `jsonrpc` member alone and never claims a legacy request; the id comes back as sent, a number only if written as an integer; a malformed frame is answered by an error to nobody |
| Mcp.AddHandler | src/libs/ws/server.rs:323-345 | a handler is filed under its code, once |
| Mcp.Build | src/libs/ws/mcp.rs:265-324 | building succeeds if and only if every endpoint converts and tool names are distinct; then the list is the endpoints in order of code and the index agrees with it |
| Mcp.ListedIffCallable | src/libs/ws/mcp.rs:334-394 | the answer to `tools/list` has a tool for a role set if and only if its call dispatches, if and only if the legacy role check admits the endpoint of that name, whose code is a key of the handlers |
| Mcp.RoleChecksAgree | src/libs/ws/session.rs:714-719 | the role checks of the two protocols, written apart, both hold exactly when some role is on both sides |
| Mcp.HiddenToolsLeaveNoTrace | src/libs/ws/mcp.rs:344-394 | rebuilding from only the visible endpoints changes the answer to no request |
| Mcp.VisibleBuildable | src/libs/ws/mcp.rs:265-324 | and that rebuild succeeds whenever the full build does |
| Mcp.ResponsesAreAddressed | src/libs/ws/mcp.rs:349-394 | every response is a JSON-RPC response to the id of its request, and only notifications go unanswered |
| Mcp.BuiltFinds | src/libs/ws/mcp.rs:265-324 | the index finds exactly the handlers' tool names, each at its own endpoint |
| Subs.SubscriptionManager.SubscribeWith | src/libs/ws/subs.rs:50-72 | subscribing, or modifying the subscription that is there, and adding the keys |
| Subs.SubscriptionManager.Unsubscribe | src/libs/ws/subs.rs:74-79 | the connection leaves the table and every set |
| Subs.SubscriptionManager.UnsubscribeWith | src/libs/ws/subs.rs:80-104 | the closure's verdict carried out, sets that become empty dropped |
| Subs.SubscriptionManager.PublishTo | src/libs/ws/subs.rs:106-140 | one numbered frame to one subscriber, who is unsubscribed if gone |
| Subs.SubscriptionManager.PublishToKey | src/libs/ws/subs.rs:142-153 | one frame to each connection of one set |
| Subs.SubscriptionManager.PublishToKeys | src/libs/ws/subs.rs:155-172 | exactly one frame to each subscriber in the union of the keys' sets, even as dead ones are unsubscribed under the walk |
| Subs.SubscriptionManager.PublishWithFilter | src/libs/ws/subs.rs:173-206 | exactly one frame to each subscriber the filter has data for, the dead ones unsubscribed afterwards |
| Subs.UnsubscribeWithKeepsIff | src/libs/ws/subs.rs:80-104 | mapped connections stay subscribed if and only if a removing closure lists all of the connection's keys, and one that does not remove keeps its id |
| Subs.RunNumbers | src/libs/ws/subs.rs:50-206 | over every run the index stays whole and the frames of one subscription are numbered 0, 1, 2, ... modulo 2^32 |
| Subs.AfterOneMore | src/libs/ws/subs.rs:106-172 | attempts to different connections add up, in any order |
| Percent.DecodeEncode | src/model/endpoint.rs:250-255 | every string survives percent-encoding |
| Percent.EncodedIsSameIff | src/model/endpoint.rs:250-255 | encoding leaves a string alone if and only if it is all unreserved |
| Decimals.ParseDecimal | src/libs/ws/headers.rs:159-164 | every 64-bit integer reads back |
| Headers.EncodeHeader | src/model/endpoint.rs:239-258 | the printing loop yields the joined pieces, or the first missing key |
| Headers.ParseParams | src/libs/ws/headers.rs:213-225 | the parameter loop yields the specified map, or its first error |
| Headers.HeaderRoundTrip | src/libs/ws/headers.rs:153-225 | for any endpoint with distinct keys and any value: the server reads exactly what the client printed if and only if each of the first nine parameters is carried by its type and every later one is optional and absent; the lowercased method comes back regardless |
| Headers.HeaderComesBack | src/libs/ws/headers.rs:180-188 | for any number of parameters: parsing an encoded header yields the method, one entry for each digit that some non-null parameter's number begins with, holding the last such parameter's text led by the other digits, and nothing else |
| Headers.MethodComesBackIff | src/libs/ws/headers.rs:180-188 | the method comes back, with any number of parameters, if and only if the name holds no comma and does not end in a blank |
| Headers.RequiredPastNinthNeverParses | src/libs/ws/headers.rs:213-225 | an endpoint with any required parameter past the ninth accepts no header at all |
| Headers.StringComesBackIff | src/libs/ws/headers.rs:155-158 | a string parameter comes back if and only if it holds no quote, backslash or control character |
| Headers.RawComesBackIff | src/libs/ws/headers.rs:170-175 | a parameter of any type taken undecoded comes back if and only if it is all unreserved |
| Headers.IntegerComesBackIff | src/libs/ws/headers.rs:159-164 | an Int64 comes back if and only if it is held as an integer: a float such as 1.0 is printed so that `i64` refuses it |
| Headers.ValueComesBackIff | src/libs/ws/headers.rs:153-178 | for every type and every value but null, numbers held as floats, arrays and objects included: the server reads the value that was printed if and only if the type carries it |
| Headers.BooleanComesBack | src/libs/ws/headers.rs:165-169 | both booleans come back |
| ErrorAggregation.ErrorContainer.Process | src/libs/log/error_aggregation.rs:216-260 | one entry counted, recorded or making room by evicting a record that began longest ago |
| ErrorAggregation.ErrorContainer.FindOldest | src/libs/log/error_aggregation.rs:239-242 | a key with minimal first_seen |
| ErrorAggregation.ErrorContainer.Clear | src/libs/log/error_aggregation.rs:184-187 | clearing empties |
| ErrorAggregation.ErrorContainer.GetErrors | src/libs/log/error_aggregation.rs:138-165 | one page of the records, sorted by the caller's comparison or most recent first |
| ErrorAggregation.ErrorContainer.GetStats | src/libs/log/error_aggregation.rs:168-175 | one page of the statistics, last seen first |
| ErrorAggregation.RunInv | src/libs/log/error_aggregation.rs:216-260 | over every run since a clear: at most max(limit, 1) records, each the summary of the entries of its kind since it began, and retained plus evicted counts equal to entries processed |
| ErrorAggregation.NothingForgottenUnlessEvicted | src/libs/log/error_aggregation.rs:216-260 | until something is evicted every kind that occurred has a record counting every occurrence |
| ErrorAggregation.EvictsOldestExactlyWhenFull | src/libs/log/error_aggregation.rs:235-246 | an eviction happens exactly when a new kind meets a full storage, and what goes began no later than anything kept |
| ErrorAggregation.PagesShowEverything | src/libs/log/error_aggregation.rs:144-165 | consecutive pages of an unchanged storage are all of it, whatever the page size, for any comparison that is the strict weak order `sort_by` asks for, and in that order |
| ErrorAggregation.StatPagesShowEverything | src/libs/log/error_aggregation.rs:168-175 | the same of the statistics |
| ErrorAggregation.AllErrorsIff | src/libs/log/error_aggregation.rs:190-192 | `get_all_errors` shows every record if and only if the limit is not zero or nothing is kept |

## Left out

- Field `meta` and `apply_field_meta`: annotations on document properties. `request_schema` and `response_schema` are modelled for fields that carry none.
- The order in which `collect_refs` pushes, and the update of JSON trees in place by `relocate_refs` and `attach_defs`: modelled on values, references as a set. Object members are unordered.
- JSON Pointer escapes: a reference token that holds `~` or `%` is left unresolved by the model's validator, and such definition names are excluded by `Plain`.
- serde's text parsing: frames start as JSON values, with a flag that says how an id that is a number was written.
- The underlying socket, TLS, the HTTP upgrade, listeners, shards, accept backoff and the client: only the answers of a byte stream and of a message stream are modelled.
- Cross-thread sends that land inside one `priority4` poll: the poll is atomic in `Session`. Other threads' sends and cancels happen between stretches, at the granularity of the queue's lock.
- `FuturesUnordered`: the set of handlers polled in one poll, and their order, are inputs.
- The `on_limit` callback and memory ordering: atomics are sequentially consistent steps. Counters do not reach the width of `usize`.
- `serve_connection` on its executor: hook tasks are counted when spawned, not followed.
- Log ids, error texts, error `data` members and the parameters of legacy errors: replies are followed by address, kind and code.
- Handlers that implement the erased trait by hand: the replies are those of the blanket implementation.
- `observe_message`, `observe_request_time`: single-flag variants of the warning that `Admission` treats.
- Comparisons that keep state between calls, which `get_errors` would accept. For one that is not a strict weak order `sort_by` may panic or leave any order; the model sorts by insertion, and says nothing of the source there.
- Other threads inside a stretch of `serve_connection`: ids are issued and filed in one step of `Lifecycle`.
- `push.rs`: the subscription index over again without stream numbers.
- Clocks: idle expiry, deadlines and timestamps are inputs.
- Wakes outside the queue: those a stream gives its reader or writer, and the delivery of those a toolbox call takes out. Wakes of the queue itself are followed in `Outbound`, those of the flag in `Signal`, and both up to the session in `SessionWakes`; those of handlers and of the stream are not.
- Handlers still running when a session ends are dropped with it; what they would have queued is not followed.
