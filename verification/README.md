# Verified model of gonest's core

gonest is a Go web framework in the manner of NestJS. This project models the parts of it in
which several mechanisms have to agree, and proves that they do:

- **Dependency-injection bootstrap.** `assemble` walks the import graph while module functions
  still write it (`Modules.dfy`); `effectiveExports` follows re-exports with one shared visited
  set (`Exports.dfy`); provider builders record what they inject, and New checks the views
  (`Injection.dfy`); `Find`, `findAllRefs`, `BuildGraph` and the scope filter turn recorded
  injections into a provider graph (`Resolver.dfy`); `DetectCycle` accepts it (`Cycle.dfy`);
  `Bootstrap.dfy` shows that what these stages establish is what the concurrent stage needs, and
  `Startup.dfy` composes them from the module tree on. `Stage3.dfy` is the concurrent stage as a
  step system with one task per provider and one per injection of a transient provider, in which
  closing a channel, returning and cancelling are separate steps; `Stage3Runs.dfy` proves what
  every run guarantees, `Stage3Timing.dfy` which placeholders a constructor can count on,
  `Stage3Values.dfy` whose values they hold.
  `Lazy.dfy` adds the eager constructor calls of `Module.Lazy` to those of the stage.
- **Realtime GraphQL.** The graphql-transport-ws connection (`WsProtocol.dfy`) with what it
  answers (`WsReplies.dfy`), and the
  reservation registry of graphql-sse's Single connection mode (`Reservation.dfy`). Both have
  the shared tables as classes and all callers as a step system in which each lock region, each
  write and each close is a step; `Channels.dfy` holds what they share.
- **Recursive schema walks.** Validation of JSON against self-referential schemas
  (`Validate.dfy`) and when it comes to an end (`Termination.dfy`), the second pass that writes a
  flat struct (`Populate.dfy`), and the OpenAPI generator: what the document says
  (`ApiDocument.dfy`), what its references point to (`References.dfy`), the walk that makes
  it (`OpenApi.dfy`), and which values it admits, against those that validation accepts
  (`DocumentMeaning.dfy`).
- **The dotenv parser** (`Dotenv.dfy`), what its files mean (`DotenvMeaning.dfy`), and **field identity by address arithmetic**
  (`FieldIdentity.dfy`).

`Graphs.dfy` is the vocabulary of finite graphs and walks. `dafny verify dfyconfig.toml` checks everything.

Reading aids:

- Modules, schemas, channels and connections are known by numbers where the source uses
  pointers. Providers are values; a view made by ProviderAs carries the provider it wraps.
- A module function is a finite list of builder calls on its own module. A constructor is a step
  that succeeds or fails; writes to a connection succeed or fail freely.
- Strings are sequences of bytes, JSON numbers are reals. Conversion of a real to int64 is that
  of amd64, where a value out of range becomes the least integer.
- Regular expressions, duration syntax and conversion to uint64 are parameters. A pattern in the
  document is read as the validator reads it, and formats ask for nothing.
- Tokens that Reserve draws are fresh, as random UUIDs are taken to be.
- Map iteration order is left open: loops over maps pick keys arbitrarily.
- A reference in the OpenAPI document is read as RFC 3986 and RFC 6901 say, except that bytes that
  are illegal in a fragment stand for themselves.

Where the code does not do what its documentation says, the model follows the code, and a lemma
says exactly when the two agree or shows a run in which they do not:

- The placeholder of a transient provider can be empty when its consumer is constructed, in every
  stage that has one.
- A transient provider is a member of an injected slice if a view of it is visible and it is
  registered after the owner of the slice. Its slot stays empty, and the bootstrap succeeds.
- In a test application, which does not check views, InjectAll matches a provider that only a view
  of it registers. It is never constructed. `New` refuses such a view.
- A provider that `SafeInject` tried in vain in a `Module.Lazy` callback is constructed again. One
  that injects in its builder is constructed eagerly before anything it injects.
- Of several own providers of one type, `Module.Lazy` takes the last and the resolver's search the
  first.
- A stream, over WebSocket or SSE, can be cancelled by the late stop of an earlier stream with the
  same id; it is so exactly if the id was reused.
- `Attach` can succeed twice. An operation that starts under an id in use, or after the release of
  its token, leaves a stream that nothing will cancel.
- Validation can run forever if schemas refer to each other in a cycle and sanitizers deepen
  values. An enumerated number is compared after truncation. A number that the first pass accepts is
  stored as another one if it is no integer of the width of its field: an integer too wide for it, or
  1.5 where the property asks for a number.
- The document refuses null for a nullable enumeration, counts characters where the validator counts
  bytes, and says nothing about durations.
- Two schemas with the same name share one OpenAPI component. A schema whose name has a slash, a
  tilde or a percent sign, as a generic type with a package path in it does, is referred to by a
  pointer that leads elsewhere. A property hidden from JSON by "-" is documented nevertheless, as
  required if it is so.
- A comment behind an empty bare value becomes the value.
- `${...}` is split at an operator inside the argument if that operator is looked for earlier.
- A value between backticks loses the backslash before a backtick and the carriage returns at the
  ends of its lines.
- Two fields of a type without a size cannot be told apart by their addresses, and an embedded
  struct and what lies at its start cannot both be registered.

## Model

| member | source | states |
|---|---|---|
| `Cycle.DetectCycle` | internal/resolver/cycle.go:28-65 | On every finite graph it returns nil exactly if the graph has no closed walk; a reported chain is a simple cycle of real edges; an accepted graph comes with a topological order that covers its keys. |
| `Cycle.Detector.Visit` | internal/resolver/cycle.go:33-53 | The three-colour recursion: gray nodes are the path, black ones are finished after all their dependencies; it ends with the same path, or with a simple cycle. |
| `Cycle.Detector.ReportCycle` | internal/resolver/cycle.go:39-40 | A back edge to a gray node yields a simple cycle that starts at the edge's target. |
| `Cycle.CycleError` | internal/resolver/cycle.go:73-91 | The chain is the path from the first occurrence of the target, with the target repeated at the end; a target that is not on the path leaves the whole path. |
| `Cycle.BackEdgeClosesCycle` | internal/resolver/cycle.go:73-88 | A path without repetition and an edge back into it make a cycle that meets no node twice. |
| `Modules.ModuleStore.Imports` | internal/module/module.go:186-194 | Appends the modules to the import list and changes nothing else. |
| `Modules.ModuleStore.Providers` | internal/module/module.go:201-209 | Appends the providers and changes nothing else. |
| `Modules.ModuleStore.Exports` | internal/module/module.go:254-265 | Sorts the tokens into exported providers and re-exported modules, in order. |
| `Modules.ModuleStore.RunFn` | internal/module/assemble.go:43-45 | Running a module's function has the effect of its builder calls in order, on that module only. |
| `Modules.CallsAddInOrder` | internal/module/module.go:186-265 | A module function adds what its calls list, kind by kind, behind what is there and in the order of the calls. |
| `Modules.TokensInOrder` | internal/module/module.go:254-265 | Exported tokens are sorted into providers and modules without changing their order. |
| `Modules.ModuleStore.SetOwners` | internal/module/assemble.go:47-49 | Each provider of the module gets the module as its owner, other owners stay. |
| `Modules.ModuleStore.WalkImports` | internal/module/assemble.go:28-64 | Over a graph that the module functions are still writing, cycles and diamonds included, the walk ends; the order holds exactly the modules reachable from the root, each once, root first, in nondecreasing import distance; exactly these have run their function, each once; the last registrar of a provider owns it. |
| `Modules.DrainedIsByDistance` | internal/module/assemble.go:33-64 | When the queue is empty, the visiting order is the reachable set by import distance. |
| `Modules.FoundAtDistance` | internal/module/assemble.go:33-64 | No module is met deeper than any walk of imports that leads to it. |
| `Modules.VisitFront` | internal/module/assemble.go:34-63 | Taking an unvisited module off the queue and queueing its imports keeps the two-layer shape of a breadth-first walk. |
| `Modules.ValidateExports` | internal/module/assemble.go:83-107 | Nil exactly if every exported provider is declared and every re-exported module imported by the same module; an error names an offending entry of that module. |
| `Modules.ModuleStore.ValidateAll` | internal/module/assemble.go:66-72 | Success returns the whole order and means that all its export lists are valid; a failure names an offending entry of a visited module. |
| `Modules.ModuleStore.Assemble` | internal/module/assemble.go:28-73 | The walk and the validation together. |
| `EffectiveExports.ExportWalk.Expand` | internal/module/module.go:456-480 | Ends on any re-export graph. With the visited set shared over branches, each call returns the first occurrences, along the depth-first order, of what the newly met modules export. |
| `EffectiveExports.EffectiveExports` | internal/module/module.go:447-449 | The walk from an empty visited set computes the effective exports. |
| `EffectiveExports.EffectiveIsUnion` | internal/module/module.go:447-480 | Cyclic and self re-exports included, the effective exports are, without repetition, exactly the providers that some module reachable along re-exports exports itself. |
| `EffectiveExports.OwnExportsFirst` | internal/module/module.go:456-480 | What a module exports itself is what its importers see first. |
| `EffectiveExports.EarlierComesFirst` | internal/module/module.go:456-480 | First occurrences keep their order. |
| `Graphs.PreorderIsReachable` | internal/module/module.go:456-478 | The depth-first order with one shared visited set holds exactly the reachable nodes, each once (the white-path argument). The walk over re-exports and the walk over the modules of the OpenAPI generator both use it. |
| `Graphs.PreorderClosed` | internal/module/module.go:456-478 | Whatever the walk has met or skipped is closed under edges once the walk returns. |
| `EffectiveExports.MergeAbsorbs` | internal/module/module.go:462-478 | Removing duplicates per call and again when merging is the same as removing them once over everything. |
| `Resolver.AssemblyClosesTree` | internal/module/assemble.go:28-107 | After a successful assembly every export list is valid and no import leads out of the visited modules. |
| `Resolver.RegisteredHasOwner` | internal/module/assemble.go:47-49 | Every provider the tree registers has an owner module in the tree, one that registers it. |
| `Resolver.SearchClosure` | internal/resolver/resolver.go:35-82 | Search closure: whatever Find returns from a module of the tree is registered by a module of the tree and has the wanted type; own providers answer first, then the first import that offers or hides the type; it is "not registered" exactly if none does. |
| `Resolver.OwnProvidersWin` | internal/resolver/resolver.go:35-60 | The first own provider of the type wins over every import. |
| `Resolver.FindImportedStops` | internal/resolver/resolver.go:40-49 | The search through the imports stops at the first one that is not silent: found if it effectively exports the type, "not exported" if it only registers it. |
| `Resolver.VisibleIsRegistered` | internal/resolver/resolver.go:67-74 | What a module of the tree effectively exports is registered by some module of the tree. |
| `Resolver.FindAllRefs` | internal/inject/inject.go:503-531 | The result is, each once, exactly the unwrapped providers that are seen to have the type among the own providers of the module and the effective exports of its imports. A view is seen with its interface at any time, a provider with its type only once its builder has run. |
| `Resolver.BuildGraph` | internal/resolver/graph.go:19-49 | An edge u to v is in the graph exactly if provider u recorded an injection that the search resolves to v, or a slice that v is a member of; nothing is returned exactly if a search fails. |
| `Resolver.AllProviders` | internal/resolver/stage3.go:295-313 | Each registered provider once, views left out, and nothing else. |
| `Resolver.ScopedGraph` | internal/resolver/stage3.go:248-270 | The edges of the full graph between nodes of the stage, and no others. |
| `Resolver.SingleEdgesSurvive` | internal/resolver/stage3.go:154-161 | For single-value injections the scope filter drops nothing: the provider found is a node of the stage, so the skip of unknown dependencies is never taken for them. |
| `Bootstrapping.Prepare` | internal/resolver/stage3.go:129-142 | A circle of injections is reported exactly if there is one; otherwise the stage is set up with one task per provider and one per injection of a transient, over a topological order. |
| `Injection.Injector.Inject` | internal/inject/inject.go:608-621 | An injection of a pointer type is recorded under its owner, any other is refused. |
| `Injection.Injector.InjectAll` | internal/inject/inject.go:633-673 | A slice is recorded exactly if the type is an interface and no match is seen to have another scope than Singleton; it holds the matches as they are seen while only some builders have run. |
| `Injection.Injector.Declare` | internal/inject/inject.go:572-673 | The builder of a provider runs once; it succeeds if and only if every single injection asks for a pointer type and every slice for an interface that the guard lets through, and then all its requests are recorded in order under it. |
| `Injection.Injector.DeclareProviders` | internal/app/app.go:846-854 | It succeeds if and only if no builder panics, each on what the providers registered before its own first registration have declared; then every registered provider is declared, and the recorded injections and slices are exactly what the builders request, in the order of first registrations. |
| `Injection.GuardPassesIff` | internal/inject/inject.go:652-660 | The guard lets an InjectAll of the builder of p through if and only if no match that is no singleton is registered before p, where matches are those of all providers once all builders have run. |
| `Injection.LateMemberIff` | internal/inject/inject.go:652-660 | Behind the guard a provider that is no singleton is a member of the slice if and only if a view of it as the interface is visible to the owner. |
| `Injection.TransientMemberSlipsThrough` | internal/inject/inject.go:652-660 | A consumer registered before a transient adapter and its view gets the adapter as a slice member; with the adapter first the same call panics. |
| `Injection.ValidateProviderAsRefs` | internal/app/provider_as_validate.go:34-55 | Nil exactly if every registered view wraps a declared provider that implements its interface; an error names a registered view that does not. |
| `Injection.GuardKeepsSliceMembers` | internal/app/app.go:398-411 | Behind that check every slice member is registered, and so a node of the stage, but for providers that only an earlier bootstrap of the process has declared. |
| `Injection.MatchesAreNodesIff` | internal/app/test_app.go:121-131 | Without the check, as in a test application, no InjectAll can match a provider that no module registers if and only if every registered view wraps a registered provider. |
| `Injection.GuardAsksForRegistration` | internal/app/provider_as_validate.go:34-55 | For well-typed views the check asks for exactly this condition. |
| `Startup.Start` | internal/app/app.go:380-420 | From the modules and builders of an application to the stage. The tree is what assembly reaches from the root, the recorded injections are exactly what the builders request, and the stage serves them. Each way to stop short has its exact condition: an invalid export list, a builder that panics, a view that does not hold, no provider at all, a search that fails, a circle of injections; without these the stage runs. With the check of the views every slice member is a node that fits its slot. |
| `Startup.RequestsReachStage` | internal/resolver/stage3.go:129-161 | A builder requests a single provider of a type if and only if the stage has a placeholder of its own for it with a target of this type. |
| `Startup.TransientSlotIff` | internal/resolver/stage3.go:386-396 | A transient provider is a slice member of the stage if and only if some builder asks for an interface as which a view of it is visible to that builder. |
| `Startup.CheckedSlotsAreWrittenIff` | internal/resolver/stage3.go:386-396 | In an application that New has started, in a run that returns nil, a slot of an InjectAll slice is written, exactly once, unless its member is transient. |
| `Startup.UnregisteredMemberStaysEmpty` | internal/app/test_app.go:121-131 | Where views are not checked, a slot whose member no module registers is never written, whatever becomes of the stage. |
| `LazyInjection.LazyResolver.MustLazy` | internal/inject/inject.go:355-423 | The last own provider of the type answers, from the values kept or by an eager call. The call is kept unless the constructor fails or records a single injection; slices that it records pass, if the provider has an owner, and panic otherwise. |
| `LazyInjection.LastOwnProviderAnswers` | internal/inject/inject.go:361-422 | If an own provider of the type is followed by no other one of the type, it is the one that is called, and its value is returned and kept, unless the constructor fails or records what it may not. |
| `LazyInjection.NoCallWithoutNeed` | internal/inject/inject.go:361-386 | A value that was kept is returned without a call; what is no singleton is never called; an unknown type has no answer. |
| `LazyInjection.LazyAgreesWithFindIff` | internal/inject/inject.go:361-368 | Find serves a type from the first own provider of it, Lazy from the last: they agree if and only if these are the same. |
| `LazyInjection.AttemptsBalance` | internal/inject/inject.go:374-422 | After any attempts, the eager calls of a provider are those that came to nothing and one more if its value was kept; only singletons are called. |
| `LazyInjection.CallsOfBootstrap` | internal/resolver/stage3.go:323-361 | Over a whole bootstrap that returns nil, a provider that is neither transient nor overridden is constructed once, and once more for each eager attempt that called its constructor in vain. |
| `LazyInjection.ConstructedOnceIff` | internal/resolver/stage3.go:323-361 | It is constructed exactly once, eager calls included, if and only if no attempt is for it or the first one finds a constructor that neither fails nor records a single injection. |
| `LazyInjection.FirstTryDecidesAll` | internal/inject/inject.go:374-422 | Whether the first attempt for a provider keeps its value decides whether any eager call of it comes to nothing. |
| `LazyInjection.FailedAttemptIsRepeated` | internal/inject/inject.go:425-442 | A callback that tries its provider with SafeInject and fails is followed, in every bootstrap that returns nil, by a second call of the same constructor. |
| `LazyInjection.TransientCallsOfBootstrap` | internal/resolver/stage3.go:195-209 | Transient providers are constructed exactly once per injection of them and never eagerly. |
| `LazyInjection.BuilderInjectionsPass` | internal/inject/inject.go:391-411 | When the constructor of a provider is first called eagerly, the injections it has pending are exactly those that its builder requests; whatever they are, a constructor that returns is kept. |
| `LazyInjection.EagerCallIsSuppliedIff` | internal/inject/inject.go:391-411 | All that the provider injects in the whole bootstrap is pending at its first eager call. Its placeholders are all filled by then if and only if its builder injects no single provider, transients included, and the slots of its slices if and only if these have no members. |
| `Bootstrapping.StageIsWellFormed` | internal/resolver/stage3.go:129-223 | What assembly, the search and cycle detection establish is what the concurrent stage relies on. |
| `Bootstrapping.EdgeIsStaged` | internal/resolver/stage3.go:507-524 | The target of a recorded injection is a node of the stage and a dependency of its owner. |
| `Stage3.AdvanceKeepsInv` | internal/resolver/stage3.go:153-223 | Every step of every goroutine keeps the invariant: channels closed at most once, cells written only by their owner and once, values from the constructor call that the log lists for the task that fills the cell. |
| `Stage3.ActTouches` | internal/resolver/stage3.go:178-223 | A step closes only its own channel, writes only its own cells and logs at most its own constructor call. |
| `Stage3.OthersKeep` | internal/resolver/stage3.go:178-223 | What one goroutine does leaves the invariant of any other intact. |
| `Stage3Runs.RunInv` | internal/resolver/stage3.go:144-225 | The invariant holds in every state of every run, cancellation by the caller included. |
| `Stage3Runs.NoDeadlock` | internal/resolver/stage3.go:153-225 | In every reachable state with an unfinished task some task can move. |
| `Stage3Runs.BlockedByLower` | internal/resolver/stage3.go:153-176 | A blocked task waits for an unfinished one that is lower in the topological order. |
| `Stage3Runs.RunsAreBounded` | internal/resolver/stage3.go:178-225 | No run takes more steps than there is work in the initial state. |
| `Stage3Runs.MaximalRunsFinish` | internal/resolver/stage3.go:178-225 | A run that cannot be continued has finished every task and closed every done channel exactly once. |
| `Stage3Runs.SuppliedBeforeConstruction` | internal/resolver/stage3.go:153-222 | In a run that returns nil, whenever the stage starts a constructor, for a singleton or for one injection of a transient, every placeholder and slice slot of its provider whose target is a non-transient node has been given the value of the target, and holds exactly that as far as its type admits it. |
| `Stage3Timing.FilledBeforeStartIff` | internal/resolver/stage3.go:153-222 | A constructor can count on a placeholder of its provider, in every run that returns nil, if and only if the provider behind it is not transient and no override of another type stands in for it. |
| `Stage3Timing.TransientPlaceholderCanBeEmpty` | internal/resolver/stage3.go:195-209 | For every stage, every injection of a transient and every constructor call of its owner, some undisturbed run starts that call while the placeholder is empty. |
| `Stage3Timing.CarryOn` | internal/resolver/stage3.go:195-225 | Every run without failures can be carried on to one that returns nil. |
| `Stage3Runs.DependencyFilled` | internal/resolver/stage3.go:363-396 | Past its waits, a task of a run without failures finds a dependency resolved, and in every cell the dependency fills its value if the cell accepts it and nothing otherwise. |
| `Stage3Runs.AcceptsArrivingIff` | internal/resolver/stage3.go:363-396 | A placeholder takes what arrives unless an override of another type stands in; a slot takes it if its type is assignable to the interface. |
| `Stage3Runs.CallsAreExact` | internal/resolver/stage3.go:323-423 | In a run that returns nil, the stage calls the constructor of an overridden provider never, that of a transient one exactly once per injection that resolves to it, and any other exactly once unless an eager value was kept. |
| `Stage3Runs.PlaceholdersWrittenOnce` | internal/resolver/stage3.go:363-377 | In a run that returns nil, every placeholder is written exactly once, except that one whose provider is overridden by a value of another type is never written. |
| `Stage3Runs.SlotsWrittenOnce` | internal/resolver/stage3.go:386-396 | In a run that returns nil, a slice slot is written, exactly once, if and only if its member is a node of the stage, is not transient, and resolves to a value that is assignable to the interface. |
| `Stage3Runs.UnwritableSlotsStayEmpty` | internal/resolver/stage3.go:386-396 | No other slot is ever written, whatever becomes of the run. |
| `Stage3Runs.UndisturbedReturnsNil` | internal/resolver/stage3.go:195-225 | Without a failing constructor and without cancellation, a run that cannot be continued returns nil. |
| `Stage3Values.CellHoldsOwnCall` | internal/resolver/stage3.go:323-423 | In every reachable state a cell holds one value at most: the override or the eager value of its provider, or else the result of that very call which the log lists for the task that fills the cell. |
| `Stage3Values.TransientsAreNotShared` | internal/resolver/stage3.go:195-209 | In a run that returns nil, different injections of a transient that is not overridden hold different values, each of a constructor call of its own. |
| `Stage3Values.SingletonsAreShared` | internal/resolver/stage3.go:363-396 | All cells of a provider that is not transient hold the same value, in every reachable state, as far as they hold any. |
| `Stage3Values.FailureCancels` | internal/resolver/stage3.go:144-225 | Once a goroutine has returned an error the context is cancelled, in the rest of every run. |
| `Stage3Values.FailedCallIsReported` | internal/resolver/stage3.go:195-225 | After a constructor call that fails no continuation of the run returns nil. |
| `WsProtocol.OperationTable.RegisterOp` | internal/graphql/ws_protocol.go:163-167 | The id is registered with the channel, nothing else changes. |
| `WsProtocol.OperationTable.IsOpActive` | internal/graphql/ws_protocol.go:178-183 | Whether the id is registered. |
| `WsProtocol.OperationTable.TakeOut` | internal/graphql/ws_protocol.go:184-190 | The lock region of stopOp removes exactly the one id and hands out its channel; the step system moves by the same functions. |
| `WsProtocol.OperationTable.StopOp` | internal/graphql/ws_protocol.go:184-194 | Removes and closes exactly the one id; a second call finds nothing. |
| `WsProtocol.OperationTable.StopAllOps` | internal/graphql/ws_protocol.go:195-207 | Empties the table and closes every channel it held, each once. |
| `Channels.DrainTable` | internal/graphql/ws_protocol.go:196-202 | The list taken under the lock holds exactly the registered channels, each once. |
| `Channels.CloseAll` | internal/graphql/ws_protocol.go:204-206 | Every channel of the list is closed, none twice. |
| `WsProtocol.RunKeepsOwnership` | internal/graphql/ws_protocol.go:160-306 | Over every interleaving of read loop, emits, handler returns and exit, each channel made is in exactly one place: the table, one goroutine about to close it, or closed. None is closed twice, no registration overwrites another, and after the exit sweep the table is empty. |
| `WsProtocol.QuiescentMeansAllClosed` | internal/graphql/ws_protocol.go:184-212 | After exit, once every goroutine is done, each channel ever made was closed exactly once. |
| `WsProtocol.HandleKeepsTokens` | internal/graphql/ws_protocol.go:163-207 | Each lock region and each close moves a channel from one place to the next, or makes a new one. |
| `WsProtocol.StopTakesLatest` | internal/graphql/ws_protocol.go:413-421 | The deferred stop of a stream takes the channel registered under its id, and that channel is its own exactly if no later stream was given the same id. |
| `WsProtocol.StaleStopCancelsNewerStream` | internal/graphql/ws_protocol.go:413-421 | A run in which a client completes an id, subscribes under it again, and loses the second stream to the stop of the first. |
| `WsProtocol.AckOnceAndFirst` | internal/graphql/ws_protocol.go:235-306 | A connection writes at most one connection_ack, and no next, error or complete frame before one that was delivered, whatever the client sends and however the streams interleave. |
| `WsProtocol.RefusalsFitTheWire` | internal/graphql/ws_protocol.go:226-306 | The server closes with one of five codes, and each fits the frames written: 4408 before any frame, 4401 only where no acknowledgement was written, 4429 and 4409 only where exactly one was. |
| `WsProtocol.DecideKeepsHandshake` | internal/graphql/ws_protocol.go:240-284 | No message takes the connection into an operation before it is acknowledged. |
| `WsReplies.ReplyTo` | internal/graphql/ws_protocol.go:235-306 | What the loop makes of each message, whatever the streams do meanwhile, if every write succeeds: one acknowledgement for the first init, one pong for a ping, nothing for a complete; an accepted operation gets one error frame if it is malformed, its result and then its completion if it is a query, the completion alone if the result cannot be encoded, and a stream of its own without any frame if it is a subscription. Otherwise the connection closes with the code for the mistake and without a frame. |
| `WsReplies.ResultWrite` | internal/graphql/ws_protocol.go:424-442 | From the result on, the loop writes the result and the completion of the id, in this order, and reads on. |
| `WsReplies.AnswerComes` | internal/graphql/ws_protocol.go:235-306 | A loop that is left alone has answered a message after five steps at most. |
| `WsReplies.ActsAreSteps` | internal/graphql/ws_protocol.go:160-306 | The acts that the replies are told by are exactly the steps of the connection. |
| `WsReplies.EndOfReading` | internal/graphql/ws_protocol.go:226-233 | Where no message is read the connection ends without a frame, with 4408 if the first one did not come in time. |
| `WsReplies.FailedWriteEnds` | internal/graphql/ws_protocol.go:240-284 | After a write that fails the loop is on its way out, with no code of its own. |
| `WsReplies.LeavingWritesNothing` | internal/graphql/ws_protocol.go:195-212 | A loop on its way out writes no frame. |
| `WsProtocol.EmitKeepsOwnership` | internal/graphql/ws_protocol.go:398-411 | An emit, even of a cancelled stream, moves no channel. |
| `Reservations.ReservationRegistry.Reserve` | internal/graphql/reservation.go:58-66 | Adds an empty entry for the token; nothing else changes. |
| `Reservations.ReservationRegistry.Attach` | internal/graphql/reservation.go:71-82 | Succeeds exactly on a known token, and sets its writer only. |
| `Reservations.ReservationRegistry.Route` | internal/graphql/reservation.go:88-100 | The writer of a known, attached token, and nothing otherwise. |
| `Reservations.ReservationRegistry.StartOperation` | internal/graphql/reservation.go:112-125 | Registers the channel under token and id exactly if the token is known; other entries stay. |
| `Reservations.ReservationRegistry.StopOperation` | internal/graphql/reservation.go:133-150 | Succeeds exactly if the stream is registered; removes it and closes its channel and no other; the channels left stay open and distinct. |
| `Reservations.ReservationRegistry.Release` | internal/graphql/reservation.go:161-176 | Forgets the token and closes exactly the channels registered under it. |
| `Reservations.RunKeepsOwnership` | internal/graphql/reservation.go:58-176 | Over every interleaving of the registry's callers each channel is in exactly one place: the registry, one goroutine about to close it, closed, or lost. So none is closed twice, and none has two closers. |
| `Reservations.NextKeepsTokens` | internal/graphql/reservation.go:112-176 | Each lock region and each close moves a channel from one place to the next, or makes a new one. |
| `Reservations.StopTakesItsOwn` | internal/graphql/reservation.go:133-150 | A stop of (token, id) takes the channel made for (token, id), and leaves every other registration. |
| `Reservations.StopTakesOwnIff` | internal/graphql/sse_single.go:353-389 | Over every run, the stop on behalf of a stream takes the channel of that stream if and only if no later stream was given its token and id. |
| `Reservations.StaleStopCancelsNewerStream` | internal/graphql/sse_single.go:353-389 | A run in which the stop of the first of two streams under one id closes the channel of the second, which still runs. |
| `Reservations.ReleaseIsFinal` | internal/graphql/reservation.go:161-170 | A released token is never routable, attachable or holder of a stream again in the rest of the run. |
| `Reservations.ReleaseDoomsItsStreams` | internal/graphql/reservation.go:161-175 | From the release on, each channel then registered has exactly one closer until it is closed, in the rest of every run. |
| `Reservations.QuiescentMeansClosedOrLost` | internal/graphql/reservation.go:133-175 | When all goroutines are done and all tokens released, a channel was closed exactly once or was lost. |
| `Reservations.StartLosesIff` | internal/graphql/reservation.go:112-125 | A start loses a channel if and only if its token is not registered or its id is in use; then it loses exactly one, its own or the one it replaces. |
| `Reservations.RunLosesIff` | internal/graphql/reservation.go:112-125 | Over every run, as many channels are lost as streams were started under an unregistered token or an id in use; none is lost if and only if there was no such start. |
| `Reservations.UniqueIdsLoseNothing` | internal/graphql/sse_single.go:353-389 | With operation ids used once per token, no channel of a registered token is lost: it is registered, about to be closed, or closed. |
| `Reservations.AttachTwice` | internal/graphql/reservation.go:71-82 | A run in which two connections attach to the same token and the second takes it over. |
| `Reservations.ReusedIdLosesChannel` | internal/graphql/sse_single.go:357-358 | A run in which a reused operation id leaves a running stream that no stop and no release can reach. |
| `Reservations.LateStartLosesChannel` | internal/graphql/sse_single.go:357-358 | A run in which a routed operation starts after the release with a channel the registry refused. |
| `Validation.ValidateStruct` | internal/validate/validate.go:246-268 | Reports, as a multiset over structured paths, exactly the failure sites of the object against the schema, each message once, and renders each path as the field. |
| `Validation.ValidateProperty` | internal/validate/validate.go:249-265 | One property contributes exactly what is due at and below it; a hidden one nothing. |
| `Validation.ValidateValue` | internal/validate/validate.go:279-308 | Sanitize first, then Custom instead of all other checks, then null, then the kind; the result is exactly what is due at and below the value. |
| `Validation.ValidatePrimitive` | internal/validate/validate.go:331-434 | The messages are, each once, exactly those whose own condition the value violates; a value of the wrong kind gets one message only. |
| `Validation.ValidateString` | internal/validate/validate.go:335-372 | Length, pattern and enumeration are all collected. |
| `Validation.ValidateNumber` | internal/validate/validate.go:374-398 | Integrality, bounds and enumeration, with the conversion to int64 made explicit. |
| `Validation.ValidateDuration` | internal/validate/validate.go:406-425 | Duration syntax first, then bounds and enumeration. |
| `Validation.ValidateArray` | internal/validate/validate.go:468-502 | Quantity violations at the array itself, and exactly what is due in each item. |
| `Validation.ValidateObject` | internal/validate/validate.go:514-530 | Nothing for an open object, one message for a non-object, and otherwise exactly what is due inside. |
| `Validation.Contains` | internal/validate/validate.go:440-458 | The linear scan answers membership. |
| `Validation.TagKeyVisible` | internal/validate/validate.go:218-236 | The key is the tag up to its first comma, the field name if that is empty, and none for "-". |
| `Validation.ValidateBody` | internal/validate/validate.go:128-163 | For a decoded body, object or not: all failure sites and nothing else, and no violation exactly if the body conforms. |
| `Termination.ValidateAnyBody` | internal/validate/validate.go:246-530 | If sanitizers deepen values on such properties only as do not lead back to their own schema, the pass ends on every body and reports exactly its failure sites. |
| `Termination.SchemaEnds` | internal/validate/validate.go:246-530 | Under this condition every object of every schema has a bound, by the schemas still ahead and the depth of the value. |
| `Termination.GentleCatalogIsEnough` | internal/validate/validate.go:246-530 | The condition holds if no sanitizer deepens a value at all, and if references have no cycle. |
| `Validation.EmptyMeansConforms` | internal/validate/validate.go:246-268 | The list is empty exactly if the value conforms. |
| `Validation.ConformsUnfolds` | internal/validate/validate.go:246-530 | A value conforms exactly if nothing fails at its top and each of its parts conforms. |
| `Termination.GentleSchemasTerminate` | internal/validate/validate.go:279-308 | The recursion is bounded on every value, self-referential schemas included, if no sanitizer deepens a value. |
| `Termination.TerminatesIffAcyclic` | internal/validate/validate.go:246-530 | The recursion comes to an end on every body, for every schema of an application and whatever its sanitizers do, if and only if the references that validation follows have no cycle. |
| `Termination.AcyclicSchemasTerminate` | internal/validate/validate.go:246-530 | Without a cycle the depth is bounded by the number of schemas and the nesting of arrays, for any sanitizers. |
| `Termination.CyclicNeverEnds` | internal/validate/validate.go:284-286 | For every cycle of references there are sanitizers with which the recursion has no bound. |
| `Validation.EnumIsExactIff` | internal/validate/validate.go:389-397 | An enumerated number is compared after truncation: the check refuses exactly the numbers that are not listed if and only if the number is integral or its truncation is not listed either. |
| `Validation.IntegerEnumIsExact` | internal/validate/validate.go:374-397 | For an integer property a number is refused, as no integer or as none of the listed ones, if and only if it is not listed. |
| `Population.SetField` | internal/validate/validate.go:671-799 | Succeeds exactly if the value can be converted to the field's type, and then the cell holds the conversion; otherwise the cell is unchanged. |
| `Population.Target.PopulateField` | internal/validate/validate.go:560-592 | One property: absent or hidden leaves the field, present assigns its sanitized or custom value. |
| `Population.Target.Populate` | internal/validate/validate.go:559-597 | Succeeds exactly if every present field can be assigned, in any order; then all are assigned and every other field is as it was. |
| `Population.ParseFlat` | internal/validate/validate.go:128-163 | Two-pass agreement for flat structs: written without error exactly if there is no violation, each present field with the value its key brings, every other field untouched. |
| `Population.ValidFieldIsAssigned` | internal/validate/validate.go:559-597 | A field that the first pass accepts is one that the second can write. |
| `Population.TypedValueArrives` | internal/validate/validate.go:697-714 | A value of the field's own type, behind its pointers, arrives unchanged. |
| `Population.NullIsLikeAbsentIff` | internal/validate/validate.go:678-691 | A null for a plain property is accepted exactly if it is nullable, and leaves the same struct behind as a missing key if and only if it meets no pointer that was set before. |
| `Population.NumberArrivesIff` | internal/validate/validate.go:743-757 | A JSON number arrives in a signed integer field as it is exactly if it is integral and fits the width. |
| `Population.UnsignedArrivesIff` | internal/validate/validate.go:743-757 | A JSON number arrives in an unsigned field as it is exactly if it is integral, not negative and below the span of the field. |
| `Population.NanosecondsArriveIff` | internal/validate/validate.go:743-757 | A JSON number arrives in a duration field exactly if it is an integer that int64 holds. |
| `Population.DurationArrives` | internal/validate/validate.go:724-734 | A text that the first pass lets through for a duration is stored as the duration it names, within the bounds and the enumeration of its property. |
| `Population.CustomDecides` | internal/validate/validate.go:279-294 | A custom check decides alone, on the sanitized value and null included, and the second pass converts what it returns. |
| `Population.ChangedUnnoticedIff` | internal/validate/validate.go:374-398 | Both passes take a number and another one is stored if and only if the first pass accepts it and it is not an integer of the width of the field. |
| `Population.UnboundedNumberChangesIff` | internal/validate/validate.go:374-398 | Without bounds and enumeration these are, for an integer property, exactly the integers that int64 holds and the field does not, and for a number property all that are no integer of the width. |
| `Population.PointerIsRefused` | internal/validate/validate.go:697-704 | A pointer returned by a custom function is refused by the second pass for every field. |
| `Documentation.OpenApi.RegisterSchema` | internal/openapi/generate.go:570-614 | Ends on any schema graph; a reserved schema is not walked again; otherwise it is reserved, walked once and written. The reserved schemas without a component are on the recursion stack. |
| `Documentation.OpenApi.Reserve` | internal/openapi/generate.go:577-586 | The name is taken before any property is walked. |
| `Documentation.OpenApi.WalkProperties` | internal/openapi/generate.go:588-597 | All properties are described under their keys, and everything they refer to is reserved. |
| `Documentation.OpenApi.Write` | internal/openapi/generate.go:599-613 | The component is entered under its name and the schema leaves the stack. |
| `Documentation.OpenApi.SchemaFor` | internal/openapi/generate.go:375-481 | The description of a property depends on the property and the names only, not on when it is asked for; all schemas it refers to are reserved. DocumentMeaning says what it admits. |
| `Documentation.OpenApi.RefSchema` | internal/openapi/generate.go:364-367 | The reference is the string that is made of the name of the schema, with the schema reserved. |
| `ApiDocument.TargetsAreRefs` | internal/openapi/generate.go:375-481 | The references in a description are made of the names of exactly the schemas the property refers to. |
| `ApiDocument.DisplayedAsValidatedIff` | internal/openapi/generate.go:588-597 | The documentation names a property as the validator does if and only if its tag is not "-". |
| `ApiDocument.HiddenIsDocumented` | internal/openapi/generate.go:588-597 | A property whose tag is "-" is documented, as required if it is so, although the validator finds it in no object and misses it in none. |
| `DocumentMeaning.HereAgreesIff` | internal/openapi/generate.go:375-505 | At one value, what the Schema Object of a property admits by the rules of JSON Schema and what the validator lets through are the same if and only if the value is none of these: null for a nullable enumeration or a property without a kind; a text in bounds by bytes but not by characters, or the other way round; a text held against a pattern that does not compile; an integral number beyond 64 bits; a number taken for an enumerated one when truncated; no object where an open one is declared; no duration. |
| `DocumentMeaning.SilentIff` | internal/validate/validate.go:279-434 | The validator has nothing to say about a value itself exactly if it has the kind, the bounds, the pattern and the enumeration of its property. |
| `DocumentMeaning.ValueAgrees` | internal/openapi/generate.go:375-505 | A whole value, with everything inside and along all references: the document admits it for a property if and only if the validator reports nothing, where no hooks are set and no such place lies in it. |
| `DocumentMeaning.ObjectAgrees` | internal/openapi/generate.go:570-614 | An object is admitted by the component of a schema, on every level, if and only if the validator reports nothing about it. |
| `DocumentMeaning.DocumentAgrees` | internal/openapi/generate.go:37-162 | The same for the document that a finished walk has written, where schemas have plain and distinct names. |
| `DocumentMeaning.BodyAgrees` | internal/validate/validate.go:128-163 | A body that is no object is never admitted, but passes as an object without keys, which it does exactly if nothing is required. |
| `DocumentMeaning.RequestAgrees` | internal/openapi/generate.go:130-156 | The path, query and form properties of an operation admit what the validator passes for the schemas that the route declares there. |
| `DocumentMeaning.RequestBodyAgrees` | internal/openapi/generate.go:130-156 | The body of an operation admits what passes for the schema of the body, and is left out if there is a form. |
| `DocumentMeaning.ResponseAgrees` | internal/openapi/generate.go:201-262 | A response admits what passes for its own schema or, without one from status 400 on, for that of the exceptions; below 400 it has none. |
| `DocumentMeaning.NullIsNotListed` | internal/openapi/generate.go:493-505 | A nullable enumeration: the validator lets null through and the document does not. |
| `DocumentMeaning.BytesAreNotCharacters` | internal/validate/validate.go:342-347 | A text of one character in two bytes is too long for the validator and not for the document. |
| `DocumentMeaning.NamesakesClash` | internal/openapi/generate.go:579-586 | Of two schemas without a title whose types have the same name, at least one has no component of its own. |
| `References.PointsHomeIff` | internal/openapi/generate.go:364-367 | Read as a URI fragment (section 3.5 of RFC 3986) that holds a JSON pointer (RFC 6901), the reference made of a name points to the component of that name if and only if the name has no slash, tilde or percent sign. |
| `References.SlashPointsNowhere` | internal/openapi/generate.go:364-367 | The reference made of a name with a slash points to no component at all. |
| `Documentation.OpenApi.WalkRoute` | internal/openapi/generate.go:95-162 | The operation describes parameters, form or body, and responses, and every schema it refers to is reserved. |
| `Documentation.OpenApi.WalkResponses` | internal/openapi/generate.go:201-234 | Each status refers to its schema, to that of the exceptions for an error without one, or to none; a route without responses has its own status alone. |
| `Documentation.OpenApi.WalkModule` | internal/openapi/generate.go:55-75 | The walk over modules that import each other in any way ends, with exactly the modules of the depth-first order visited and the routes of their controllers shown in that order. |
| `ApiDocument.DocumentedRoutes` | internal/openapi/generate.go:55-90 | A route is documented if and only if it is not excluded and belongs to a controller of a module that imports reach from the root; each module is walked once. |
| `ApiDocument.LastRouteIsShown` | internal/openapi/generate.go:157-161 | The document has an operation for exactly the paths and methods of the documented routes; of several with the same path and method the last is shown. |
| `Documentation.OpenApi.Generate` | internal/openapi/generate.go:37-162 | Afterwards the document shows exactly the documented routes, the stack is empty, and the registered schemas are exactly those that the routes reach by references, each walked once. |
| `Documentation.OpenApi.ReferencesAreMade` | internal/openapi/generate.go:364-614 | Every $ref of the document, in an operation or in a component, is made of the name of an existing component; the component names are the names of the schemas that the routes reach. |
| `Documentation.OpenApi.ReferencesResolveIff` | internal/openapi/generate.go:364-614 | Every $ref of the document leads to the component it was made for if and only if no component referred to has a slash, a tilde or a percent sign in its name. |
| `Documentation.OpenApi.SlashInTitleDangles` | internal/openapi/generate.go:364-367 | A response body of a schema titled "a/b" is documented by a reference that leads nowhere. |
| `Documentation.OpenApi.OwnComponentsIffDistinctNames` | internal/openapi/generate.go:579-613 | Every documented schema has a component of its own exactly if no two of them share a name. |
| `Dotenv.ParseFile` | internal/dotenv/parse.go:42-95 | The loop with its jumping index computes the entries of the lines one after the other, each seeing the keys before it, with the line number of the first error. |
| `Dotenv.RoundTrip` | internal/dotenv/parse.go:42-95 | Printing identifiers with arbitrary values, each escaped in double quotes if it has no active dollar sign (none at all in particular) or literally between backticks over several lines, and reading the text back gives the same list in order, in every environment. |
| `Dotenv.QuotedRoundTripIff` | internal/dotenv/parse.go:299-343 | The condition on dollar signs is exact: where nothing is defined, a quoted value comes back if and only if it has no active one. |
| `Dotenv.BlockRoundTripIff` | internal/dotenv/parse.go:51-129 | A value printed between backticks comes back, in any environment, if and only if it has no backtick, no backslash left open at its end, and no carriage return before a newline. |
| `Dotenv.ScanKeeps` | internal/dotenv/parse.go:230-250 | A scan leaves out the closing delimiter and each backslash before one; if it leaves out nothing else, it has read a text without delimiters as it is. |
| `Dotenv.NoDollarIsInert` | internal/dotenv/parse.go:299-343 | A value without dollar signs has no active one. |
| `Dotenv.InertStays` | internal/dotenv/parse.go:299-343 | Text without an active dollar sign is left as it is in every environment. |
| `Dotenv.ActiveShrinks` | internal/dotenv/parse.go:299-368 | Where nothing is defined, an active dollar sign always shortens the text. |
| `Dotenv.EscapedScans` | internal/dotenv/parse.go:230-250 | The scan of an escaped text stops at its own closing quote. |
| `Dotenv.HalfUnescapes` | internal/dotenv/parse.go:259-289 | Unescaping what the scan leaves gives the original text, with quotes, backslashes, tabs, CR and LF. |
| `Dotenv.ExtractDelimited` | internal/dotenv/parse.go:230-250 | The index loop is the scan for the first unprotected delimiter. |
| `Dotenv.ScanExtends` | internal/dotenv/parse.go:230-250 | Text after the closing delimiter changes nothing before it. |
| `Dotenv.ExtractBacktickBlock` | internal/dotenv/parse.go:111-129 | The retry loop finds the first number of lines with which the value closes. |
| `Dotenv.BlockIsOnePass` | internal/dotenv/parse.go:111-129 | Retrying line by line agrees with one scan over any number of CR-trimmed lines joined by newlines, the whole rest included: same content, the least number of lines, failure exactly if the whole scan fails. |
| `Dotenv.EveryLineHasOneOwner` | internal/dotenv/parse.go:51-92 | In a file that parses every physical line is accounted for exactly once. |
| `Dotenv.OwnersAreThePairs` | internal/dotenv/parse.go:51-92 | The lines' owners are exactly the parsed pairs, each with lines of its own. |
| `Dotenv.ApplyEscapes` | internal/dotenv/parse.go:259-289 | The index loop is the left-to-right replacement of the four escapes. |
| `Dotenv.ResolveInterpolation` | internal/dotenv/parse.go:299-343 | The index loop takes the text apart into plain bytes and expansions from left to right; TemplateReads says what these become. |
| `Dotenv.SplitsAsWrittenIff` | internal/dotenv/parse.go:389-396 | An expression of a name, an operator and an argument is split as written exactly if the argument holds no operator that is looked for earlier. |
| `DotenvMeaning.TemplateReads` | internal/dotenv/parse.go:299-407 | $NAME and ${NAME} become the value or nothing; the argument of an operator comes out if and only if the name is unset or empty (:-), unset (-), set and not empty (:+), set (+), and otherwise the value for the first two and nothing for the last two. Keys of the file hide the environment. |
| `DotenvMeaning.WrittenReads` | internal/dotenv/parse.go:148-215 | Bare and double-quoted values are expanded, single-quoted text is not; a comment is dropped, and so is white space behind a closing quote, but no other text; spaces before a value do not matter. |
| `DotenvMeaning.TwoPassesAreOne` | internal/dotenv/parse.go:230-289 | Taking out escaped quotes first and the other escapes afterwards is one pass over the text, in which a backslash before anything else stays. |
| `DotenvMeaning.FileMeans` | internal/dotenv/parse.go:42-95 | Any file of blank lines, comments, assignments in every style, indented or not, and blocks is read as its assignments one after the other, starting from the environment, each known from then on. |
| `DotenvMeaning.EmptyIsNotUnset` | internal/dotenv/parse.go:350-387 | Where an earlier line has set a name to nothing, :- brings its argument and - does not, + brings it and :+ does not. |
| `DotenvMeaning.MalformedLine` | internal/dotenv/parse.go:64-68 | Behind any such file, a line without an equals sign that is neither blank nor a comment fails the whole file with its number. |
| `DotenvMeaning.OpenQuote` | internal/dotenv/parse.go:74-88 | Behind any such file, a quote that is not closed on its line fails the whole file with the number of the line. |
| `DotenvMeaning.CommentBecomesValue` | internal/dotenv/parse.go:148-193 | An empty bare value is not freed from its comment: the comment is its value. |
| `Dotenv.StripBareComment` | internal/dotenv/parse.go:186-193 | Cuts at the first hash that follows a space. |
| `Dotenv.ParseValue` | internal/dotenv/parse.go:148-174 | The dispatch on the opening character, with comments cut before escapes and interpolation. |
| `Dotenv.LiteralBlock` | internal/dotenv/parse.go:111-129 | The lines of a literal text with its closing backtick make up one block of exactly that many lines. |
| `FieldIdentity.OffsetAndTypeIdentify` | internal/schema/schema.go:191-216 | In any layout, with by-value embedding of any depth, no two different fields of a type that takes up space share both cumulative offset and type. |
| `FieldIdentity.FindFieldByOffset` | internal/schema/schema.go:191-198 | Returns the first visible field with this offset and type, and none exactly if there is none. |
| `FieldIdentity.CumulativeOffset` | internal/schema/schema.go:207-216 | The loop sums the offsets along the index path. |
| `FieldIdentity.FindTakenField` | internal/schema/schema.go:133-148 | The field found is the one whose address was taken. |
| `FieldIdentity.ConfusableIffEmpty` | internal/schema/schema.go:191-216 | Offset and type identify the fields of a type in every layout if and only if the type takes up space; for every type without a size there is a layout with two fields that the search confuses. |
| `FieldIdentity.Schema.PropertyOf` | internal/schema/schema.go:133-151 | The address of a visible field registers that field and no other, exactly if no field was registered at its offset before. |
| `FieldIdentity.ExcludesIff` | internal/schema/schema.go:137-151 | Once one of two different fields of types with a size is registered, the address of the other is refused if and only if one of them is an embedded struct and the other lies at its very start. |

## Left out

- Fiber, HTTP, WebSocket and SSE input and output, timers, logging, signals: writes are steps that succeed or fail.
- graphql-go parsing and execution: a subscribe frame is bad payload, bad query, streaming or single result, whichever the environment decides.
- Error message texts: errors carry what the text is made from.
- Builder-time panics of `Module.Imports`, `Providers` and `Exports` on tokens of the wrong kind, and module functions that call builder methods of other modules or inspect their own module.
- Resolvers, listeners, schedulers, middleware and filters of a module, and the direct resolution of their injections: they read the values of the finished stage and change none. Of controllers only the documented routes appear.
- Global singletons, which answer an injection before anything is recorded, and the refusal of injections from inside a constructor of the running stage.
- A builder that calls InjectAll after its own Constructor or Scope call: a builder's requests are taken to come before these.
- The state that `Module.Lazy` callbacks leave for the stages after assembly: `Startup.Start` takes the eager values as given and runs every builder itself, where the code has run some during assembly. A slice recorded by a constructor or a builder in an eager attempt appears in `Lazy.dfy` by owner and interface only, without its members, and a builder that panics in an eager attempt not at all.
- Reuse of a provider over several bootstraps in one process; each model run is one bootstrap.
- The struct copy into placeholders: a cell holds the value of the constructor call, not a copy of its fields.
- Overrides by interface: an override belongs to a provider; how `overrideFor` finds it is not modelled.
- Constructors that never return or that return nil.
- A panic of a stream handler, which ends the process.
- Stage3Runs.SuppliedBeforeConstruction: speaks of runs that return nil only, because a dependent may run after a failed dependency, in the window between the deferred close and the cancellation.
- Validation.ValidateStruct: takes a bound on the depth of its failure sites as a ghost parameter, because with a sanitizer that deepens values on a cycle of references there need not be one; ValidateAnyBody supplies it where no sanitizer on a cycle does.
- Regular expressions, `time.ParseDuration` and JSON decoding themselves; floating-point rounding, float32 fields included.
- `Refine`, `Default`, the Value-schema entry point and the per-source parsers.
- Population.ParseFlat: flat structs with string, integer, float, bool and duration fields and pointers to them only; nested structs go through encoding/json, which is not part of this model.
- OpenAPI formats, descriptions, examples, file fields, tags and security, and the names of parameters: parameters are known by field offset. Generating into a document that already has content.
- Unicode white space in `TrimSpace`: only the six ASCII characters are trimmed.
- Embedding through pointers in the field search: `cumulativeOffset` does not support it.
- `graphql.objectType`, exceptions, scopes, the scheduler, the setters of route documentation and the root re-exports: tables and setters that no property here depends on.
