# Verified model of a WhatsApp socket library

A Dafny model of three parts of the library: how a socket shuts down, how messages are rewritten
between the public and the wire shape, and the portable byte codecs. `dafny verify dfyconfig.toml`
checks all of it.

**The shutdown protocol.** `ClientOwner` is the owner of the native client handle, as a value machine
over its steps and as the class the source has. `TerminalCloseReporter` and `WebSocketListeners` do the
same for the reporter of the terminal close and the listener side of the WebSocket facade.
`SocketMachine` composes startup, `end()`, `logout()`, async disposal, the facade, the owner's close and
the reporter into one step machine: a stretch of code between two awaits is one event, an external call
is a start and a finish, a pending promise is a program counter, and the scheduler resumes any counter
whose awaited thing has settled. `SocketClass` is the same socket as an object whose methods update its
fields in place, each tied to one event of the machine. `SocketSafety` holds the invariant,
`SocketTheorems` what follows for every run, `SocketSequence` in which
order a startup and a close go through their awaits, `SocketProgress` the rank that rules out wait cycles, and
`SocketMisuse` the two ways a caller can break the contract, each with the steps that do it.
`LifecycleContract` has the trace checks of the lifecycle contract as loops proved against order
formulas, and judges the dispatcher by them; `LifecycleOrder` says exactly which runs of the dispatcher
violate the checks that it does not always pass, and `LifecycleStatuses` which status its close carries.
`HistorySync` is the history status with its timer, `HistoryContents` what a chunk publishes.

**Message and protobuf transformations.** `BatchDispatch` is the batch loop, `BatchTheorems` its
refinement of one-at-a-time dispatch, `BatchOrder` its exact order, `BatchContents` what it says of each
message by that message's fields. `ProtoRewrite`, `ProtoProject` and
`ProtoHydrate` have repair, alias projection, hydration and the retrying encode on message trees;
`ProtoRepaired` and `ProtoBridged` say what repair and projection make of a message without following either;
`ProtoGraph` is the repair as it runs, on an object graph with sharing and cycles, and `ProtoCycles` says
which values of one it can read as trees; `ProtoFields` is the own-field walk, `ProtoContents` what the
two conversions put into their output, and `ProtoConversions` the conversions over the walk.

**Byte codecs.** `JsNumber` has the 32-bit operators of JavaScript on integers. `Sha256` has the
standard and the loop, `Sha256Constants` its constants as roots of primes, `Sha256Bits` its word functions
bit by bit, `Base64` the two alphabets as specification and loops over UTF-16 code units
(`JsText`), `Base64Theorems` their laws, `Base64Alphabet` the tables and test vectors of the RFC.

## Findings

Where the code does something other than its documentation or a first reading suggests, the model follows
the code:

- `free()` can meet a running `disconnect()` only through a `ws.connect()` made while teardown is past its
  `ws.close()` and the facade is not closing. A `connect()` before that, or while the facade is still
  closing, is harmless. Such a `connect()` does lead there in some run, unless the close is already held by
  an end handler that awaits async disposal after a failed startup (`ReopeningLeadsToFreeUnderDisconnect`).
- The releasing branch of `discard()` is unreachable in the composed socket: a startup that fails after
  adopting reports a terminal close first, so `discard()` always joins a close.
- An end handler that awaits async disposal deadlocks only when startup failed and is joining the close.
- In the batch, a push name passes the open upsert even when its own message has other metadata and
  closes that upsert (`ClosingPushNameGoesFirst`); so does the report of a message that fails to convert.
  Neither passes the upsert of an earlier run (`EarlyOvertakesOnlyTheOpenRun`).
- Request ids are compared as they are but left out of the payload when empty, so an empty and a missing
  one give two upserts that look alike (`EmptyRequestIdSplits`).
- The dispatcher does not enforce the order the lifecycle contract asks for: LC-003, LC-009 and LC-011 fail
  on exactly the runs whose engine connects twice in a row, or reports a finished offline sync or a message
  while the last state sent is not `open` (`LifecycleOrder`).
- A NaN in a recognised field makes repairMessage (and, in a message field, projectAliases) hand back a new,
  equal object. encodeProtoCompat then retries an encode that nothing has repaired.
- An array in a map field becomes a plain object when one of its entries is rewritten.
- Base64 decoding accepts texts whose unused bits are not zero; exactly those do not come back.
- The cleanup of the history timer is not final: an unfinished RECENT chunk dispatched later arms another.

## Model

| member | source | states |
|---|---|---|
| `ClientOwner.StepKeepsValid` | src/Socket/bridge-client-owner.ts:103-206 | Every step of the owner keeps: each adopted client in exactly one of owned, being released and released; one release start per released client; one teardown. Closing and closed are never left |
| `ClientOwner.ClientsAreConserved` | src/Socket/bridge-client-owner.ts:103-206 | Over every run from a fresh owner, for any number of adopted clients: conservation, release started at most once, teardown at most once, and a client that `peek()` shows has not begun to be released |
| `ClientOwner.ClosingIsForever` | src/Socket/bridge-client-owner.ts:160-178 | Once `isClosing()` is true it stays true in every continuation, and teardown is not run again |
| `ClientOwner.SettlingReleasesEverything` | src/Socket/bridge-client-owner.ts:126-142 | The step that settles `close()` leaves no release in flight: every client adopted so far has been released |
| `ClientOwner.BridgeClientOwner.AdoptClient` | src/Socket/bridge-client-owner.ts:148-158 | `adopt` accepts only in `starting`; a refused client is in `pendingReleases`; the owner moves as the machine says and stays valid |
| `ClientOwner.BridgeClientOwner.CloseOwner` | src/Socket/bridge-client-owner.ts:162-178 | `close` stores `closing` with the client it captured and schedules one run; a second call changes nothing |
| `ClientOwner.BridgeClientOwner.FinishTeardown` | src/Socket/bridge-client-owner.ts:130-142 | Whether teardown resolved or rejected, the phase is `closed`, the client can no longer be peeked at, and its release starts; without one the drain starts |
| `ClientOwner.BridgeClientOwner.FinishCloseRelease` | src/Socket/bridge-client-owner.ts:135-142 | After the release of the captured client the close drains what else is pending |
| `ClientOwner.BridgeClientOwner.DrainReleases` | src/Socket/bridge-client-owner.ts:126-128 | One turn of the drain loop: settled when nothing is pending, otherwise waiting for what is pending now |
| `ClientOwner.BridgeClientOwner.DiscardClient` | src/Socket/bridge-client-owner.ts:180-202 | `discard` joins a close that owns the client, otherwise goes back to `starting` and tracks the release |
| `ClientOwner.BridgeClientOwner.FinishTrackedRelease` | src/Socket/bridge-client-owner.ts:119-123 | A tracked release leaves `pendingReleases` when it is over |
| `SocketSafety.StepKeeps` | src/Socket/core.ts:266-381 | Every step of the composed socket keeps its invariant; closing, a claimed report and a settled close are never undone |
| `SocketTheorems.OneCloseAfterTeardown` | src/Socket/core.ts:823-870 | In every reachable state at most one close has been published, and unless the watchdog or a `logout()` issued while end handlers run published it, at that instant the teardown and `initPromise` had settled and every client built had been freed |
| `SocketTheorems.PublicationIsFinal` | src/Socket/core.ts:441-442 | What has been published stays the one publication of the run |
| `SocketTheorems.SettledLogoutIsClaimed` | src/Socket/core.ts:881-947 | Every `logout()` that has settled leaves a terminal close claimed |
| `SocketTheorems.ClientReleasedOnce` | src/Socket/core.ts:328-381 | In the composed socket the client is freed at most once, is not visible once its release began, is freed when close and startup have settled, and the releasing branch of `discard()` is never taken |
| `SocketTheorems.AdmittedClientRuns` | src/Socket/core.ts:471-504 | Neither decision of `getClient` yields a client on which `run()` was not called, nor one once closing has begun; after a startup that settled on a live socket the second always yields one |
| `SocketTheorems.StepIsSafe` | src/Compatibility/websocket-client.ts:199-239 | Every step but a `ws.connect()` behind a teardown keeps: no `free()` under a `disconnect()`, and a facade disconnect in flight is one that the teardown joins |
| `SocketTheorems.FreeIsNeverUnderDisconnect` | src/Socket/core.ts:266-381 | `client.free()` is never reached while a `disconnect()` is in flight, in every run that never reopens a facade which the teardown has already closed. The condition is the guard `Reopens`, which is narrower than any `ws.connect()` after closing began |
| `SocketSequence.CloseRunsInOrder` | src/Socket/core.ts:266-381 | A close in any run, by the record of what it started and what came back: the facade close, a try at the client where that was refused, the barrier, two store flushes, then every end handler registered by the instant the phase turns closed, each once, in order, none started before the one ahead returned; then the release down to `free()`. It settles fine exactly when both flushes did |
| `SocketSequence.StartupRunsInOrder` | src/Socket/core.ts:595-800 | `run()` is called only behind every await the configuration asks for, in order, each come out fine |
| `SocketSequence.SettledCallsHaveJoined` | src/Socket/core.ts:823-947 | A settled `end()`, `logout()` or disposal has waited for the whole close and for startup, unless its `end()` was called in an end handler |
| `SocketMisuse.ReopeningLeadsToFreeUnderDisconnect` | src/Compatibility/websocket-client.ts:199-209 | The converse, exactly: from a reachable state where a `ws.connect()` meets that guard, a run that begins with it and in which `free()` is reached under a running `disconnect()` exists if and only if one has been met already or the close is not trapped, that is, held by an end handler awaiting async disposal while startup has failed |
| `SocketMisuse.TrapIsForever` | src/Socket/core.ts:1047-1053 | Nothing is freed any more, whatever anyone does, once an end handler awaits async disposal while startup has failed |
| `SocketProgress.StepDescends` | src/Socket/core.ts:266-381 | Every continuation the scheduler can resume lowers the rank of the wait-for relation |
| `SocketProgress.ContinuationsAreBounded` | src/Socket/core.ts:809-829 | A run of continuations is no longer than the rank of the state it starts from |
| `SocketProgress.StuckIsSettledOrDisposalCycle` | src/Socket/core.ts:839-947 | A reachable state in which nothing can continue has settled every promise, or is the cycle of an end handler awaiting async disposal after a failed startup |
| `SocketProgress.EverythingSettles` | src/Socket/core.ts:809-829 | However the scheduler picks, it picks finitely often, and where it can pick no more everything has settled: a claimed close is published exactly once, every client is freed |
| `SocketProgress.DisposalCycleIsForever` | src/Socket/core.ts:1047-1053 | The cycle lasts whatever callers, timers and the socket do |
| `SocketMisuse.AwaitedDisposalDeadlocks` | src/Socket/core.ts:1047-1053 | The cycle is reachable for every configuration and any positive number of end handlers |
| `SocketClass.Socket.RunAll` | src/Socket/core.ts:266-947 | The object driven through any run from any reachable state: at most one close is published and none taken back, the client is freed at most once and under no disconnect unless a facade was reopened, a settled `logout()` has claimed, and where nothing is left to run the claimed close is out and the client free |
| `SocketClass.Socket.End` | src/Socket/core.ts:823-829 | `end()`: resolved at once inside an end handler, otherwise the owner closes and the call waits; the socket moves as the machine says and keeps its invariant |
| `SocketClass.Socket.Logout` | src/Socket/core.ts:881-913 | `logout()` as far as its first await, with what it has seen of the reporter by then |
| `SocketClass.Socket.AsyncDispose` | src/Socket/core.ts:1047-1053 | Async disposal as far as its first await |
| `SocketClass.Socket.ContinueInit` | src/Socket/core.ts:595-870 | Each stretch of `init()` between two awaits and its catch handler, with the closing checks and early returns |
| `SocketClass.Socket.ContinueClose` | src/Socket/core.ts:266-381 | Each stretch of the close: the facade, the fallback, the barrier, the flushes, the end handlers, the release and the drain, as the machine takes it; `CloseRunsInOrder` says in which order that is over a run |
| `SocketClass.Socket.ContinueCall` | src/Socket/core.ts:881-947 | What `end()`, `logout()` and disposal do after the await they stand at, the fallback close included |
| `SocketClass.Socket.ContinueWs` | src/Compatibility/websocket-client.ts:227-239 | The deferred body of `ws.close()` and its `finally` |
| `SocketClass.Socket.WsConnect` | src/Compatibility/websocket-client.ts:199-209 | `ws.connect()` reopens the facade only with a client and while no close of it is in flight |
| `SocketClass.Socket.OnTerminalClose` | src/Socket/core.ts:568-578 | A terminal event claims the report and closes the owner, once |
| `SocketClass.Socket.OnRunCompletion` | src/Socket/core.ts:767-800 | A run completion does so only for a client that is still running |
| `SocketClass.Socket.OnWatchdog` | src/Socket/terminal-close-reporter.ts:161-164 | The watchdog publishes unless that has happened |
| `SocketClass.Socket.ContinueReporter` | src/Socket/core.ts:441-442 | The reporter awaits the close, then `initPromise`, then publishes |
| `SocketClass.Socket.ContinueTracked` | src/Socket/core.ts:328-381 | Each stretch of the release of a refused client, down to `free()` |
| `SocketClass.Socket.GetClient` | src/Socket/core.ts:471-488 | The decision at once: a client exactly when there is no startup error, no close begun and startup is over, and then it runs |
| `SocketClass.Socket.GetBuiltClient` | src/Socket/core.ts:490-503 | The decision after `initPromise`: a client exactly when no close has begun, and then it runs |
| `TerminalCloseReporter.ReportedExactlyOnce` | src/Socket/terminal-close-reporter.ts:122-195 | Over every order of claims, teardown resolving, rejecting, throwing at once or hanging, the watchdog and throwing listeners: at most one publish, the first claimant's, and exactly one once the teardown is over or the watchdog fired; `published()` resolves with it |
| `TerminalCloseReporter.RunKeepsValid` | src/Socket/terminal-close-reporter.ts:122-195 | Every run keeps the reporter valid, and a publish that ran is never followed by another |
| `TerminalCloseReporter.Reporter.StartReport` | src/Socket/terminal-close-reporter.ts:147-181 | `reportAfter`: ignored after a claim; otherwise claims, arms the watchdog and, when the teardown throws at once, publishes at once |
| `TerminalCloseReporter.Reporter.StartReportNow` | src/Socket/terminal-close-reporter.ts:183-190 | `reportNow`: ignored after a claim, otherwise publishes at once |
| `TerminalCloseReporter.Reporter.SettleTeardown` | src/Socket/terminal-close-reporter.ts:166-177 | Cancels the watchdog and publishes unless that has happened |
| `TerminalCloseReporter.Reporter.FireWatchdog` | src/Socket/terminal-close-reporter.ts:161-164 | Publishes unless that has happened; a teardown that settles later publishes nothing |
| `TerminalCloseReporter.Reporter.PublishedNow` | src/Socket/terminal-close-reporter.ts:194-195 | The promise handed out has resolved exactly when nothing was reported or the first claimant's close was published |
| `WebSocketListeners.WebSocketClient.Call` | src/Compatibility/websocket-client.ts:77-167 | Any nesting of add, once, remove and emit, with bodies that throw or catch: the table ends as the emitter alone leaves it, the depth is restored, and at depth zero the forwarding flag equals the presence of a `CB:` or `TAG:` listener |
| `WebSocketListeners.WebSocketClient.MutateListeners` | src/Compatibility/websocket-client.ts:77-95 | Only the outermost mutation reaches the engine, at most once, and exactly when the presence of raw listeners changed across the whole of it, thrown or not |
| `WebSocketListeners.WebSocketClient.EmitToListeners` | src/Compatibility/websocket-client.ts:163-167 | An emit calls the listeners there were when it began, takes a once-listener away before it runs, and stops at the first throw; the engine is not touched meanwhile |
| `WebSocketListeners.WebSocketClient.StartupSync` | src/Socket/core.ts:754-756 | After the startup sync flag and listeners agree |
| `WebSocketListeners.AddedInOrder` | src/Compatibility/websocket-client.ts:97-125 | A new listener is called after all there are, or before all of them when prepended; the others keep their order, other names their listeners |
| `WebSocketListeners.RemovedIsLatest` | src/Compatibility/websocket-client.ts:127-161 | A removal takes the latest registration of the listener and no other, and a name without listeners goes |
| `BatchDispatch.DispatchCanonicalBatch` | src/Socket/events-core.ts:1080-1127 | The loop with its pending upsert computes the batch function about which the next rows are proved |
| `BatchTheorems.BatchRefines` | src/Socket/events-core.ts:1080-1127 | For every event sequence the batch ends in the state of one-at-a-time dispatch, and its log, with every upsert split into its messages, is reached from that of one-at-a-time dispatch by adjacent swaps, each moving a push-name `contacts.update` or the report of a failed conversion ahead of an upsert. What a message emits early comes after everything the events before it emit but the one upsert of the run still open there |
| `BatchOrder.ExactLog` | src/Socket/events-core.ts:1080-1127 | The log of the batch exactly: for each event what it emits early, then the upsert of the last maximal run of equal metadata where it falls due, and at the end the last one; the run is found by looking back from the event, with no pending upsert |
| `BatchOrder.EarlyOvertakesOnlyTheOpenRun` | src/Socket/events-core.ts:1106-1120 | At each event the log is cut as head, early part, the open upsert when due, tail, where head and the open upsert are the whole log of the events before |
| `BatchOrder.OvertakenMessages` | src/Socket/events-core.ts:1111-1119 | Of two messages of one stretch, the early part of the later overtakes the upsert of the earlier if and only if every accepted message from the earlier one on, up to but not including the later, has the metadata of the earlier; the upsert of one not overtaken is out already |
| `BatchOrder.ClosingPushNameGoesFirst` | src/Socket/events-core.ts:1111-1119 | The push name of a message with other metadata goes out ahead of the upsert which that message closes |
| `BatchOrder.EmptyRequestIdSplits` | src/Socket/events-core.ts:150-176 | Two messages in a row share an upsert exactly when their metadata is equal; two upserts that differ in metadata look alike exactly when the kinds agree and one request id is missing and the other empty |
| `BatchContents.SingleSays` | src/Socket/events-core.ts:150-176 | One message alone, by its own fields and in order: a contact update for its push name exactly when it has one, is not from the user and is not from a broadcast list; one upsert, `append` if and only if it is offline, with its request id unless that is empty; its reaction, member label, revoke or edit exactly under its condition and with what payload |
| `BatchContents.BatchSays` | src/Socket/events-core.ts:1080-1127 | Each channel of the batch, upserts taken message by message, is one part for each event, in order, each what the fields of that message call for there: so every message that converts is in exactly one upsert, of its own kind and request id |
| `BatchTheorems.ChannelsAgree` | src/Socket/events-core.ts:1075-1127 | Each channel carries the same stream once upserts are split |
| `BatchTheorems.NothingCrossesABoundary` | src/Socket/events-core.ts:1090-1104 | An event that is no ordinary message cuts the batch: what is before it is emitted before it, what is after it after it, and in between exactly what it emits alone |
| `BatchTheorems.OneUpsertForEachRun` | src/Socket/events-core.ts:1106-1120 | A stretch of ordinary messages emits one upsert for each maximal run of equal metadata, in order, with all the accepted messages and no others |
| `BatchTheorems.SwapKeepsStreams` | src/Socket/events-core.ts:1108-1120 | The swaps allowed above are invisible on each channel |
| `LifecycleChecks.StateAt` | scripts/compatibility/lifecycle-contract-core.ts:161-168 | The state in effect at a position: that of the last stateful update at or before it, none if there is none |
| `LifecycleChecks.ConnectingClears` | scripts/compatibility/lifecycle-contract-core.ts:190-211 | LC-002 is violated exactly when some `connecting` fails to clear the QR or to reset pending notifications |
| `LifecycleChecks.OpenNotRepublished` | scripts/compatibility/lifecycle-contract-core.ts:212-230 | LC-003 is violated exactly when two opens have no stateful update between them |
| `LifecycleChecks.ClosesOnce` | scripts/compatibility/lifecycle-contract-core.ts:281-290 | LC-006 is violated exactly when there are two closes |
| `LifecycleChecks.DisconnectOnlyOnClose` | scripts/compatibility/lifecycle-contract-core.ts:291-305 | LC-007 is violated exactly when an update without `close` carries `lastDisconnect` |
| `LifecycleChecks.CloseCarriesStatus` | scripts/compatibility/lifecycle-contract-core.ts:306-318 | LC-008 is violated exactly when a close carries no status |
| `LifecycleChecks.PendingOnlyWhileOpen` | scripts/compatibility/lifecycle-contract-core.ts:319-335 | LC-009 is violated exactly when pending notifications are reported at a position where no open is in effect |
| `LifecycleChecks.MessagesOnlyWhileOpen` | scripts/compatibility/lifecycle-contract-core.ts:353-370 | LC-011 is violated exactly when a message is published at a position where no open is in effect |
| `LifecycleDispatcher.JudgeRun` | src/Socket/events-core.ts:263-315 | For every sequence of engine events, auto-reconnect toggles, terminal reports, teardowns and watchdogs, the recorded trace never makes LC-002, LC-006, LC-007 or LC-008 violated |
| `LifecycleDispatcher.CloseCarriesFirstError` | src/Socket/terminal-close-reporter.ts:122-195 | A published close carries the status of the first error reported, whoever reports later |
| `LifecycleStatuses.CloseSaysWhy` | src/Socket/events-core.ts:351-487 | The close of a run has the status that says why the session ended, by number: that of the first step to claim it, whoever claims later and whichever step publishes |
| `LifecycleStatuses.FailureIsMapped` | src/Socket/terminal-close.ts:56-79 | The close status of a `<failure>` is that of the table of its wire codes, and 428 for any other code or none |
| `LifecycleDispatcher.StepKeeps` | src/Socket/events-core.ts:351-487 | Every step keeps every event of the trace well formed and at most one close in it, present exactly when the reporter has published |
| `LifecycleOrder.RepublishedExactly` | scripts/compatibility/lifecycle-contract-core.ts:212-230 | LC-003 fails on a run of the dispatcher if and only if the engine connects twice with no step in between that sends a state: a bootstrap, a retry under the auto-reconnect value in force there, or the one step that publishes the close |
| `LifecycleOrder.PendingExactly` | scripts/compatibility/lifecycle-contract-core.ts:319-335 | LC-009 fails on a run if and only if an offline sync ends where the last step that sent a state, if there is one, is not a connect |
| `LifecycleOrder.MessagesExactly` | scripts/compatibility/lifecycle-contract-core.ts:353-370 | LC-011 fails on a run if and only if a message surfaces where the last step that sent a state, if there is one, is not a connect |
| `LifecycleOrder.JudgeOrder` | scripts/compatibility/lifecycle-contract-core.ts:212-370 | The verdicts of the three checks on any run, as those conditions on its steps |
| `LifecycleOrder.EventAt` | src/Socket/events-core.ts:351-487 | Each step leaves at most one event, where the trace ended before it, and its kind (a state, an open, pending notifications, a message) is what the steps say |
| `LifecycleOrder.OrderIsTheEngines` | scripts/compatibility/lifecycle-contract-core.ts:212-370 | So the dispatcher alone keeps none of the three: a second `connected`, and a message or a sync before any, violate them |
| `HistorySync.RecentEndsOnce` | src/Socket/events-core.ts:998-1041 | Over every run of chunks, timer firings and cleanups: RECENT publishes at most one of `complete` and `paused`, INITIAL_BOOTSTRAP completes at most once, at most one timer is armed and none once RECENT ended, an unfinished sync has its timer, no cleared timer publishes |
| `HistoryContents.SyncsEndExactly` | src/Socket/events-core.ts:1008-1041 | A RECENT sync ends exactly when the last batch of one at 100 was dispatched or its timer fired, then once and the way the first of these ends it; a bootstrap completes exactly when the last batch of one was dispatched, then once |
| `HistoryContents.ChunkSays` | src/Socket/events-core.ts:998-1052 | Everything a chunk publishes, by its fields and in order: what it completes for the first time, then its data with `isLatest` left out on demand and else true just for the last batch of the bootstrap, the progress with a last batch only, and the chats if there are any |
| `HistorySync.StepKeepsValid` | src/Socket/events-core.ts:225-234 | Every chunk, firing and cleanup keeps that |
| `HistorySync.Dispatcher.DispatchChunk` | src/Socket/events-core.ts:998-1041 | One chunk, in the source's order: bootstrap status, recent status, data |
| `HistorySync.Dispatcher.Fire` | src/Socket/events-core.ts:1028-1039 | The callback of an armed timer publishes `paused` unless the sync has ended |
| `HistorySync.Dispatcher.CleanUp` | src/Socket/events-core.ts:231-234 | Cleanup disarms the timer |
| `HistorySync.CleanupIsNotFinal` | src/Socket/events-core.ts:1134-1160 | Cleanup does not latch: a chunk after it arms a timer exactly when it is a final, unfinished RECENT chunk and the sync has not ended |
| `Sha256Standard.PaddedLengthIsLeast` | src/Runtime/bytes.ts:235 | The padded length is the least multiple of 64 bytes with room for the message, the marker and the length (section 5.1.1 of FIPS 180-4) |
| `Sha256Portable.JsPaddedLengthIsRight` | src/Runtime/bytes.ts:235 | The shift formula gives that length if and only if the length fits a signed 32-bit integer |
| `Sha256Portable.RotationWord` | src/Runtime/bytes.ts:246-257 | `(a >>> n) &#124; (a << (32 - n))` is the right rotation of the word, for either sign of `a` |
| `Sha256Portable.ExpandSchedule` | src/Runtime/bytes.ts:244-251 | The message schedule is that of section 6.2.2 of FIPS 180-4 |
| `Sha256Portable.RoundJs` | src/Runtime/bytes.ts:254-267 | One round with `&#124; 0` equals the round of the standard modulo 2^32 |
| `Sha256Portable.RunRounds` | src/Runtime/bytes.ts:252-268 | The 64 rounds, on numbers of either sign, are those of the standard |
| `Sha256Portable.PadMessage` | src/Runtime/bytes.ts:233-241 | The padded message is that of section 5.1.1 of FIPS 180-4 |
| `Sha256Portable.HashPadded` | src/Runtime/bytes.ts:243-277 | All blocks, from the initial hash value |
| `Sha256Portable.Sha256SyncPortable` | src/Runtime/bytes.ts:224-289 | SHA-256 as in sections 5.1.1 and 6.2.2 of FIPS 180-4, for every input whose padded length fits a signed 32-bit integer |
| `Sha256Constants.RoundConstantsAreCubeRoots` | src/Runtime/bytes.ts:214-223 | Section 4.2.2 of FIPS 180-4 as arithmetic: each of the 64 round constants is the first 32 bits of the fractional part of the cube root of its prime |
| `Sha256Constants.InitialHashIsSquareRoots` | src/Runtime/bytes.ts:225-232 | Section 5.3.3 likewise: the eight words of the initial hash value and the square roots of the first eight primes |
| `Sha256Constants.PrimesInOrder` | src/Runtime/bytes.ts:214-223 | The primes meant are the first 64, in order, none left out |
| `Sha256Portable.TablesAgree` | src/Runtime/bytes.ts:214-223 | The table of the portable code holds those constants |
| `Sha256Bits.BigSigmaBits` | src/Runtime/bytes.ts:254-260 | Bit by bit, what the two functions of a round with three rotations compute |
| `Sha256Bits.SmallSigmaBits` | src/Runtime/bytes.ts:246-249 | And the two of the schedule, with two rotations and a shift |
| `Sha256Bits.ChBits` | src/Runtime/bytes.ts:254-260 | Choice takes each bit from one word or the other, by the bit of a third |
| `Sha256Bits.MajBits` | src/Runtime/bytes.ts:254-260 | Majority takes each bit that two of three words have |
| `Base64.Base64Encode` | src/Runtime/bytes.ts:114-128 | The loop with shifts and masks computes section 4 of RFC 4648 |
| `Base64.Base64Decode` | src/Runtime/bytes.ts:136-170 | The checks, the padding loop and the guarded writes compute the decoding, with the same first error |
| `Base64.Base64UrlEncode` | src/Runtime/bytes.ts:172-173 | The URL-safe form without padding |
| `Base64.Base64UrlDecode` | src/Runtime/bytes.ts:175-179 | Pads before anything else looks at the text, then decodes |
| `Base64Theorems.DecodeUndoesEncode` | src/Runtime/bytes.ts:114-179 | Decoding undoes encoding for every byte sequence, in the padded alphabet of section 4 and the unpadded one of section 5 of RFC 4648, by either decoder |
| `Base64Theorems.EncodeIsInjective` | src/Runtime/bytes.ts:114-128 | Different byte sequences have different encodings |
| `Base64Theorems.PaddingIsOptional` | src/Runtime/bytes.ts:148-154 | A text without padding decodes as its padded form; the one length that has none fails either way, with a length error bare and a padding error padded |
| `Base64Theorems.EncodeUndoesDecode` | src/Runtime/bytes.ts:136-170 | Encoding gives an accepted text back, normalized, if and only if the bits its last character does not use are zero |
| `Base64Alphabet.AlphabetIsTable` | src/Runtime/bytes.ts:14-134 | Each of the 64 values is written as Table 1 of RFC 4648 says, and in the URL-safe form as Table 2 says, and is read back from that character only |
| `Base64Alphabet.GroupIsOneNumber` | src/Runtime/bytes.ts:114-128 | The four characters of a group are the number its three bytes are, from the high end |
| `Base64Alphabet.TestVectors` | src/Runtime/bytes.ts:114-128 | The test vectors of section 10 of RFC 4648 |
| `ProtoRepair.ReplacementIsExact` | src/Compatibility/proto-runtime.ts:113-150 | Surrogate replacement leaves a text alone exactly when every surrogate in it is paired, and does nothing the second time |
| `ProtoRepairTheorems.RepairIsExact` | src/Compatibility/proto-runtime.ts:447-508 | repairMessage hands back another object exactly when a refused scalar or a NaN was reached; untouched means equal; a refused scalar means changed |
| `ProtoRepairTheorems.NaNIsRebuilt` | src/Compatibility/proto-runtime.ts:480-502 | A NaN alone is rebuilt into an equal message, because `!==` tells it from itself |
| `ProtoRepairTheorems.NothingRefusedIsLeft` | src/Compatibility/proto-runtime.ts:447-508 | After the repair no refused scalar is left under any recognised name, the public one first, then the alias |
| `ProtoRepaired.RepairIsTheForm` | src/Compatibility/proto-runtime.ts:447-508 | The repaired message as a relation to the given one, and the only such: under each recognised name an empty text in a 64-bit field is 0, a known enum name its number, a text in a string field the same with U+FFFD at exactly the units without a partner; everything else is as it was, at every depth |
| `ProtoRepaired.ReplacedAt` | src/Compatibility/proto-runtime.ts:113-150 | Unit by unit: a surrogate without its partner is replaced, all else kept |
| `ProtoProject.RewritesCommute` | src/Compatibility/proto-runtime.ts:447-591 | Alias projection and repair commute on every message of a well-formed schema |
| `ProtoProject.TouchesAsBefore` | src/Compatibility/proto-runtime.ts:447-591 | The projected message needs a repair exactly when the message does |
| `ProtoAliases.ProjectIsExact` | src/Compatibility/proto-runtime.ts:546-591 | projectAliases hands back another object exactly when a public spelling or a NaN in a message field was reached; untouched means equal; a public spelling means changed |
| `ProtoBridged.ProjectIsTheForm` | src/Compatibility/proto-runtime.ts:546-591 | The projected message as a relation to the given one, and the only such: the public spelling has become the codec's, with its value and over any value that was there, wherever message fields lead; every other key and value is as it was |
| `ProtoAliases.ProjectionEliminates` | src/Compatibility/proto-runtime.ts:546-591 | Walking by either spelling, a public spelling is left exactly where one was hidden below a message that came with the bridge spelling |
| `EncodeProto.RetryEncodesTheRepairedForm` | src/Compatibility/encode-proto-core.ts:32-53 | The first attempt encodes the bridged form of the message; the retry encodes the repaired form of that, both as the relations above, and is made exactly when a refused scalar or a NaN is reached in it; otherwise the first failure is the answer |
| `EncodeProto.CompatAccepts` | src/Compatibility/encode-proto-core.ts:32-53 | With a codec that refuses nothing but those scalars, the compatible encode accepts every message |
| `ProtoHydrate.HydratesAlike` | src/Compatibility/proto-runtime.ts:1148-1181 | For a message with one spelling per aliased field, hydrating the projected form gives what hydrating the message gives |
| `ProtoHydrate.HydrateUndoesProject` | src/Compatibility/proto-runtime.ts:1148-1181 | For every message with one spelling per aliased field, whichever spelling each level has, hydrating the projected form gives the message with every recognised key under its public name at every depth, every entry there and no other, only 64-bit leaves settled; and no bridge name of a recognised field is left |
| `ProtoHydrate.PublicFormIsOne` | src/Compatibility/proto-runtime.ts:1148-1181 | There is one such form of a message only |
| `ProtoHydrate.SettledComesBack` | src/Compatibility/proto-runtime.ts:1148-1181 | A message already in that form comes back from projection and hydration as it was |
| `ProtoGraph.RepairProtoMessage` | src/Compatibility/proto-runtime.ts:447-508 | On every finite object graph, shared or cyclic, repairMessage returns and leaves the given objects as they were; on a message acyclic along its recognised fields its result unfolds to the one repaired form of it, with nothing refused left; what lies under other keys, cyclic or not, stays the object it was |
| `ProtoGraph.Repairer.RewriteMessage` | src/Compatibility/proto-runtime.ts:447-508 | Termination by the objects not on the ancestor path; the ancestor set is as it was found; input acyclic along recognised fields gives the recursive repair, and another reference exactly when it touches |
| `ProtoGraph.Repairer.RewriteArray` | src/Compatibility/proto-runtime.ts:481-489 | A repeated field is copied on the first item that differs |
| `ProtoGraph.Repairer.RewriteEntries` | src/Compatibility/proto-runtime.ts:490-498 | A map field, entry by entry in any order; an array in its place becomes a plain object when an entry is replaced |
| `ProtoGraph.Repairer.RewriteKeys` | src/Compatibility/proto-runtime.ts:461-503 | The loop over the fields rewrites each key that holds a field, public name first, then alias, and no other |
| `ProtoCycles.AncestorsAreNotBelow` | src/Compatibility/proto-runtime.ts:456-458 | On input that is a tree throughout, the ancestor test never cuts the walk short |
| `ProtoCycles.WholeTreesAreRead` | src/Compatibility/proto-runtime.ts:447-508 | Such input is acyclic along recognised fields whatever the schema, so every acyclic row holds of it, down to its last object |
| `ProtoCycles.RecognisedCyclesOnly` | src/Compatibility/proto-runtime.ts:447-508 | The exact domain of the acyclic rows: a message can be read as a tree as far as the repair looks if and only if no way down its recognised fields, through arrays and map entries, comes by one message twice, as whatever type |
| `ProtoCycles.CyclesDoNotUnfold` | src/Compatibility/proto-runtime.ts:450-457 | A value of a finite graph unfolds to a tree throughout if and only if no path through its keys and items comes by the same object twice |
| `ProtoFields.OwnFieldPositions` | src/Compatibility/proto-runtime.ts:632-660 | A strictly ascending, duplicate-free list of exactly the held positions, or none exactly when the caller must keep the full walk |
| `ProtoFields.FieldPositions` | src/Compatibility/proto-runtime.ts:749-761 | Each spelling of each field maps to its position, and nothing else does |
| `ProtoFields.ShortWalkIsFull` | src/Compatibility/proto-runtime.ts:632-660 | A walk over an ascending list of every position that matters equals the full walk, output, key order and first error |
| `ProtoConversions.ToObject` | src/Compatibility/proto-runtime.ts:1016-1070 | toObject over the held positions gives the output and key order of visiting every field, and that output is the object after the assignments each field calls for, in schema order: its value converted if it shows, and its name to its group |
| `ProtoConversions.FromObject` | src/Compatibility/proto-runtime.ts:947-983 | fromObject over the held positions gives the output, key order and first error of visiting every field: the object after one assignment for each field that is taken, or the failure of the first field that has one |
| `ProtoContents.ToObjectFields` | src/Compatibility/proto-runtime.ts:1016-1060 | Into an empty object: a field's name is a key exactly when it holds a non-empty list, a non-empty table, or an own value that is not nullish; the list keeps length and order and the table its keys, each item converted, a single value is its conversion; fields come in schema order |
| `ProtoContents.ToObjectGroups` | src/Compatibility/proto-runtime.ts:1060-1067 | With `oneofs` the key of a group is there exactly when a member is held, and holds the name of the last one |
| `ProtoContents.ToObjectKeys` | src/Compatibility/proto-runtime.ts:1016-1070 | Every key is the name of a field that shows or the group of one |
| `ProtoContents.FromObjectFields` | src/Compatibility/proto-runtime.ts:947-983 | An instance that comes back: each field that is there holds what it was taken as, item by item or as a whole, and one that is not, or converts to undefined, is as in the fresh instance; new keys come last, in schema order |
| `ProtoContents.FromObjectFails` | src/Compatibility/proto-runtime.ts:965-980 | It fails exactly when some field does, and with the failure of the first: an array or object expected, or what the first item to throw throws |
| `ProtoConversions.InstancesNeedFullWalk` | src/Compatibility/proto-runtime.ts:618-645 | Why fromObject keeps the full walk for instances: with a conversion that takes everything, the walk over the held positions gives what the full walk gives if and only if it fails or every field not owned has the default null (a message, bytes, a member of a group), since any other default is read from the prototype and converted |

## Left out

- The WASM bridge, the transport, storage, Node media, JSON, regular expressions and `Date`: external calls are events with an outcome, or abstract functions.
- The composed socket has one client, because `createWhatsAppClient` is called once in its life, and its parts (owner, facade, reporter) are inlined into it rather than shared objects; each is also modelled alone.
- Re-entry from a listener in the middle of a synchronous stretch: such a call is taken as made right after that stretch.
- A logger that throws, and a native `setRawNodeForwarding` that throws in the middle of a listener mutation.
- `sock.waClient` and other direct uses of the native client by a consumer.
- The microtask that publishes the first `connecting`, in the composed machine; the lifecycle model has it as a step that may come at any time.
- The facade without an emitter (the `super` branches), which behaves alike.
- LC-001, LC-004, LC-005 and LC-010, the clock of a trace and the detail texts: each is settled by one comparison.
- LifecycleDispatcher.JudgeRun: the trace is unlimited in its events, but what the dispatchers of other events publish on other channels is not recorded, as in the source's recorder.
- BatchTheorems.BatchRefines: conversion and the ignore predicate are functions of the message, listeners do not throw, and the asynchronous group-create path is not modelled.
- The dispatchers of events other than messages, connections and history: abstract functions of their event and a state.
- The order of own keys in the rewrites: an object is a map from its keys. The own-field walk has the order.
- ProtoHydrate.HydratesAlike: requires one spelling for each aliased field, because with both the result depends on the order of the keys.
- ProtoHydrate.HydrateUndoesProject: requires the same, at every depth; how a 64-bit value becomes a `Long` is a parameter.
- The rewrites of a tree that holds an object back where a recognised field leads: it stays as it is, which says nothing of the source. Trees that hold objects back only under other keys are the ones meant.
- Hydration replaces the items of the array it is given in place; the model returns a new one.
- The class of an object (typed arrays, prototypes) in the rewrites; an array given where a message belongs has no field names of its own, and `Object.prototype` none either.
- `projectForEncode`, where a nested change can write the public key back, and the lazy `finish` of the facade's encoder.
- ProtoConversions.ToObject: array-likes other than arrays, and byte arrays or `Long` objects where a list or a table belongs, are not values of this model; what becomes of a single value is a parameter. The pass for defaults is a given initial output.
- ProtoContents.ToObjectFields: requires that no group has the name of a field, which the schema language forbids; the contract of `ToObject` does not require it.
- ProtoConversions.FromObject: the same, and input that is no object or already an instance of the type.
- Sha256Portable.Sha256SyncPortable: inputs from 2^31 bytes of padded length on, where the shift formula overflows.
- The schema files, the socket's thin method files, derived-node retry, receipts, int64 word splitting: shallow.
