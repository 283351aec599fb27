# Verified model of the happy-server coordination core

happy-server keeps coding sessions alive between a runtime process, its sockets and the user's
devices. This project models the part that coordinates them and proves what it promises:

* **Lease protocol** (`Sql`, `Lease`, `SessionStore`, `SessionRuns`, `SessionTheorems`,
  `ClaimTheorems`, `SocketFence`): one Session row, its retirement table, the advisory lock, the
  database clock. `Lease.Execute` says what each SQL statement does; `SessionStore` evaluates the
  statements' own WHERE clauses in three-valued logic and is proved equal to it. `SessionRuns`
  interleaves lease statements, message commits, owner-locked operations and clock ticks in any
  order, with transaction timestamps that may lag behind the clock; the theorems are about all runs.
* **Message log, outbox and replay** (`MessageLog`, `LogTheorems`, `Outbox`, `OutboxClaims`,
  `OutboxWorkers`, `OutboxTable`, `Durable`, `CursorReplay`): idempotent persistence under the lease fence; any number
  of dispatcher workers with stale candidate lists, expired claims, failures and crashes, trusting no
  clock; all sessions and the outbox composed; cursor pages over a growing log.
* **Notification routing** (`Routing`): the room form, on the actual room-name strings, against the
  loop form.
* **RPC registration** (`Generations`, `RpcRegistry`, `RpcLifecycle`, `RpcMap`, `RpcQueue`,
  `RpcProgress`, `RpcClose`, `RpcOwner`): the hybrid logical clock and its sortable strings, the two Redis scripts, one socket's
  registration lifecycle with a call, another socket, a loss of Redis data or a command applied late
  possible at every await; and that lifecycle composed with the session whose owner lock fences it.
* **Activity** (`ActivityCache`, `ActivityRuns`, `ActivityTheorems`, `ActivityPublisher`): the
  write-behind cache, its flush workers and the database they and others write to; the coalescing
  publisher.
* **Mutable structures** (`LruSet`, `AsyncLock`) and `SocketOrder`, the lock composed with the runs of
  all sessions.

A run is a sequence of states and events, each event enabled where it occurs; every theorem about
runs is proved from an inductive invariant and quantifies over all of them. Identifiers minted by
`randomUUID`, clock readings, query results that SQL leaves open, and the outcome of every database,
Redis or publish call are parameters of the events. History fields (message authors, minted ids,
fates) exist only so that properties can speak of the past.

Where a promise does not hold without a condition, the condition is proved and the failure shown:

* The owner lock keeps its generation exactly when application clock skew, the longer of lease and
  heartbeat delay, and the 40 s lock fit into the 600 s of the timeout sweep
  (`OwnerLockFencesIffRoomy`, with the two failing runs `SweepBeatsLock` and
  `StaleHeartbeatBeatsLock`).
* Room delivery and the loop agree exactly when a notification does not name both a lease and the
  legacy room (`RoomsMatchLoopIffOneTarget`); outbox rows never do.
* After `close` a Redis key may still hold this socket's registration: exactly one that a drop, a
  failed command or a late one left there (`CloseCleansUp`, `LateSetOutlivesClose`), and when every
  command succeeded exactly one dropped by a refresh that found the ownership lost and not touched
  since (`LeftBehindIff`, `LostOwnershipLeavesKey`).
* A superseded socket stores no registration unless its owner transaction is aborted under it
  (`SupersededSocketStoresNothing`, `AbortedFenceStoresLate`).
* A session nobody can ever take over is exactly one whose marked row has no expiry
  (`WedgedForEverIff`), and readiness in SQL is NULL only on half-written tuples
  (`ReadinessSqlMatchesTypeScript`); no run reaches either (`RowShapes`, `NeitherStolenNorWedged`).
* An accepted activity update is displaced exactly when another account validates the id of an entry
  holding it, which happens to machines only (`DisplacedIff`, `SharedMachineIdLosesUpdate`).
* A session update is persisted exactly when its row is there, older and, if it names an instance,
  active under it (`PersistedIff`). A write that matched nothing makes an idle entry refuse updates
  near it exactly as long as the entry object has seen no later timestamp (`SilencedIff`,
  `FencedWriteSilencesOwner`).
* A failed activity write gives way to an older update exactly when that one stepped back behind it
  (`YieldsToOlderIff`, `FailedWriteYieldsToOlder`).
* The LRU set refines its sequence exactly when its capacity is at least one (`LRUSet.Add`).
* The activity publisher forgets unobservably with a clock that never steps back (`Publish`), and
  observably with one that does (`BackwardClockRepeats`).

## Model

| member | source | states |
|---|---|---|
| SessionStore.Session.constructor | prisma/schema.prisma:93-119 | A session starts without lease fields or retirements, with or without an active instance. |
| SessionStore.Session.ClaimLive | sources/app/presence/runtimeConnectionLease.ts:215-300 | A live claim, evaluated in three-valued SQL, does exactly what the claim rule says: refused to retired incarnations and against connected sessions, retires the displaced incarnation, installs the new lease, reports the displaced lease. |
| SessionStore.Session.ClaimReplay | sources/app/presence/runtimeConnectionLease.ts:102-213 | A replay claim for a supplied, inferred or synthetic incarnation: refused to terminal incarnations, deactivates the row, marks the incarnation replaying. |
| SessionStore.Session.ExpireLease | sources/app/presence/runtimeConnectionLease.ts:316-347 | Only the exact live generation is expired, and its lease id is rotated to a tombstone. |
| SessionStore.Session.RenewLease | sources/app/presence/runtimeConnectionLease.ts:357-383 | Only the exact live generation is renewed. |
| SessionStore.Session.RenewLegacyConnection | sources/app/presence/runtimeConnectionLease.ts:584-601 | A client without incarnation renews only a wholly unmarked row. |
| SessionStore.Session.EndLease | sources/app/presence/runtimeConnectionLease.ts:616-661 | Ends the current incarnation, also while replaying, and records it as ended; otherwise nothing changes. |
| SessionStore.Session.EndLegacy | sources/app/api/socket/sessionUpdateHandler.ts:488-511 | The timestamp-fenced end writes a tombstone on an unmarked row only. |
| SessionStore.Session.TimeOut | sources/app/presence/timeout.ts:12-32 | The sweep deactivates a row only if it is still idle since the cutoff. |
| SessionStore.OwnershipSqlMatches | sources/app/presence/runtimeConnectionLease.ts:409-438 | The ownership condition holds for exactly the stored unexpired unretired generation, or for a tuple-less client on the unmarked row; partial tuples fail. |
| SessionStore.ReadinessSqlMatchesTypeScript | sources/app/presence/runtimeConnectionLease.ts:696-714 | On every row the SQL readiness is true iff the TypeScript readiness is, and NULL iff the lease tuple is half written. |
| SessionStore.StuckIff | sources/app/presence/runtimeConnectionLease.ts:242-254 | On arbitrary rows, reachable or not: exactly when a session is, at a given time, neither connected nor claimable by another unretired incarnation. |
| SessionStore.WedgedForEverIff | sources/app/presence/runtimeConnectionLease.ts:242-254 | It is so at every time iff an active row with an instance and a lease marker has no expiry; such a row is not reachable. |
| SessionStore.AnonymousReplayRefusedIff | sources/app/presence/runtimeConnectionLease.ts:142-162 | On arbitrary rows with an incarnation and a complete lease or none, an anonymous replay is refused iff the runtime would be connected but for its retirement, or is terminally retired. |
| SessionStore.GenerationOwnsToTheEnd | sources/app/presence/runtimeConnectionLease.ts:316-381 | On arbitrary rows with an expiry the condition of renewal and expiry is ownership at the last moment of the lease. |
| SessionTheorems.RetirementIsPermanent | sources/app/presence/runtimeConnectionLease.ts:226-288 | In every run a retired incarnation stays retired, ended and superseded never change, and it never again owns, is active or can claim live. |
| SessionTheorems.DisplacedIncarnationNeverReturns | sources/app/presence/runtimeConnectionLease.ts:256-271 | An incarnation the row moved away from is terminal and never current again. |
| SessionTheorems.TenureIsOneInterval | sources/app/presence/runtimeConnectionLease.ts:110-200 | Each incarnation's time as active instance is one unbroken interval. |
| SessionTheorems.UsedLeaseNeverReturns | sources/app/presence/runtimeConnectionLease.ts:311-345 | A minted lease id that is not the stored one is never stored again. |
| SessionTheorems.DisplacedLeaseIsFenced | sources/app/presence/runtimeConnectionLease.ts:425-437 | A displaced generation never again owns, renews, expires or writes. |
| SessionTheorems.RowShapes | sources/app/presence/runtimeConnectionLease.ts:13-20 | Every reachable row is unmarked, an inactive legacy tombstone or fully leased to its active instance; once marked, always marked; an active row's incarnation is unretired. |
| SessionTheorems.ReadinessAgrees | sources/app/presence/runtimeConnectionLease.ts:46-66 | On every reachable row the TypeScript readiness, the SQL CASE (never NULL), ownership of the stored tuple and `runtimeLeaseCurrent` agree. |
| SessionTheorems.NeitherStolenNorWedged | sources/app/presence/runtimeConnectionLease.ts:142-162 | On every reachable row another unretired incarnation can claim iff the session is not connected; an anonymous replay succeeds iff the session is idle and its incarnation not terminal. |
| ClaimTheorems.NamedReplayIff | sources/app/presence/runtimeConnectionLease.ts:130-143 | In every run a replay claim naming its incarnation succeeds iff the session has had none so far or this one is current and was not ended; it confers the right to replay for one lease duration. |
| ClaimTheorems.NamedLiveIff | sources/app/presence/runtimeConnectionLease.ts:226-254 | In every run a live claim succeeds iff its incarnation is unretired and either current or nobody is connected; it confers ownership for one lease duration. |
| ClaimTheorems.RetryableIffCurrentCanClaim | sources/app/session/sessionMessageCreate.ts:186-197 | For every incarnation, ever current or not, a stale answer says retryable iff it is current and its own claim in its own mode would succeed now. |
| ClaimTheorems.LegacyLivesByHeartbeats | sources/app/presence/runtimeConnectionLease.ts:584-601 | After a legacy heartbeat, while the row stays unmarked and unless swept, its client owns the session and may write for exactly the grace period. |
| ClaimTheorems.TuplelessOwnerIff | sources/app/presence/runtimeConnectionLease.ts:412-423 | A client without incarnation owns the session iff it is active, never had an incarnation, and no claim or legacy end took effect. |
| ClaimTheorems.LastActiveIsLastActivity | sources/app/presence/runtimeConnectionLease.ts:272-285 | `lastActiveAt` is the time of the latest claim, heartbeat or end that took effect. |
| ClaimTheorems.LeaseTellsItsPast | sources/app/presence/runtimeConnectionLease.ts:332-345 | The stored lease is that of the latest claim, expiry or end, and runs out one duration after its claim or latest heartbeat, or at its end. |
| ClaimTheorems.TimedEndsIff | sources/app/api/socket/sessionUpdateHandler.ts:488-511 | A legacy end takes effect iff nothing has claimed or ended the session and no later activity took effect; the sweep iff the session is active and quiet since its cutoff. |
| SessionTheorems.LeaseLivesByHeartbeats | sources/app/presence/runtimeConnectionLease.ts:272-285 | In every run, until its lease is rotated the winner of a live claim, and nobody else, is connected, owns and may write exactly until one lease duration after its last heartbeat, unless swept. |
| SessionTheorems.ReplayLivesOnce | sources/app/presence/runtimeConnectionLease.ts:102-213 | In every run, until its lease is rotated a replay claim leaves nobody live and lets its holder alone write, for one lease duration that nothing extends. |
| SessionTheorems.EndsTakeAway | sources/app/presence/runtimeConnectionLease.ts:610-661 | In every run, from an expiry, end or sweep until the next claim or legacy heartbeat nobody is connected, owns or is authorised in any mode, late heartbeats of the old generation included; exactly the unretired incarnations can claim. |
| SessionTheorems.RetryableIffRecoverable | sources/app/session/sessionMessageCreate.ts:186-197 | A stale answer says retryable exactly when that producer's incarnation would win a fresh claim now. |
| SessionTheorems.LogIsBlocks | sources/app/session/sessionMessageCreate.ts:155-236 | In every interleaving the runtime-authored messages are legacy ones, then one contiguous block per incarnation and generation, live before replay; numbers are 1..n; local ids are unique. |
| SessionTheorems.SilentAfterRetirement | sources/app/session/sessionMessageCreate.ts:172-198 | Nothing of an incarnation follows its end or supersession, nothing live follows its replay handshake. |
| SessionTheorems.LogOnlyGrows | sources/app/session/sessionMessageCreate.ts:221-236 | Committed messages are never changed or removed. |
| SessionTheorems.RetryIsIdempotent | sources/app/session/sessionMessageCreate.ts:144-219 | Every later request with a committed local id changes nothing and answers with the original message, a conflict iff the ciphertext differs, or staleness. |
| LogTheorems.CommittedIff | sources/app/session/sessionMessageCreate.ts:155-236 | In every run a request is committed iff its authorisation passes and its local id is new; then the log gains exactly it, with its id, ciphertext and producer, under the next number, and otherwise nothing changes. |
| LogTheorems.EveryMessageWasRequested | sources/app/session/sessionMessageCreate.ts:221-236 | Every message of the log was put there by one request, which it carries. |
| LogTheorems.RetriesGetTheOriginal | sources/app/session/sessionMessageCreate.ts:144-219 | Once a request is committed, every later one with its local id changes nothing and is answered by exactly that message, a conflict or staleness, as ciphertext, authorisation and replay decide. |
| SessionTheorems.OwnerLockFences | sources/app/presence/runtimeConnectionLease.ts:489-533 | While a modern tuple holds the owner lock the row keeps that generation, active and unretired. |
| SessionTheorems.OwnerLockFencesIffRoomy | sources/app/presence/runtimeConnectionLease.ts:22-29 | That holds in all runs iff skew, quiet time and lock fit into the sweep's ten minutes; with heartbeats under four minutes, iff skew is at most 320 s. |
| SessionTheorems.SweepBeatsLock | sources/app/presence/timeout.ts:12-32 | A larger skew admits a run in which the sweep deactivates a locked owner. |
| SessionTheorems.StaleHeartbeatBeatsLock | sources/app/presence/runtimeConnectionLease.ts:363-381 | So does a heartbeat committed too long after its timestamp. |
| SocketFence.StaleSocketIsFenced | sources/app/api/socket/sessionUpdateHandler.ts:366-396 | A socket whose generation was displaced or whose incarnation is terminal never again creates a message or passes a write fence. |
| SocketFence.CreationRequiresTheStoredGeneration | sources/app/api/socket/sessionUpdateHandler.ts:373-395 | A runtime socket creates a message only as the generation and in the mode the row records. |
| SocketFence.WritePassesIff | sources/app/api/socket/sessionUpdateHandler.ts:30-46 | A socket's write passes its fence iff it is to its own session, not as a replay, and the socket is the connected generation or, without ids, the active legacy client. |
| SocketFence.MessagePassesIff | sources/app/api/socket/sessionUpdateHandler.ts:366-396 | A socket's message is authorised iff it is an observer's, the connected generation's, the replaying incarnation's under its lease, or the legacy client's in its grace period. |
| MessageLog.SessionLog.Persist | sources/app/session/sessionMessageCreate.ts:67-262 | The transaction decides as the decision table says; message, both counters and outbox row move together or not at all. |
| MessageLog.TargetIsExclusive | sources/app/session/sessionMessageCreate.ts:242-254 | A row targets the connected generation, or the in-grace legacy connection, never both. |
| Outbox.DeliveredIsPrefix | sources/app/session/sessionMessageNotificationOutbox.ts:47-129 | In every run a session's delivered rows are a prefix of its sequence. |
| Outbox.PublishedInOrder | sources/app/session/sessionMessageNotificationOutbox.ts:250-296 | No row is published before every earlier row of its session was published and marked delivered. |
| Outbox.DeliveredRowsAreFrozen | sources/app/session/sessionMessageNotificationOutbox.ts:35-44 | A delivered row is never claimed, rescheduled or delivered again, whatever stale workers do. |
| Outbox.StaleClaimCannotMark | sources/app/session/sessionMessageNotificationOutbox.ts:132-162 | A worker whose claim was lost can never again mark the row. |
| Outbox.LossRequiresPublish | sources/app/session/sessionMessageNotificationOutbox.ts:132-169 | A row is delivered or cleaned up only after a successful publish. |
| OutboxClaims.RowTellsItsPast | sources/app/session/sessionMessageNotificationOutbox.ts:94-162 | In every run attempts is the number of claims, claimedAt the reading of the claim still open, nextAttemptAt the creation or the latest failure's retry time, deliveredAt the mark's reading. |
| OutboxClaims.ClaimIff | sources/app/session/sessionMessageNotificationOutbox.ts:86-99 | A claim takes effect iff the row is there, undelivered and due, and no claim is open or the open one has outlived the lease. |
| OutboxClaims.ClaimsExclude | sources/app/session/sessionMessageNotificationOutbox.ts:35-44 | Two claims of a row without a failure in between are further apart than the later one's lease. |
| OutboxClaims.RetentionIff | sources/app/session/sessionMessageNotificationOutbox.ts:164-169 | A row leaves the table iff a clean-up finds it marked delivered before its cutoff. |
| OutboxWorkers.PhaseIsLastStep | sources/app/session/sessionMessageNotificationOutbox.ts:259-289 | In every run a worker marks a row delivered only right after publishing it, failed only right after a publish or mark failed, and otherwise goes on with the next row. |
| OutboxWorkers.BatchIsSelected | sources/app/session/sessionMessageNotificationOutbox.ts:47-86 | A claiming worker goes through the rows of its latest selection in their order, with the readings it selected with. |
| OutboxWorkers.HeldWasConfirmed | sources/app/session/sessionMessageNotificationOutbox.ts:101-127 | A worker publishes and marks only rows it read back under its own token. |
| OutboxWorkers.WorkerCanFinish | sources/app/session/sessionMessageNotificationOutbox.ts:250-296 | From every reachable state a worker can go on alone to the end of its batch, and has then delivered every row whose claim was still its own and every candidate still pending. |
| OutboxTable.NotificationTable.SelectCandidates | sources/app/session/sessionMessageNotificationOutbox.ts:55-83 | Returns the first `limit` heads of line by next attempt, creation and id. |
| OutboxTable.NotificationTable.TryClaim | sources/app/session/sessionMessageNotificationOutbox.ts:86-99 | The claim succeeds iff the row is pending at that time. |
| OutboxTable.NotificationTable.ClaimBatch | sources/app/session/sessionMessageNotificationOutbox.ts:47-130 | Claims exactly the selected heads of line under their tokens and touches nothing else. |
| OutboxTable.NotificationTable.MarkRowDelivered | sources/app/session/sessionMessageNotificationOutbox.ts:132-146 | Marks only the row still carrying the claim's token. |
| OutboxTable.NotificationTable.MarkRowFailed | sources/app/session/sessionMessageNotificationOutbox.ts:148-162 | Reschedules only the row still carrying the claim's token. |
| OutboxTable.NotificationTable.CleanupDelivered | sources/app/session/sessionMessageNotificationOutbox.ts:164-169 | Removes exactly the rows delivered before the cutoff and counts them. |
| OutboxTable.RetryDelay | sources/app/session/sessionMessageNotificationOutbox.ts:278-282 | Full jitter: the draw scales the ceiling plus one; at least 1 ms and otherwise at most the ceiling. |
| OutboxTable.CeilingDoubles | sources/app/session/sessionMessageNotificationOutbox.ts:278-281 | The ceiling starts at the base, doubles per attempt up to the maximum or the seventeenth attempt, and never falls. |
| OutboxTable.NotificationTable.DeliverBatch | sources/app/session/sessionMessageNotificationOutbox.ts:260-289 | With a clock reading and a draw of its own for each row: a published row is delivered at its reading, any other rescheduled by exactly the drawn delay after it; other rows are untouched. |
| OutboxTable.NotificationTable.Drain | sources/app/session/sessionMessageNotificationOutbox.ts:250-296 | With a clock read before every turn that does not step back, and no publish failing after some horizon, a lone drain terminates with nothing left to claim; within a session a row is sent again only after a failure and at a later reading, and the next only after a success; unsent rows are untouched. |
| OutboxTable.StuckOnlyBehindUnready | sources/app/session/sessionMessageNotificationOutbox.ts:49-54 | With nothing to claim an undelivered row waits only behind a claimed or rescheduled head of line. |
| OutboxTable.DrainDeliversEverything | sources/app/session/sessionMessageNotificationOutbox.ts:291-295 | If all rows were ready and all publishes succeeded, such a drain delivered every row. |
| Durable.CommitIsInsert | sources/app/session/sessionMessageCreate.ts:221-254 | A commit gives its outbox row a number above every earlier one of the session, which the outbox order relies on. |
| Durable.ExactlyOneRowPerMessage | sources/app/session/sessionMessageCreate.ts:201-254 | In every run each committed message has exactly one outbox row ever, with at most one target. |
| Durable.NotificationsFollowTheLog | sources/app/session/sessionMessageNotificationOutbox.ts:47-129 | When a message is published every earlier message committed to that session was published and delivered. |
| CursorReplay.PageAdvances | sources/app/session/sessionMessageList.ts:32-50 | After any page, the last one included, the cursor has passed exactly the page's messages, in this log and every later one; a page says that more follow iff they do, and is then full. |
| CursorReplay.ReplayIsExact | sources/app/session/sessionMessageList.ts:28-64 | Followed to the end over a growing log, the pages are exactly the messages above the cursor, ascending, without gap or repeat. |
| CursorReplay.ResumedReplayIsExact | sources/app/session/sessionMessageList.ts:48-50 | A replay that stopped and is resumed later from its last cursor returns exactly the messages in between. |
| CursorReplay.ReplayTerminates | sources/app/session/sessionMessageList.ts:48-50 | Over a log that stays finite the replay stops within one page per `limit` messages plus one. |
| CursorReplay.SessionReplayIsLossless | sources/app/session/sessionMessageList.ts:27-64 | The same for pages read at increasing moments of any session run. |
| Routing.LoopDelivery | sources/app/events/eventRouter.ts:356-372 | The loop sends to exactly the connections its three conditions admit. |
| Routing.RoomsReachTheAddressed | sources/app/events/eventRouter.ts:335-354 | Room delivery reaches exactly the user observers and the addressed generation, never a replay socket, another generation, session or account, or the origin. |
| Routing.RoomsMatchLoopIffOneTarget | sources/app/events/eventRouter.ts:335-373 | Rooms and loop agree on all connection sets iff the notification does not name both targets. |
| Routing.CommittedMessagesRouteAlike | sources/app/session/sessionMessageCreate.ts:249-252 | For the targets a commit writes, both forms reach the same connections. |
| Generations.PaddedDecimal | sources/app/api/socket/rpcRegistrationRegistry.ts:130 | Padding a number that fits gives its fixed-width numeral. |
| Generations.EncodingKeepsOrder | sources/app/api/socket/rpcRegistrationRegistry.ts:114-131 | Below 10^16 generations compare as strings exactly as (timestamp, sequence, uuid). |
| Generations.GenerationClock.CreateGeneration | sources/app/api/socket/rpcRegistrationRegistry.ts:114-131 | Each call advances the clock by the observed reading and encodes it. |
| Generations.ClockIncreases | sources/app/api/socket/rpcRegistrationRegistry.ts:115-129 | For any readings, backward steps and overflow included, pairs strictly increase. |
| Generations.ClockIsLeast | sources/app/api/socket/rpcRegistrationRegistry.ts:119-129 | Each call moves to the least pair above the last one and not before the reading; a forward reading gives itself and zero. |
| Generations.GenerationsIncrease | sources/app/api/socket/rpcRegistrationRegistry.ts:114-131 | So do their strings, whatever the uuids, while timestamps have at most 16 digits. |
| RpcRegistry.Redis.RefreshBatch | sources/app/api/socket/rpcRegistrationRegistry.ts:20-54 | The batch script equals one-by-one refreshes in effect and answers. |
| RpcRegistry.Redis.DeleteBatch | sources/app/api/socket/rpcRegistrationRegistry.ts:56-67 | The batch script equals one-by-one compare-deletes in effect and answers. |
| RpcRegistry.Redis.RefreshKey | sources/app/api/socket/rpcRegistrationRegistry.ts:24-51 | A refresh stores an absent or newer candidate only, and reports success iff its candidate is stored afterwards. |
| RpcRegistry.RefreshIsJoin | sources/app/api/socket/rpcRegistrationRegistry.ts:37-51 | Refreshes in any order leave the key at the greatest generation offered, and never above it before. |
| RpcRegistry.RefreshOrderIrrelevant | sources/app/api/socket/rpcRegistrationRegistry.ts:247-251 | Order and repetition of refreshes do not matter. |
| RpcRegistry.RefreshConverges | sources/app/api/socket/rpcRegistrationRegistry.ts:211-224 | For distinct generations a greatest one exists and ends up stored, also after Redis lost the key. |
| RpcRegistry.StaleDeletesSpareNewer | sources/app/api/socket/rpcRegistrationRegistry.ts:226-242 | A key disappears iff some delete names exactly the value it held; nothing else changes. |
| RpcRegistry.AnswersTellTheOutcome | sources/app/api/socket/rpcRegistrationRegistry.ts:223-241 | For distinct keys a refresh answer says whether the key holds the target afterwards, a delete answer whether it held it before. |
| RpcRegistry.ForeignValuesStay | sources/app/api/socket/rpcRegistrationRegistry.ts:37-66 | A value that is no target is never overwritten or removed. |
| RpcLifecycle.ScriptsOnSnapshot | sources/app/api/socket/rpcRegistrationRegistry.ts:211-242 | On a snapshot of the map, in any listing order, the scripts act key by key. |
| RpcMap.LastCallWins | sources/app/api/socket/rpcRegistrationRegistry.ts:288-349 | Whenever nothing is outstanding for a method of an open socket, it is registered iff its last call was register, unless what the last operation for it did was undone. |
| RpcMap.LostIffUndone | sources/app/api/socket/rpcRegistrationRegistry.ts:293-326 | Undone means: refused for the limit or the ownership, or dropped by a refresh without ownership or whose target the key no longer held, and no operation for the method began since. |
| RpcMap.RegisteredIff | sources/app/api/socket/rpcRegistrationRegistry.ts:302-349 | In every run a method is registered with a target iff that SET's answer was its last recording, and since then no unregister, close, or dropping refresh took it out. |
| RpcMap.RefreshKeepsTheHeld | sources/app/api/socket/rpcRegistrationRegistry.ts:365-395 | An answered refresh keeps exactly the registrations whose keys hold their targets, and one that was applied has restored every key that accepts them. |
| RpcQueue.SupersededRegisterStops | sources/app/api/socket/rpcRegistrationRegistry.ts:299-337 | A register unregistered or closed while it retries starts no further attempt. |
| RpcQueue.RegisterStopsIff | sources/app/api/socket/rpcRegistrationRegistry.ts:299-337 | At its turn a running register stops iff close was called or its method was unregistered since the last register call or ended operation for it. |
| RpcQueue.RefreshesAreJoined | sources/app/api/socket/rpcRegistrationRegistry.ts:355-410 | At most one refresh is ever waiting or running, and after a refresh call one is. |
| RpcQueue.RefreshRunsIff | sources/app/api/socket/rpcRegistrationRegistry.ts:358-369 | A refresh offers exactly the registered targets, and is sent iff there are any and close was not called. |
| RpcQueue.LateIff | sources/app/api/socket/rpcRegistrationRegistry.ts:194-224 | What may take effect late is exactly what was sent, reported an error, and was not applied since. |
| RpcQueue.LateTakesEffect | sources/app/api/socket/rpcRegistrationRegistry.ts:194-224 | A SET takes effect late whatever the key holds, a refresh as it would have in time. |
| RpcProgress.OperationCanFinish | sources/app/api/socket/rpcRegistrationRegistry.ts:293-349 | From every reachable state the running operation can come to its end; a register nobody asked to stop then has its method registered. |
| RpcProgress.NextOperationCanRun | sources/app/api/socket/rpcRegistrationRegistry.ts:452-459 | Whenever operations wait and none runs, the first can be taken and finished. |
| RpcLifecycle.NeverOverLimit | sources/app/api/socket/rpcRegistrationRegistry.ts:293-311 | The map never exceeds the limit. |
| RpcClose.CloseCleansUp | sources/app/api/socket/rpcRegistrationRegistry.ts:412-432 | In every run, failures included: after close the map stays empty, and a key holds a target of this socket iff an earlier drop without ownership, failed command or late application concerned it and the key has held it ever since. |
| RpcClose.OnlyTheseAlter | sources/app/api/socket/rpcRegistrationRegistry.ts:194-242 | A key changes only by another writer, a new registration, a late command, a delete of what it holds, or a refresh it accepts. |
| RpcClose.LeftBehindIff | sources/app/api/socket/rpcRegistrationRegistry.ts:376-384 | In a run whose commands all succeed, after close a key holds a target of this socket iff a refresh without ownership dropped it while stored and since then neither another writer nor a new registration touched the key. |
| RpcClose.UndisturbedCloseLeavesNothing | sources/app/api/socket/rpcRegistrationRegistry.ts:412-432 | With all commands successful and no refresh answered not-owner, nothing of the socket is left. |
| RpcClose.LostOwnershipLeavesKey | sources/app/api/socket/rpcRegistrationRegistry.ts:376-384 | For every method, target and limit a run, all commands successful, in which a dropped key outlives the close. |
| RpcClose.LateSetOutlivesClose | sources/app/api/socket/rpcRegistrationRegistry.ts:194-200 | A run in which a SET that reported an error takes effect after the close and stays. |
| RpcOwner.PartsAreRuns | sources/app/presence/runtimeConnectionLease.ts:496-533 | The composition of a session with a socket's lifecycle is a run of each, so that all theorems about either hold in it. |
| RpcOwner.PartsMoveAlone | sources/app/presence/runtimeConnectionLease.ts:501-533 | Session steps leave the socket alone, socket steps leave the session alone but for releasing the lock, and an entry takes the lock or is refused. |
| RpcOwner.StoresOnlyAsOwner | sources/app/presence/runtimeConnectionLease.ts:489-494 | A registration or refresh stored inside the owner transaction is stored while the row holds the socket's exact generation, unretired, and active under the timing the sweep asks. |
| RpcOwner.SupersededSocketStoresNothing | sources/app/presence/runtimeConnectionLease.ts:489-494 | Once the socket's lease has been rotated it never again enters an owner transaction, and stores nothing but late commands, unless a transaction was aborted under its operation. |
| RpcOwner.TransactionsEnclose | sources/app/presence/runtimeConnectionLease.ts:501-533 | A transaction is open only between its entry and the last step of the operation, and whenever a SET has been applied and not yet settled. |
| RpcOwner.AnswersTellTheOwner | sources/app/presence/runtimeConnectionLease.ts:520-528 | An operation reports success only while its transaction holds the lock, and lost ownership iff the socket is not the owner when it enters. |
| RpcOwner.AbortedFenceStoresLate | sources/app/presence/runtimeConnectionLease.ts:22-29 | For every method and target a run in which, after such an abort, the old socket stores after its successor's claim. |
| LruSet.LRUSet.constructor | sources/utils/lru.ts:15-21 | A new set of any capacity, fractional or infinite, is empty and well formed. |
| LruSet.LRUSet.Create | sources/utils/lru.ts:15-21 | Construction fails iff the capacity is not positive. |
| LruSet.LRUSet.MoveToFront | sources/utils/lru.ts:23-37 | Relinks one node in front of the others and keeps list, ends and map consistent. |
| LruSet.LRUSet.Add | sources/utils/lru.ts:39-66 | The structure stays well formed and refines insertion into the recency sequence iff one value fits; below that the value stays the head while the map is empty. |
| LruSet.LRUSet.Has | sources/utils/lru.ts:68-75 | Answers membership and makes a found value the most recent. |
| LruSet.LRUSet.Delete | sources/utils/lru.ts:77-88 | Removes exactly the value and reports whether it was there. |
| LruSet.LRUSet.Clear | sources/utils/lru.ts:90-94 | Empties the set. |
| LruSet.LRUSet.Size | sources/utils/lru.ts:96-98 | The map size is the length of the sequence, within the capacity. |
| LruSet.LRUSet.ToArray | sources/utils/lru.ts:100-110 | Walking the list yields the duplicate-free sequence, most recent first. |
| LruSet.InsertEvictsOldest | sources/utils/lru.ts:58-65 | Insertion keeps the sequence duplicate-free and within the integer part of the capacity, puts the value first, and evicts exactly the last element, only when that is reached. |
| AsyncLock.Lock.Acquire | sources/utils/lock.ts:14-20 | Takes a free permit at once, otherwise queues last. |
| AsyncLock.Lock.Release | sources/utils/lock.ts:22-39 | Frees the permit or hands it to the first waiter. |
| AsyncLock.ReleaseFailsIff | sources/utils/lock.ts:22-39 | In any state a release errs iff a permit was free while someone waited; from a held permit it wakes the first waiter or frees the permit. |
| AsyncLock.MutualExclusionInCallOrder | sources/utils/lock.ts:1-40 | In every run permit plus holders is one, the error branch is unreachable, the permit is restored, bodies begin one at a time in call order. |
| SocketOrder.SocketOrderIsLogOrder | sources/app/api/socket/sessionUpdateHandler.ts:334-417 | Over the lock and the runs of all sessions: every message created for a socket is in its session's log under its number, and within a session in receive order. |
| SocketOrder.LockTellsTheEvents | sources/utils/lock.ts:8-20 | Calls, begun bodies, the running body and its one request are those of the events. |
| ActivityCache.ActivityCache.Admit | sources/app/presence/sessionCache.ts:115-127 | A validation refreshes its own account's entry and replaces another's. |
| ActivityCache.ActivityCache.QueueUpdate | sources/app/presence/sessionCache.ts:177-227 | Accepts iff the update is over the threshold from the instance's watermark and not older than the pending one. |
| ActivityCache.ActivityCache.TakePendingUpdates | sources/app/presence/sessionCache.ts:286-314 | Takes each pending update not blocked by one in flight exactly once. |
| ActivityCache.ActivityCache.FinishUpdate | sources/app/presence/sessionCache.ts:332-404 | Records, discards or requeues, only if the entry object is still the cached one. |
| ActivityCache.ActivityCache.CleanUp | sources/app/presence/sessionCache.ts:435-447 | Removes exactly the expired entries with nothing pending or in flight. |
| ActivityRuns.EachTakenUpdateOnce | sources/app/presence/sessionCache.ts:406-421 | In every interleaving of the workers each taken update is handed to one worker and completed once, no more are in flight than the configured number, and nothing stays in flight when the batch ends. |
| ActivityRuns.NoUpdateIsLost | sources/app/presence/sessionCache.ts:316-404 | Every accepted update waits in the cache or has one fate, which is true: persisted; overtaken by a stored timestamp as late; fenced; record gone; superseded by one at least as new; yielded to a later accepted one; within the threshold of a timestamp the record really held; or, for machines only, displaced by another account. |
| ActivityTheorems.FatesAreFinal | sources/app/presence/sessionCache.ts:316-404 | A fate other than displacement never changes again. |
| ActivityTheorems.PersistedIff | sources/app/presence/sessionCache.ts:319-350 | An answered update is persisted, for good, iff when its statement was executed the record existed and, for a session, held an earlier timestamp and, if the update names an instance, was active under it. |
| ActivityTheorems.FencedWriteSilencesOwner | sources/app/presence/sessionCache.ts:319-340 | A run in which a displaced instance's write stores nothing, and the cache then refuses the owner's update near it. |
| ActivityTheorems.SilencedIff | sources/app/presence/sessionCache.ts:191-206 | In every run an idle entry refuses an update near no timestamp its record has held iff it is near an answered write of this entry object that stored nothing and no validation or answered write gave the object a later timestamp. |
| ActivityTheorems.LastSentIsGreatest | sources/app/presence/sessionCache.ts:115-127 | An entry object's last sent timestamp is the greatest that its validations read and its answered writes carried, and was held by the record or missed by such a write. |
| ActivityTheorems.RefusedOnlyIfRecent | sources/app/presence/sessionCache.ts:191-206 | With every answered write of the entry object stored, an idle entry refuses only updates within the threshold of a timestamp the record has held. |
| ActivityTheorems.AcceptsIff | sources/app/presence/sessionCache.ts:177-206 | Whatever an entry holds, it accepts an update iff it is not older than the waiting one and not within the threshold of the greatest timestamp raised for the object, in flight or waiting for the same instance. |
| ActivityTheorems.LeavesIff | sources/app/presence/sessionCache.ts:435-447 | An entry leaves the cache iff its record turns out missing, or a clean-up after the end of its last validation finds it without work. |
| ActivityTheorems.DisplacedIff | sources/app/presence/sessionCache.ts:157-169 | An update is displaced iff a validation for another account found it in the entry and its own write has not been answered. |
| ActivityTheorems.NothingDisplacedIff | sources/app/presence/sessionCache.ts:115-127 | A run displaces no update iff no validation names another account than that of an entry holding work. |
| ActivityTheorems.OneAccountKeepsAll | sources/app/presence/sessionCache.ts:157-169 | In particular none if every id is validated for one account only. |
| ActivityTheorems.SharedMachineIdLosesUpdate | sources/app/presence/sessionCache.ts:146-169 | For any two accounts a run in which sharing a machine id loses an accepted update. |
| ActivityTheorems.YieldsToOlderIff | sources/app/presence/sessionCache.ts:374-392 | A failed write gives way to an older update iff that one was accepted with a timestamp before the one in flight. |
| ActivityTheorems.FailedWriteYieldsToOlder | sources/app/presence/sessionCache.ts:196-199 | A run in which it does, so that the newer timestamp is never written. |
| ActivityPublisher.Publisher.CleanupIfNeeded | sources/app/presence/sessionActivityPublisher.ts:100-108 | When due, drops exactly the entries not observed for the stale period. |
| ActivityPublisher.Publisher.Publish | sources/app/presence/sessionActivityPublisher.ts:55-94 | For any clock readings it emits iff a publisher that never forgets would or the cleanup has forgotten the session; with a clock that never steps back, iff the former would. |
| ActivityPublisher.Publisher.PublishAll | sources/app/presence/sessionActivityPublisher.ts:55-94 | Over a whole run: with such a clock exactly the emissions of the publisher that never forgets; with any clock the last emission for a session is its last observed state. |
| ActivityPublisher.BackwardClockRepeats | sources/app/presence/sessionActivityPublisher.ts:100-108 | With a clock that steps back an unchanged state is repeated within the refresh interval. |
| ActivityPublisher.KeyInjective | sources/app/presence/sessionActivityPublisher.ts:96-98 | Keys are equal iff user and session are, for arbitrary ids. |
| ActivityPublisher.LastEmittedIsLastObserved | sources/app/presence/sessionActivityPublisher.ts:59-74 | The last emitted state of a session is its last observed state. |
| ActivityPublisher.EmittedIff | sources/app/presence/sessionActivityPublisher.ts:59-74 | An observation is emitted iff it is the first of its session, differs from the last emission for it, or comes at least the refresh interval after that. |
| ActivityPublisher.UnchangedEmissionsAreSpaced | sources/app/presence/sessionActivityPublisher.ts:66-68 | Consecutive emissions of an unchanged state are at least the refresh interval apart. |

## Left out

- Statement snapshots in PostgreSQL: every SQL statement and transaction is one atomic step, as the comment at sources/app/presence/runtimeConnectionLease.ts:217-221 intends; what a statement sees that began before it got the advisory lock is not modelled.
- Account ownership is checked in the methods of `SessionStore.Session` and `MessageLog.SessionLog`; in runs every statement already belongs to the owning account.
- `updatedAt`, `retiredAt`, metadata and agent-state columns, whose writes are fenced by the same ownership condition and change nothing the properties speak of.
- Persistence of legacy (tuple-less) ownership under the owner lock: the legacy end does not take the lock, so it does not hold.
- SessionTheorems.OwnerLockFences: assumes that sockets present only lease ids a claim handed them and that Prisma aborts a locked transaction after 40 s.
- OutboxTable.NotificationTable.Drain: one dispatcher whose clock does not step back; wake-ups, the timer, `stopped` and the cleanup interval are not modelled. Interleavings of dispatchers are in `Outbox`.
- MessageLog.SessionLog.Persist: does not model the retry of serialisation failures in `inTx` or the size limits checked before it.
- RpcRegistry.Redis.RefreshBatch: does not model expiry times; loss of keys is a step of `RpcLifecycle`. Stored strings are values that decode or do not, because JSON encoding is injective.
- RpcMap.LastCallWins: excludes a method whose last operation was refused or whose registration was dropped on purpose (`LostIffUndone` says when). Keys are identified by method, assuming no SHA-256 collision; timers and backoff delays are not modelled.
- RpcOwner.StoresOnlyAsOwner: sockets without a session-bound owner register without a fence, and tuple-less owners are held by no lock; neither promises anything here.
- Routing.RoomsReachTheAddressed: ids are colon-free and socket and lease ids non-empty. The general `emit` is not modelled; its two forms differ for `all-interested-in-session`.
- ActivityRuns.EachTakenUpdateOnce: one batch at a time, as the flush promise ensures; joining of flush calls, `flushAgain`, timers and shutdown are not modelled. A session id belongs to one account for ever.
- LruSet.LRUSet.Add: what later calls do to the broken list of a set whose capacity is below one is not modelled.
- Liveness and fairness, session deletion, HTTP routes, schemas, Socket.IO and Pub/Sub transport, metrics, logging, storage, social features and cryptography.
