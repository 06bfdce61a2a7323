# CMPP 2.0 client core: a verified model

The client sends short messages to a carrier gateway over CMPP 2.0. Its core keeps a
sliding window of in-flight SUBMITs that five actors share, hands out sequence ids that
are never used twice, leases 8-bit concatenation references, brings events to the
application through a bounded spool, splits long messages, and speaks the binary
protocol over a byte stream. This project models those six parts in Dafny and proves
what they promise.

Two forms are used side by side. Where actors interleave, a part is a state machine:
each critical section is a step, a run is any sequence of steps, and the promises are
statements about every state of every run. Where the code changes something in place,
the same part is also a class with those fields, and each method is proved against the
step or the function that specifies it.

| file | part |
|---|---|
| `Wrappers.dfy` | machine integers, optional values, results |
| `RetiredRanges.dfy`, `RetiredOrder.dfy`, `SequenceRegistry.dfy`, `RegistryLeases.dfy` | the table of retired ids as disjoint intervals; orders of retiring; the registry object; runs of leases |
| `SubmitModel.dfy` | the SUBMIT machine: callers, writer, reader, timeout scanner, shutdown |
| `SubmitOwnership.dfy`, `SubmitDecisions.dfy`, `SubmitFrames.dfy`, `SubmitPlaces.dfy`, `SubmitTheorems.dfy` | its invariants: who owns an id, one decision per id, where the frame of an attempt is |
| `SubmitPromises.dfy`, `SubmitScans.dfy` | what follows for every run, and the four-scan bound |
| `SubmitEffects.dfy`, `SubmitClosing.dfy`, `SubmitLeases.dfy` | what a response, a scan and a close do to one submit over a run; no lease leaks |
| `SubmitWindow.dfy`, `Teardown.dfy` | the same critical sections on an object, batches included; what teardown asks of the spool |
| `UdhBitmap.dfy`, `UdhBuckets.dfy`, `UdhPool.dfy`, `UdhRests.dfy`, `UdhReferencePool.dfy` | reference bitmaps, cooldown heaps, leases under interleaved releases, how long a reference rests, the pool object |
| `EventSpool.dfy`, `EventDispatch.dfy` | admission and depth; the machine of spool, responses, teardown and dispatcher |
| `EventGate.dfy`, `EventDepth.dfy`, `EventOrder.dfy`, `EventPromises.dfy`, `EventProgress.dfy`, `EventOutcomes.dfy` | its invariants, promises, progress, and what becomes of a close reason and of a written DELIVER |
| `EventPath.dfy` | the same sections on an object |
| `Delivery.dfy` | SUBMIT and event machine together: from decision to application |
| `SmsText.dfy`, `SmsPlan.dfy`, `SmsSplit.dfy`, `SmsSegments.dfy` | UTF-16 and ASCII content, greedy splits, the two planning passes, segments and reading them back |
| `Utf8.dfy`, `WireBytes.dfy`, `OctetText.dfy` | UTF-8 with lossy decoding; fields; what a field keeps of a string |
| `Pdu.dfy`, `PduRoundTrip.dfy`, `FrameStream.dfy`, `FrameLayout.dfy`, `FrameCodec.dfy` | the ten PDUs, their round trip, frames on a cut byte stream, the wire format byte by byte, buffer and cursor |

Five readings of the code are worth knowing.

* "Exactly one" of response, timeout and dropped (`src/connection.rs:97-100`) is stated twice:
  about the decision, which is the change of the pending map under its lock, and about the
  application, which gets the one report of each decision unless that report is among the
  dropped events (`ReportedExactlyOnce`); the documentation allows these.
* A refused SubmitTimeout leaves its entry in the map (`src/connection.rs:3297-3304`), so it is
  counted as a dropped event although the submit is decided later. The machine has both
  outcomes.
* Two branches of the code cannot be taken, and this is proved: retiring the id of a timed-out
  submit never fails (`TimeoutRetires`), and no id repeats inside a manual batch
  (`WrappingAddInjective`).
* In which order ids are retired does not matter, except near the bound of 65536 ranges: there
  one order can be accepted and another refused. `AllOrdersAccepted` says exactly when, and
  `OrderMattersWhenFull` with `FullTableExample` names a table.
* A string that is too long for its field is cut at a byte. If that cuts its last character and
  this character is U+FFFD, the lossy reading puts it back, so the string survives all the same
  (`OctetRoundTrip`).

## Model

| member | source | states |
|---|---|---|
| RetiredRanges.RetiredContains | src/connection.rs:536-543 | looking at the range below an id answers whether any range covers it |
| RetiredRanges.CanonicalUnique | src/connection.rs:406-407 | sorted, disjoint, never adjacent ranges that cover the same ids are the same table |
| RetiredRanges.InsertRetired | src/connection.rs:545-585 | insertion covers exactly one id more, stays canonical at every 32-bit edge, and is refused exactly for an isolated id in a full table |
| RetiredOrder.InsertAll | src/connection.rs:545-585 | after any list of insertions exactly the listed ids are covered in addition, within the bound on ranges |
| RetiredOrder.AllOrdersAccepted | src/connection.rs:545-585 | every order of retiring some ids is accepted if and only if the table has room for the most of them that touch neither a range nor each other |
| RetiredOrder.OrderIrrelevant | src/connection.rs:545-585 | with that room, any two orders of the same ids are accepted and give the same table |
| RetiredOrder.OrderMattersWhenFull | src/connection.rs:568-572 | in a full table the order does matter: next to a retired id x, retiring x + 1 then x + 2 is accepted and x + 2 then x + 1 refused |
| RetiredOrder.FullTableExample | src/connection.rs:545-585 | such a full table is reached by retiring 0, 10, 20, ... one at a time |
| SequenceRegistry.SequenceState.constructor | src/connection.rs:415-426 | a new registry starts at the larger of the given id and one, with nothing reserved or retired |
| SequenceRegistry.SequenceState.ReserveNext | src/connection.rs:428-463 | terminates; returns the least id from the cursor on that is neither retired nor reserved, or none when there is none up to the largest id, and moves skipped retired ids into the prefix without losing one |
| SequenceRegistry.SequenceState.AbsorbFrom | src/connection.rs:441-455 | the removed range leaves exactly its part below the automatic start behind |
| SequenceRegistry.SequenceState.ReserveBatch | src/connection.rs:465-503 | granted exactly when there are at most 255 ids and none of them is blocked; then it is base, base + 1, ... in order, going on at 0 after 0xFFFFFFFF, and exactly these become reserved |
| SequenceRegistry.SequenceState.Release | src/connection.rs:505-511 | an unused id becomes free again and nothing else changes |
| SequenceRegistry.SequenceState.Retire | src/connection.rs:513-533 | the id is spent for ever; only an isolated id in a full table is refused, and keeps its reservation |
| SequenceRegistry.SequenceState.InsertRetiredSequence | src/connection.rs:545-585 | the in-place insertion is the specified one |
| SequenceRegistry.WrappingAddInjective | src/connection.rs:470-477 | a batch no longer than the id space has distinct ids, wrap-around included |
| SequenceRegistry.NextFacts | src/connection.rs:428-463 | an automatic id is spent from then on and was not blocked before; what was spent stays spent |
| SequenceRegistry.FirstAutomatic | src/connection.rs:415-426 | the first automatic id of a new registry is its start, one at least |
| SequenceRegistry.BatchIsAsked | src/connection.rs:465-503 | the specified batch is the consecutive ids asked for, told without modular arithmetic |
| SequenceRegistry.BatchFacts | src/connection.rs:465-503 | ids of a manual batch were not blocked, and no spent id is lost |
| SequenceRegistry.RetireFacts | src/connection.rs:513-533 | retiring loses no spent id and adds only this one |
| RegistryLeases.InvNext | src/connection.rs:594-611 | every lease operation keeps: leased ids are reserved, issued and retired ids are blocked |
| RegistryLeases.NeverReissued | src/connection.rs:428-533 | over any run, an id issued automatically or retired by a lease is never handed out again, even when the full table refused it |
| RegistryLeases.HandedOutIsNew | src/connection.rs:428-503 | a handed-out id differs from all ids issued, retired or leased so far |
| SubmitOwnership.OwnNext | src/connection.rs:1905-1988 | in every step, callers, pending entries and other leases own different ids, and each pending id is spent or leased |
| SubmitOwnership.PermitsNext | src/connection.rs:1914-1988 | no step loses or duplicates a window permit or a queue slot |
| SubmitDecisions.DecNext | src/connection.rs:943-1081 | no step decides an id twice, or one that was never admitted |
| SubmitDecisions.AdmittedConserved | src/connection.rs:864-881 | admitted submits are the decided ones and the undecided pending ones |
| SubmitDecisions.AllDecided | src/connection.rs:943-957 | with an empty pending map every admitted id has exactly one decision |
| SubmitPlaces.FramesNext | src/connection.rs:1019-1119 | every step keeps the place of each attempt's frame: queued, unclaimed, being written, written once |
| SubmitTheorems.InvNext | src/connection.rs:1905-1988 | the whole invariant survives every step of every actor |
| SubmitTheorems.RunInv | src/connection.rs:891-1119 | the invariant holds in every state of every run |
| SubmitPromises.AtMostOneDecision | src/connection.rs:97-100 | an admitted id has no decision while it is undecided in the map, exactly one otherwise; an answer during a write already is the decision |
| SubmitPromises.DecisionsStand | src/connection.rs:943-957 | no later state withdraws or repeats a decision, close after an early answer included |
| SubmitPromises.ExactlyOneAfterTeardown | src/connection.rs:943-957 | once the closed connection has emptied the map, every admitted id has exactly one decision for ever |
| SubmitPromises.NothingLost | src/connection.rs:864-881 | free and held permits and pending entries add up to the window; admitted equals answered, timed out, dropped and undecided |
| SubmitPromises.AdmittedIdIsNew | src/connection.rs:1966-1985 | inserting into the pending map overwrites nothing, and no older decision names the id |
| SubmitPromises.TimeoutRetires | src/connection.rs:3306-3336 | retiring at the final timeout always succeeds |
| SubmitPromises.AttemptsAreWrites | src/connection.rs:3282-3312 | each attempt is written at most once; awaiting attempt a means a writes; a timeout reports retry_count attempts, which is the number of writes |
| SubmitPromises.QueuedHasOneFrame | src/connection.rs:1019-1081 | while SUBMITs may be sent, a queued attempt has exactly one unclaimed frame, in the queue or in the batch |
| SubmitPromises.SkippedFramesAreDecided | src/connection.rs:1044-1076 | while SUBMITs may be sent, a frame that is not claimed belongs to a decided submit |
| SubmitPromises.DrainedOnAck | src/connection.rs:2742-2783 | when the drain marker is acknowledged with the drain flag still set, everything admitted is decided or awaits the response to a written frame |
| SubmitEffects.ResponseDecides | src/connection.rs:3018-3050 | a response to any submit without an answer decides it: a frame being written makes the entry remember, a queued or written attempt leaves the map with its permit and lease; any other response changes nothing |
| SubmitEffects.AnswerCancels | src/connection.rs:3009-3042 | over runs, after a response to a queued or written attempt no further frame of that submit is ever written, a queued retransmission included |
| SubmitEffects.DecisionSource | src/connection.rs:3014-3336 | a step makes at most one decision: answers come from responses only, timeouts from the head of the scan list only, drops from the teardown of a closed connection only |
| SubmitEffects.AwaitsSinceWrite | src/connection.rs:1089-1119 | every attempt that awaits its response was completely written earlier in the run, at the instant its entry names |
| SubmitEffects.NeverTooEarly | src/connection.rs:3251-3376 | the scanner times out or repeats an attempt no earlier than the response timeout after its complete write |
| SubmitClosing.ClosingNext | src/connection.rs:891-931 | a graceful close from Open sets the drain flag, a later hard one clears it for good; outside Open no frame is queued, and once draining is off none is claimed |
| SubmitClosing.NothingSentAfterStop | src/connection.rs:1019-1081 | over runs, once SUBMITs must not be sent any more, only frames already being written reach the wire |
| SubmitClosing.GracefulCloseDrains | src/connection.rs:891-916 | a graceful close that nobody cuts short ends with everything admitted decided or awaiting the response to a written frame |
| SubmitLeases.NoLeaseLeaks | src/connection.rs:594-611 | in every reachable state exactly the ids of living owners are reserved, besides ids whose retirement a full table refused |
| SubmitLeases.SubmissionIdsDiffer | src/connection.rs:856-858 | no two submits of a connection share a submission id |
| SubmitScans.FrontShrinks | src/connection.rs:3251-3278 | between scans the expired attempts ahead of a given one only become fewer |
| SubmitScans.ScanAdvances | src/connection.rs:3278-3376 | an unhindered scan handles the attempt itself or a whole batch ahead of it |
| SubmitScans.FourScansSuffice | src/connection.rs:1646-1650 | an expired attempt is retried or decided within four unhindered scans, whatever else interleaves |
| SubmitWindow.Connection.BeginClosing | src/connection.rs:891-916 | is the machine's step; the first call enters Closing and sets the drain flag as told, a later one can only clear it |
| SubmitWindow.Connection.TransitionToClosed | src/connection.rs:918-931 | the first caller makes the machine's Close step, a later one changes nothing |
| SubmitWindow.Connection.Admit | src/connection.rs:1957-1988 | the section at the end of a send is the admission step, or the release of permit, lease and slot |
| SubmitWindow.Connection.DropReady | src/connection.rs:1964-1966 | giving up returns the permit, the lease and the queue slot |
| SubmitWindow.Connection.ClaimFrame | src/connection.rs:1040-1066 | a frame is claimed exactly if its attempt is the queued one and sending is allowed |
| SubmitWindow.Connection.ClaimSubmitAttempts | src/connection.rs:1019-1081 | the in-place compaction keeps exactly the frames a frame-by-frame claim keeps, in order |
| SubmitWindow.KeptExactly | src/connection.rs:1044-1076 | judged by the map before the batch: queued attempt, allowed, and no duplicate earlier in the batch |
| SubmitWindow.Connection.CompleteSubmitAttempts | src/connection.rs:1089-1119 | completing a batch is completing its frames one by one |
| SubmitWindow.Connection.MatchResponse | src/connection.rs:3018-3050 | handled exactly if the submit is pending without an answer; the entry remembers the answer during a write and leaves the map with its permit otherwise, queued retransmission or not |
| SubmitWindow.Connection.FlushSubmitResps | src/connection.rs:3014-3064 | every submit of the batch that had no answer is decided afterwards and has left the map unless it is being written; the published list is the taken responses in order |
| SubmitWindow.EachAnswered | src/connection.rs:3014-3064 | entry by entry: a batch decides exactly the named submits without an answer, and leaves every other entry as it is |
| SubmitWindow.TakenOnce | src/connection.rs:3018-3064 | duplicates inside a batch are published once |
| SubmitWindow.Connection.FailAllPending | src/connection.rs:943-967 | the map is emptied, each id without an answer is reported once, in batches of at most 128 |
| SubmitWindow.Connection.CollectExpired | src/connection.rs:3251-3278 | the scan list is the oldest expired attempts, in order, cut to the batch size |
| SubmitWindow.OldestFirst | src/connection.rs:3271-3276 | sorting and truncating leaves out only attempts younger than all that stay |
| SubmitWindow.Connection.ExpireFinal | src/connection.rs:3282-3337 | the last attempt's entry leaves the map with its timeout event, or stays when the event is refused |
| SubmitWindow.Connection.TryReserveSlot | src/connection.rs:3339-3348 | a full queue leaves the attempt to a later scan |
| SubmitWindow.Connection.CommitRetry | src/connection.rs:3350-3376 | the next attempt is queued only in phase Open and while the response is still missing |
| SubmitWindow.ClaimIsRun | src/connection.rs:1019-1081 | claiming a batch under one lock is a run of single claims |
| SubmitWindow.RespondIsRun | src/connection.rs:3014-3064 | matching a batch is a run of single responses |
| SubmitWindow.CompleteIsRun | src/connection.rs:1089-1119 | completing a batch is a run of single completions |
| SubmitWindow.TeardownIsRun | src/connection.rs:943-957 | emptying the map is a run of single drops |
| SubmitWindow.Chunks | src/connection.rs:960-967 | batches concatenate to the whole list and are as many as rounding up says |
| Teardown.BatchesFitSpool | src/connection.rs:1653-1657 | in every reachable state the teardown batches are no more than the ordinary spool capacity |
| UdhBitmap.BitMembers | src/connection.rs:371-389 | on four 64-bit words, the shift, or and and-not of the code change the membership of that reference only |
| UdhBitmap.EitherIsOr | src/connection.rs:376-379 | the masked or of two words tests whether the reference is in one bitmap or the other |
| UdhBuckets.PurgeKeeps | src/connection.rs:391-399 | purging keeps one heap entry for each cooling reference and ends no cooldown early |
| UdhBuckets.ReleaseKeeps | src/connection.rs:334-343 | releasing makes an exposed reference cool until its deadline, for ever without one, and touches no other |
| UdhPool.InvNext | src/connection.rs:290-345 | active bitmaps are exactly the held references, and every promised rest is kept, in every interleaving of acquires and half-finished releases |
| UdhPool.LeasesDiffer | src/connection.rs:309-325 | two live leases that share a bucket never carry the same reference |
| UdhPool.QuarantineBlocks | src/connection.rs:329-344 | a reference whose rest is not over is blocked, whether its release has reached the bucket or not |
| UdhPool.RestsUntilDeadline | src/connection.rs:329-360 | an exposed reference is not acquired again in any of its buckets before the deadline of its release |
| UdhPool.BlockedExactly | src/connection.rs:391-399 | in every reachable state and at every later time, a purged bucket blocks a reference if and only if a lease holds it there or a promised rest is not over |
| UdhPool.FirstFreeUnique | src/connection.rs:309-326 | the first free reference in cyclic order is unique; none means that all 256 are blocked somewhere |
| UdhRests.BlockedByHistory | src/connection.rs:329-399 | over runs, a purged bucket blocks a reference if and only if a lease holds it there or some earlier release of an exposed lease is less than its cooldown ago, or its end cannot be represented |
| UdhRests.RestEndsExactly | src/connection.rs:331-343 | after a single release the reference is blocked exactly until release instant plus cooldown, and for ever when that instant cannot be represented |
| UdhRests.ReusedAtOnce | src/connection.rs:290-327 | a preferred reference that is neither held nor resting is the one acquired, at the very instant its rest is over |
| UdhRests.LeaseHistory | src/connection.rs:290-327 | over runs, a lease has the reference, buckets and cooldown of its acquisition, and is exposed only if it was marked since |
| UdhReferencePool.Peek | src/connection.rs:391-396 | the entry that is popped has the earliest deadline |
| UdhReferencePool.Purge | src/connection.rs:391-399 | the popping loop leaves exactly the cooldowns that are not over, and clears exactly the bits of the others |
| UdhReferencePool.SortedIds | src/connection.rs:297-304 | the buckets are locked once each, in ascending order |
| UdhReferencePool.UdhReferencePool.FreeEverywhere | src/connection.rs:311-314 | true exactly when the reference is blocked in none of the buckets |
| UdhReferencePool.UdhReferencePool.TryAcquire | src/connection.rs:290-327 | returns the first reference in cyclic order that is free in all buckets after purging, marks it there and nowhere else, and fails only if all 256 are blocked |
| UdhReferencePool.UdhReferencePool.ReleaseInBucket | src/connection.rs:334-343 | one bucket's critical section is the release step of the machine |
| UdhReferencePool.UdhReferencePool.Release | src/connection.rs:329-345 | in every bucket of the lease its bit is cleared and an exposed reference gets a cooldown until now plus cooldown, or without end; the other buckets stay |
| EventSpool.SpoolCapacity | src/connection.rs:1653-1655 | the configured capacity, or as many slots as the batches of 128 of a full window need if these are more |
| EventSpool.TeardownFits | src/connection.rs:1653-1655 | the batches of any number of ids up to the window fit into the ordinary capacity |
| EventPath.EventPath.constructor | src/connection.rs:1653-1657 | a new event path is an initial state of the machine |
| EventPath.EventPath.EmitEvent | src/connection.rs:1232-1276 | refused without a change once overflowed or sealed; in Open and Draining sent if there is a slot, on to Overflowed exactly without capacity or slot, as the two steps of an emission |
| EventPath.EventPath.MakeEventTicket | src/connection.rs:1167-1181 | a ticket exists exactly when its place entered the spool, and the counter of pending tickets stays right |
| EventPath.EventPath.ReserveDeferredEvent | src/connection.rs:1186-1226 | the same two steps for a gated event; the error says overflowed or closed |
| EventPath.EventPath.BeginEventDrain | src/connection.rs:1278-1286 | is the machine's step into Draining |
| EventPath.EventPath.SealEventAdmissionIfIdle | src/connection.rs:1288-1304 | is the machine's step that seals exactly when no ticket is pending, decided by the counter |
| EventPath.EventPath.SealEventAdmission | src/connection.rs:1306-1314 | is the machine's sealing step |
| EventPath.EventPath.StartTeardown | src/connection.rs:958-960 | is the machine's step that starts on the batches |
| EventPath.EventPath.OfferBatch | src/connection.rs:960-967 | is the machine's step that counts the next batch before its first attempt |
| EventPath.EventPath.TryBatch | src/connection.rs:968-981 | one attempt is the machine's entry of the batch exactly when there is a slot |
| EventPath.EventPath.GiveUpBatch | src/connection.rs:983-1011 | is the machine's step that drops a batch, and all its events are counted |
| EventPath.EventPath.CloseEventSpool | src/connection.rs:1361-1383 | only the first call makes the terminal item, with the reason it was given: in the spool if there is a slot, left to the retries otherwise; these are the machine's steps |
| EventPath.EventPath.RetryTerminal | src/connection.rs:1383-1405 | one retry is the entry of the terminal item exactly when there is a slot |
| EventPath.EventPath.QueueResponse | src/connection.rs:2862-2885 | a response is queued with its ticket, or lost together with it |
| EventPath.EventPath.Settle | src/connection.rs:614-620 | publishing or dropping a ticket ends its pending count and changes no other ticket |
| EventPath.EventPath.CompleteWrite | src/connection.rs:2742-2775 | after a complete write every response of the batch is on the wire and publishes its event, in order, as a run of machine steps |
| EventPath.PublishIsRun | src/connection.rs:2768-2772 | publishing the events of a batch is a run of single publications |
| EventPath.EventPath.Receive | src/connection.rs:2351-2353 | is the machine's receipt of the first spool item |
| EventPath.EventPath.Attempt | src/connection.rs:2489-2512 | the wait for two places ends in a run of reads followed by the machine's delivery or its giving up, and which of the two depends on the room found |
| EventPath.EventPath.DispatchDirect | src/connection.rs:2444-2477 | a run of machine steps; the event is forwarded, or counted as dropped and discarding begins |
| EventPath.EventPath.DispatchBatch | src/connection.rs:2367-2380 | a run of machine steps; a beginning of the batch is forwarded in order, and forwarded and dropped events add up |
| EventPath.EventPath.Exit | src/connection.rs:2426-2436 | is the machine's last step, with Disconnected in the reserved place |
| EventPath.EventPath.Handle | src/connection.rs:2350-2440 | one item from its receipt to its end is a run of the machine, from Receive to FinishItem or Exit; every event of it is forwarded or counted |
| EventDispatch.FlowNext | src/connection.rs:2343-2440 | the spool is what entered and was not taken, in order; one terminal item, and it is the last |
| EventGate.GateNext | src/connection.rs:2742-2772 | in every step each pending ticket has exactly one holder among reader, queue, batch and writer, and only events whose response is on the wire are published |
| EventDepth.AccountedNext | src/connection.rs:182-206 | the depth is the weight of what is in the spool, at the dispatcher and waiting to enter |
| EventDepth.BoundedNext | src/connection.rs:1232-1270 | before the teardown the depth stays within capacity, one more after the overflow |
| EventOrder.OrderedNext | src/connection.rs:2343-2440 | what was forwarded is exactly the events of the finished items, or a prefix of them once discarding began |
| EventPromises.SpoolBound | src/connection.rs:1653-1657 | before any teardown batch the spool holds at most capacity + 1 items and has a free slot |
| EventPromises.EmissionAccepted | src/connection.rs:1247-1265 | until then every admitted event enters, the one that triggers the overflow included |
| EventPromises.TerminalFits | src/connection.rs:1361-1382 | without dropped submits the terminal item enters at once |
| EventPromises.AdmissionForward | src/connection.rs:622-629 | admission only moves forward: Open, Draining, Overflowed, Sealed, Terminal |
| EventPromises.NothingAfterTerminal | src/connection.rs:1361-1375 | after Terminal no event enters, and the terminal item at most once and last |
| EventPromises.SealStaysIdle | src/connection.rs:2305-2321 | after sealing an idle spool no gated event is pending ever again |
| EventPromises.SpoolOrder | src/connection.rs:2350-2425 | the application sees a prefix of the spool's events in spool order |
| EventPromises.AllForwarded | src/connection.rs:2350-2440 | without discarding, everything that entered was forwarded by the end, once and in order |
| EventPromises.GateBlocks | src/connection.rs:2381-2398 | a DELIVER whose response is not written holds back everything behind it |
| EventPromises.OnlyWrittenForwarded | src/connection.rs:749-760 | a DELIVER whose response was never written completely was given up and is never forwarded, or nothing at or behind its place has been forwarded |
| EventPromises.DisconnectedDelivered | src/connection.rs:2426-2436 | Disconnected finds its reserved slot whenever the receiver is open |
| EventPromises.DisconnectedIsLast | src/connection.rs:2426-2440 | nothing follows Disconnected in any later state |
| EventOutcomes.ReasonArrives | src/connection.rs:1370-1382 | over runs, the reason the spool was closed with is exactly what Disconnected tells an open receiver; without a reason there is no Disconnected |
| EventOutcomes.TicketKeepsEvent | src/connection.rs:1186-1226 | a ticket publishes the event it was reserved for, or none |
| EventOutcomes.WrittenArePublished | src/connection.rs:2742-2772 | over runs, a DELIVER whose response was written completely is published, never given up |
| EventOutcomes.WrittenDeliverForwarded | src/connection.rs:749-760 | once the dispatcher is through without discarding, each such DELIVER that entered has reached the application |
| EventOutcomes.SpoolNeverOver | src/connection.rs:1656-1657 | in every reachable state the spool holds at most its ordinary capacity and two items |
| EventProgress.NeverStuck | src/connection.rs:2489-2512 | outside a gate the dispatcher can always move: a full channel or a lost receiver only starts discarding |
| EventProgress.DispatchUsesWork | src/connection.rs:2350-2440 | every step of the dispatcher uses up a bounded amount of work |
| EventProgress.EndingNext | src/connection.rs:1354-1360 | once the terminal item exists, no step of anyone else adds work to the dispatcher: the work left only falls, by one at least with each of its steps |
| EventProgress.DispatcherStepsBounded | src/connection.rs:1354-1360 | in every run, from the making of the terminal item on, in the spool or outside a full one, the dispatcher takes at most as many steps as the work that was left |
| EventProgress.CanAlwaysMove | src/connection.rs:1383-1405 | in every run, from then until the dispatcher has exited, its next step or the terminal item's entry is enabled, except at a gate, and then the ticket has a holder that can settle it |
| EventProgress.TerminalIsReached | src/connection.rs:1354-1405 | from every such state without a pending ticket the dispatcher's own steps and one retry lead to its exit, whether or not the spool was full and however little the application reads |
| EventProgress.GivesUpOnce | src/connection.rs:2489-2512 | no run waits out the backpressure budget twice |
| Delivery.JointInvNext | src/connection.rs:3014-3064 | in the product of the SUBMIT and the event machine every step keeps the accounts: each decision is owed, on its way, in the spool's history or lost, once |
| Delivery.ReportedAtMostOnce | src/connection.rs:97-100 | in every reachable state, no submit has been reported to the application twice |
| Delivery.ReportedExactlyOnce | src/connection.rs:97-100 | when the closed connection has no pending submit left and the reading application got all of the spool, each accepted submit was reported exactly once, or its report is among the dropped events |
| SmsText.Utf16RoundTrip | src/encoding.rs:229-232 | every Unicode text survives UTF-16, surrogate pairs included |
| SmsText.EncodeContent | src/encoding.rs:224-239 | the appended bytes are the ASCII or big-endian UTF-16 form |
| SmsText.ContentRoundTrip | src/encoding.rs:242-261 | decoding gives the text back, behind a six-byte header or without |
| SmsText.EncodedSize | src/encoding.rs:138-145 | the planned size is the number of bytes the encoder writes |
| SmsText.EncodedJoins | src/encoding.rs:224-239 | the content of a text is that of its characters, one after the other |
| SmsText.CharacterBytes | src/encoding.rs:229-232 | the bytes of one character: the upper byte of each unit first, the upper ten bits of a supplementary character in the first unit |
| SmsPlan.StaysAhead | src/encoding.rs:155-165 | no split that fits gets ahead of the greedy one |
| SmsPlan.GreedyIsFewest | src/encoding.rs:153-201 | a greedy split has the fewest segments of all that fit 134 bytes |
| SmsPlan.GreedyIsUnique | src/encoding.rs:148-201 | there is one greedy split, so the counting pass and the recording pass agree |
| SmsSplit.TotalBytes | src/encoding.rs:138-145 | the total is the encoded size |
| SmsSplit.CountUcs2Segments | src/encoding.rs:153-166 | the count is that of the greedy split of whole characters |
| SmsSplit.Ucs2Ranges | src/encoding.rs:186-199 | the recorded byte ranges are those of the greedy split, between whole characters |
| SmsSplit.AsciiRanges | src/encoding.rs:178-185 | chunks of 134 are a greedy split, as many as rounding up says |
| SmsSplit.PrepareSubmitContent | src/encoding.rs:136-211 | a plan partitions the whole content; planning fails exactly when no split with at most 255 segments exists; the reference counter moves on by one, from 0xFFFFFFFF to 0, for several segments only |
| SmsSplit.PlanIsFewest | src/encoding.rs:136-211 | no split that can be sent has fewer segments than the plan |
| SmsSegments.CutSegment | src/encoding.rs:99-132 | segment k has its own characters, number k + 1 of the total, and with several segments the header 05 00 03, reference, total, number, byte by byte |
| SmsSegments.SegmentFits | src/encoding.rs:24-28 | no segment is longer than 140 bytes |
| SmsSegments.SendableIs | src/encoding.rs:20-28 | a split can be sent if it is one segment of at most 140 bytes or each part fits into 140 bytes behind a six-byte header |
| SmsSegments.SegmentDecodes | src/encoding.rs:242-261 | each segment decodes alone to its own characters |
| SmsSegments.SplitRoundTrip | src/encoding.rs:242-284 | decoding the segments one by one and joining gives the original text |
| SmsSegments.TrySplitContent | src/encoding.rs:278-284 | the whole promise for one call: round trip, fewest segments, one segment up to 140 bytes, numbering 1..n, header bytes 05 00 03 reference total number, format, next counter, failure only beyond 255 |
| WireBytes.BigEndian32RoundTrip | src/pdu.rs:758-761 | 32-bit fields survive |
| Utf8.Utf8RoundTrip | src/pdu.rs:704-711 | lossy decoding gives every text back from its UTF-8 bytes |
| Utf8.CutChar | src/pdu.rs:704-711 | any character that is cut off comes back as one U+FFFD |
| OctetText.OctetRoundTrip | src/pdu.rs:694-711 | a string survives a fixed-width field exactly if it fits and does not end in NUL or space, or if the field cuts through a final U+FFFD |
| WireBytes.SplitFlatten | src/pdu.rs:736-752 | cutting fields of known widths off a body undoes writing them |
| Pdu.HintIsExact | src/pdu.rs:147-158 | the capacity hint is exactly the number of body bytes written |
| FrameLayout.FrameStands | src/pdu.rs:190-205 | four bytes of total length, four of command id with the upper bit for responses, four of sequence id, upper byte first, then the body |
| FrameLayout.SubmitStands | src/pdu.rs:406-431 | each field of a SUBMIT body at its fixed offset, strings NUL-padded, destinations 21 bytes apart, content behind its length, eight zero bytes |
| FrameLayout.DeliverStands | src/pdu.rs:566-578 | each field of a DELIVER body at its fixed offset |
| FrameLayout.OthersStand | src/pdu.rs:120-137 | the bodies of the other eight kinds byte by byte |
| FrameLayout.EncodableIs | src/pdu.rs:388-398 | up to 255 destinations and 255 bytes of content can be encoded, and no more |
| FrameLayout.DecoderDecides | src/codec.rs:18-50 | the decoder waits for twelve bytes and the announced length, refuses a length outside 12..65536 and commands other than the ten, and otherwise takes exactly that many bytes |
| FrameLayout.SubmitAccepted | src/pdu.rs:433-493 | a SUBMIT body is accepted exactly when it is as long as its destination count and content length say; otherwise which error it is |
| FrameLayout.DeliverAccepted | src/pdu.rs:580-605 | so is a DELIVER body |
| FrameLayout.FixedAccepted | src/pdu.rs:247-516 | the bodies of CONNECT, CONNECT_RESP and the acknowledgements are accepted exactly at 27, 18 and 9 bytes |
| PduRoundTrip.SubmitArrives | src/pdu.rs:406-493 | a SUBMIT with any number of destinations decodes to what its fields keep |
| PduRoundTrip.DeliverArrives | src/pdu.rs:566-605 | so does a DELIVER |
| PduRoundTrip.PduArrives | src/pdu.rs:160-186 | every encodable PDU of the ten kinds decodes to itself but for what string fields cut off, the lossy reading of a cut character included |
| PduRoundTrip.BodyRoundTrip | src/pdu.rs:160-186 | the round trip is exact for the PDUs whose strings survive their fields and for no others |
| FrameStream.FrameLength | src/codec.rs:26-31 | no encodable frame exceeds the decoder's limit |
| FrameStream.WholeFrame | src/codec.rs:18-50 | a complete frame is returned and removed, the bytes behind it stay |
| FrameStream.PartialFrame | src/codec.rs:18-41 | a partial frame is left untouched |
| FrameStream.DrainPrefix | src/codec.rs:18-50 | of the beginning of a stream, exactly the complete frames come out |
| FrameStream.AnyCut | src/codec.rs:18-57 | any list of encodable frames, cut anywhere, decodes to exactly that list, but for what string fields cut off, with an empty buffer |
| FrameStream.AnyCutExact | src/codec.rs:18-57 | the list comes out unchanged if and only if all its strings survive their fields |
| FrameCodec.FrameBuffer.PutOctetStr | src/pdu.rs:694-701 | cut off or padded to exactly the width |
| FrameCodec.FrameBuffer.EncodeSubmit | src/pdu.rs:406-431 | the appended fields are the specified ones, in order |
| FrameCodec.FrameBuffer.EncodeDeliver | src/pdu.rs:566-578 | the appended fields are the specified ones, in order |
| FrameCodec.FrameBuffer.EncodeBody | src/pdu.rs:120-137 | each kind appends its own body |
| FrameCodec.FrameBuffer.EncodeFrame | src/pdu.rs:190-205 | the patched length is that of the whole frame; too many destinations or too long a content is refused with its error and leaves the buffer untouched |
| FrameCodec.FrameBuffer.DecodeFrame | src/codec.rs:18-50 | the in-place decoder is the specified one, result and rest of the buffer |
| FrameCodec.BodyReader.Take | src/pdu.rs:736-752 | returns the next bytes and moves on, or fails exactly when too few are left |
| FrameCodec.ReadConnect | src/pdu.rs:247-261 | the cursor reads what splitting the body gives, errors included |
| FrameCodec.ReadConnectResp | src/pdu.rs:317-329 | the cursor reads what splitting the body gives, errors included |
| FrameCodec.ReadAcknowledgement | src/pdu.rs:510-516 | the cursor reads what splitting the body gives, errors included |
| FrameCodec.ReadSubmit | src/pdu.rs:433-493 | destination count is checked before reading; the result is the specified one, errors included |
| FrameCodec.ReadDeliver | src/pdu.rs:580-605 | the result is the specified one, errors included |
| FrameCodec.ReadPdu | src/pdu.rs:160-186 | dispatch on the command id, unknown ones refused |

## Left out

- Sockets, TCP options, keepalive, tokio channels and runtimes, spawning and aborting tasks: a channel is a bounded FIFO, a locked section is one step.
- Login, MD5 authenticators and the choice of configuration values; configuration limits appear as preconditions only.
- Takeover and reaping of tasks and the second, fallback cleanup: one finish and one cleanup are modelled.
- Real clocks, backoff, jitter, log text and throttling, metrics that are only observed. A clock is a number that steps advance; where the code reads the clock just before a lock, the read belongs to the step.
- Heartbeats and TERMINATE: only their sequence leases are in the SUBMIT machine, because their own state machine is the SUBMIT one with less in it.
- Control frames in the writer's batch and the priority between control and SUBMIT frames: the writer may take SUBMIT frames at any time, which allows more interleavings than the code.
- Submission ids are unbounded naturals; the wrap-around of the 64-bit counter is not modelled.
- SubmitModel: a section that works through a batch under one lock is split into single-entry steps, so the machine allows more interleavings than the lock; `ClaimIsRun`, `RespondIsRun`, `CompleteIsRun` and `TeardownIsRun` show that the batch forms are runs of these steps.
- FourScansSuffice: needs four scans that meet a free queue slot, an accepting event spool and phase Open, as the code does not promise progress without them.
- Bucket hashing of addresses: a lease has an arbitrary set of buckets.
- UdhReferencePool.UdhReferencePool.TryAcquire: holding all bucket locks at once is one atomic method; that the locks are taken in ascending order is `SortedIds`, and freedom from deadlock itself is not modelled.
- UdhReferencePool.Purge: the binary heap is a sequence from which the least entry is taken; its array layout is not modelled.
- EventPath: each method runs one actor's section without interruption; other actors interleave in the machine, whose steps these sections are.
- EventPath.EventPath.Attempt: the wait for two places ends after as many readings by the application as a parameter says; no clock is modelled, so the length of the backpressure budget is not either.
- EventPath.EventPath.Handle: starts on an item whose gate is settled; waiting at a gate is the absence of a step in the machine.
- TerminalIsReached: that the runtime schedules the enabled step (`CanAlwaysMove`), and that holders of tickets settle them, is taken for granted.
- ReportedExactlyOnce: the reports of timeouts are written inside the scanner's section; the other reports are handed to the spool one after the other, as a single reader does.
- DecodeMsgContent: returns nothing for GBK, whose tables belong to a library.
- EncodeContent: the GBK branch, which automatic selection never takes.
- FrameStream: the end-of-stream handling of the framing library, and buffer reservations.
- `SubmitOptions` builders, configuration validation, `is_retryable`, hexadecimal message ids and the status-report parser: they would only add easy members.
