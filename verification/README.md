# Verified model of PH Bulwark's stateful core

PH Bulwark filters traffic on a guarded device and reports to a guardian. Around its user
interfaces and network services sit small lock-protected state machines and some exact
arithmetic and text code. This project models those in Dafny and proves what their callers
rely on. `dafny verify dfyconfig.toml` checks all of it.

A stateful component is modelled twice. Its *history* (a `Trace`, `Run` or `History`) is the
sequence of calls or atomic steps so far; a function of the history gives the state, and the laws
are lemmas over **all** histories, so they hold in every reachable state under every interleaving
of calls. Beside it stands a `class` with the fields the code has; each method updates them as the
code does, and its contract says which events it appends and what it answers. A ghost history
inside the object makes the laws apply to it. What a component should do is read off the history
alone (for instance "alerts coalesced since the last drain"), never off the fields being checked.

| files | component |
|---|---|
| `WorkQueue`, `WorkQueueLaws`, `LeaseTimes`, `Cluster`, `InflightCounter`, `InflightCoverage` | the leased work queue of a cluster node, its lock-free counter, and the two together |
| `RateLimiter`, `BurstLimits`, `LockOrder`, `AlertMail`, `AlertSink` | alert dedupe, burst limit and digest, and the e-mail sink that drives them, also out of clock order |
| `DelayBuffer`, `DelayBufferLaws`, `BufferTimes`, `DelayBufferObject` | the broadcast-delay ring buffer |
| `Classify`, `ClassifyLaws`, `ClassifySignals`, `ClassifyKinds`, `FlowUnits`, `FlowClassifier` | the flow classifier and the units it emits through the buffer |
| `ClientPipeline` | the client's flow loop over classifier and buffer |
| `Calendar`, `Decimal`, `Timestamp` | timestamps in alert e-mails |
| `LabelStore` | the labeling server's task order and corrections log |
| `Text`, `Utf8Laws`, `Blocklist`, `BlocklistLaws`, `BlocklistForms` | the host blocklist |
| `ImageCache`, `ImageRace` | the client's image score cache |
| `Base64`, `Hex`, `PinRecord` | encoders and the app lock's PIN record |
| `Servers`, `ServerChoice` | the console's server inventory and the endpoint it resolves |
| `Base` | options, results, machine widths |

Machine integers are unbounded except where their width can be reached: 32-bit counters and casts
wrap as in a release build, byte counts are 64-bit. Clock readings are natural numbers of
nanoseconds (milliseconds and seconds in the e-mail renderer). The model, hash, key derivation,
policy decisions, file writes and network sends are parameters: arbitrary functions, or a flag that
says whether the operation succeeded.

Where code and documentation disagree the model follows the code:

- A held segment is never reported overdue again (`HeldForGood`); the comment at
  crates/bulwark-flow/src/buffer.rs:266-267 expects it to surface once its deadline elapses.
- "Unscored tasks come last" (apps/labeling-server/src/store.rs:86-87) holds exactly while every
  score of the pool is nearer than 1 to the middle, or exactly 1 from it and earlier in the pool than
  every unscored task (`UnscoredComeLast`).
- A live flow is reclassified to the web channel when it is text, although
  crates/bulwark-core/src/flow.rs:92-94 rules that out; `LiveExactly` says for which flows.
- A coalesced alert is not always on the digest: it is dropped when the digest is full
  (`CoalescedAccounted`). An alert coalesced in a batch while the digest has room is sent with the
  batch and again with the next digest (`BatchAlertSentAgain`), and an alert whose send failed still
  suppresses its repeats (`KeptApart`).
- The burst budget is compared with a count cut to 32 bits; `BudgetKeptAlwaysIff` and `SinkBudgetIff`
  say what that costs.
- The labeling store files the messages of the *first* task with the submitted id (`PoolFilesRightly`
  says when that is right), and its resume stops at the first log line that is not UTF-8
  (`AgreementExact`).
- The hex decoder accepts capitals and a leading plus sign, and panics on some non-ASCII text
  (`OtherSpellings`, `DecoderOutcome`); so does reading the lock file (`ParsePanics`).
- The client's answer to the network and the buffer's release differ for a blur or mute without
  rewritten media and for an undecided action (`SidesAgree`).

## Model

| member | source | states |
|---|---|---|
| WorkQueueLaws.Conservation | crates/bulwark-cluster/src/lib.rs:239-315 | in every reachable state each accepted item is queued, leased, acknowledged while leased, or was overwritten by a reused id; the counts add up and nothing is made up |
| WorkQueueLaws.NothingLost | crates/bulwark-cluster/src/lib.rs:158-161 | at-least-once: if no outstanding id is accepted again, each accepted item is in exactly one of queue, leases and acknowledged work, under any interleaving |
| WorkQueueLaws.NothingLostIff | crates/bulwark-cluster/src/lib.rs:289-301 | a whole run loses nothing if and only if none of its deliveries found its id leased already |
| WorkQueueLaws.DistinctIffNotOutstanding | crates/bulwark-cluster/src/lib.rs:246-262 | outstanding ids stay distinct in all states of a run if and only if no outstanding id was accepted again |
| WorkQueueLaws.DeliveryLosesIffLeased | crates/bulwark-cluster/src/lib.rs:289-301 | a delivery destroys another item's lease if and only if the id at the front of the queue is leased already |
| WorkQueueLaws.ReusedIdLosesAnItem | crates/bulwark-cluster/src/lib.rs:246-301 | the condition is needed: a run in which a reused id loses an accepted item without an acknowledgement |
| WorkQueueLaws.FirstDeliveriesAreFifo | crates/bulwark-cluster/src/lib.rs:258-304 | with fresh ids the items delivered for the first time are always a prefix of the accepted items, whatever expires, returns or is acknowledged |
| WorkQueueLaws.AttemptsCountExpiries | crates/bulwark-cluster/src/lib.rs:274-287 | if no outstanding id is accepted again, every queued or leased item carries the attempts it was last accepted with plus the number of its leases that expired since |
| WorkQueueLaws.DeliveredAttempts | crates/bulwark-cluster/src/lib.rs:289-304 | under that condition the same holds of the attempts of every delivery in the history |
| WorkQueueLaws.RedeliverySpacing | crates/bulwark-cluster/src/lib.rs:97-108 | if no outstanding id is accepted again, two deliveries of one id are at least the lease time apart unless the id was accepted anew between them |
| WorkQueueLaws.InflightCoversLeases | crates/bulwark-cluster/src/lib.rs:294-301 | with completions paired to deliveries and each decrement one step, the leases never outnumber the in-flight count if and only if no delivery overflows the 32-bit counter |
| InflightCoverage.CountCoversLeases | crates/bulwark-cluster/src/lib.rs:138-161 | the same, at every point where no item is counted and not yet leased, with the compare-exchange loops of the completions interleaved in every way with the queue's steps and each other |
| InflightCounter.CountBalance | crates/bulwark-cluster/src/lib.rs:138-153 | in every run the counter plus the calls that exchanged, plus 2^32 for each overflow, is the number of deliveries |
| WorkQueueLaws.FreshIsNotOutstanding | crates/bulwark-cluster/src/lib.rs:246-256 | ids never accepted twice satisfy the condition of the conservation law |
| WorkQueueLaws.GeneratedIdsAreFresh | crates/bulwark-cluster/src/lib.rs:250-256 | a node that makes up every id itself never reuses one |
| WorkQueueLaws.MadeUpIdCollidesIff | crates/bulwark-cluster/src/lib.rs:250-256 | in every run the id the node would make up next was accepted before if and only if a caller has used exactly that id |
| WorkQueueLaws.GeneratedIdCanCollide | crates/bulwark-cluster/src/lib.rs:250-256 | a concrete run in which it was |
| WorkQueueLaws.NothingAcceptedAfterClose | crates/bulwark-cluster/src/lib.rs:239-242 | no enqueue that reads the flag after a drain or graceful leave is accepted |
| ClusterNode.Cluster.Enqueue | crates/bulwark-cluster/src/lib.rs:239-267 | accepts exactly when open and below the depth limit, appends under the given or a made-up id, and otherwise changes nothing |
| ClusterNode.Cluster.Dequeue | crates/bulwark-cluster/src/lib.rs:269-306 | requeues exactly the leases whose deadline has come, in some order, then hands out the first max(n,1) items; an item handed out 30 seconds ago or more and not heard of since is requeued, and no younger one, and with room for all it is handed out again with one more attempt |
| ClusterNode.Cluster.RequeueDue | crates/bulwark-cluster/src/lib.rs:274-287 | returns to the front of the queue every lease whose deadline has come and no other, in any order the lease table is walked in |
| ClusterNode.Cluster.DeliverUpTo | crates/bulwark-cluster/src/lib.rs:289-304 | hands out a prefix of the queue under fresh leases, counting each as in flight |
| ClusterNode.Cluster.Complete | crates/bulwark-cluster/src/lib.rs:158-161 | removes the lease of the id and makes one saturating decrement, touching nothing else |
| ClusterNode.Cluster.CompleteInflight | crates/bulwark-cluster/src/lib.rs:138-153 | one decrement that stops at zero |
| ClusterNode.Cluster.Drain | crates/bulwark-cluster/src/lib.rs:317-328 | closes the node and reports the in-flight count |
| ClusterNode.Cluster.Leave | crates/bulwark-cluster/src/lib.rs:196-202 | closes the node exactly for a graceful leave |
| ClusterNode.AbandonedWorkComesBack | crates/bulwark-cluster/src/lib.rs:274-306 | a large enough dequeue 30 seconds after anything else happened hands out every item accepted and neither acknowledged nor overwritten |
| ClusterNode.UnackedComesBack | crates/bulwark-cluster/src/lib.rs:274-304 | in every reachable state: an item handed out and not heard of since comes back if and only if 30 seconds have passed, and then with one more attempt |
| LeaseTimes.LeaseIsLastDelivery | crates/bulwark-cluster/src/lib.rs:294-301 | the lease table is exactly the deliveries still out, each with a deadline 30 seconds after it |
| InflightCounter.EachCallIsOneSaturatingDecrement | crates/bulwark-cluster/src/lib.rs:138-153 | every interleaving of compare-exchange loops with increments is equivalent to a sequence with exactly one saturating decrement per finished call and one increment per delivery |
| InflightCounter.EveryCallStandsWhereItRead | crates/bulwark-cluster/src/lib.rs:138-153 | in that sequence the modifications keep their order and find their values, each exchange is one call's own, and each call that read a zero stands right behind the modification that left it |
| InflightCounter.NeverWrapsDown | crates/bulwark-cluster/src/lib.rs:138-153 | each modification is one increment, or a decrement from above zero |
| RateLimiter.AdmitRefines | crates/bulwark-alert/src/ratelimit.rs:59-82 | the expiring map and deque answer every alert as the history-only specification does: dedupe by age of an earlier kept id, then budget by live sends, else coalesce |
| RateLimiter.ChargeRefines | crates/bulwark-alert/src/ratelimit.rs:101-103 | charging a digest keeps the state in step with the history |
| RateLimiter.DrainRefines | crates/bulwark-alert/src/ratelimit.rs:95-97 | draining yields the first digest_max alerts coalesced since the last drain |
| RateLimiter.DropAgedKeepsLive | crates/bulwark-alert/src/ratelimit.rs:106-119 | popping aged times off the front leaves exactly the live ones and nothing that could matter later |
| RateLimiter.KeptApart | crates/bulwark-alert/src/ratelimit.rs:63-70 | with calls in clock order, two alerts of one id that are both let through are at least the dedupe window apart |
| RateLimiter.BurstBudget | crates/bulwark-alert/src/ratelimit.rs:72-81 | every interval of the burst length, wherever it starts, holds at most max_immediate immediate sends while the count of live charges fits 32 bits |
| BurstLimits.UnderBudgetExact | crates/bulwark-alert/src/ratelimit.rs:72-75 | every send found fewer live charges than the budget if and only if that count always fitted |
| BurstLimits.BudgetKeptAlwaysIff | crates/bulwark-alert/src/ratelimit.rs:72-75 | the budget is kept by every history at all if and only if it or the window is zero; the history that breaks it is given |
| RateLimiter.CoalescedAccounted | crates/bulwark-alert/src/ratelimit.rs:76-81 | each coalesced alert is in exactly one digest, still pending, or dropped because the digest was full |
| RateLimiter.Limiter.AdmitAlert | crates/bulwark-alert/src/ratelimit.rs:59-82 | the object's answer and whole new state, and the specified answer as long as the clock has not run backwards |
| RateLimiter.Limiter.ExpireOld | crates/bulwark-alert/src/ratelimit.rs:106-119 | drops exactly the aged entries of the map and the aged front of the deque |
| RateLimiter.Limiter.ChargeAndDrain | crates/bulwark-alert/src/ratelimit.rs:95-103 | charges one send and empties the digest, which was the specified one |
| AlertSink.EmailAlertSink.RaiseAt | crates/bulwark-alert/src/sink.rs:110-135 | the acknowledgement and the mail for each decision, with a failed send reported and the alert still recorded as let through |
| AlertSink.EmailAlertSink.RaiseBatch | crates/bulwark-alert/src/sink.rs:143-181 | one digest of exactly the alerts not deduped, acknowledged after the duplicates, in order |
| AlertSink.AcksSay | crates/bulwark-alert/src/sink.rs:91-181 | what each acknowledgement of a batch or digest says of its alert |
| AlertSink.EmailAlertSink.FlushDigestAt | crates/bulwark-alert/src/sink.rs:91-107 | nothing for an empty digest; else one charged mail of all of it, and the digest is emptied even if the send fails |
| AlertMail.SinglesWithinBudget | crates/bulwark-alert/src/sink.rs:91-181 | over any run of raises, batches and flushes every interval of the burst length holds at most max_immediate individually sent mails, while the count of live charges fits 32 bits |
| BurstLimits.SinkBudgetIff | crates/bulwark-alert/src/sink.rs:91-181 | every run of the sink keeps to that if and only if the window, the budget or the digest size is zero; otherwise a run is given that sends one mail too many |
| LockOrder.LagBudgetIff | crates/bulwark-alert/src/sink.rs:138-152 | for every burst window and lag: with calls that reach the limiter up to that much out of clock order, the intervals that hold the budget in every run of the sink are exactly those no longer than the window less the lag; the breaking run of three calls is given |
| LockOrder.SinglesWithLag | crates/bulwark-alert/src/ratelimit.rs:72-119 | the bound for any configuration and run, from the deque itself and with no clock order assumed |
| LockOrder.KeptApartWithLag | crates/bulwark-alert/src/ratelimit.rs:59-70 | two alerts of one id that are both let through are at least the dedupe window, less the lag of the calls, apart |
| LockOrder.InOrderIsLawful | crates/bulwark-alert/src/ratelimit.rs:59-119 | with the clock in order the limiter's own answers are exactly the specified ones |
| AlertMail.MailAccounting | crates/bulwark-alert/src/sink.rs:91-181 | over every run the appearances of an alert in sent mails are its answers that let it through plus its copies in sent digests; each answer that put it on the digest is in exactly one flushed digest, sent or lost, or still pending |
| AlertMail.FlushHolds | crates/bulwark-alert/src/sink.rs:91-101 | the next flush holds what was pending and what the calls since put on the digest, each as often |
| AlertMail.BatchAlertSentAgain | crates/bulwark-alert/src/sink.rs:143-181 | an alert raised once, in a batch, is mailed with the batch if and only if not deduped and sent, and again with the next flush if and only if its answer was Coalesced, the digest had room, and that flush is sent |
| DelayBufferLaws.AlwaysNumbered | crates/bulwark-flow/src/buffer.rs:192-206 | ids in the queue strictly increase and stay below the next id |
| DelayBufferLaws.QueueIsWaiting | crates/bulwark-flow/src/buffer.rs:178-313 | in every reachable state the queue is exactly the tickets no verdict has settled, in admission order, with their bytes, deadlines and holds |
| DelayBufferLaws.VerdictAnswer | crates/bulwark-flow/src/buffer.rs:225-274 | a verdict on a ticket never issued or already settled is not found; on any other it gives back that ticket's own bytes, the rewritten ones, or nothing, as the action says |
| DelayBufferLaws.ReleasedOnce | crates/bulwark-flow/src/buffer.rs:225-274 | each issued ticket is either pending and never released, or released exactly once |
| DelayBufferLaws.PollAnswer | crates/bulwark-flow/src/buffer.rs:296-313 | a poll returns exactly the unsettled, unheld tickets past their deadline, in admission order |
| DelayBufferLaws.OverdueUntilSettledOrHeld | crates/bulwark-flow/src/buffer.rs:296-313 | an overdue ticket stays overdue through any events that neither settle nor hold it |
| DelayBufferLaws.HeldForGood | crates/bulwark-flow/src/buffer.rs:265-286 | a ticket once held is never reported overdue again, however late |
| DelayBufferLaws.DelayIsOldestAge | crates/bulwark-flow/src/buffer.rs:332-355 | with admissions in clock order the reported delay is the largest age of any pending segment, exactly while that age is below 2^32 ms |
| DelayBufferLaws.AlwaysAccounted | crates/bulwark-flow/src/buffer.rs:178-206 | for a safe configuration held_bytes is the sum of held lengths and both caps hold in every reachable state |
| DelayBufferLaws.ByteCountExact | crates/bulwark-flow/src/buffer.rs:181-205 | that holds in every reachable state if and only if max_bytes is below the machine maximum or at most two segments fit |
| DelayBufferObject.Buffer.AdmitAt | crates/bulwark-flow/src/buffer.rs:178-212 | refuses exactly when the segment or byte cap would be passed and then changes nothing; else appends the segment under the next ticket with the live delay or the recorded-video budget as its deadline |
| DelayBufferObject.Buffer.ApplyVerdict | crates/bulwark-flow/src/buffer.rs:225-274 | by action: dropped for a block, its own bytes for allow, warn and log, the rewritten bytes if there are any for blur and mute, held for an undecided one; not found for a ticket the history has settled or never issued |
| DelayBufferObject.Buffer.HoldSegment | crates/bulwark-flow/src/buffer.rs:277-286 | holds a pending ticket, reports any other as not found |
| DelayBufferObject.Buffer.DueSegmentsAt | crates/bulwark-flow/src/buffer.rs:296-313 | returns, in admission order, and marks exactly the segments nobody settled or held for which the live delay, or the recorded-video budget, has passed since their admission |
| BufferTimes.TicketOfAdmission | crates/bulwark-flow/src/buffer.rs:192-206 | ticket n is the n-th accepted admission, with its bytes, and waits the live delay or the recorded-video budget in milliseconds |
| BufferTimes.PollExactly | crates/bulwark-flow/src/buffer.rs:296-313 | a poll reports a segment if and only if it is that of an unsettled, unheld admission whose time is up |
| DelayBufferObject.Buffer.CurrentDelayMsAt | crates/bulwark-flow/src/buffer.rs:332-336 | reports the oldest pending age when admissions came in clock order |
| DelayBufferObject.Buffer.RefusesLength | crates/bulwark-flow/src/buffer.rs:339-343 | true exactly when admitting that length now would be refused |
| ClassifyLaws.ClassificationCoherent | crates/bulwark-flow/src/classify.rs:79-192 | for every flow: video is exactly what is buffered, with the live budget exactly on a live channel; text goes to the web channel, manifests to a video or live one, the rest stays on its own; a readable stream chunk never passes unseen |
| ClassifyKinds.KindExactly | crates/bulwark-flow/src/classify.rs:79-192 | every flow is video, audio, image, text or a manifest if and only if it says so: by the words of its declared type, else the first bytes of its body, else the word behind the last dot, else the look of HTML; for chunks declared video or audio, else the word, else the bytes, else video |
| ClassifyKinds.LiveManifestExactly | crates/bulwark-flow/src/classify.rs:317-370 | it is a live manifest if and only if its playlist or MPD tags say so, or, without a manifest body, its channel does |
| ClassifyKinds.ParametersNeverMatter | crates/bulwark-flow/src/classify.rs:204-211 | the declared type is the lower-case word of the first such header, whatever space and parameters surround it |
| ClassifyKinds.LiveExactly | crates/bulwark-flow/src/classify.rs:79-192 | a live flow stays live if and only if it does not say it is text, and any other flow becomes live if and only if it is readable HTTP whose body is a live HLS or DASH manifest |
| ClassifyLaws.PeekDecides | crates/bulwark-flow/src/classify.rs:221-447 | the first 4096 bytes of a body, or 189 of a stream chunk, decide the classification |
| ClassifyLaws.ShorterPeekMisleads | crates/bulwark-flow/src/classify.rs:411-419 | 188 bytes do not: cutting there turns opaque chunks into transport streams |
| ClassifyLaws.LetterCaseNeverMatters | crates/bulwark-flow/src/classify.rs:204-211 | letter case in content types, MIME types, paths and URLs never matters |
| ClassifySignals.PlaylistText | crates/bulwark-flow/src/classify.rs:322-326 | the byte-level test finds a playlist in a text of any length exactly when the text, without byte-order marks and leading Unicode white space, starts with the mark and the mark ends within the first 4096 bytes |
| ClassifySignals.ContainsIsSubstring | crates/bulwark-flow/src/classify.rs:328-350 | searching the UTF-8 bytes of a text for an ASCII tag is searching its characters |
| ClassifySignals.LowerBytesIsLower | crates/bulwark-flow/src/classify.rs:347 | lowering those bytes is lowering the letters of the text |
| ClassifySignals.SkipBlankIsTrim | crates/bulwark-flow/src/classify.rs:324 | skipping blanks on the UTF-8 bytes of any text is trimming the text |
| ClassifySignals.ExtensionIsLastSuffix | crates/bulwark-flow/src/classify.rs:495-505 | the extension is what follows the last dot of the last path segment; directories, query and fragment never matter |
| ClassifySignals.NoExtensionWithoutDot | crates/bulwark-flow/src/classify.rs:495-505 | a dot elsewhere in the path makes no extension |
| Classify.LooksLikeHtml | crates/bulwark-flow/src/classify.rs:221-247 | the whitespace-skipping loop decides the HTML sniff |
| ClassifySignals.HtmlLikeMeans | crates/bulwark-flow/src/classify.rs:221-247 | the sniff accepts a body if and only if its first 512 bytes are an optional byte-order mark, ASCII white space, and one of the five marks in any case |
| FlowUnits.VideosAreTickets | crates/bulwark-flow/src/classifier.rs:158-201 | over every run the video units emitted are, one for one and in order, the tickets the buffer issued, with identical bytes, and a deadline exactly for live ones |
| FlowUnits.UnitExactly | crates/bulwark-flow/src/classifier.rs:105-201 | the unit of every flow, by what the flow says, in every state of the buffer |
| FlowUnits.BufferedExactly | crates/bulwark-flow/src/classifier.rs:158-201 | the buffer gains the bytes of a video flow it has room for, with their deadline, and nothing from any other flow |
| FlowUnits.HeldUntilSettled | crates/bulwark-flow/src/classifier.rs:158-201 | in every reachable state each emitted video unit's bytes are in the buffer under its ticket unless a verdict settled it |
| FlowUnits.EventsLegal | crates/bulwark-flow/src/classifier.rs:105-155 | classifying drives the buffer only through admissions it answers correctly |
| FlowUnits.LiveDeadlinesAgree | crates/bulwark-flow/src/classifier.rs:172-192 | a live unit's deadline is the time its ticket waits if and only if the buffer is configured with the classifier's delay |
| FlowUnits.VideoChannel | crates/bulwark-flow/src/classify.rs:153-192 | the channel of every video classification: promoted, or kept for chunks with declared or assumed video |
| FlowUnits.ChannelReport | crates/bulwark-flow/src/classifier.rs:282-291 | a unit has a deadline exactly when its flow is live, and channel_for_unit reports the classified channel if and only if the flow came on a streaming channel or its channel was promoted |
| FlowUnits.PlainChannelReport | crates/bulwark-flow/src/classifier.rs:282-291 | text, image and audio units are reported on their classified channel when the flow's own is the fallback |
| FlowClassifier.DefaultFlowClassifier.ClassifyCaptured | crates/bulwark-flow/src/classifier.rs:225-238 | a flow leaves as the one unit of what it says it is, with its own bytes; video with bytes enters the buffer with its deadline and leaves under that ticket, or is refused when there is no room and changes nothing; any other flow has no unit |
| FlowClassifier.DefaultFlowClassifier.BuildUnits | crates/bulwark-flow/src/classifier.rs:105-155 | the same for an arbitrary classification, including the combinations the classifier never makes |
| FlowClassifier.DefaultFlowClassifier.BufferVideo | crates/bulwark-flow/src/classifier.rs:158-201 | no unit for an empty body, a back-pressure error for a full buffer, else a unit under the ticket just issued |
| FlowClassifier.DefaultFlowClassifier.Apply | crates/bulwark-flow/src/classifier.rs:77-84 | a verdict answered from the run alone |
| FlowClassifier.DefaultFlowClassifier.DueSegments | crates/bulwark-flow/src/classifier.rs:89-91 | the due tickets of the run |
| FlowClassifier.DefaultFlowClassifier.CurrentDelayMs | crates/bulwark-flow/src/classifier.rs:240-242 | the oldest pending age of the run |
| ClientPipeline.SidesAgree | crates/bulwark-client/src/lib.rs:100-108 | network decision and buffer release let the same bytes through if and only if the action is decided and every blur or mute has rewritten media |
| ClientPipeline.FlowEffect | crates/bulwark-client/src/lib.rs:434-473 | one flow adds exactly the segment it leaks to the buffer, or leaves the buffer as it was |
| ClientPipeline.PendingAreLeaks | crates/bulwark-client/src/lib.rs:434-473 | in every reachable state the pending segments are, in order and with ids, bytes and states, those of the flows whose decision was undecided or failed at the interceptor |
| ClientPipeline.PromptNeverBacksUp | crates/bulwark-client/src/lib.rs:507-518 | after any number of promptly decided flows, a video flow is refused if and only if it alone exceeds the buffer |
| ClientPipeline.LeaksExhaustTheBuffer | crates/bulwark-client/src/lib.rs:434-473 | once as many segments leaked as the buffer has places, every later video flow is refused and nothing changes that |
| ClientPipeline.Client.HandleFlow | crates/bulwark-client/src/lib.rs:434-518 | the interceptor is told nothing exactly for a flow without a unit, to drop a flow the buffer refuses or the interceptor fails on, and else what the action says: drop for a block, only rewritten bytes for a blur or mute, else pass on |
| ClientPipeline.Client.AnswerClassified | crates/bulwark-client/src/lib.rs:445-474 | the same for any classification: a classifier error drops the flow |
| ClientPipeline.Client.AnswerUnits | crates/bulwark-client/src/lib.rs:445-474 | the interceptor is told first; the segment is released only if that succeeded |
| Calendar.CivilFromDaysCorrect | crates/bulwark-alert/src/render.rs:380-390 | every day number becomes the valid date that a calendar counting years and months assigns to it |
| Calendar.CivilRoundTrip | crates/bulwark-alert/src/render.rs:374-392 | every second count becomes a valid date and time (RFC 3339, section 5.7 and Appendix C) that counts back to it |
| Calendar.CivilInverse | crates/bulwark-alert/src/render.rs:374-392 | every valid date and time is reached from its second count |
| Calendar.CivilMonotone | crates/bulwark-alert/src/render.rs:374-392 | earlier seconds give earlier dates, in both directions |
| Timestamp.TimestampRoundTrip | crates/bulwark-alert/src/render.rs:363-370 | a printed time reads back to its second for every time after the epoch, and no other time prints one |
| Timestamp.SameLineSameSecond | crates/bulwark-alert/src/render.rs:363-370 | two alerts print the same line if and only if they fall in one second or both have no time |
| Timestamp.TimestampLayout | crates/bulwark-alert/src/render.rs:363-370 | a time is punctuated as RFC 3339 (section 5.6) says and 20 characters long up to the year 9999; a time not after the epoch is shown as unknown |
| Decimal.OfRoundTrip | crates/bulwark-cluster/src/lib.rs:250-256 | a printed number reads back to itself |
| LabelStore.RestartAgreement | apps/labeling-server/src/store.rs:67-124 | over a log of readable lines, and any run of submissions, failed appends and restarts, the labeled set in memory is the one recovered from the log |
| LabelStore.AgreementExact | apps/labeling-server/src/store.rs:160-175 | for every starting log that holds over every run if and only if every line is readable text or every task of the pool is recovered before the first that is not |
| LabelStore.OneRowPerTask | apps/labeling-server/src/store.rs:104-124 | over such a log it is only appended to and gains at most one row per task id, none if it had one |
| LabelStore.OneRowExact | apps/labeling-server/src/store.rs:104-124 | and that holds over every run if and only if the same condition holds |
| LabelStore.LogFilesTaken | apps/labeling-server/src/store.rs:104-124 | over every run from a readable log the rows added are, one for one and in order, the first submission for each open task whose append succeeded, each row carrying what was submitted and the first such task's messages |
| LabelStore.RecordFiles | apps/labeling-server/src/store.rs:104-124 | one submission adds such a row if and only if its task is known and open and the append succeeds |
| LabelStore.LabelForgotten | apps/labeling-server/src/store.rs:160-175 | behind a line that is no text a label is forgotten at the next restart and a second row appended |
| LabelStore.RecordAnswer | apps/labeling-server/src/store.rs:104-124 | success exactly when the task is labeled afterwards; an error changes nothing and is unknown-task exactly for ids neither labeled nor in the pool |
| LabelStore.SortIsStable | apps/labeling-server/src/store.rs:88-97 | the reference order is the stable sort by uncertainty: ordered, and the tasks of each uncertainty keep their order |
| LabelStore.NextIsNearest | apps/labeling-server/src/store.rs:86-97 | if any task is unlabeled one is served, and no unlabeled task has a score nearer to one half; a task with a score within 1 of it goes before all without |
| LabelStore.NextIsFirstOfSort | apps/labeling-server/src/store.rs:88-97 | the next task is the first unlabeled one of that sort |
| LabelStore.DrainIsSorted | apps/labeling-server/src/store.rs:88-124 | repeating next_task and record ends, and serves the unlabeled tasks in exactly that order, one per id |
| LabelStore.FreshPoolIsServedSorted | apps/labeling-server/src/store.rs:88-124 | with distinct ids a fresh pool is served whole, sorted |
| LabelStore.UnscoredComeLast | apps/labeling-server/src/store.rs:133-138 | unscored tasks come last if and only if every score of the pool is nearer than 1 to the middle, or exactly 1 from it and earlier than the unscored task |
| LabelStore.ProbabilitiesComeFirst | apps/labeling-server/src/store.rs:133-138 | which every pool of probabilities is |
| LabelStore.ScoreBoundIsExact | apps/labeling-server/src/store.rs:133-138 | the bound for one scored and one unscored task, in both orders of the pool |
| LabelStore.LabelGoesWithItsMessages | apps/labeling-server/src/store.rs:104-124 | a label is filed with its own task's messages if and only if the first task with that id has the same messages |
| LabelStore.PoolFilesRightly | apps/labeling-server/src/store.rs:104-124 | every label is filed rightly if and only if open tasks that share an id share their messages |
| LabelStore.SharedIdFilesTheWrongMessages | apps/labeling-server/src/store.rs:104-124 | a concrete pool in which the label of the task served goes with another's messages |
| LabelStore.Store.AlreadyLabeled | apps/labeling-server/src/store.rs:160-175 | the loop recovers exactly the ids marked by rows before the first line that is no text |
| LabelStore.Store.Open | apps/labeling-server/src/store.rs:67-75 | a fresh store over pool and log |
| LabelStore.Store.Submit | apps/labeling-server/src/store.rs:104-124 | the answer in each case; on success the log gains one row with the choice, stages and labeler submitted, the messages of the first task with that id and the source labeling_app, else nothing changes |
| Blocklist.Parse | crates/bulwark-net/src/blocklist.rs:58-85 | the parsing loop builds the exact set and the sorted, deduplicated suffix list of the text's rules |
| BlocklistLaws.SuffixTestIsLabelwise | crates/bulwark-net/src/blocklist.rs:129-134 | the suffix test on UTF-8 bytes and byte lengths decides exactly whether the entry's labels are a suffix of the host's |
| BlocklistLaws.BytesEndLikeCharacters | crates/bulwark-net/src/blocklist.rs:129-134 | bytes that end behind a dot byte are exactly characters that end behind a dot, for every host and entry |
| BlocklistLaws.BlocklistMeansItsLines | crates/bulwark-net/src/blocklist.rs:58-135 | for every text and host, parsing then asking agrees with reading the text line by line and comparing labels |
| BlocklistLaws.SameRulesSameBlocklist | crates/bulwark-net/src/blocklist.rs:58-85 | line order, repeated lines and lines without a rule never matter |
| BlocklistForms.FirstLine | crates/bulwark-net/src/blocklist.rs:61 | a line feed, with one carriage return before it, ends a line |
| BlocklistForms.LastLine | crates/bulwark-net/src/blocklist.rs:61 | the last line counts without one |
| BlocklistLaws.LetterCaseNeverMatters | crates/bulwark-net/src/blocklist.rs:38-49 | letter case in the list or the host never matters |
| Text.LowerLetters | crates/bulwark-net/src/blocklist.rs:47 | letter case is that of the 26 ASCII capitals and of nothing else |
| BlocklistForms.PlainNormalizes | crates/bulwark-net/src/blocklist.rs:38-49 | a host name, IPv4 or IPv6 address (any colons but exactly one), and the same with a trailing dot, is itself in lower case |
| BlocklistForms.PortIsCut | crates/bulwark-net/src/blocklist.rs:38-49 | a single port is cut off |
| BlocklistForms.BracketsAreOpened | crates/bulwark-net/src/blocklist.rs:38-49 | whatever stands in brackets, colons included, is the address, and what follows them is cut off |
| BlocklistForms.RuleForms | crates/bulwark-net/src/blocklist.rs:75-81 | a bare host or address, IPv6 included, is an exact rule; the two dotted forms are one suffix rule |
| BlocklistForms.BracketedEntry | crates/bulwark-net/src/blocklist.rs:75-81 | an address in brackets, with or without a port, is the exact rule of that address |
| BlocklistForms.CommentsAreIgnored | crates/bulwark-net/src/blocklist.rs:61-65 | a comment behind any entry, with or without a space before the mark, changes nothing and a comment line is no rule |
| BlocklistForms.PastedUrl | crates/bulwark-net/src/blocklist.rs:66-74 | a pasted URL stands for its host and port, never for its scheme or path |
| BlocklistForms.PastedUrlWithPort | crates/bulwark-net/src/blocklist.rs:66-74 | and with a port it blocks the host |
| ImageCache.AllowedOnlyIfScored | crates/bulwark-client/src/lib.rs:365-423 | in every reachable state, if images that share a hash share a score, an image passes exactly when it was scored finitely below the threshold; an unscored one is never called safe |
| ImageCache.PassingExact | crates/bulwark-client/src/lib.rs:365-423 | in every reachable state images pass by their own score if and only if no two images with one hash, the first scored, fall on different sides of the threshold (or nothing is scored) |
| ImageCache.CacheIsFifo | crates/bulwark-client/src/lib.rs:131-145 | in every reachable state the queue lists the cached hashes without repetition, within capacity, and is the last insertions in order |
| ImageCache.EvictsOldest | crates/bulwark-client/src/lib.rs:136-142 | the eviction loop drops the oldest hash exactly when the cache is full |
| ImageCache.CacheTransparency | crates/bulwark-client/src/lib.rs:365-423 | over every sequence of images the verdicts are those without a cache if and only if images that share a hash share a score (or nothing is scored) |
| ImageCache.CollisionIsVisible | crates/bulwark-client/src/lib.rs:365-423 | a colliding pair with different scores is visible already as a run of two |
| ImageRace.InterleavedTransparency | crates/bulwark-client/src/lib.rs:376-390 | with lookup and insertion as separate locked sections and any images in between, each image gets its uncached verdict if and only if the same condition holds |
| ImageRace.AlwaysWellFormed | crates/bulwark-client/src/lib.rs:131-145 | the cache keeps its shape and bound under every such interleaving |
| ImageCache.ImageScoreCache.InsertScore | crates/bulwark-client/src/lib.rs:131-145 | the whole new cache after one insertion |
| ImageCache.ImageScoreCache.AnalyzeImage | crates/bulwark-client/src/lib.rs:365-423 | the verdict and the new cache for one image |
| Base64.Encode | apps/parent/src/media.rs:179-201 | the shift-and-mask loop computes the encoding of section 4 of RFC 4648 |
| Base64.PushChunk | apps/parent/src/media.rs:183-201 | the four characters of one chunk |
| Base64.AlphabetIsTable | apps/parent/src/media.rs:180 | the alphabet string is Table 1 of RFC 4648 |
| Base64.Base64RoundTrip | apps/parent/src/media.rs:179-201 | a strict RFC 4648 decoder inverts the encoder on every byte sequence |
| Base64.DecodesOnlyEncodings | apps/parent/src/media.rs:179-201 | and accepts a text if and only if the encoder produces it |
| Base64.EncodedLength | apps/parent/src/media.rs:179-201 | four characters for every three bytes begun |
| Hex.ToHex | apps/parent/src/lock.rs:212-218 | formatting byte by byte gives two lower-case digits a byte |
| Hex.HexByTable | crates/bulwark-alert/src/render.rs:395-403 | so does the table lookup |
| Hex.HexRoundTrip | apps/parent/src/lock.rs:212-228 | from_hex inverts to_hex on every byte sequence |
| Hex.DecodesBackToItself | apps/parent/src/lock.rs:220-228 | a text decodes to bytes that encode to it if and only if it is an even number of lower-case digits |
| Hex.OtherSpellings | apps/parent/src/lock.rs:220-228 | capitals and a plus sign decode too |
| Hex.DecodedLength | apps/parent/src/lock.rs:220-228 | whatever decodes is ASCII, two characters a byte |
| Hex.DecoderOutcome | apps/parent/src/lock.rs:220-228 | for every text: it decodes if and only if all of it is readable pairs, and panics if and only if it has an even number of bytes and, behind readable pairs, two bytes that end inside a character |
| Hex.PanicExamples | apps/parent/src/lock.rs:220-228 | ASCII never panics; texts that do and that only look as if they did |
| PinRecord.RecordRoundTrip | apps/parent/src/lock.rs:95-210 | parsing recovers iterations, salt and hash from every record line, for every nonzero 32-bit iteration count |
| PinRecord.ParsedIsUsable | apps/parent/src/lock.rs:195-210 | whatever parses has the lengths a verification needs and survives being rewritten |
| PinRecord.ParsePanics | apps/parent/src/lock.rs:195-210 | reading a lock file panics if and only if version and iterations read and the salt, or the hash behind a readable salt, breaks off inside a character |
| PinRecord.TornRecordIsNoRecord | apps/parent/src/lock.rs:195-210 | a record line cut short anywhere unlocks nothing |
| PinRecord.PinLock.SetPin | apps/parent/src/lock.rs:65-107 | succeeds exactly for four to six digits with salt and file written; the record is then the version, 100000 iterations, salt and hash in hexadecimal, and exactly the PINs deriving to that hash unlock; a write broken off half-way leaves a record that unlocks nothing |
| PinRecord.PinLock.ClearPin | apps/parent/src/lock.rs:126-132 | a removal that succeeds, or finds no record, leaves no PIN that unlocks; one that fails leaves the record |
| PinRecord.OnlyThePinSet | apps/parent/src/lock.rs:111-123 | the PIN that was set unlocks, and of all PINs that can be set it is the only one, if and only if the derivation gives no two such PINs one hash |
| PinRecord.OnlyThisText | apps/parent/src/lock.rs:111-123 | of all texts that may be tried, whatever their shape, only the PIN set unlocks if and only if no other text derives to its hash |
| Servers.ServerSessionKey | apps/parent/src/servers.rs:208-216 | the hashing loop computes 64-bit FNV-1a of the trimmed endpoint |
| Servers.SessionKeyShape | apps/parent/src/servers.rs:208-216 | the key is sixteen lower-case hex digits and ignores surrounding white space |
| Servers.SessionKeyReads | apps/parent/src/servers.rs:208-216 | two endpoints have one key if and only if they have one hash, which the key spells |
| Servers.FnvVectors | apps/parent/src/servers.rs:208-216 | published values of the hash |
| Servers.NormalizeCustomServers | apps/parent/src/servers.rs:256-275 | the greedy loop computes the normalized list |
| Servers.NormalizeIsNormal | apps/parent/src/servers.rs:256-275 | its entries are trimmed, acceptable, and pairwise distinct in id and endpoint |
| Servers.NormalizeIdempotent | apps/parent/src/servers.rs:256-275 | normalizing again changes nothing |
| Servers.NormalizeIsSubsequence | apps/parent/src/servers.rs:256-275 | the result is a subsequence of the input, up to trimming |
| Servers.KeptExactly | apps/parent/src/servers.rs:263-272 | a server is kept if and only if it is acceptable and conflicts with no server kept before it |
| Servers.NormalizePrefix | apps/parent/src/servers.rs:256-275 | what is kept of a beginning is the beginning of what is kept |
| Servers.UpsertKeepsTheOthers | apps/parent/src/servers.rs:298-319 | an upsert keeps exactly the non-conflicting servers, puts its own last, and the save loses none |
| Servers.WithoutMembers | apps/parent/src/servers.rs:316 | exactly the servers in conflict with neither id nor endpoint stay |
| Servers.WithoutKeepsOrder | apps/parent/src/servers.rs:316 | and in their order |
| Servers.UpsertTwice | apps/parent/src/servers.rs:298-319 | upserting an endpoint again only changes its label |
| Servers.NewServerIs | apps/parent/src/servers.rs:298-313 | the saved server has the key of its endpoint as its id and the trimmed caption, or Self-hosted for an empty one |
| Servers.RemoveUndoesUpsert | apps/parent/src/servers.rs:321-329 | removing the server just added leaves the servers it did not displace, all of them if it displaced none |
| ServerChoice.UrlResolvesToItself | apps/parent/src/servers.rs:350-357 | a saved URL resolves to exactly the trimmed URL, known or not |
| ServerChoice.AlwaysAnEndpoint | apps/parent/src/servers.rs:350-375 | every choice resolves to an http(s) endpoint; the empty fallback is never reached |
| ServerChoice.UnknownUrl | apps/parent/src/servers.rs:350-357 | a URL that neither a region nor a saved server has resolves to a server of its own with the key of that URL |
| ServerChoice.RegionsResolve | apps/parent/src/servers.rs:350-375 | the region words, the empty choice and the legacy word in any case resolve to the endpoints of the regions |
| ServerChoice.ReachedById | apps/parent/src/servers.rs:350-368 | every saved server is reached by its id if and only if the id names no region and is not the legacy word, or is the server's own URL and no region has that |
| ServerChoice.UpsertThenResolve | apps/parent/src/servers.rs:298-375 | adding a server and saving the returned id resolves to exactly its trimmed endpoint |
| ServerChoice.RemovedFallsBack | apps/parent/src/servers.rs:321-375 | for every id: choosing it after its removal falls back to the default region, but for the other region's id and for a URL, which resolves to itself; an id with space at its ends removes nothing |
| ServerChoice.ServerFiles.SaveServerChoice | apps/parent/src/servers.rs:227-234 | writes the trimmed choice, or the default region for an empty one, and the console then connects to what that resolves to |
| ServerChoice.ServerFiles.UpsertCustomServer | apps/parent/src/servers.rs:298-319 | succeeds exactly for an http(s) endpoint that could be written, with the id, caption and endpoint of the new server, the new list and the resolution of the returned id |
| ServerChoice.ServerFiles.RemoveCustomServer | apps/parent/src/servers.rs:321-329 | removes the id from the list and resets the choice, and the server connected to, exactly when it named that id; says what a failed write leaves |

## Left out

- User interfaces, routing, Android code, and every network client and server: rendering and plumbing.
- Long-poll waiting in `dequeue` and in health streams: each locked pass is one step, and when a worker is woken does not change what it is handed.
- Async mutexes: each locked section is one atomic step; only the in-flight counter has finer steps.
- WorkQueueLaws.GeneratedIdsAreFresh: the 64-bit sequence number is unbounded here; after 2^64 enqueues it would wrap.
- DelayBufferLaws.AlwaysNumbered: the 64-bit ticket counter is unbounded here.
- WorkQueueLaws.AttemptsCountExpiries: `attempts` wraps at 32 bits as in a release build; a debug build would stop instead.
- WorkQueueLaws.InflightCoversLeases: takes each decrement as one step, as the node object does; `InflightCoverage` has the loops.
- InflightCoverage.CountCoversLeases: compares with the counter's latest value; a relaxed load elsewhere may return an older one. Stray calls of `complete_inflight` without a completion are excluded.
- InflightCounter.EachCallIsOneSaturatingDecrement: it assumes the coherence of one atomic location, and the equivalent sequence follows the modification order, not real time.
- RateLimiter.BurstBudget: assumes that no send finds 2^32 live charges, where the 32-bit cast of the deque's length starts to lose bits; without that it is false (BurstLimits.BudgetKeptAlwaysIff, and BurstLimits.SinkBudgetIff for the sink).
- AlertMail.SinglesWithinBudget: the same condition; it assumes that calls take the limiter's lock in the order of their clock readings, which a clock that does not run backwards does not ensure, since `raise` and `raise_batch` read it before they take the lock. Without that it is false, and `LockOrder.LagBudgetIff` says what is left of it. A mail is stamped with the time of its call, not of its delivery.
- LabelStore.DrainIsSorted: scores are real numbers; NaN and 32-bit rounding are not modelled.
- ImageCache.CacheTransparency: scores are real numbers or "not finite"; rounding, request ids, rationale and evidence in verdicts are not modelled.
- ImageCache.ImageScoreCache.AnalyzeImage: one sequential call; what other calls may do between its two locked sections is the subject of `ImageRace`.
- `LabelStore::stats`: a subtraction.
- WorkQueueLaws.NothingAcceptedAfterClose: an enqueue counts where it reads the flag; one that read it before a drain may still be appending when the drain returns.
- Files are written whole or not at all, except for the PIN record, whose write can break off; JSON is taken as a faithful codec.
- PBKDF2, SHA-256, random numbers and the image model are parameters.
- Strings are sequences of Unicode scalar values. Byte positions matter only in the hex decoder, the session key, the blocklist's suffix test and the classifier, which model them.
- FlowUnits.VideosAreTickets: text units carry the flow's bytes; their lossy UTF-8 decoding is not modelled. The manifest sniff works on bytes, which decides the same ASCII patterns.
- Reason strings of a classification: kept as the signal they cite.
- ClientPipeline.PendingAreLeaks: one sequential flow loop, as in `run`; nothing else applies verdicts or polls the buffer. Alerts and audit records raised by the loop are not part of it.
- `bulwark-policy`, `bulwark-text`, `bulwark-video` and the router of `bulwark-infer` are not part of this model: the policy's action is an arbitrary input.
- Biometric unlock, guardian tokens, push endpoints and device ids: single reads and writes of one file.
- Staff workflow table, infer policy and authentication state: small finite tables.
