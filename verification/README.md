# Relay server model

A Dafny model of the SevenMirror relay server and proofs about its three state machines and the
two components beside them:

- **Durable delivery.** `DeliveryQueue` is one recipient's queue with its three cursors as a value;
  `DeliveryStore` is the store object whose methods are transactions on such queues, kept in step
  with a ghost append-only log; `DeliverySession` is the WebSocket writer that drains a queue while
  senders append and the client acknowledges, as a transition system over every interleaving;
  `DeliveryWriter` is that writer as an object, always in a state the system can reach; `Routing`
  connects the hub's durable route to the store.
- **Session handover.** `HubModel` has one step per lock section of `Register`, `Disconnect` and
  `beginOperation` and an inductive invariant over every interleaving; `HubOutcomes` says how each call
  ends; `RelayHub` is the hub as an object whose methods are those lock sections and which carries the
  interleaving so far;
  `SessionHandover` puts the delivery queues under the hub and shows that successive sessions of a
  device never share its queue.
- **Signed membership.** `Membership` holds the signed messages and the roster validator; `Workspace`
  the tables of one workspace and the roster transactions; `WorkspaceLaws`, `WorkspaceOps` and
  `AuthorityRotation` what each transaction needs and keeps; `RosterTransactions` the transactions as
  loops; `Admission` every command of the store; `AdmissionStore` the store as an object;
  `AdmissionLaws`, `AdmissionRuns`, `AdmissionHistory`, `AdmissionCredentials` and
  `AdmissionTheorems` the results over all runs; `AdmissionLedger` the refinement of a ledger told from the
  commands alone, and `AdmissionOutcomes`, `AdmissionRosters` and `AdmissionReads` when each command
  succeeds, what the rosters say and who reads what; `MembershipRead` and `MembershipReadLaws` the paged
  reader.
- **Codecs and limiter.** `RoutingHeader`, `EnvelopeFrame`, `RelayDelivery` (with `Bytes`) are the
  fixed-layout wire formats; `FixedWindow` is the lazily purged rate limiter.

A run is a sequence of actions or commands applied to the initial state, so "for every run" is a
quantifier over all such sequences, failed commands included. A digest is a constructor around the
content it digests, with zero apart; a signature is its key and its message. The byte order of
certificate ids is a parameter, any injective ranking (`CertificateOrder.RankingExists` gives one).
Random values, clocks and the sizes of encoded rosters are parameters.

Where a promise is false of the code, the model keeps the code and says when it holds:

- A client that acknowledges ids it was never sent can drive the writer into its "unreported gap"
  error: `DeliverySession.GapIsReachable` is such a run, `DeliverySession.GapStepIff` says exactly when
  a read ends there, and `DeliverySession.DisciplinedIsGapless` that no other client gets there.
- A smaller version never displaces a newer instance (`HubModel.SupersededByNoOlder`,
  `HubModel.HandoverIsComplete`), but the versions seen in one slot are not monotone:
  `HubModel.VersionCanDrop` is a run, and `HubModel.SlotVersionDropsIff` says of every run exactly which
  step lowers the version and that the newer instance had then left on its own.
- Lazy and eager limiter histories can drift apart when the clock steps back:
  `FixedWindow.BackwardClockDiffers` is a history, and `FixedWindow.AgreeIffNoRevival` says exactly at
  which call times they agree for all keys and settings: when no window that one call found over is
  open again at a later call. Non-decreasing times are one case (`FixedWindow.OrderedAgrees`).

`dafny verify dfyconfig.toml` checks the project.

## Model

| member | source | states |
|---|---|---|
| Bytes.EightBytes | protocol/routingheader/header.go:50-52 | a 64-bit number on the wire is its high four bytes, then its low four, each most significant byte first |
| RoutingHeader.FillIdentities | protocol/routingheader/header.go:41-49 | fills bytes 8 to 136 with the six identities in order and leaves the preamble alone |
| RoutingHeader.FillNumbers | protocol/routingheader/header.go:50-52 | fills the last 24 bytes with the three big-endian numbers and leaves the rest alone |
| RoutingHeader.Encode | protocol/routingheader/header.go:35-54 | the first failing check, or the 160-byte layout |
| RoutingHeader.DecodeEncoded | protocol/routingheader/header.go:35-86 | decoding undoes encoding for every valid header |
| RoutingHeader.EncodeDecoded | protocol/routingheader/header.go:58-121 | every accepted byte string is the encoding of the header it decodes to, so there is one representation |
| RoutingHeader.AcceptedIff | protocol/routingheader/header.go:58-121 | acceptance and every field stated on the raw bytes: exactly the 160-byte strings with the magic, suite 1, zero flags, six non-zero identities, a sequence in 1..2^63-1 and a lifetime of at most a day are accepted |
| EnvelopeFrame.Encode | protocol/envelopeframe/frame.go:32-44 | the first failing check, or the length-prefixed layout |
| EnvelopeFrame.DecodeEncoded | protocol/envelopeframe/frame.go:32-70 | decoding undoes encoding for every valid frame |
| EnvelopeFrame.EncodeDecoded | protocol/envelopeframe/frame.go:46-83 | every accepted frame re-encodes to itself and lies within the frame limits |
| EnvelopeFrame.AcceptedIff | protocol/envelopeframe/frame.go:46-83 | exactly the byte strings with the magic, a well-formed header, an uncompressed point and the true ciphertext length within limits are accepted, and each part is read from its place |
| RelayDelivery.EncodeControl | protocol/relaydelivery/frame.go:121-129 | a control message is its magic and its cursor, refused above 2^63-1 and at zero unless allowed |
| RelayDelivery.EncodeDurableSubmission | protocol/relaydelivery/frame.go:81-89 | the submission magic before a well-formed envelope, or an error |
| RelayDelivery.EncodeDelivery | protocol/relaydelivery/frame.go:99-111 | the delivery magic, the id and a well-formed envelope, or an error |
| RelayDelivery.DecodeEncoded | protocol/relaydelivery/frame.go:46-97 | every client message decodes to its own kind and contents, no other |
| RelayDelivery.EncodeDecoded | protocol/relaydelivery/frame.go:46-97 | every accepted client message re-encodes to itself |
| RelayDelivery.DecodesIff | protocol/relaydelivery/frame.go:46-79 | a byte string decodes to a message if and only if it denotes it on the wire, for all four kinds |
| RelayDelivery.DeliveryFormat | protocol/relaydelivery/frame.go:99-111 | a delivery frame exists exactly for an id in 1..2^63-1 and a well-formed envelope, and holds both at their offsets |
| RelayDelivery.ServerControls | protocol/relaydelivery/frame.go:113-129 | caught-up and reset frames carry their own magic and their cursor, up to 2^63-1 |
| DeliveryQueue.AppendInv | internal/admission/relay_delivery_store.go:26-72 | an append keeps the cursor invariant, takes one id and leaves the acknowledged cursor |
| DeliveryQueue.AppendRefines | internal/admission/relay_delivery_store.go:47-67 | after an append every stored row still equals the submission of its id in the log |
| DeliveryQueue.EvictShortest | internal/admission/relay_delivery_store.go:282-313 | eviction drops the shortest oldest prefix that restores both limits, and nothing else |
| DeliveryQueue.NewestKept | internal/admission/relay_delivery_store.go:282-313 | a row within the byte limit survives the eviction its own insertion causes |
| DeliveryQueue.AppendSound | internal/admission/relay_delivery_store.go:26-72 | invariant, log agreement and both capacity limits hold after every append, and the row just appended is stored |
| DeliveryQueue.AppendExact | internal/admission/relay_delivery_store.go:26-72 | an append succeeds while ids last, takes the next one and keeps all unexpired rows and the new one but for the shortest oldest prefix whose removal restores both limits; the unavailable mark is the old one or the highest row dropped |
| DeliveryQueue.CompactExact | internal/admission/relay_delivery_store.go:259-280 | on every queue compaction keeps exactly the rows that expire after now, in order, and marks the highest expired id if it is above the mark |
| DeliveryQueue.AcknowledgeExact | internal/admission/relay_delivery_store.go:209-243 | succeeds exactly up to the high-water, keeps exactly the rows above the cursor, raises the acknowledged cursor to the maximum and leaves the unavailable mark alone |
| DeliveryQueue.ResumeExact | internal/admission/relay_delivery_store.go:74-148 | a resume requires a reset if and only if some id above the cursor has no stored row that expires after now; otherwise it returns the contiguous block from cursor + 1 and acknowledges the cursor; it drops expired rows, and without a reset those up to the cursor, and nothing else |
| DeliveryQueue.ReadExact | internal/admission/relay_delivery_store.go:150-207 | a read resets if and only if history above its cursor was evicted or has expired, and otherwise returns the contiguous block above the cursor and the acknowledgements; it drops expired rows and nothing else |
| DeliveryQueue.ReadMissesNothing | internal/admission/relay_delivery_store.go:150-207 | an id above the cursor that is no longer stored makes a read ask for a reset, unless the client has acknowledged it |
| DeliveryQueue.GapIff | internal/admission/relay_delivery_store.go:150-207 | the writer's gap condition holds of a read exactly when nothing above the cursor was lost and the client has acknowledged up to the high-water past the cursor |
| DeliveryQueue.ReadGenuine | internal/admission/relay_delivery_store.go:150-207 | every delivery read is a logged submission under its own id and has not expired |
| DeliveryQueue.ResumeGenuine | internal/admission/relay_delivery_store.go:74-148 | every delivery resumed is a logged submission under its own id and has not expired |
| DeliveryQueue.AcknowledgeInv | internal/admission/relay_delivery_store.go:209-243 | an acknowledgement keeps the invariant and raises the acknowledged cursor to the maximum, never back |
| DeliveryStore.Store.AppendDelivery | internal/admission/relay_delivery_store.go:26-72 | exactly which error in which case, an error changes nothing, and a success appends one submission whose id is its position in the recipient's log |
| DeliveryStore.Store.ResumeDeliveries | internal/admission/relay_delivery_store.go:74-148 | exactly which error in which case, an error changes nothing, and a success is the specified resume of that recipient only |
| DeliveryStore.Store.ReadDeliveries | internal/admission/relay_delivery_store.go:150-207 | exactly which error in which case, and a success is the specified read of that recipient only |
| DeliveryStore.Store.AcknowledgeDelivery | internal/admission/relay_delivery_store.go:209-243 | exactly which error in which case, an error changes nothing, and a success is the specified acknowledgement |
| DeliveryStore.CompactExpired | internal/admission/relay_delivery_store.go:259-280 | the loop keeps exactly the rows that expire after now, and the unavailable mark becomes the highest expired id or stays |
| DeliveryStore.EnforceCapacity | internal/admission/relay_delivery_store.go:282-313 | the loop ends within both limits, at the specified eviction |
| DeliveryStore.CollectPage | internal/admission/relay_delivery_store.go:120-146 | the loop collects the first rows above the cursor, up to the limit |
| DeliverySession.StepPreserves | internal/relay/websocket.go:110-229 | every writer, sender and client action keeps the session invariant |
| DeliverySession.NoSilentGap | internal/relay/websocket.go:114-151 | in every run the ids sent since a resume strictly increase from its cursor, every id skipped was acknowledged by the client after that resume, every envelope sent is the one submitted, and encoding a stored delivery never fails |
| DeliverySession.DisciplinedIsGapless | internal/relay/websocket.go:194-229 | if acknowledgements never pass the sent cursor, the ids are exactly the cursor's successors and the gap error is unreachable |
| DeliverySession.CaughtUpIsExact | internal/relay/websocket.go:133-139 | in every run each caught-up marker equals the last id sent before it, or the resume cursor when nothing was; that the marker is sent at all is `AlwaysAnswered` |
| DeliverySession.AlwaysAnswered | internal/relay/websocket.go:114-139 | in every run, when the writer rests, the newest event other than an acknowledgement is a caught-up marker at the sent cursor if a segment is open, and otherwise a reset or nothing at all; a resume request counts as an event, so none goes unanswered |
| DeliverySession.NoLostWakeup | internal/relay/websocket.go:194-229 | an idle writer with an initialized cursor, an empty wake slot and no sender between commit and wake has sent everything up to the high-water and told the client that it is caught up there |
| DeliverySession.GapStepIff | internal/relay/websocket.go:140-149 | a drain read ends in the gap error exactly when nothing above the sent cursor was lost and the client has acknowledged everything past it |
| DeliverySession.GapIsReachable | internal/relay/websocket.go:145-148 | a concrete run of an undisciplined client reaches the gap error |
| DeliverySession.EncodableIff | protocol/relaydelivery/frame.go:99-119 | the session's notion of an encodable delivery or marker is the codec's |
| DeliverySession.SomeFrame | protocol/envelopeframe/frame.go:46-83 | a well-formed envelope exists |
| DeliveryWriter.Connection.Submit | internal/relay/hub.go:340-351 | stores exactly a well-formed, unexpired envelope while ids last: it is the newest of the log, whose length is the high-water, and one more sender is on its way to wake the writer; a refused one changes nothing |
| DeliveryWriter.Connection.Acknowledge | internal/relay/hub.go:383-394 | accepted exactly while the session lives and the cursor lies within the log; it then raises the acknowledged cursor to the maximum; a refused one changes nothing |
| DeliveryWriter.Connection.DoResume | internal/relay/websocket.go:194-211 | stops the writer exactly above the high-water, asks for a reset exactly when an id above the cursor has no unexpired row, and otherwise puts the client at its cursor with the next rows, up to the batch size |
| DeliveryWriter.Connection.DoRead | internal/relay/websocket.go:140-149 | ends in the gap error exactly when a drain finds nothing lost and everything past the sent cursor acknowledged, which no disciplined client brings about; resets exactly when history above the sent cursor was lost; else its batch starts after what was sent and acknowledged |
| DeliveryWriter.Connection.WriteNext | internal/relay/websocket.go:114-139 | sends one frame: a later id with the bytes logged under it, a caught-up marker at the sent cursor, or the reset; it sends none only when the batch is used up and there is more to read; a writer at rest has answered; what the client has seen stays legal and faithful and encoding does not fail |
| DeliveryWriter.Connection.QuietIsCaughtUp | internal/relay/websocket.go:212-229 | an idle connection with an open segment, no token and no sender on its way has sent the whole log, and its last word to the client is the caught-up marker at the length of the log |
| Routing.RoutedStaysInWorkspace | internal/relay/hub.go:396-416 | an accepted envelope names its sender, and its recipient is in the sender's workspace |
| Routing.RoutedIff | internal/relay/hub.go:396-416 | accepted exactly if the frame is well-formed and bytes 12 to 44 are the sender's workspace and device; the recipient and the expiry are read from their places on the wire; the two refusals are told apart |
| Routing.HeaderCheckedTwice | internal/relay/hub.go:396-416 | the second header decoding cannot fail once the envelope decoded |
| Routing.StoredRowEncodes | protocol/relaydelivery/frame.go:99-111 | a row that entered through the durable route always encodes as a delivery |
| Routing.RouteDurable | internal/relay/hub.go:314-353 | succeeds exactly when envelope, authorization, expiry, recipient and sequence allow, and says which of the first three failed; stores the sender's bytes for that recipient only; an error changes nothing |
| HubModel.StepPreserves | internal/relay/hub.go:157-285 | every lock section of every goroutine keeps the handover invariant |
| HubModel.AdmittedWorkOwnsTheSlot | internal/relay/hub.go:259-285 | in every interleaving an instance with admitted work owns its device slot, so admitted work for a device belongs to one instance |
| HubModel.HandoverIsComplete | internal/relay/hub.go:151-208 | a registration that waited succeeds only after each instance it waited for is retired, released, out of the map and without admitted work; each was of the same device and of no newer version |
| HubModel.InstanceStep | internal/relay/hub.go:97-113 | one step: the retirement reason never changes once set, supersession needs a version at least as new for the same device, revocation needs a disconnect that observed this instance |
| HubModel.OneIntervalPerInstance | internal/relay/hub.go:97-258 | an instance holds its slot for one contiguous interval and has left only with one fixed reason |
| HubModel.DisconnectTouchesOnlyItsInstance | internal/relay/hub.go:239-258 | a disconnect with an old observation never retires, releases or removes another instance |
| HubModel.DrainNeverDeadlocks | internal/relay/hub.go:248-258 | a disconnect waiting for admitted work can lock now, or some holder of that lock can move |
| HubModel.DrainEnds | internal/relay/hub.go:234-285 | once an instance is retired, every continuation holds a bounded number of steps of operations on it, whatever the interleaving; once it is out of its slot the bound covers its disconnects too |
| HubModel.DrainCanFinish | internal/relay/hub.go:248-258 | in every state a waiting disconnect gets the operation lock after finitely many steps of the holders alone |
| HubModel.SupersededByNoOlder | internal/relay/hub.go:151-189 | in every run an instance retired as superseded was replaced, while it held its slot, by a registration of its device of no smaller version |
| HubModel.WorkFinishesBeforeNext | internal/relay/hub.go:259-285 | in every run an operation admitted for one session of a device is finished once a later session of that device has registered |
| HubModel.SlotVersionDropsIff | internal/relay/hub.go:151-193 | in every run a step puts a version below that of an earlier instance of the device into the slot exactly when it is an attempt with tries left, the slot is empty and its version is lower; the earlier instance was retired and not waited for |
| HubModel.VersionCanDrop | internal/relay/hub.go:168-193 | a concrete run in which a later occupant has a lower credential version |
| HubOutcomes.AttemptOutcome | internal/relay/hub.go:168-193 | in every interleaving an attempt gives up exactly after two waits; with a try left it takes an empty slot with an instance of its own version, supersedes the occupant and waits for it exactly when its version is at least the occupant's, and is refused as stale exactly when it is smaller; a refusal changes nothing shared |
| HubOutcomes.FirstWaitRegisters | internal/relay/hub.go:168-208 | in every interleaving a first wait that sees the release signal with the slot free registers on the next attempt |
| HubOutcomes.HandoverRegisters | internal/relay/hub.go:168-258 | in every interleaving, once the occupant's disconnect holds the operation lock, its last two sections, the signal and one attempt give the waiting registration the slot with its own version |
| HubOutcomes.LiveSessionIsAdmitted | internal/relay/hub.go:259-285 | in every interleaving an operation of an instance that has its slot and no retirement reason gets through both checks and the read lock, whoever else works on it |
| HubOutcomes.ExactlyOneInitiator | internal/relay/hub.go:239-258 | over every run an instance is retired as revoked if and only if some disconnect reports that it started this, and at most one does |
| RelayHub.Hub.CallRegister | internal/relay/hub.go:157-167 | a version or queue size below one is refused with its own error, any other call starts with no wait behind it |
| RelayHub.Hub.RegisterAttempt | internal/relay/hub.go:168-189 | the outcome of `HubOutcomes.AttemptOutcome`: gives up exactly after two waits, takes an empty slot, supersedes exactly an occupant of no larger version, else is stale; a registered goroutine owns a new instance and all it waited for are gone and no newer; a failure changes nothing shared |
| RelayHub.Hub.SeeRelease | internal/relay/hub.go:199-208 | when the release signal is seen, the instance waited for is counted, and it is out of the map for good, with a reason and without admitted work |
| RelayHub.Hub.CheckDisconnect | internal/relay/hub.go:239-247 | retires the observed instance exactly if it still has the slot, reports whether it was the one to do so, and touches no other instance and no slot |
| RelayHub.Hub.LockOperations | internal/relay/hub.go:249-250 | once the operation lock is granted, no continuation of the run admits work on the instance |
| RelayHub.Hub.DeleteSlot | internal/relay/hub.go:251-255 | frees the slot of its own instance and of no other |
| RelayHub.Hub.MarkReleased | internal/relay/hub.go:111-113 | the release signal is given only for an instance that is gone |
| RelayHub.Hub.UnlockOperations | internal/relay/hub.go:239-258 | when Disconnect returns, the instance it retired is gone, and it reports what its first section found |
| RelayHub.Hub.CheckOperation | internal/relay/hub.go:270-278 | work is admitted exactly on the instance that owns the slot of its device and is not retired |
| RelayHub.Hub.FinishOperation | internal/relay/hub.go:279-284 | on a retired instance, every continuation holds fewer steps of operations than were left before |
| SessionHandover.SessionsTakeTurns | internal/relay/hub.go:355-394 | in every run the resumes, reads and acknowledgements that reach one device's queue come in the order its sessions registered |
| SessionHandover.QueueBelongsToSession | internal/relay/hub.go:355-394 | between two points of a run at which an instance exists and still has its slot, every such call on its device's queue is its own, and the acknowledged cursor is the earlier one or one it gave itself |
| FixedWindow.Limiter.Purge | internal/ratelimit/fixed_window.go:42-49 | the loop removes exactly the expired entries |
| FixedWindow.Limiter.Allow | internal/ratelimit/fixed_window.go:31-60 | the lazily purged update is the specified step |
| FixedWindow.RefusesExactly | internal/ratelimit/fixed_window.go:31-60 | refuses exactly when the key's live window is full, or it has none and the maximum number of other live windows exists |
| FixedWindow.NeverOverfull | internal/ratelimit/fixed_window.go:42-55 | the table never exceeds the maximum number of entries |
| FixedWindow.LazyAnswersAsEager | internal/ratelimit/fixed_window.go:31-60 | over every history that revives no window, the answer is that of a limiter that purges on every call |
| FixedWindow.OrderedAgrees | internal/ratelimit/fixed_window.go:31-60 | for non-decreasing times every answer is that of a limiter that purges on every call |
| FixedWindow.RevivalDiffers | internal/ratelimit/fixed_window.go:31-60 | for any call times with a revived window there are keys and settings for which the two answer that call differently |
| FixedWindow.AgreeIffNoRevival | internal/ratelimit/fixed_window.go:31-60 | calls at given times get the same answers from the lazy and the eager limiter, for all keys and settings with that window, if and only if no window found over at one call is open again at a later one |
| FixedWindow.BackwardClockDiffers | internal/ratelimit/fixed_window.go:31-60 | a concrete history with a clock step back in which the two differ |
| FixedWindow.GrantedBound | internal/ratelimit/fixed_window.go:31-60 | for non-decreasing times a key is allowed at most 2*limit-1 attempts in any half-open interval of one window |
| Membership.CheckRoles | protocol/membershipcodec/membership.go:406-417 | the role loop accepts exactly the supported, strictly increasing, non-empty lists |
| Membership.CheckActives | protocol/membershipcodec/membership.go:510-532 | the certificate loop accepts exactly the bounded, valid, bound and sorted lists |
| Membership.CheckTransitions | protocol/membershipcodec/membership.go:533-559 | the transition loop accepts exactly the bounded, bound, sorted lists whose replacements are active |
| Membership.CheckRevocations | protocol/membershipcodec/membership.go:560-579 | the revocation loop accepts exactly the bounded, sorted lists disjoint from the active certificates |
| Membership.ValidateWorkspaceRoster | protocol/membershipcodec/membership.go:497-581 | the validator decides declarative roster validity |
| WorkspaceLaws.PrepareExact | internal/admission/store.go:789-833 | on a linked chain the predecessor always decodes under the current key; only an exhausted epoch fails |
| WorkspaceLaws.TakeOutFound | internal/admission/store.go:1118-1135 | on a sorted list that holds the stored certificate the loop removes exactly it |
| WorkspaceOps.ApproveExact | internal/admission/store.go:671-780 | approval succeeds if and only if the caller's inputs allow it, with known tables; the certificate grants the roles asked for from the time given, under the recorded name, at the new epoch; no inconsistency is reported |
| WorkspaceOps.ApproveSound | internal/admission/store.go:671-780 | approval keeps every invariant of the workspace |
| WorkspaceOps.RenameExact | internal/admission/store.go:1065-1213 | renaming succeeds if and only if the caller's inputs allow it; the certificate then carries the new name and time and the old roles; the mismatch and not-active branches are never taken |
| WorkspaceOps.RenameSound | internal/admission/store.go:1065-1213 | renaming keeps every invariant of the workspace |
| WorkspaceOps.RevokeExact | internal/admission/store.go:1215-1359 | revocation case by case: unknown, already revoked, never certified, certified with its exact success condition; no inconsistency is reported |
| WorkspaceOps.RevokeSound | internal/admission/store.go:1290-1351 | revoking a certified device keeps every invariant of the workspace |
| WorkspaceOps.RowSound | internal/admission/store.go:641-669 | a row change that keeps status and certificate of certified devices keeps every invariant |
| AuthorityRotation.ReissueExact | internal/admission/store.go:394-417 | every active certificate is reissued in its row and in the list, and no other row is touched |
| AuthorityRotation.ReissueLoop | internal/admission/store.go:394-417 | the loop is the specified reissue, its first failure included |
| AuthorityRotation.RotateExact | internal/admission/store.go:341-455 | rotation succeeds if and only if the caller's inputs allow it, with known tables; the mismatch branch is never taken |
| AuthorityRotation.RotateSound | internal/admission/store.go:341-455 | rotation keeps every invariant under the new key |
| AuthorityRotation.KeysAppend | internal/admission/store.go:367-390 | a rotation extends the linked transition chain and leaves the key of every earlier epoch |
| RosterTransactions.ResolveDeviceReference | internal/admission/store.go:1480-1519 | the loop finds the one device with the reference, and tells none from several |
| RosterTransactions.RemoveDevice | internal/admission/store.go:1118-1135 | the removal loop is the specified one, its first failure included |
| RosterTransactions.RunApprove | internal/admission/store.go:671-780 | the transaction is the specified approval; its certificate is valid under the key given, with the roles asked for and the time given |
| RosterTransactions.RunRename | internal/admission/store.go:1065-1213 | the transaction is the specified rename; its certificate has the new name and time and the old roles |
| RosterTransactions.RunRevoke | internal/admission/store.go:1215-1359 | the transaction is the specified revocation; the device is revoked at the time given, or stays revoked as it was, and keeps its certificate |
| RosterTransactions.RunRotate | internal/admission/store.go:341-455 | the transaction is the specified rotation; the authority is the new key, one epoch and one roster on |
| AdmissionRuns.StepKeeps | internal/admission/store.go:277-1478 | every command keeps all workspaces sound, only appends rosters, moves rows forward only, and reports no inconsistency |
| AdmissionRuns.AlwaysGood | internal/admission/store.go:277-1478 | every state of every run is sound |
| AdmissionRuns.NeverInconsistent | internal/admission/store.go:395-417 | no command of any run takes a branch that reports contradicting tables |
| AdmissionRuns.ActiveIsApproved | internal/admission/store.go:671-853 | in every run the newest roster's active certificates are exactly the stored certificates of the approved devices |
| AdmissionRuns.ChainHolds | internal/admission/store.go:789-853 | in every run the chain is contiguous from epoch 1, linked by digests with zero only at the start, and each roster validates under the key the transitions give for its epoch |
| AdmissionRuns.OnlyForward | internal/admission/store.go:576-669 | between any two points of a run devices only move forward, revoked rows never change, and published rosters stay |
| AdmissionHistory.HistoryHolds | internal/admission/store.go:576-669 | in every run a device has exactly one registration, is approved only after exactly one accepted proof that answers its challenge in time with its credential, and its version is 1 plus its successful rotations |
| AdmissionHistory.StepEffect | internal/admission/store.go:539-1478 | what each successful command does to any one row |
| AdmissionLedger.ApproveRow | internal/admission/store.go:671-780 | an approval writes into its row exactly the certificate of the record with the roles, time, key and epoch of the call, and touches no other row |
| AdmissionLedger.RenameRow | internal/admission/store.go:1065-1213 | a rename changes the name, issue time and epoch of the certificate and the name of the record, and touches no other row |
| AdmissionLedger.RevokeRow | internal/admission/store.go:1215-1359 | a revocation closes the record with its time, with the epoch of the new roster exactly for a certified device, and keeps the certificate |
| AdmissionLedger.RotateRow | internal/admission/store.go:391-420 | a rotation issues the certificates of exactly the approved devices again, under the new key and otherwise as they were, and touches no other row |
| AdmissionLedger.LedgerHolds | internal/admission/store.go:277-1478 | the store refines a ledger: in every run every row equals, in every modelled column and certificate included, what the successful commands tell about the device one after the other, and a workspace has as many rosters as publishing commands |
| AdmissionOutcomes.RolesOfTheApproval | internal/admission/store.go:671-780 | in every run a certified device, revoked or not, had exactly one successful approval, and its certificate carries that approval's roles through all renames and rotations |
| AdmissionOutcomes.AuthorityHolds | internal/admission/store.go:341-455 | in every run the authority key and epoch of a workspace are those of its last rotation, or of its creation |
| AdmissionOutcomes.CreateIff | internal/admission/store.go:277-296 | in every run a workspace is created exactly once and under a non-zero key, and which error else |
| AdmissionOutcomes.IssuePairingIff | internal/admission/store.go:503-537 | in every run a pairing code is issued exactly for an existing workspace, a known type, an acceptable name, at most a day, and if it was never issued before |
| AdmissionOutcomes.RegisterIff | internal/admission/store.go:539-639 | in every run a registration succeeds if and only if its type, name and key are given, its code was issued for such a device, has registered none and has not expired, its challenge is open for at most ten minutes, and its id and token are new; and which error is reported first |
| AdmissionOutcomes.ProofIff | internal/admission/store.go:641-669 | in every run a proof is accepted if and only if the device still owes one and token, digest, secret and time fit its own challenge |
| AdmissionOutcomes.IssueRotationIff | internal/admission/store.go:1361-1403 | in every run a rotation code is issued if and only if the device is approved, the lifetime is at most a day and the code is new; and which error else |
| AdmissionOutcomes.RotateCredentialIff | internal/admission/store.go:1405-1478 | in every run a credential rotates if and only if the device is approved, presents its current token and an unused, unexpired code issued for it, and the new token is no device's |
| AdmissionOutcomes.ApproveIff | internal/admission/store.go:671-780 | in every run an approval succeeds if and only if the device's story ends in an accepted proof, the key is the current authority's, the roles and the time are proper, and the roster has room |
| AdmissionOutcomes.RenameIff | internal/admission/store.go:1065-1213 | in every run a rename succeeds if and only if the device is approved, the key is the current authority's, and the name is acceptable and not the one it has |
| AdmissionOutcomes.RevokeIff | internal/admission/store.go:1215-1359 | in every run a revocation succeeds for every device there is, but for an approved one only under the current authority's key while the revocation list has room |
| AdmissionOutcomes.RotateIff | internal/admission/store.go:341-455 | in every run a rotation succeeds if and only if it comes from the current authority, to another non-zero key, after at least one roster |
| AdmissionOutcomes.PairingLedger | internal/admission/store.go:503-600 | in every run a stored pairing code is what its issuing command said, consumed at the time of the registration that used it and by nothing else |
| AdmissionOutcomes.RotationLedger | internal/admission/store.go:1361-1478 | in every run a stored rotation code is what its issuing command said, consumed at the time of the rotation that used it and by nothing else |
| AdmissionRosters.RevokedIsRevocation | internal/admission/store.go:1309-1351 | in every run the newest roster revokes exactly the certified devices that were revoked, each with its certificate and the time of its revocation |
| AdmissionRosters.RosterSays | internal/admission/store.go:789-853 | in every run a publishing command appends one roster, which lists exactly the approved certificates and the revocations, and names one replaced certificate if it was a rename and none otherwise |
| AdmissionRosters.RotationRecorded | internal/admission/store.go:367-455 | in every run a rotation adds exactly one transition, from the old key to the new, in force from the roster it publishes and linked to what was there before |
| AdmissionRosters.RotationReports | internal/admission/store.go:433-493 | in every run the recovery lookup answers a rotation at once with the epochs and digests of the tables it left |
| AdmissionTheorems.PairingCodeOnce | internal/admission/store.go:576-600 | over any run a pairing code registers at most one device, and is spent exactly when it has |
| AdmissionTheorems.RotationCodeOnce | internal/admission/store.go:1405-1478 | over any run a rotation code succeeds at most once, and is spent exactly when it has |
| AdmissionCredentials.RegistrationWasInvited | internal/admission/store.go:503-600 | in every run a device registers only with a code issued earlier for its type and name, before that code's expiry, into the workspace the code was issued for |
| AdmissionCredentials.RotationWasInvited | internal/admission/store.go:1361-1440 | in every run a credential rotates only with a code issued earlier for that very device, before its expiry |
| AdmissionCredentials.TokenNamesOneDevice | internal/admission/store.go:1750-1761 | in every run no two devices of any workspaces share a token, so a token authenticates at most one device |
| AdmissionTheorems.AuthorizedIff | internal/admission/store.go:1540-1562 | a session version is authorized exactly while the device is approved and has not rotated since |
| AdmissionTheorems.AuthenticatedIsAuthorized | internal/admission/store.go:1564-1606 | the version a fresh session gets is the one version authorized then; when a token authenticates at all is `AuthenticateIff` |
| AdmissionOutcomes.AuthenticateIff | internal/admission/store.go:1564-1606 | in every run a token authenticates a device with a version if and only if the device is approved, the token is that of its last successful registration or credential rotation, and the version is one more than its rotations |
| AdmissionTheorems.StaleSessions | internal/admission/store.go:1405-1562 | once a rotation commits, every version issued before it is unauthorized in all later states |
| AdmissionTheorems.RevokedForever | internal/admission/store.go:1309-1351 | after a device is revoked no roster published later in any run lists it as active |
| AdmissionTheorems.RevocationsGrow | internal/admission/store.go:1309-1351 | a revocation is in every later roster, and none of those lists its certificate or device as active |
| AdmissionTheorems.CompletedExact | internal/admission/store.go:457-493 | the recovery lookup finds the last transition for the current key and nothing for any other, and never an inconsistency |
| AdmissionTheorems.RotationRecovered | internal/admission/store.go:433-493 | after a rotation the lookup for its key returns exactly what the rotation returned, through any later commands until the next rotation |
| AdmissionTheorems.AlwaysReadable | internal/admission/store.go:900-1013 | in every run a certified device reads from 0, and its stored certificate decodes under the key it is handed |
| AdmissionTheorems.FollowChain | internal/admission/store.go:900-1013 | in every run a certified device that reads from 0 and on from the last epoch it got collects its whole chain, and no read fails |
| AdmissionStore.Store.constructor | internal/admission/store.go:230-259 | an empty store at the start of its history |
| AdmissionStore.Store.CreateWorkspace | internal/admission/store.go:277-296 | commits exactly when the history allows it (`CreateIff`), else its error and no change; the tables stay sound |
| AdmissionStore.Store.IssuePairingCode | internal/admission/store.go:503-537 | commits exactly when the history allows it (`IssuePairingIff`), else its error and no change; the tables stay sound |
| AdmissionStore.Store.RegisterPending | internal/admission/store.go:539-639 | commits exactly when the history allows it (`RegisterIff`); consumes the code and inserts the device together, or changes neither and reports the first failing check; the tables stay sound |
| AdmissionStore.Store.CompletePendingIdentityProof | internal/admission/store.go:641-669 | commits exactly when the history allows it (`ProofIff`): challenge, secret, credential and expiry fit; the tables stay sound |
| AdmissionStore.Store.ApprovePendingMembership | internal/admission/store.go:671-780 | a missing or ambiguous reference is reported and changes nothing; for the one device named it commits if and only if the inputs allow it, grants exactly the roles asked for from the time given, and reports the certificate, epoch and digest of the roster that now lists it; the tables stay sound |
| AdmissionStore.Store.RenameDevice | internal/admission/store.go:1065-1213 | a missing or ambiguous reference is reported and changes nothing; for the one device named it commits if and only if the inputs allow it, changes the name and keeps the roles, and reports the certificate, epoch and digest of the roster that now lists it; the tables stay sound |
| AdmissionStore.Store.RevokeDevice | internal/admission/store.go:1215-1359 | a missing or ambiguous reference is reported and changes nothing; for the one device named it commits if and only if it is uncertified or the inputs allow it, reports a change exactly when the tables changed, and an epoch and digest exactly when a certified device was revoked in that roster, with its certificate and the time given |
| AdmissionStore.Store.RotateWorkspaceAuthority | internal/admission/store.go:341-455 | commits if and only if the inputs allow it, with exactly the transition from the old key to the new; its report is what the recovery lookup answers afterwards; an error changes nothing; the tables stay sound |
| AdmissionStore.Store.IssueCredentialRotationCode | internal/admission/store.go:1361-1403 | a missing or ambiguous reference is reported and changes nothing; for the one device named it commits exactly when the history allows it (`IssueRotationIff`); the tables stay sound |
| AdmissionStore.Store.RotateCredential | internal/admission/store.go:1405-1478 | commits exactly when the history allows it (`RotateCredentialIff`); consumes the code and replaces the credential together, or neither; the new token authenticates with the version returned |
| MembershipRead.CollectPage | internal/admission/store.go:984-1003 | the loop returns the longest consecutive page within the byte limit, the first roster always included, or reports a gap |
| MembershipRead.CollectTransitions | internal/admission/store.go:957-973 | all selected transitions, or an error when there are more than 256 |
| MembershipRead.ReadMembershipState | internal/admission/store.go:900-1013 | the answer to every request: refusals, pending views, certificate check, key, transitions, page and latest epoch |
| MembershipRead.OnePage | internal/admission/store.go:984-1003 | the rows determine the page: two pages satisfying the contract are equal |
| MembershipReadLaws.TerminalKeyIs | internal/admission/store.go:931-946 | the key chosen for a revoked device is the one the transitions give for its last epoch |
| MembershipReadLaws.FirstRead | internal/admission/store.go:947-1013 | a certified device reading from 0 decodes its certificate under the key handed out, gets at most one transition, and its first roster lists that certificate |
| MembershipReadLaws.LaterRead | internal/admission/store.go:957-1013 | a later read fails exactly when more than 256 transitions remain, and otherwise returns the next rosters, at least one before the end |
| MembershipReadLaws.FollowingNeverFails | internal/admission/store.go:957-973 | from its certificate's epoch on a device never meets the transition limit |
| MembershipReadLaws.PagesFromZero | internal/admission/store.go:975-1013 | following pages from 0 yields every roster from the certificate's to the last readable one exactly once, with no empty page |
| MembershipReadLaws.ReadChain | internal/admission/store.go:900-1013 | the loop over pages ends with every roster from the certificate's own to the last readable one, and no read of it fails |
| AdmissionReads.ReadOutcome | internal/admission/store.go:900-1013 | in every run a read is refused exactly for a negative start, a token that is not the device's current one, or a device revoked before any approval; else it reports the device's own state, and the only error left is the transition limit on a later page |
| AdmissionReads.ViewTransitions | internal/admission/store.go:957-973 | a member is told of exactly the rotations in force after its start and up to its last roster, oldest first |

## Left out

- SQL text, WAL, pooling and schema migrations: tables are maps and sequences, transactions atomic steps.
- MembershipRead.ReadMembershipState: reads one snapshot, while the code uses several queries; the page loop's early exit leaves its rows open before the next query on a one-connection pool, so the results are about the values returned, not about the call completing.
- MembershipRead.ReadMembershipState: the newest transition by activation epoch is the last in table order, which is the same on every reachable state.
- AdmissionStore.Store.RotateCredential: the credential version is unbounded and does not model the end of the 64-bit range.
- RosterTransactions.ResolveDeviceReference: a reference is a number given by any function of workspace and device; its hashing and text format are not modelled, so a malformed reference is one no device has.
- Routing.RouteDurable: the sender's own admission and the wake-up of a live recipient are steps of `RelayHub` and `DeliveryWriter`, not of this method.
- RosterTransactions.RunApprove: the append followed by a sort is an insertion at the certificate's place, which agrees with it on the sorted lists that validated rosters hold. The same holds for the revocation list.
- Membership.ValidateWorkspaceRoster: the lookup maps are filled by a loop of their own, and the protocol version, unknown fields and encodings are not part of the model.
- Membership.CheckRoles: display names are sequences of characters standing for bytes; UTF-8 validity and Unicode blanks beyond space, tab and line breaks are not modelled.
- SHA-256, Ed25519, P-256 and HPKE: digests, signatures and hashes are constructors; a malformed key is an absent one, and malformed codes and tokens are refused as unknown ones are.
- HubModel.DrainEnds: does not model the writer preference of the operation lock; without it more interleavings exist, and the bound holds of all of them. The handover timeout is a step that may occur at any point of a wait.
- Real time, timers, deadlines, pings, heartbeats, close frames, context cancellation and session end causes of the WebSocket connection.
- The immediate route `RouteOnline` and its bounded queue: a validation shared with the durable route and one channel send.
- Timestamps of activity, last authentication and approval on device rows, listings of devices and workspaces.
- Administrator credentials and pages, TOTP, workspace preferences, backups, configuration, HTTP plumbing, trust pairing and payload codecs.
