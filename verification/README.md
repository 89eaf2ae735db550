# Agent Cockpit: leader mail, bindings, receipts and three small algorithms

A Dafny model of the parts of Agent Cockpit whose promises span several operations, with proofs of
those promises. `dafny verify dfyconfig.toml` checks it.

- **Deferred delivery** (`Delivery*.dfy`). Events wait in `pending` until a leader's pane is free.
  Every lock section is one atomic step; the adapter runs between two of them and may answer anything
  at any time; a binding switch may fall anywhere. `DeliveryCore` has the mutable scope record.
- **Leader bindings** (`Binding*.dfy`). Rows `active`, `previous` and `retired`, compare-and-swap
  rebinding, the drain state machine, migrations, and the control-event outbox. Each transaction is
  one step; a fresh number stands for a fresh UUID. `BindingStore` has the mutable tables.
- **Wiring** (`ProofAdapter`, `AdapterOutcomes`, `WriteFailures`, `ProofMarks`, `Wiring*`, `Orderly*`,
  `Stranded`, `Untaken`, `Marker*`, `OncePerMessage`, `NoLoss`, `Coordinator`, `FanOut*`). Attempt and
  delivered markers around the prompt, crashes and restarts, rebinds with the hand-over of cleared events,
  and the fan-out of the outbox.
  A delivery is a chain of micro-steps, one for each write; a crash may fall between any two and wipes
  everything but the markers. Any version may be announced at any time, and cleared events are in the
  hands of a thread until it ingests them. `FanOutStore` joins this with the binding store.
  `ProofAdapter.Adapter`, `Coordinator.Coordinator` and `FanOutLoop.Fanout` are the mutable objects.
- **Receipts** (`Receipt*.dfy`). Claims with expiring leases, renewal, supersession and final states;
  `ReceiptStore` has the mutable table.
- **Metadata header** (`Metadata.dfy`, `Text.dfy`). Printer and parser, over any JSON codec that reads
  back what it prints and accepts no proper prefix of an object.
- **Archives** (`Artifact*.dfy`). Member names, the trie that decides whether a member list is a
  consistent tree, the writer and the verifier. A file system is a map from path to node.
- **Search, journal, framing** (`Search*.dfy`, `Journal.dfy`, `Framing.dfy`).

Writes that may fail, adapter answers and transports are outcomes of an arbitrary oracle; the gate of
a claim, and its run, task and expiry checks, are an arbitrary verdict; `now` is an argument.

Where the code and what its comments promise differ, the model follows the code:

- A binding switch never delivers at once (`deferred_delivery.py:217`): nothing is pending then
  (`DeliveryRuns.SwitchHandsOver`).
- "No rebind while a previous mailbox is not drained" (`leader_binding.py:553`) holds exactly when a
  scope does not hold a drained and an undrained previous row at once (`BindingTheorems.GateExact`,
  counterexample `GateCanBePassedTwice`).
- "Only the mark is repaired" after a failed delivered mark (`b0_wiring.py:857`) holds exactly when the
  whole batch awaits marks (`WiringRuns.CallRepeatsExactly`, counterexample
  `WiringExamples.MixedBatchPromptsTwice`). It stops holding once a recovery has
  proven some events of a batch and failed on another: the next retry of that batch can call the wrapped
  adapter again (`WriteFailures.NextRetryExactly`, concrete case `HalfRecoveryCallsAgain`). A batch of one
  event is never prompted again (`LoneEventNeverCalled`).
- A control event can be marked as fanned out and never be prompted (`FanOutExample.FanOutOutrunsRejection`).
  An attempt marker that the fan-out reads is evidence exactly when its event is not at hand at that
  moment: not pending, not in a delivery, and with no thread on its way to an ingest, let through by a
  check or handed over by a rebind (`FanOutEvidence.RelyingIsSafeExactly`, over all runs with rebinds).
  Where announced versions never step back, events of a superseded version do not count as at hand.
- "Whatever is not marked is replayed" (`b0_wiring.py:1269`) holds exactly for events of the version that
  the core is bound to (`Untaken.TakenUpExactly`). An event not taken up before a rebind, and every
  drain or retirement event, is never fanned out by a core bound to the active row (`LostForever`,
  `OldRowsNeverFanned`), and a page full of them starves all newer events
  (`FanOutStarves.StarvedForever`, `StarvationHappens`).
- "A failed attempt keeps the message pending" (`b0_wiring.py:871`) does not survive a crash: the targets
  before the failing one keep their attempts and stay without a prompt (`Stranded.FailedAttemptStrands`).
- A pause request erases prompt markers; it matters exactly on a marked receipt
  (`WiringRuns.PauseMattersExactly`).
- "One prompt for each Hub message id" (`b0_wiring.py:1131`) holds within a life of the process if no write
  of a delivered mark fails, pauses find no marker, and rebinds go to higher versions while no delivery is
  under way (`OncePerMessage.OncePerMessageInALife`). A rebind with a call in flight is excluded: if that
  call is accepted, the event is prompted again for the new leader (`SwitchDuringCallPromptsTwice`). Over
  restarts it holds, on the same runs, exactly when the message is always checked under one mailbox
  (`OncePerMessage.OnceOverRestartsExactly`).
- A message whose ingest comes under a version that is no longer active is dropped and not offered again
  in that life (`NoLoss.NothingVanishes`, concrete runs `LateOfferVanishes` and `OverlappingSyncsVanish`).
- Supersession depends on the order of a batch when two senders share a message id
  (`ReceiptOrder.OrderFreeExact`).

## Model

| member | source | states |
|---|---|---|
| DeliveryCore.ScopeState.BeginDeliver | agent_cockpit/deferred_delivery.py:113-126 | A call starts only with an active binding, an eligible target, pending events and none in flight; it carries all pending events, the binding version and the generation |
| DeliveryCore.ScopeState.Settle | agent_cockpit/deferred_delivery.py:143-147 | An accepted batch of the same generation leaves `pending` and enters the ledger, counted once per event |
| DeliveryCore.ScopeState.Requeue | agent_cockpit/deferred_delivery.py:150-175 | A batch goes back to `pending` under the active version, except what this generation has delivered; the ids put back are reported |
| DeliveryCore.ScopeState.FinishDeliver | agent_cockpit/deferred_delivery.py:128-184 | The three outcomes of a finished call, decided by comparing generations, with the late-result record |
| DeliveryCore.ScopeState.SetActiveBinding | agent_cockpit/deferred_delivery.py:210-249 | Same version changes nothing; another version starts a generation and hands the old pending events to the caller |
| DeliveryCore.ScopeState.SetTargetStatus | agent_cockpit/deferred_delivery.py:251-260 | A new status is stored and a delivery is tried |
| DeliveryCore.ScopeState.IngestEvent | agent_cockpit/deferred_delivery.py:262-294 | Stale, delivered, pending (newest summary kept) and new events are told apart; a new one is appended and a delivery is tried |
| DeliveryCore.ScopeState.Flush | agent_cockpit/deferred_delivery.py:296-304 | An explicit attempt |
| DeliveryRuns.NextKeeps | agent_cockpit/deferred_delivery.py:113-184 | The invariant (conservation, one call, ledger) survives every lock section, adapter answer and switch |
| DeliveryRuns.Conservation | agent_cockpit/deferred_delivery.py:113-184 | In every reachable state, for any interleaving: what entered `pending` in this generation is the disjoint union of `pending` and the delivered ids, all pending events carry the active version, the count is the size of the ledger, and at most one call is outside the lock |
| DeliveryRuns.AtMostOncePerGeneration | agent_cockpit/deferred_delivery.py:143-149 | No event is in two accepted batches of one generation, and without a call under way the ledger is exactly what the adapter accepted, also when version numbers return |
| DeliveryRuns.SwitchHandsOver | agent_cockpit/deferred_delivery.py:210-249 | A switch returns exactly the old pending events and opens an empty generation; it never starts a delivery itself, as nothing is pending then |
| DeliveryRuns.LateResultLosesNothing | agent_cockpit/deferred_delivery.py:150-183 | A result that arrives after a switch, accepted or not, leaves each event pending under the new version or delivered in the new generation, never both |
| DeliveryRuns.RejectionKeepsPending | agent_cockpit/deferred_delivery.py:168-183 | A rejection without a switch changes neither `pending` nor the ledger |
| DeliveryRuns.EnteredGrows | agent_cockpit/deferred_delivery.py:143-175 | Between switches nothing that entered `pending` is forgotten |
| DeliveryRuns.SyncLosesNothing | agent_cockpit/b0_wiring.py:1011-1023 | Switch and re-ingest of the cleared events, interleaved with any other threads but no other switch in between: every id pending before is pending or delivered afterwards |
| DeliveryOutcomes.LaunchExactly | agent_cockpit/deferred_delivery.py:102-126 | On every run a step starts a call if and only if it is a status report, a flush or the ingest of a new event of the active version, the status after it is idle, done or ready, a binding is active, something is pending and no call is outside the lock; the call carries everything pending, the active version and the generation |
| DeliveryOutcomes.BusyIsDeferred | agent_cockpit/deferred_delivery.py:36-39 | No step under a target that is working, typing or unavailable starts a call |
| DeliveryOutcomes.NewestSummaryStays | agent_cockpit/deferred_delivery.py:276-285 | A second summary of a pending event takes the place of the first, at its position, unless it is older; it starts no call and counts as a duplicate |
| DeliveryOutcomes.InTimeExactly | agent_cockpit/deferred_delivery.py:143-149 | An acceptance in the same generation takes exactly the events of the call out of `pending`, leaves the others in order, and records no late result |
| DeliveryOutcomes.LateExactly | agent_cockpit/deferred_delivery.py:150-183 | Every other end of a call leaves one record: `delivered_stale_target` if and only if it was accepted, with exactly the ids handed off, or `requeued`, with the ids of the call in order |
| DeliveryOutcomes.RequeueExactly | agent_cockpit/deferred_delivery.py:155-175 | What such a call puts back: the events neither delivered nor pending, in order, under the active version, behind what is pending |
| Coordinator.SyncKeepsEverything | agent_cockpit/b0_wiring.py:1011-1023 | The same for the coordinator's own loop, whatever the adapter answers inside it |
| Coordinator.Coordinator.SyncBindings | agent_cockpit/b0_wiring.py:1011-1023 | The loop: announce the version, then offer each cleared event under it, with the delivery each offer may start |
| Coordinator.Coordinator.OfferEvent | agent_cockpit/deferred_delivery.py:262-294 | One ingest together with the delivery it starts |
| Coordinator.IntakeExactly | agent_cockpit/deferred_delivery.py:262-294 | An event is stale if and only if it is not of the active version, and a duplicate if and only if it is pending or delivered |
| Coordinator.Coordinator.IngestMessage | agent_cockpit/b0_wiring.py:1120-1181 | No usable id (none, 0 or negative) is skipped; seen, prompted, claimed or processed messages are duplicates; the rest is offered to the core; the id is remembered in every case but the first |
| ProofAdapter.Adapter.SetAttempt | agent_cockpit/b0_wiring.py:516-564 | The attempt marker is written or the write fails and nothing changes |
| ProofAdapter.Adapter.SetDelivered | agent_cockpit/b0_wiring.py:516-564 | The delivered marker, likewise |
| ProofAdapter.Adapter.ClearAttempt | agent_cockpit/b0_wiring.py:567-596 | The attempt marker is removed, the delivered marker stays |
| ProofAdapter.Adapter.Recover | agent_cockpit/b0_wiring.py:857-870 | When every event of the batch awaits its mark, only marks are written; events before the first failure are proven |
| ProofAdapter.Adapter.RecoverEvent | agent_cockpit/b0_wiring.py:861-869 | One event of the recovery: proven and no longer awaiting marks only if no write has failed so far |
| ProofAdapter.Adapter.WriteAttempts | agent_cockpit/b0_wiring.py:871-878 | Attempts are written first; the first failure ends the delivery before the wrapped call |
| ProofAdapter.Adapter.ClearAttempts | agent_cockpit/b0_wiring.py:883-892 | A rejection clears every attempt, whatever fails on the way |
| ProofAdapter.Adapter.MarkDelivered | agent_cockpit/b0_wiring.py:893-911 | All delivered marks are tried; any failure makes the whole batch await its marks |
| ProofAdapter.Adapter.Deliver | agent_cockpit/b0_wiring.py:850-911 | The whole delivery is exactly the chain of micro-steps, write by write |
| ProofAdapter.TargetExactly | agent_cockpit/b0_wiring.py:832-848 | The receipt of a mail event is the one its summary names, if it names one; that of a control event is the row under its own id |
| AdapterOutcomes.AttemptsComeFirst | agent_cockpit/b0_wiring.py:871-882 | The wrapped adapter is called only with every target marked as attempted |
| AdapterOutcomes.FailedAttemptStops | agent_cockpit/b0_wiring.py:871-878 | The first failing attempt ends the delivery as rejected and nobody is called; exactly the targets before it keep their attempts, and nothing is proven or marked as delivered |
| Stranded.FailedAttemptStrands | agent_cockpit/b0_wiring.py:871-878 | With a crash after that, every message before the failing one that nobody was prompted for is never let through and never prompted for again, on any continuation without a pause of its receipt |
| Stranded.LeftForever | agent_cockpit/b0_wiring.py:1138-1142 | A marked receipt with no event at hand stays marked, and its event is never let through again, over all later lives and versions |
| AdapterOutcomes.RejectionLeavesNoTrace | agent_cockpit/b0_wiring.py:883-892 | A rejection with succeeding writes leaves no attempt of its batch and touches no other marker, so the messages can be prompted again after a restart |
| AdapterOutcomes.RejectedIsCleared | agent_cockpit/b0_wiring.py:883-892 | The clearing alone, from any point of it |
| AdapterOutcomes.AcceptedIsMarked | agent_cockpit/b0_wiring.py:893-911 | An accepted batch whose marks succeed is marked and proven as a whole |
| AdapterOutcomes.UnmarkedAwaits | agent_cockpit/b0_wiring.py:893-908 | With any failing mark the batch is reported as rejected, proves nothing, and awaits its marks as a whole |
| AdapterOutcomes.RecoveryRepairs | agent_cockpit/b0_wiring.py:857-870 | A retry of a batch that awaits its marks only writes marks; when they succeed every event is proven and awaits nothing |
| WriteFailures.RecoveryExactly | agent_cockpit/b0_wiring.py:857-870 | The retry of a batch that awaits its marks, whichever writes fail: with k the first event with a failing write, exactly the ids before k are proven and await nothing more, every mark is tried, no attempt changes, nobody is called, and it is accepted if and only if no write failed |
| WriteFailures.AwaitingIsNotCalled | agent_cockpit/b0_wiring.py:857-870 | However many of its writes fail, the retry of a batch whose events all await marks never calls the wrapped adapter |
| WriteFailures.MayCallExactly | agent_cockpit/b0_wiring.py:857-882 | A delivery can reach the wrapped adapter if and only if some event of its batch awaits no mark |
| WriteFailures.NextRetryExactly | agent_cockpit/b0_wiring.py:857-870 | After a recovery the next delivery of the same batch can call the wrapped adapter again if and only if some event was proven by it, so a recovery that fails half-way is followed by a second prompt |
| WriteFailures.HalfRecoveryCallsAgain | agent_cockpit/b0_wiring.py:857-870 | A concrete case of that: two events, four marks, the third write fails |
| WriteFailures.LoneEventNeverCalled | agent_cockpit/b0_wiring.py:857-870 | A single event that awaits its mark is retried any number of times without a call |
| WriteFailures.ClearingExactly | agent_cockpit/b0_wiring.py:883-892 | After a rejection exactly the targets whose clearing succeeds lose their attempt; every target is tried |
| WriteFailures.MarkingExactly | agent_cockpit/b0_wiring.py:893-911 | After an acceptance exactly the marks whose write succeeds are added, all are tried, and the batch is proven if and only if all are written; otherwise each of its events awaits every target of the batch |
| WriteFailures.CalledExactly | agent_cockpit/b0_wiring.py:871-911 | A delivery whose attempts are all written: the batch is handed over once, and the ledger, the proof set and the awaited marks afterwards, for any answer and any failing writes |
| ProofMarks.ProvenIsMarked | agent_cockpit/b0_wiring.py:857-911 | On every run with crashes and rebinds and without a pause of its receipt, an id in the proof set bears the delivered mark of its receipt, whichever writes failed, and an id that awaits marks awaits its own |
| ProofMarks.AwaitingRetryIsSilent | agent_cockpit/b0_wiring.py:857-870 | In every state of such a run the delivery of a batch whose events all await marks adds nothing to the log of accepted keys, whatever its writes do |
| AdapterOutcomes.UnaddressedBlocks | agent_cockpit/b0_wiring.py:832-855 | A mail event that names no mailbox keeps its whole batch undelivered, with no write |
| WiringRuns.DeliverIsAdvances | agent_cockpit/b0_wiring.py:850-911 | That chain is a row of steps of the crash model, so a crash may fall between any two writes; it adds the keys of the whole batch to the log or none |
| OrderlyRuns.AtMostOnceAcrossCrashes | agent_cockpit/b0_wiring.py:516-625 | With crashes anywhere, rebinds to higher versions while no delivery is under way, any write failing except that of a delivered mark, and pauses only of unmarked receipts, the wrapped adapter accepts each receipt key at most once over all restarts and binding versions, and an accepted key bears a marker |
| WiringExamples.SwitchDuringCallPromptsTwice | agent_cockpit/deferred_delivery.py:150-167 | A concrete run: a call that is accepted after a switch is handed to the new binding and prompted again, in one life and with every write succeeding |
| WiringRuns.AtMostOnce | agent_cockpit/b0_wiring.py:850-911 | The same on every run, whatever is rebound, in which no call repeats a remembered event and no pause hits a marked receipt |
| WiringRuns.AcceptedStaysOut | agent_cockpit/b0_wiring.py:1136-1152 | An accepted message or control event is let through to the core by no later check, in any life |
| WiringRuns.MailCheckExactly | agent_cockpit/b0_wiring.py:1120-1152 | A message is let through if and only if it has a positive id, names a mailbox, was not looked at in this life, is neither claimed nor processed, and its receipt bears no marker |
| WiringRuns.ControlCheckExactly | agent_cockpit/b0_wiring.py:1296-1316 | A control event is let through if and only if its receipt bears no marker |
| WiringRuns.CallRepeatsExactly | agent_cockpit/b0_wiring.py:857-870 | A call repeats a key if and only if its batch holds an event that awaits its mark or is proven: the recovery path needs the whole batch to await marks |
| WiringExamples.MixedBatchPromptsTwice | agent_cockpit/b0_wiring.py:857-870 | A concrete run: one failed mark and one new event before the retry prompt the first event twice |
| WiringRuns.PauseMattersExactly | agent_cockpit/coordination.py:1155-1210 | `request_pause` replaces the whole checkpoint: it makes a restart let the message through where it would have refused it, if and only if the receipt bears a marker |
| WiringRuns.ProofIsAccepted | agent_cockpit/b0_wiring.py:826-830 | Whatever happens, an id in the proof set (or awaiting marks) was accepted |
| Wiring.NextBase | agent_cockpit/b0_wiring.py:1120-1181 | Every event at hand has the one receipt key its id was let through with, and the core's call and the adapter's delivery are one, under every step, hand-over included |
| FanOut.MarkedNeedsEvidence | agent_cockpit/b0_wiring.py:1263-1356 | On every run, with crashes and rebinds anywhere, a control event marked as fanned out was accepted or bore a marker when looked at, and was sent at least once if there is a transport |
| FanOut.NotedSentNoMore | agent_cockpit/b0_wiring.py:1321-1349 | Once the transport of an event is noted on its receipt, no later step of any life sends it over the Hub again |
| FanOut.CrashLeavesReplayable | agent_cockpit/b0_wiring.py:1298-1349 | A crash marks nothing: an unmarked event with a prompt marker is finished from it without another prompt; one without passes the check again, and its ingest takes it up if and only if its own binding version is the one announced after the restart |
| FanOut.ReingestExactly | agent_cockpit/deferred_delivery.py:262-285 | At any time an ingest leaves its event pending if and only if it was pending before, or its version is the active one and it is not delivered yet |
| Untaken.TakenUpExactly | agent_cockpit/b0_wiring.py:1303-1316 | On every run: an event without a proof gets pending by its ingest if and only if it is pending already or its version is the active one |
| FanOutLoop.PassedLeavesAll | agent_cockpit/b0_wiring.py:1275-1320 | A fan-out over a page of events of other versions, without marker or proof, changes nothing at all |
| FanOutStore.LostForever | agent_cockpit/b0_wiring.py:1263-1356 | Beside any run of the binding store: an event that nobody took up before its scope's active row got a higher version is never prompted for, proven or marked, on any continuation where events are entered while the core is bound to the active row |
| FanOutStore.OldRowsNeverFanned | agent_cockpit/b0_wiring.py:1303-1320 | So no drain or retirement event is ever fanned out on such a run |
| FanOutStarves.StarvedForever | agent_cockpit/b0_wiring.py:1275-1277 | A page full of lost events stays the page for ever: no event is fanned out any more but those under work already |
| FanOutStarves.StarvationHappens | agent_cockpit/b0_wiring.py:1275-1277 | Two binds with no fan-out between them are such a run, for pages of one event |
| FanOut.OnlyRejectionRevokes | agent_cockpit/b0_wiring.py:883-892 | Only the clearing of a rejected batch (or a pause) takes a marker away |
| MarkerEvidence.SettledStays | agent_cockpit/b0_wiring.py:882-892 | A delivered mark, or an attempt whose event is neither pending nor in a delivery nor on its way to an ingest (let through, or handed over by a switch), survives every step, rebinds included, but a pause of that receipt |
| MarkerEvidence.AnnouncedHand | agent_cockpit/b0_wiring.py:1018-1021 | A rebind leaves at hand exactly what was at hand: cleared events are with the thread that hands them over |
| MarkerEvidence.StaleIngestDrops | agent_cockpit/deferred_delivery.py:270-275 | The ingest of an event of a superseded version drops it and changes nothing else |
| MarkerLoss.LooseIsLost | agent_cockpit/b0_wiring.py:882-892 | From any state with an attempt whose event is at hand and was never accepted, ordinary steps (a rebind to the event's version among them, if it waits under that) reject it and clear the marker, with nobody prompted |
| MarkerLoss.ReadIsSafeExactly | agent_cockpit/b0_wiring.py:1298-1302 | A marker that is read is evidence for ever, whatever follows, rebinds included, if and only if it is settled at that moment or the event was accepted; the same among continuations that never step back to a lower version, where events of superseded versions do not count as at hand |
| FanOutEvidence.RelyingIsSafeExactly | agent_cockpit/b0_wiring.py:1298-1349 | The fan-out may rely on the marker it reads, on all continuations with any rebinds but no pause of that receipt, if and only if it is settled as it is read or the event was accepted; likewise when versions never step back |
| FanOutEvidence.EvidenceLasts | agent_cockpit/b0_wiring.py:1298-1349 | When every reading of its marker was settled, an event marked as fanned out is accepted or bears its marker in every later state, whatever is rebound |
| FanOutEvidence.UnsettledReadCanLose | agent_cockpit/b0_wiring.py:1298-1302 | After any other reading a run without pauses marks the event, with no acceptance and no marker left |
| FanOutExample.FanOutOutrunsRejection | agent_cockpit/b0_wiring.py:1298-1302 | A concrete run of that: the fan-out reads the attempt of a call under way, marks the event, the call is rejected, and nobody is ever prompted |
| FanOutLoop.Fanout.PromptEvent | agent_cockpit/b0_wiring.py:1296-1318 | The marker is read; without one the event is ingested with the delivery that starts, and the proof set decides |
| FanOutLoop.Fanout.SendEvent | agent_cockpit/b0_wiring.py:1321-1355 | Transport unless noted, then the durable note, then the mark; each failure stops where the code stops |
| FanOutLoop.Fanout.FanoutControlEvents | agent_cockpit/b0_wiring.py:1275-1356 | The loop over the unsent events, and the number it marks |
| FanOutLoopSteps.FanAllIsSteps | agent_cockpit/b0_wiring.py:1275-1356 | Run alone, the whole loop is a run of the steps of the crash model |
| FanOutLoopSteps.LoopNeedsEvidence | agent_cockpit/b0_wiring.py:1275-1356 | So the loop marks only events with prompt evidence, sent if there is a transport |
| NoLoss.NothingVanishes | agent_cockpit/b0_wiring.py:1153-1172 | For any interleaving of polls, switches with their hand-over, deliveries and answers: an event let through is being offered, pending, delivered, or was offered under a version that was not active |
| NoLoss.LateOfferVanishes | agent_cockpit/b0_wiring.py:1167-1172 | A concrete run of the last case: a poll that holds the row of an earlier version loses its message to a switch |
| NoLoss.OverlappingSyncsVanish | agent_cockpit/b0_wiring.py:1016-1021 | Another: two syncs overlap, and the pending event that the first hands over goes stale at the second |
| OncePerMessage.OncePerMessageInALife | agent_cockpit/b0_wiring.py:1131-1136 | Within one life no Hub message is prompted twice, even when two mailboxes show it, if no write of a delivered mark fails, rebinds go up and find no delivery under way, and pauses find no marker |
| OncePerMessage.OnceOverRestartsExactly | agent_cockpit/b0_wiring.py:1131-1142 | Over all restarts a message seen in two mailboxes is prompted once on every such run if and only if the two are one |
| OncePerMessage.TwoMailboxesPromptTwice | agent_cockpit/b0_wiring.py:1137-1142 | A concrete run: prompted in one mailbox, seen first in the other after a restart |
| BindingStore.LeaderBindings.QueryActive | agent_cockpit/leader_binding.py:577-581 | The one active row of a scope, if any |
| BindingStore.LeaderBindings.FetchPrevious | agent_cockpit/leader_binding.py:630-634 | Some row in state `previous`, if any |
| BindingStore.LeaderBindings.BindLeader | agent_cockpit/leader_binding.py:531-725 | The whole transaction: argument checks, version compare-and-swap, no-op, route change, gate, take-over |
| BindingStore.LeaderBindings.ChangeRoute | agent_cockpit/leader_binding.py:597-628 | A changed route moves version and epoch by one and writes `binding_updated`, without a migration |
| BindingStore.LeaderBindings.SwitchName | agent_cockpit/leader_binding.py:642-718 | The old active row steps down, the new one is inserted or revived, with one migration and one event |
| BindingStore.LeaderBindings.MarkPreviousState | agent_cockpit/leader_binding.py:752-878 | Compare-and-swap on version, migration, drain state and revision, then the drain state machine |
| BindingStore.LeaderBindings.UpdateDrain | agent_cockpit/leader_binding.py:834-872 | The update of the row and its event in one transaction |
| BindingStore.LeaderBindings.RetireBinding | agent_cockpit/leader_binding.py:881-965 | Only a drained row with four zero counters, under the same compare-and-swap |
| BindingStore.LeaderBindings.UpdateRetired | agent_cockpit/leader_binding.py:934-959 | The row and its event in one transaction |
| BindingStore.LeaderBindings.UndeliveredControlEvents | agent_cockpit/leader_binding.py:1007-1021 | The issuer's unsent events in order, up to the clamped limit |
| BindingStore.LeaderBindings.MarkEventFannedOut | agent_cockpit/leader_binding.py:1024-1037 | Exactly that event of that issuer is marked, and whether one was |
| BindingRuns.NextKeeps | agent_cockpit/leader_binding.py:531-965 | The store's invariant survives every transaction |
| BindingTheorems.OutboxRebuildsRows | agent_cockpit/leader_binding.py:732-749 | Over any run, reading the events in order rebuilds state, drain state and version of every row |
| BindingTheorems.OneEventPerChange | agent_cockpit/leader_binding.py:590-628 | A call that changes a row writes one event, any other none |
| BindingTheorems.RefusalChangesNothing | agent_cockpit/leader_binding.py:590-596 | A refused or repeated call leaves the whole store as it was |
| BindingOutcomes.BindStaleExactly | agent_cockpit/leader_binding.py:582-589 | In every reachable state a valid bind is refused as stale, the store unchanged, if and only if the expected version is not that of the scope's one active row (0 without one) |
| BindingOutcomes.OneBindPerVersion | agent_cockpit/leader_binding.py:582-589 | Of two binds of a scope that carry the same read version at most one changes anything, whatever runs between them |
| BindingOutcomes.BindInvalidExactly | agent_cockpit/leader_binding.py:405-428 | Which arguments are refused as invalid, before anything else |
| BindingOutcomes.TakeOverExactly | agent_cockpit/leader_binding.py:629-720 | At the right version another name is refused if and only if the previous row that the gate read is not drained; else it is active in the next version with clean counters, the name before it has stepped down and owes a drain, no other row changes, and one migration and one unsent event tell of it |
| BindingOutcomes.RerouteExactly | agent_cockpit/leader_binding.py:590-628 | At the right version the active name changes its route, version and epoch with one event, or nothing at all if the route is the same |
| BindingOutcomes.DrainExactly | agent_cockpit/leader_binding.py:803-872 | A drain report is stale if and only if one of version, migration, drain state and revision differs, illegal if and only if the state may not follow, and else stores the state, the reason and each counter that was given, with one event |
| BindingOutcomes.RetireExactly | agent_cockpit/leader_binding.py:917-965 | A previous row is retired if and only if it is drained, all four counters are zero and the four values agree |
| BindingOutcomes.ReportedMailHolds | agent_cockpit/leader_binding.py:840-846 | A mailbox reported with anything left in it is not retired before a further report on it, over every run, rebinds and revivals included |
| BindingOutcomes.DrainedStays | agent_cockpit/leader_binding.py:828-833 | A drained mailbox stays drained on every run until its name is bound again, under a later version |
| BindingOutcomes.PageExactly | agent_cockpit/leader_binding.py:1007-1021 | The page of a reader holds the first unsent events of its issuer in order, at least 1 and at most 1000 if there are as many |
| BindingOutcomes.ClearExactly | agent_cockpit/b0_wiring.py:1243-1253 | Only a retired row loses its selector, and nothing else changes |
| BindingTheorems.MarkTakesOne | agent_cockpit/leader_binding.py:1024-1037 | Marking takes exactly that event out of exactly that issuer's list |
| BindingTheorems.OneActiveForever | agent_cockpit/leader_binding.py:577-718 | After the first bind a scope has exactly one active row for ever; it has the highest version, versions are distinct and equal the route epoch, the active version is the number of changed and updated events, and the migrations form a chain ending at it |
| BindingTheorems.RetiredOnlyWhenDrained | agent_cockpit/leader_binding.py:917-950 | A row is retired only drained and with all counters zero |
| BindingTheorems.StepMovesForward | agent_cockpit/leader_binding.py:664-680 | Every change of a row moves (version, state, drain revision) strictly forward |
| BindingTheorems.StaleTokenIsDead | agent_cockpit/leader_binding.py:810-862 | A token read from a previous row never matches again once that row has changed, including a to b to a to b |
| BindingTheorems.GateExact | agent_cockpit/leader_binding.py:630-641 | The gate meets its promise (no new name while a previous mailbox is undrained) if and only if the scope does not hold a drained and an undrained previous row at once |
| BindingTheorems.GateCanBePassedTwice | agent_cockpit/leader_binding.py:630-641 | A concrete run that leaves two undrained previous rows, because the gate reads a single row |
| BindingTheorems.TidyRunsKeepOnePrevious | agent_cockpit/leader_binding.py:630-680 | When each drained row is retired before the next change of name, a scope has at most one previous row |
| ReceiptStore.ReceiptTable.ClaimMessage | agent_cockpit/coordination.py:945-1076 | The whole claim transaction: final states and running leases refuse, then the verdict of gate and task checks |
| ReceiptStore.ReceiptTable.UpsertStale | agent_cockpit/coordination.py:892-905 | The upsert to `stale` that leaves processed rows alone |
| ReceiptStore.ReceiptTable.CompleteMessage | agent_cockpit/coordination.py:1233-1295 | Missing, stale, processed, unclaimed, expired and foreign-token calls are told apart; otherwise the row is processed and its lease removed |
| ReceiptStore.ReceiptTable.FailMessage | agent_cockpit/coordination.py:1357-1406 | The same checks, ending in `failed` |
| ReceiptStore.ReceiptTable.CheckpointMessage | agent_cockpit/coordination.py:1099-1152 | A checkpoint needs the running lease, or a processed row |
| ReceiptStore.ReceiptTable.DismissMessage | agent_cockpit/coordination.py:1213-1230 | `stale` unless processed, always with an acknowledgement due |
| ReceiptStore.ReceiptTable.MaintainLiveClaims | agent_cockpit/coordination.py:1428-1471 | Renew the leases of working panes and count them, then take back what has expired |
| ReceiptStore.ReceiptTable.RenewLiveClaims | agent_cockpit/coordination.py:1435-1453 | The first of these two phases, row by row |
| ReceiptStore.ReceiptTable.ObserveMessages | agent_cockpit/coordination.py:853-905 | The nested loops over a batch and its `supersedes` lists |
| ReceiptRuns.NextKeeps | agent_cockpit/coordination.py:945-1472 | Leases agree with the history of grants under every operation |
| ReceiptRuns.OneGrantFinishes | agent_cockpit/coordination.py:1251-1272 | Over any run at most one grant moves a receipt to processed, it is the most recent one, and no grant follows |
| ReceiptRuns.OnlyTheLastGrantActs | agent_cockpit/coordination.py:1111-1131 | Completing, failing and checkpointing a claimed message takes the token of the most recent grant and an unexpired lease, and with them it succeeds |
| ReceiptRuns.GrantsExclude | agent_cockpit/coordination.py:945-958 | Tokens never repeat, and a message is granted again only when no lease on it runs and it is not final |
| ReceiptRuns.MaintenanceExact | agent_cockpit/coordination.py:1443-1464 | After maintenance every claimed receipt ends later under its old token, those of working panes 300 seconds after it; only expired leases without a working pane are taken back, to pending with their checkpoint |
| ReceiptRuns.TerminalForever | agent_cockpit/coordination.py:950-953 | Processed and stale are final under every operation |
| ReceiptRuns.ObserveExact | agent_cockpit/coordination.py:860-905 | On any table: observing a batch makes stale, with a reason that names the superseding message, exactly the ids that some message names in the metadata that counts for it (on file, else its own) while it is on file as a trusted user's, its sender leads its run, or its sender is the one recorded for the id (last in the batch, else on file); processed rows and all other rows stay |
| ReceiptRuns.StrangersChangeNothing | agent_cockpit/coordination.py:886-891 | A batch without such a message changes nothing |
| ReceiptRuns.ClaimedTrustIsIgnored | agent_cockpit/coordination.py:846-850 | Trust that a message claims in its own metadata counts for nothing |
| ReceiptRuns.SupersededNeverDelivered | agent_cockpit/coordination.py:856-905 | No later claim delivers a superseded message |
| ReceiptOutcomes.ClaimExactly | agent_cockpit/coordination.py:945-1076 | In every reachable state a claim delivers if and only if the row is neither final nor under a running lease and the verdict is to deliver; the row afterwards for each verdict, a checkpoint found on it kept |
| ReceiptOutcomes.CompleteExactly | agent_cockpit/coordination.py:1233-1295 | Each outcome of a completion if and only if its condition holds, and the row it leaves |
| ReceiptOutcomes.FailExactly | agent_cockpit/coordination.py:1357-1406 | A failure needs the running lease of the last grant, ends it, and leaves the message claimable |
| ReceiptOutcomes.CheckpointExactly | agent_cockpit/coordination.py:1099-1152 | A checkpoint needs that lease or a processed row, and changes nothing else |
| ReceiptOutcomes.DismissExactly | agent_cockpit/coordination.py:1213-1230 | A dismissal makes the message stale unless it is processed, and an acknowledgement is due |
| ReceiptOutcomes.DismissedNeverDelivered | agent_cockpit/coordination.py:1213-1230 | No later claim delivers a dismissed message, on any run |
| ReceiptOutcomes.CheckpointLasts | agent_cockpit/coordination.py:1040-1076 | On every run a checkpoint lasts through claims, expired leases, failures and supersessions until a checkpoint, a pause or a marker overwrites it |
| ReceiptOutcomes.AnnotateExactly | agent_cockpit/coordination.py:1155-1210 | A pause request writes the checkpoint of a row that exists and nothing else of it; so do the markers |
| ReceiptOutcomes.AckExactly | agent_cockpit/coordination.py:1409-1416 | An acknowledgement clears what is due and nothing else |
| ReceiptOrder.OrderFreeExact | agent_cockpit/coordination.py:860-884 | What a batch makes stale does not depend on message order if and only if senders agree: two messages under one id come from senders that speak alike in the batch |
| ReceiptOrder.DistinctIdsAgree | agent_cockpit/coordination.py:860 | Distinct ids are enough for that |
| ReceiptOrder.RepeatedIdsBreakOrder | agent_cockpit/coordination.py:860 | A concrete batch whose order matters |
| Metadata.ParseAdded | agent_cockpit/coordination.py:788-808 | Parsing a printed header gives the metadata and the body's clean text without trailing whitespace, unless the encoding holds the closing marker; then the header is not recognised and stays in the text |
| Metadata.ParseExactly | agent_cockpit/coordination.py:794-808 | Any text between the markers, free of the closing one: not valid JSON leaves the text as it is, and else the header is cut off with one line end and gives metadata if and only if it is an object |
| Metadata.HeaderlessExactly | agent_cockpit/coordination.py:795-800 | A text that does not open with the marker or never closes it has no header |
| Metadata.AddReplaces | agent_cockpit/coordination.py:788-791 | Adding m1 then m2 equals adding m2 if and only if the encoding of m1 is free of the closing marker |
| Metadata.PlainBodySurvives | agent_cockpit/coordination.py:794-808 | A body without a header comes back |
| Metadata.FirstMarker | agent_cockpit/coordination.py:798 | The first closing marker lies inside the encoding or right after it, as it cannot overlap itself |
| Metadata.AddShape | agent_cockpit/coordination.py:788-791 | The printed text is the header, and the stripped body below it if there is one |
| ArtifactPaths.MemberPathExact | agent_cockpit/artifact_extract.py:337-359 | Exactly the safe names are accepted, each as the path it spells (a directory also with a slash at the end); a name that spells a path over a length limit is told apart from one that spells none |
| ArtifactPaths.BytesExactly | agent_cockpit/artifact_extract.py:348-357 | Lengths are counted in bytes of UTF-8 |
| ArtifactPaths.JoinSplit | agent_cockpit/artifact_extract.py:337-359 | Splitting a name loses nothing |
| ArtifactPaths.SplitJoin | agent_cockpit/artifact_extract.py:337-359 | A path can be read back from its name |
| ArtifactScan.ScanExact | agent_cockpit/artifact_extract.py:362-399 | The scan returns these entries if and only if there are at most 10 000 members, each is described by its entry, their sizes sum up to at most 16 GiB, paths are pairwise distinct and no file lies above another member |
| ArtifactScan.CheckedExact | agent_cockpit/artifact_extract.py:368-385 | A member passes its own checks, as this entry, if and only if its name is a safe path, it is not sparse, and it is a directory of size 0 or a regular file of 0 to 8 GiB; links and devices never do |
| ArtifactScan.CheckedErrorExact | agent_cockpit/artifact_extract.py:368-385 | A refused member is over a limit if and only if its name is too long or the file too large, and else invalid |
| ArtifactScan.ScanErrorExact | agent_cockpit/artifact_extract.py:366-399 | A refused archive is refused at its first member that does not fit, over a limit if and only if the count, that member alone or the total is, and else as invalid |
| ArtifactScan.AcceptanceIgnoresOrder | agent_cockpit/artifact_extract.py:362-399 | Acceptance does not depend on member order |
| ArtifactTrie.Descend | agent_cockpit/artifact_extract.py:390 | `setdefault` of one child, in place |
| ArtifactTrie.StepDown | agent_cockpit/artifact_extract.py:387-390 | One component further down, unless a file is above |
| ArtifactTrie.Walk | agent_cockpit/artifact_extract.py:386-390 | The whole path |
| ArtifactTrie.Place | agent_cockpit/artifact_extract.py:386-393 | Walk and mark, and the trie then covers exactly the members so far |
| ArtifactTrie.Mark | agent_cockpit/artifact_extract.py:391-393 | Refused on a marked node, or for a file above others |
| ArtifactTrie.AdmitMember | agent_cockpit/artifact_extract.py:367-394 | One member: its own checks, the running total, its place in the trie |
| ArtifactTrie.ScanMembers | agent_cockpit/artifact_extract.py:362-399 | The loop over the mutable trie computes the scan's specification, with the same first error |
| ArtifactTree.Extraction.OpenChildDirectory | agent_cockpit/artifact_extract.py:402-438 | Create exclusively or find again by identity |
| ArtifactTree.Extraction.EnterDirectory | agent_cockpit/artifact_extract.py:448-456 | One directory on the way is opened and recorded, unless its path was taken before: then it is refused as unsafe; only that is added to the tree |
| ArtifactTree.Extraction.OpenMemberParent | agent_cockpit/artifact_extract.py:441-460 | All directories above a member are opened and recorded, if and only if none of their paths was taken before; nothing else is added |
| ArtifactTree.Extraction.WriteMemberFile | agent_cockpit/artifact_extract.py:463-540 | The file is created exclusively below its parent, if and only if neither its path nor one above it was taken, with the error of the first that was |
| ArtifactTree.Extraction.WriteDirectory | agent_cockpit/artifact_extract.py:555-567 | The same for a directory member |
| ArtifactTree.Extraction.WriteMembers | agent_cockpit/artifact_extract.py:543-576 | Into any destination, a scanned list is written if and only if no path of a member or of a directory above one is taken there; then exactly these have come to it; nothing that was there ever changes, and the error tells whether a file's path or a directory's was taken |
| ArtifactTree.ExpectedChildren | agent_cockpit/artifact_extract.py:584-588 | The names each directory must hold |
| ArtifactTree.OpenDirectories | agent_cockpit/artifact_extract.py:590-599 | Shortest first, each through its parent |
| ArtifactTree.ListingsMatch | agent_cockpit/artifact_extract.py:601-610 | Each directory lists exactly the expected names |
| ArtifactTree.FilesMatch | agent_cockpit/artifact_extract.py:612-638 | Each file is there with its signature |
| ArtifactTree.VerifyWrittenTree | agent_cockpit/artifact_extract.py:579-641 | The verification accepts if and only if the tree is exactly the recorded image |
| ArtifactTree.Extract | agent_cockpit/artifact_extract.py:543-641 | Scan, write and verify together accept an archive if and only if the scan does and the destination is empty, and the destination then holds exactly the members and the directories above them |
| Search.FoundIsPrefix | agent_cockpit/files.py:791-840 | The results are a prefix of the matches in the recursive listing, all of them when not truncated; truncated if and only if something does not fit |
| Search.MatchExactly | agent_cockpit/files.py:720-724 | With a prefix query an item matches if and only if its folded path is the needle or lies below it; else if and only if the needle stands somewhere in its folded path or name |
| Search.MatchingExactly | agent_cockpit/files.py:720-724 | The matches keep the order of the listing |
| Search.QueryExactly | agent_cockpit/files.py:715-717 | The needle is the folded query without outer white space and slashes; a query that ends in a slash means a path prefix |
| Search.SlashesExactly | agent_cockpit/files.py:716 | Backslashes are read as slashes |
| Search.ListingHolds | agent_cockpit/files.py:797-834 | The listing holds exactly what stands outside skipped directories |
| Search.ListingDistinct | agent_cockpit/files.py:797-834 | No entry is visited twice |
| Search.CountExact | agent_cockpit/files.py:804-827 | The running counters and the two early exits amount to two prefixes: of the visits and of the matches |
| SearchLoop.PushedInReverse | agent_cockpit/files.py:834 | Children pushed in reverse come off the stack in order |
| SearchLoop.Tally | agent_cockpit/files.py:804-827 | One entry against both budgets |
| SearchLoop.ScanDirectory | agent_cockpit/files.py:799-831 | One directory: its visible entries in order, stopping where a budget ends |
| SearchLoop.Walk | agent_cockpit/files.py:791-834 | The loop on the explicit stack terminates with exactly the first results of the recursive listing |
| SearchLoop.SearchFiles | agent_cockpit/files.py:778-840 | Argument checks, then that loop |
| Journal.EventStore.AppendEvent | agent_cockpit/event_store.py:433-470 | The transaction: existing source with the same content, with other content, taken event id, or a new row under the next cursor |
| Journal.EventStore.ListEvents | agent_cockpit/event_store.py:477-496 | One row more than the limit is fetched to decide on the next cursor |
| Journal.AppendIsIdempotent | agent_cockpit/event_store.py:440-448 | A repeated append, however much later, adds no row and returns the first record |
| Journal.ConflictExact | agent_cockpit/event_store.py:440-448 | An append is refused if and only if another event holds its source or its id |
| Journal.AppendExactly | agent_cockpit/event_store.py:440-470 | An append that finds neither its source nor its id adds one row at the end, under the next cursor |
| Journal.RunValid | agent_cockpit/event_store.py:26-48 | Cursors rise; sources and event ids are unique |
| Journal.SelectedExactly | agent_cockpit/event_store.py:486-494 | The selected rows are exactly those past the cursor of the project, of the workspace if one is asked for, and of the asked types if any are, in the order of the table |
| Journal.ListExactly | agent_cockpit/event_store.py:477-496 | Which arguments are refused; else the page holds the first selected rows and names its last cursor if and only if it leaves any out |
| Journal.WalkExact | agent_cockpit/event_store.py:477-496 | While rows are appended between pages, what has been read is a prefix of all that is selected: nothing skipped or repeated, and the end is reported if and only if everything is read |
| Journal.WalkDuringAppends | agent_cockpit/event_store.py:477-496 | The same for pages read at any moments of a growing journal |
| Journal.WalkEnds | agent_cockpit/event_store.py:494-496 | On a fixed table every page but the last is full and the walk ends with everything |
| Framing.HerdrSocket.ReadLine | agent_cockpit/herdr_state.py:217-274 | One call: buffered line, chunks, slice and overall timeouts, errors, close and end of stream |
| Framing.TakeAccounts | agent_cockpit/herdr_state.py:217-274 | Bytes leave only as the line they belong to; a timeout or an error loses none |
| Framing.LinesExact | agent_cockpit/herdr_state.py:217-274 | For any chunking and any interruptions, the lines taken and the rest left over are those of the whole stream |
| Framing.ChunkingIsInvisible | agent_cockpit/herdr_state.py:259-265 | Two deliveries of the same bytes are read as the same lines |
| Framing.NoneMeansEndExactly | agent_cockpit/herdr_state.py:266-267 | An empty line is reported as `None` like the end: a caller who stops there has seen everything if and only if the stream holds no empty line |
| Framing.RecordsExactly | agent_cockpit/herdr_state.py:263-274 | A caller who reads on is told of every line of the stream once and in order: of a record if and only if it decodes to an object, of `None` if and only if it is empty, else of an error; at most one `None` follows |
| Framing.TakeEndsExactly | agent_cockpit/herdr_state.py:217-262 | A call reads only as far as it has to, and its outcome is that of the event it stops at |
| Framing.ClosedForEver | agent_cockpit/herdr_state.py:223-224 | Once closed, every call reports an error and reads nothing |

## Left out

- OrderlyRuns.AtMostOnceAcrossCrashes: for one scope; several scopes share the markers but not an event id. An event handed to a new leader after its call was accepted is prompted again on purpose, so switches during a call are excluded. The version of a control event is that of its outbox row.
- FanOutStore.LostForever: for one scope, and only while control events are entered by a core bound to the active row; in the moment between a rebind and its sync an event of the old version can still be taken up.
- Wiring.NextBase: messages of an identity without project key or mailbox name do not enter the crash model; the code takes them in and then delivers nothing of that scope (`AdapterOutcomes.UnaddressedBlocks`).
- ProofAdapter.Adapter.SetAttempt: every marker write is one atomic step; the code reads the checkpoint JSON before its write transaction, and the transport mark shares the control event's receipt, so two writers at once could lose an update, which is not modelled. Project keys are taken as resolved already; the rest of the checkpoint JSON and the receipt's other columns are left out.
- Coordinator.Coordinator.IngestMessage: the counters of reasons, titles and importance are left out.
- FanOutLoop.Fanout.FanoutControlEvents: one scope; the page of events is an input (`FanOutStore` reads it from the store); the scope filter, payload text and reason counters are left out, and what is left of an exception is a failed outcome.
- Coordinator.Coordinator.SyncBindings: one scope, where the code goes through the rows of all scopes in turn; scopes share only the seen ids and the adapter.
- ReceiptStore.ReceiptTable.ClaimMessage: participant states, intents and the columns that only describe the message are left out; the verdict is an input.
- ReceiptStore.ReceiptTable.MaintainLiveClaims: the join with runs and participants is the input set of live receipts.
- ReceiptRuns.OnlyTheLastGrantActs: checkpoints after a message is processed need no lease in the code, so nothing is promised there.
- Journal.EventStore.AppendEvent: equal digests are taken as equal events; validation of the input, recorded times and the largest SQLite integer are left out.
- Metadata.ParseAdded: assumes the two facts about JSON named in the introduction.
- ArtifactPaths.MemberPathExact: lone surrogates cannot be written in a Dafny character, so their rejection is not modelled.
- ArtifactTree.Extraction.WriteMemberFile: file modes, owners, fsync, descriptors and short reads are left out; each source yields its declared size, and a signature is a fresh number with that size.
- Search.FoundIsPrefix: entries come in the order the directory helper returns; unreadable directories end the search with an error, which is not modelled.
- SearchLoop.SearchFiles: `modifiable`, extension and opening the trusted root are left out.
- Framing.HerdrSocket.ReadLine: decoding is an arbitrary test of a line; a call that is still waiting when the script of the socket ends reports an error, where the code would go on waiting.
- DeliveryCore.ScopeState.FinishDeliver: time stamps of late results and the map of scopes are left out, as scopes share nothing but the lock.
- BindingStore.LeaderBindings.BindLeader: row time stamps, schema upgrades and SQLite itself are left out.
- Hub pulls, selector files, HTTP, tmux panes, launch authorisation, the other stores and the web UI add I/O or easy members only.
