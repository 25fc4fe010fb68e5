# Event delivery in the Tropis backend, modelled and proved

A Dafny model of how a domain event gets from a business write to its consumers, with proofs of what the
repository's comments promise about it, and of the pure codecs and small state machines beside it.

The centre is one timed, concurrent protocol. `OutboxProtocol` is the outbox of one aggregate: its rows, its head in
the due index, its lease, any number of relay sessions that each stop at every `await`, the operators and the sweep.
`ConsumerProtocol` is one event at one subscription: the messages that carry it, deliveries, handler attempts, the
dedup marker. A run is any sequence of clock ticks and enabled steps. Properties are inductive invariants over all
runs, and the timing conditions are proved to be exact: `OutboxRaces`, `ConsumerDelivery` and `ConsumerOnce` show that each
property holds in every run **if and only if** its condition holds, with a concrete run that breaks it otherwise.
`EndToEnd` joins every outbox and every inbox under one clock.

The code that changes state is modelled as code: `OutboxService`, `AggregateRelay`, `DedupStore`, `Consumer`,
`RunningConsumer`, `CacheClient`, `CircuitBreaker`, `MembershipGraph`, `ReflectionIndex` and `Walk` are classes. Where
a state machine runs the same operations in every order, the methods are proved against the functions the machine is
made of, and one cache load is proved to be its steps. `AggregateRelay` goes further: each of its own actions is one
step of `OutboxProtocol` and each `await` lets the rest of the system take any legal steps, so order, exclusion, the
attempt budget, the heads of open rows and the due index hold of that code as far as its timing allows
(`StaysInProtocol`). Nothing in the code makes one settle wait for another, so there only the time of a settle keeps
settles apart.

| file | models |
|---|---|
| `OutboxRows`, `OutboxProtocol`, `Doubling` | statuses, backoff, head row; the state machine of one aggregate |
| `OutboxInvariants`, `OutboxLease`, `OutboxBudget`, `OutboxWakeUp` | what runs keep: order, exclusion, attempts, the due index |
| `OutboxEffects`, `ConsumerEffects` | what each step of the two machines writes, said of the fields themselves |
| `OutboxRaces` | the exact condition of each of those, with counterexample runs |
| `OutboxService`, `OutboxRelay` | the operations and loops as code |
| `ConsumerProtocol`, `ConsumerDelivery`, `ConsumerOnce`, `EventConsumer`, `RunningConsumer` | the consumer side |
| `EndToEnd` | written event to handled event |
| `Reflection`, `Keyspace`, `Pattern`, `PercentEncoding`, `PageToken`, `Decimal`, `Envelope` | closures and codecs |
| `CacheClient`, `CircuitBreaker`, `MembershipGraph` | single-flight, breaker under overlap, projection |

## Hypotheses

- One clock serves the relays, the lease store, the database and the consumers. A lease or a dedup marker is live
  while `now < expiresAt`.
- A database update of one document is one step. `write` runs in the business transaction and is one step.
- Rows of an aggregate are ordered by insertion, which is what sorting by `createdAt` and `_id` stands for.
- The publish timer fires after exactly 30 s at the latest; a timed-out publish may still reach the broker at any
  later time, any number of times (`Deliver`).
- Lease tokens and attempt owners are unique, so they are numbered.
- A heartbeat is a renew in flight: it may land at any time, also after its publish has settled or its session is gone,
  and renews only a lease that is still its session's.
- `Timing` is what the environment grants an aggregate beyond the code: how long a relay may stall between its renew
  and its publish (`begin`) and between the outcome and its mark (`mark`); whether settles of one aggregate wait for
  each other (`serialSettles`), and how long after its session's last acquire or renew a settle's first read and its
  write may come (`settle`, if bounded at all; in `AggregateRelay` a call of a settle that comes later fails); whether
  operators act between a settle's read and its write
  (`operatorsWait`); whether rows die between an operator's listing of the aggregates and its update (`listsCover`);
  whether an operator that changed rows gets its requeue through (`requeues`).
- `Handling` is the same for a consumer: how soon after its delivery a message that is neither acked nor nacked may be
  handed out again (`redelivery`; the ack timeout of messaging.port.ts:33-39 says when it comes back, not that it does
  not come earlier, and kafka-messaging.adapter.ts:121-123 hands the messages of a dead process straight on); how late
  after delivery a claim (`claim`) or a duplicate's ack (`ack`) may come; how long after its delivery a failed attempt
  may still nack so that its message is handed out again although a later delivery has it by then (`lateNack`; none where
  the broker ignores such a nack, as for a delivery of another process); whether releases reach the store
  (`releases`); whether a claim whose call failed was not made (`answers`); how long after its claim work may succeed
  (`work`) and how long after that its marker is extended (`settle`); whether extends reach the store (`reaches`) and
  attempts survive from success to extend (`survives`). Work that fails may take any time.
- No theorem assumes one of these unless it says so, and the exactness lemmas say which value of each is needed.
- An operator action lists the aggregates, changes their rows and requeues their heads in three steps. The sweep's head
  repairs in the protocol are wider than the code's: a missing head may be inserted and any head made due at any time.
- A call may take effect in a store and fail all the same: acquire, renew, mark, release, claim and an operator's
  update or requeue.
- A consumer's subscription exists before the messages it is owed are published.
- `MemberExactly` and the invitation theorems take the events of a user one at a time, as the keyed subscription does;
  `MembershipRightExactly` says what happens otherwise.

## Where the code and its comments part

- The head's version check alone does not make retirement safe (outbox.service.ts:98-99,139-143). A relay that lost
  its lease still settles in its `finally`, versions restart when a head is re-created, and two overlapping settles
  can delete the head of an open row: `OutboxRaces.RetirementExactly`.
- A settle's write of `dueAt` is not guarded against a redrive or skip since its read, and can put the requeued
  head back to sleep: `OutboxRaces.WakeUpExactly`, third case.
- `repairHeads` compares a PENDING head's due time, read from the clock afresh, with a `now` fixed before the
  loop (outbox.service.ts:168,204,397). Once the clock has moved on it leaves such a head as it is:
  `OutboxService.RepairExactly`. Missing heads and FAILED heads whose backoff has elapsed are always repaired.
- An operator lists the aggregates before it changes rows (outbox.service.ts:313-322,332-342). A row that dies in
  between is redriven or skipped and its head never requeued: `OutboxRaces.WakeUpExactly`, fourth case.
- A redrive or skip whose requeue fails, or whose process dies before it, has changed the rows and left the head
  blocked (outbox.service.ts:315-322,335-342). Redriving again finds no DEAD row and requeues nothing, a write sets
  `dueAt` only on insert, and the sweep leaves the head as it is once its clock has moved on:
  `OutboxRaces.WakeUpExactly`, fifth case, and `OutboxService.FailedRequeueOutlivesSweep`.
- A dedup release that does not reach the store makes the redelivery a duplicate and the event is lost
  (event-consumer.ts:218-226), and so does a claim that was made but whose call failed, because the claims are taken
  outside the `try` that releases them (event-consumer.ts:207-215): `ConsumerDelivery.NoLossExactly`.
- The claim TTL is kept below the ack timeout (event-consumer.ts:23-36), but what has to fit between a delivery and the
  next is the delay to the claim and the claim together. A process that dies inside its claim loses the event if its
  message is handed on at once: `ConsumerDelivery.LateClaimLoses`.
- An attempt that outlived its claim never touches the next one's claim (event-consumer.ts:105-107), but its nack may
  take the next one's message: handed out again inside that claim it is acked as a duplicate, and when the claim's
  holder fails nothing is left to redeliver. The Pulsar adapter nacks whatever message failed, up to 29 s after the
  failure (pulsar-messaging.adapter.ts:136-150,240-244); the hold is kept below the ack timeout, but what has to fit
  into it is the time from the delivery, so a failure 31 s after it is late enough: `ConsumerDelivery.LateNackLoses`.
- Offsets of 10^15 and more are encoded into page tokens that do not decode: `PageToken.TokenRoundTripsExactly`.
- MEMBER_OF edges never depend on the order of events; INVITED edges do, exactly when some user is both invited and
  removed: `MembershipGraph.InvitationsOrderFreeExactly`.
- A breaker with threshold 0 starts CLOSED without being below its threshold: `CircuitBreaker.ClosedBelowThreshold`.
- An attribute the envelope leaves unset can be supplied by a caller's own property of the same reserved name:
  `Envelope.AttributesSurviveExactly`.
- A key id given as a number and one given as the same digits in text are one key: `Keyspace.KeysEqualExactly`.

## Model

| member | source | states |
|---|---|---|
| `OutboxRows.HeadOf` | apps/backend/src/infrastructure/outbox/outbox.service.ts:229-234 | The head row is open and no earlier row is; there is none exactly when no row is open |
| `OutboxRows.HeadRowExactly` | apps/backend/src/infrastructure/outbox/outbox.service.ts:229-234 | A row is the head row if and only if it is PENDING, FAILED or DEAD and every earlier one is DISPATCHED or SKIPPED; there is none if and only if all are |
| `OutboxInvariants.OneRowInTrouble` | apps/backend/src/infrastructure/outbox/outbox.schema.ts:6-27 | In every run an open row that is not the oldest one is a fresh PENDING row, so at most one row is FAILED or DEAD; FAILED means 1 to 4 attempts |
| `OutboxInvariants.TerminalForever` | apps/backend/src/infrastructure/outbox/outbox.service.ts:236-283 | However a run goes on, a DISPATCHED or SKIPPED row stays exactly as it is and no row disappears |
| `OutboxInvariants.EarlierRowsAreDone` | apps/backend/src/infrastructure/outbox/outbox.relay.ts:257-272 | When a publish of a row starts, every earlier row is DISPATCHED or SKIPPED and stays so in every continuation, with any number of relays; nothing behind a DEAD row leaves |
| `OutboxInvariants.BrokerGotWhatWasWritten` | apps/backend/src/infrastructure/outbox/outbox.relay.ts:304-357 | A DISPATCHED row had a publish resolve, a resolved publish reached the broker, and the broker only ever received rows that were written and whose publish was started |
| `OutboxInvariants.StepEvolves` | apps/backend/src/infrastructure/outbox/outbox.schema.ts:65-67 | Every step only appends rows, keeps each row's event and leaves terminal rows alone |
| `OutboxInvariants.OthersStay` | apps/backend/src/infrastructure/outbox/outbox.relay.ts:238-287 | A step moves its own session and no other |
| `OutboxInvariants.AlwaysSound` | apps/backend/src/infrastructure/outbox/outbox.service.ts:259-283 | Every reachable state meets the row, session and history invariants |
| `OutboxEffects.EveryChangeExplained` | apps/backend/src/infrastructure/outbox/outbox.schema.ts:6-27 | Over all steps: a row becomes DISPATCHED only by the written mark of a resolved publish of it, SKIPPED or PENDING again only by an operator's skip or redrive that means it while DEAD, FAILED or DEAD only by a recorded failure of it, with the attempts each leaves |
| `OutboxEffects.MarkDispatches` | apps/backend/src/infrastructure/outbox/outbox.service.ts:236-251 | The written mark of a publish makes its row DISPATCHED if it is still PENDING or FAILED, and changes no other row and not the head |
| `OutboxEffects.MarkFails` | apps/backend/src/infrastructure/outbox/outbox.service.ts:259-283 | A recorded failure counts on from the copy read, is due again after 5, 10, 20 or 40 s, and is the last at five |
| `OutboxEffects.SkipExactly` | apps/backend/src/infrastructure/outbox/outbox.service.ts:331-344 | Exactly the DEAD rows a skip means are SKIPPED, the rest untouched |
| `OutboxEffects.RedriveExactly` | apps/backend/src/infrastructure/outbox/outbox.service.ts:312-324 | Exactly the DEAD rows a redrive means are PENDING with no attempts, the rest untouched |
| `OutboxEffects.SkipUnblocks` | apps/backend/src/infrastructure/outbox/outbox.service.ts:326-331 | After a skip of a DEAD head row the oldest open row is the next one that was open, and there is none exactly if there was none |
| `OutboxEffects.RedriveUnblocks` | apps/backend/src/infrastructure/outbox/outbox.service.ts:307-312 | After a redrive of a DEAD head row that row is still the oldest open one and due at any time |
| `OutboxEffects.RetireExactly` | apps/backend/src/infrastructure/outbox/outbox.service.ts:144-152 | A settle that found no row open deletes the head if and only if its version is the one read first |
| `OutboxEffects.DueExactly` | apps/backend/src/infrastructure/outbox/outbox.service.ts:153-157 | A settle that found a row open keeps the version and makes the head due when that row is |
| `OutboxLease.StartsInOrder` | apps/backend/src/infrastructure/outbox/outbox.relay.ts:257-272 | If no publish starts a lease length after its renew, publish starts follow the order rows were written in, repeats allowed |
| `OutboxLease.OnePublisher` | apps/backend/src/infrastructure/outbox/outbox.constants.ts:17-30 | If every publish starts less than 15 s after its renew, no two relays ever have unsettled publishes of one aggregate, heartbeats or not |
| `OutboxLease.FenceStays` | apps/backend/src/infrastructure/lock/lock.port.ts:4-25 | No step of another session shortens the 45 s a renewed session may count on |
| `OutboxLease.AlwaysOnTime` | apps/backend/src/infrastructure/outbox/outbox.relay.ts:97-106 | In every run a settled publish was settled at most its start delay plus 30 s after its renew, and the lease is still fenced or has run its 45 s |
| `OutboxRaces.OrderExactly` | apps/backend/src/infrastructure/outbox/outbox.relay.ts:257-272 | Write order in every run if and only if no start comes 45 s or more after its renew |
| `OutboxRaces.ExclusionExactly` | apps/backend/src/infrastructure/outbox/outbox.constants.ts:17-30 | One publisher at a time in every run if and only if starts come less than 15 000 ms after the renew |
| `OutboxRaces.BudgetExactly` | apps/backend/src/infrastructure/outbox/outbox.service.ts:259-283 | `attempts` counts the recorded failures in every run if and only if renew, publish and mark fit in one lease |
| `OutboxRaces.BackoffExactly` | apps/backend/src/infrastructure/outbox/outbox.service.ts:259-283 | Every publish start has the backoff of its row's last recorded failure behind it, in every run, if and only if renew, publish and mark fit in one lease |
| `OutboxRaces.CeilingExactly` | apps/backend/src/infrastructure/outbox/outbox.constants.ts:54-58 | No row records more than 5 failures between write or redrive and DEAD, in every run, under exactly the same condition |
| `OutboxRaces.WakeUpExactly` | apps/backend/src/infrastructure/outbox/outbox.service.ts:119-158 | The due index never hides work in any run if and only if marks fit in the lease, settles are kept apart, operators wait for a settle, no row dies between an operator's listing and its update, and requeues get through |
| `OutboxRaces.RetirementExactly` | apps/backend/src/infrastructure/outbox/outbox.service.ts:98-158 | No open row loses its head in any run if and only if settles wait for each other or are over within 45 000 ms of their session's last acquire or renew |
| `OutboxRaces.OverlappingSettlesLoseTheHead` | apps/backend/src/infrastructure/outbox/outbox.service.ts:144-152 | A run in which a settle deletes a head that was re-created with the version it had read |
| `OutboxRaces.RedriveDuringSettleSleeps` | apps/backend/src/infrastructure/outbox/outbox.service.ts:153-157 | A run in which a settle overwrites the requeue of a redrive |
| `OutboxRaces.RedriveAfterListSleeps` | apps/backend/src/infrastructure/outbox/outbox.service.ts:312-324 | A run in which a row dies after an operator's listing and is redriven with its head left blocked |
| `OutboxRaces.FailedRequeueSleeps` | apps/backend/src/infrastructure/outbox/outbox.service.ts:312-324 | A run in which a redrive's requeue fails and a PENDING row stays asleep behind a blocked head |
| `OutboxBudget.AttemptBudget` | apps/backend/src/infrastructure/outbox/outbox.constants.ts:54-58 | Between write or redrive and DEAD a row records at most 5 failures, is DEAD exactly at the fifth, at least 75 000 ms after the first |
| `OutboxBudget.NoStartInBackoff` | apps/backend/src/infrastructure/outbox/outbox.relay.ts:108-112 | No publish of a row starts before 5000*2^(k-1) ms have passed since its k-th recorded failure |
| `OutboxBudget.SweepFindsNothing` | apps/backend/src/infrastructure/outbox/outbox.service.ts:285-296 | Under the same limit the sweep's dead-lettering never finds a row, in any run |
| `OutboxWakeUp.NoLostWakeUp` | apps/backend/src/infrastructure/outbox/outbox.service.ts:82-158 | With no operator between its update and its requeue, an aggregate whose oldest open row is not DEAD has a head due no later than that row, or now |
| `OutboxWakeUp.IndexFindsWhatAScanFinds` | apps/backend/src/infrastructure/outbox/outbox.service.ts:129-137 | Every aggregate a scan of the rows would find due is found by the index |
| `OutboxWakeUp.NoOpenRowLosesItsHead` | apps/backend/src/infrastructure/outbox/outbox.service.ts:98-152 | With settles split into read head, read rows and compare-and-delete and kept apart by waiting or by their time, an aggregate with an open row keeps its head, whatever the marks and operators do |
| `OutboxWakeUp.LeaseKeepsSettlesApart` | apps/backend/src/infrastructure/outbox/outbox.service.ts:139-143 | Settles over within 45 s of their session's last acquire or renew cannot overlap: once another session's settle has read or written, one begun earlier never writes |
| `OutboxService.OutboxService.constructor` | apps/backend/src/infrastructure/outbox/outbox.service.ts:60-70 | Empty collections |
| `OutboxService.OutboxService.Write` | apps/backend/src/infrastructure/outbox/outbox.service.ts:82-117 | Appends one PENDING row; the head is inserted due now or its version raised |
| `OutboxService.OutboxService.SettleHead` | apps/backend/src/infrastructure/outbox/outbox.service.ts:144-158 | With anyone writing between its two reads and its write: with no row open the head is gone exactly if its version is still the one read first, and is otherwise as it was; with one open the version stays and the head comes due now for PENDING, at the row's own time for FAILED, never for DEAD; every other head as it was |
| `OutboxService.SettledExactly` | apps/backend/src/infrastructure/outbox/outbox.service.ts:144-158 | The same of any rows and heads a settle can meet |
| `OutboxService.SettleIsItsStep` | apps/backend/src/infrastructure/outbox/outbox.service.ts:144-158 | The write of the code and the write of the protocol leave the aggregate the same head, so the retirement theorems are about this code |
| `OutboxService.SettleAloneExactly` | apps/backend/src/infrastructure/outbox/outbox.service.ts:139-143 | A settle nobody interrupts leaves a head if and only if a row is open |
| `OutboxService.OutboxService.MarkDispatched` | apps/backend/src/infrastructure/outbox/outbox.service.ts:236-251 | A PENDING or FAILED row becomes DISPATCHED with no next attempt, its event and attempts kept; any other row and every other aggregate is left alone |
| `OutboxService.OutboxService.MarkFailed` | apps/backend/src/infrastructure/outbox/outbox.service.ts:259-283 | Attempts counted from the copy read: FAILED with a delay of 5, 10, 20 or 40 s, DEAD at the fifth; None and no change when the row had left PENDING and FAILED |
| `OutboxService.OutboxService.DeadLetterExhausted` | apps/backend/src/infrastructure/outbox/outbox.service.ts:285-296 | Exactly the FAILED rows at or past the ceiling become DEAD, event and attempts kept, nothing else changes, and how many rows did |
| `OutboxService.OutboxService.Requeue` | apps/backend/src/infrastructure/outbox/outbox.service.ts:213-226 | The head is due now with its version raised, created if missing |
| `OutboxService.OutboxService.Redrive` | apps/backend/src/infrastructure/outbox/outbox.service.ts:312-324 | With anyone writing between its three calls and any of the three failing: exactly the rows DEAD at the update get a fresh budget, and their number; the head is requeued exactly if the aggregate was listed before and the call gets through; an action whose listing fails changes nothing, one whose requeue fails has changed the rows |
| `OutboxService.OutboxService.Skip` | apps/backend/src/infrastructure/outbox/outbox.service.ts:331-344 | As for redrive: exactly the rows that are DEAD at the update and named by the filter are SKIPPED, event and attempts kept, every other row as it was; the number is how many rows changed |
| `OutboxService.OutboxService.RepairOne` | apps/backend/src/infrastructure/outbox/outbox.service.ts:201-208 | With anyone writing between its read, its clock reading and its write: it writes what it found due by `now` into a head that is still there, and nothing else |
| `OutboxService.TurnExactly` | apps/backend/src/infrastructure/outbox/outbox.service.ts:201-208 | A turn finds its row due exactly if no row is open, the oldest is PENDING or FAILED without a time and the clock read no later than `now`, or FAILED with its time come; the head then comes due when that row does |
| `OutboxService.OutboxService.RepairWaiting` | apps/backend/src/infrastructure/outbox/outbox.service.ts:197-209 | Each head waiting at the start gets one such turn and the count is of the turns that found their row due; alone, exactly the waiting heads are re-derived |
| `OutboxService.OutboxService.RepairHeads` | apps/backend/src/infrastructure/outbox/outbox.service.ts:168-210 | With anyone writing in between: every aggregate that had a PENDING or FAILED row has a head after the upsert, no existing head is changed by it, and the count is of inserts and of turns that found their row due; alone, the resulting heads exactly |
| `OutboxService.WithHeads` | apps/backend/src/infrastructure/outbox/outbox.service.ts:178-196 | Existing heads stay; a head is inserted exactly for the aggregates with work and none |
| `OutboxService.RepairExactly` | apps/backend/src/infrastructure/outbox/outbox.service.ts:197-209 | A waiting head is repaired for work due at `now` if and only if its row is FAILED with a time of its own or the clock had not moved on |
| `OutboxService.TurnReachesExactly` | apps/backend/src/infrastructure/outbox/outbox.service.ts:201-208 | Among other writers a turn still leaves a present head due by `now` for due work if and only if the row it read is FAILED with a time of its own or the clock stood still |
| `OutboxService.RepairMissesPendingHead` | apps/backend/src/infrastructure/outbox/outbox.service.ts:396-402 | One millisecond is enough for a blocked PENDING head to stay blocked |
| `OutboxService.RepairOnlyHelps` | apps/backend/src/infrastructure/outbox/outbox.service.ts:201-208 | A repair never touches the version and, if it changes a head, makes it due by `now` |
| `OutboxService.FailedRequeueOutlivesSweep` | apps/backend/src/infrastructure/outbox/outbox.service.ts:201-208 | The sweep's turn leaves the head of a failed requeue as it is once its clock has moved on |
| `OutboxRelay.AggregateRelay.RelayAggregate` | apps/backend/src/infrastructure/outbox/outbox.relay.ts:238-287 | Every path is a run of the protocol under interference; held changes nothing, and lock-down at most leaves a lease nobody uses; drained exactly when 20 rows were published and marked by this session, thrown exactly when a head read failed; however the loop ends the head is settled, unless a call of the settle fails or comes too late, and the lease released |
| `OutboxRelay.AggregateRelay.AcquireLease` | apps/backend/src/infrastructure/outbox/outbox.relay.ts:239-255 | Ours exactly if the store answers and the lease is free |
| `OutboxRelay.AggregateRelay.UnderLease` | apps/backend/src/infrastructure/outbox/outbox.relay.ts:257-286 | The loop and then the settle and the release, also when the loop throws |
| `OutboxRelay.AggregateRelay.RelayRows` | apps/backend/src/infrastructure/outbox/outbox.relay.ts:257-273 | At most 20 rows, drained exactly at 20, thrown exactly when a head read failed, and the session ends ready to settle |
| `OutboxRelay.AggregateRelay.ReadAndRenew` | apps/backend/src/infrastructure/outbox/outbox.relay.ts:259-268 | A failed read is thrown on; a row is taken on only if it was the oldest open row when read, was due when judged after the answer came, and the lease answered the renew after that; a row that was due is given up only after that renew |
| `OutboxRelay.AggregateRelay.RenewHeld` | apps/backend/src/infrastructure/outbox/outbox.relay.ts:261-268 | A renew that is lost or not answered gives the row up |
| `OutboxRelay.AggregateRelay.Publish` | apps/backend/src/infrastructure/outbox/outbox.relay.ts:304-357 | The outcome for every answer of the broker and the store; a resolved publish is marked dispatched, a refused or timed-out one is recorded, a disabled one leaves the loop |
| `OutboxRelay.AggregateRelay.RecordSuccess` | apps/backend/src/infrastructure/outbox/outbox.relay.ts:342-356 | The row is marked; a mark that is not answered ends the loop and counts neither as relayed nor as a failed attempt |
| `OutboxRelay.AggregateRelay.RecordFailure` | apps/backend/src/infrastructure/outbox/outbox.relay.ts:359-400 | The failure is recorded if the store takes it, with the clock as read before the update, and the loop ends either way |
| `OutboxRelay.AggregateRelay.Settle` | apps/backend/src/infrastructure/outbox/outbox.relay.ts:274-286 | The head is written exactly if all three awaited calls get through, in time where the timing bounds them; it always ends ready to release |
| `OutboxRelay.AggregateRelay.Finally` | apps/backend/src/infrastructure/outbox/outbox.relay.ts:274-286 | The settle and then the release are steps of the session, and the session is gone |
| `OutboxRelay.AggregateRelay.StaysInProtocol` | apps/backend/src/infrastructure/outbox/outbox.relay.ts:114-129 | Whatever this code does, the aggregate is in a state some run reaches; publish starts are in write order, publishes exclusive, attempts counted, heads of open rows kept and the due index right, each under the bound its theorem needs |
| `OutboxRelay.Shuffle` | apps/backend/src/infrastructure/outbox/outbox.relay.ts:61-68 | In-place shuffle loses and repeats no candidate |
| `OutboxRelay.Poll` | apps/backend/src/infrastructure/outbox/outbox.relay.ts:198-231 | Relays the candidates, in the order given unless there are more than 50, then shuffled; at most 50 of them, held ones not counted; stops early only at the limit, when asked to stop, or when the lock store is down, messaging off or a head read failed, touching no later candidate; `full` exactly when work may be left over and nobody asked to stop; nothing when the candidates could not be listed |
| `ConsumerDelivery.NoEventIsLost` | apps/backend/src/infrastructure/messaging/event-consumer.ts:23-36 | Under the condition of `NoLossExactly`, in every run a received event was handled or a message of it is not acked |
| `ConsumerDelivery.NoLossExactly` | apps/backend/src/infrastructure/messaging/event-consumer.ts:198-241 | No event is lost in any run if and only if releases reach the store, failed claim calls made no claim, a claim made as late as it may has expired by the time its message can be handed out again, duplicates are acked before that, and no nack later than that takes the message from its next delivery |
| `ConsumerDelivery.NoLossAtTheAckTimeout` | apps/backend/src/infrastructure/messaging/messaging.port.ts:33-39 | Where unanswered messages wait for the ack timeout: claims start within 30 s of delivery, and duplicates are acked and failed attempts nacked within 60 s of it, where a later nack would count |
| `ConsumerOnce.EffectsOnce` | apps/backend/src/infrastructure/messaging/event-consumer.ts:90-108 | Successful works never overlap and a later claim comes at least the seen TTL after the earlier success, after its extend when attempts are prompt, however late other attempts fail |
| `ConsumerOnce.OnceExactly` | apps/backend/src/infrastructure/messaging/event-consumer.ts:198-241 | Effects a positive seen TTL apart in every run if and only if work that succeeds is extended within 30 s of its claim, extends reach the store and no attempt crashes between success and extend, or the claim alone outlasts the window |
| `ConsumerOnce.OnceADayExactly` | apps/backend/src/infrastructure/messaging/event-consumer.ts:31-32 | For the default window of a day: if and only if attempts are prompt |
| `ConsumerOnce.OnceSinceExtendExactly` | apps/backend/src/infrastructure/messaging/event-consumer.ts:229-239 | Every earlier work extended and the window counted from there in every run if and only if attempts are prompt |
| `ConsumerOnce.LostExtendRepeats` | apps/backend/src/infrastructure/messaging/event-consumer.ts:229-239 | A run in which an unextended marker lets the event be handled again |
| `ConsumerOnce.CrashAfterSuccessRepeats` | apps/backend/src/infrastructure/messaging/event-consumer.ts:215-230 | A run in which a crash between success and extend does |
| `ConsumerOnce.LateExtendRepeats` | apps/backend/src/infrastructure/messaging/event-consumer.ts:23-29 | A run in which an extend as late as the claim's end does, for any split of the 30 s between work and extend |
| `ConsumerOnce.SecondWorkIsLater` | apps/backend/src/infrastructure/messaging/event-consumer.ts:31-32 | A second success means a whole seen window has passed since the first |
| `ConsumerDelivery.StaleAttemptIsHarmless` | apps/backend/src/infrastructure/dedup/dedup.port.ts:9-13 | Extend and release of an attempt whose claim passed to another leave the other's marker |
| `ConsumerEffects.NackExactly` | apps/backend/src/infrastructure/messaging/messaging.port.ts:14-23 | A nack of the current delivery, or a late one that still counts, puts the message back for 1, 2, 4, 8, 16, then 30 s after the failure, and dead-letters it after ten redeliveries; any other changes no message |
| `ConsumerEffects.RedeliveryDelayExactly` | apps/backend/src/infrastructure/messaging/messaging.port.ts:149-163 | The redelivery delays: doubled from 1 s, 30 s from the sixth on |
| `ConsumerDelivery.FailedReleaseLoses` | apps/backend/src/infrastructure/messaging/event-consumer.ts:217-227 | A run in which an unreleased claim makes the redelivery a duplicate |
| `ConsumerDelivery.UnansweredClaimLoses` | apps/backend/src/infrastructure/messaging/event-consumer.ts:207-215 | A run in which a claim whose answer was lost makes the redelivery a duplicate |
| `ConsumerDelivery.LateClaimLoses` | apps/backend/src/infrastructure/messaging/messaging.port.ts:33-39 | A run in which a crashed attempt's claim outlives the wait for redelivery, for any such pair of delays |
| `ConsumerDelivery.LateAckLoses` | apps/backend/src/infrastructure/messaging/messaging.port.ts:33-39 | A run in which a duplicate acked too late takes its own redelivery with it |
| `ConsumerDelivery.LateNackLoses` | apps/backend/src/infrastructure/messaging/adapters/pulsar/pulsar-messaging.adapter.ts:136-174 | A run in which the nack of a superseded attempt takes the message from the next one while that one is still working, and it is acked as a duplicate, for any redelivery delay the nack may outlast |
| `EventConsumer.DedupStore.ClaimMany` | apps/backend/src/infrastructure/dedup/dedup.port.ts:4-16 | Per key, in order: won exactly by the first item whose key had no live marker; each key moves as the protocol's claim says |
| `EventConsumer.DedupStore.ExtendMany` | apps/backend/src/infrastructure/dedup/dedup.port.ts:28-34 | Only markers still the owner's get the new TTL; each key moves as the protocol's extend says |
| `EventConsumer.DedupStore.ReleaseMany` | apps/backend/src/infrastructure/dedup/dedup.port.ts:35-40 | Only markers still the owner's are dropped; each key moves as the protocol's release says |
| `EventConsumer.Consumer.OnceEach` | apps/backend/src/infrastructure/messaging/event-consumer.ts:198-241 | The work runs with exactly the fresh items; for work inside its claim each claimed key holds nothing after a failure that was released, the owner's marker for exactly the seen TTL after a success that was extended, the claim as it was made when that call did not reach the store; in any case the last call is the protocol's release or extend of the claimed keys and touches no other; a late attempt leaves nothing in its name; a failed claim call runs nothing and leaves the claims it made |
| `EventConsumer.Consumer.WorkAndSettle` | apps/backend/src/infrastructure/messaging/event-consumer.ts:215-240 | Per claimed key the protocol's extend after success and release after failure, of the markers the work left; what each key then holds when the work ended inside its claim |
| `EventConsumer.Consumer.Once` | apps/backend/src/infrastructure/messaging/event-consumer.ts:180-192 | True exactly when the key was free and its work succeeded, false when it was taken; what the key holds afterwards, as for `OnceEach` |
| `EventConsumer.HandedOutAgain` | apps/backend/src/infrastructure/messaging/event-consumer.ts:215-228 | After a failure that was released, every item that was handed out is handed out again, and exactly those if the batch's other keys are still taken |
| `EventConsumer.NotHandedOutAgain` | apps/backend/src/infrastructure/messaging/event-consumer.ts:229-239 | After a success that was extended, none of them is handed out before the seen window is over |
| `EventConsumer.FreshExactlyOnce` | apps/backend/src/infrastructure/messaging/event-consumer.ts:206-213 | A free key repeated inside one batch is fresh at exactly one item |
| `EventConsumer.ClaimedOnce` | apps/backend/src/infrastructure/messaging/event-consumer.ts:212-213 | The claimed keys are exactly the batch's keys that were free |
| `EventConsumer.Pick` | apps/backend/src/infrastructure/messaging/event-consumer.ts:212-213 | The flagged items in order, as often as they occur |
| `EventConsumer.PickedExactly` | apps/backend/src/infrastructure/messaging/event-consumer.ts:212-213 | An item is picked if and only if one of its occurrences is flagged |
| `RunningConsumer.RunningConsumer.OnSubscribed` | apps/backend/src/infrastructure/messaging/event-consumer.ts:315-322 | Running with the subscription, or closing it when it came too late |
| `RunningConsumer.RunningConsumer.OnSubscribeFailed` | apps/backend/src/infrastructure/messaging/event-consumer.ts:289-314 | Disabled for good, or one more failure and one timer |
| `RunningConsumer.RunningConsumer.OnStopped` | apps/backend/src/infrastructure/messaging/event-consumer.ts:323-335 | Ignored after close or for an older subscription, otherwise retried |
| `RunningConsumer.RunningConsumer.OnTimer` | apps/backend/src/infrastructure/messaging/event-consumer.ts:345-352 | The timer is gone and a new attempt begins unless closed |
| `RunningConsumer.RunningConsumer.Close` | apps/backend/src/infrastructure/messaging/event-consumer.ts:268-271 | Closed, no timer |
| `RunningConsumer.RunningConsumer.TakeSubscription` | apps/backend/src/infrastructure/messaging/event-consumer.ts:272-275 | The subscription to close, once the attempt has settled |
| `RunningConsumer.OnePhaseOneSubscription` | apps/backend/src/infrastructure/messaging/event-consumer.ts:244-353 | In every interleaving a consumer is in exactly one of connecting, subscribed, waiting on one timer, disabled or closed, and never holds two subscriptions |
| `RunningConsumer.ClosedForGood` | apps/backend/src/infrastructure/messaging/event-consumer.ts:268-276 | Once a close() has resolved, every subscription opened was closed, had stopped or is being closed by another close(), and none is opened later |
| `RunningConsumer.AllClosedNothingOpen` | apps/backend/src/infrastructure/messaging/event-consumer.ts:268-276 | With every close() resolved nothing is left open |
| `RunningConsumer.HealthTellsThePhase` | apps/backend/src/infrastructure/messaging/event-consumer.ts:159-171 | Health is down exactly while an open consumer is connecting or waiting on its timer |
| `RunningConsumer.DelayGrows` | apps/backend/src/infrastructure/messaging/event-consumer.ts:338-343 | The delay doubles with every failure up to 30 s |
| `EndToEnd.EveryEventHandled` | apps/backend/src/infrastructure/outbox/outbox.relay.ts:304-357 | Under the no-loss condition, late nacks included: a row no longer open whose event has no unacked or dead-lettered message was skipped or handled at least once |
| `EndToEnd.SkippedByOperator` | apps/backend/src/infrastructure/outbox/outbox.service.ts:326-344 | In any run of the whole system a SKIPPED row is one that an operator's skip found DEAD, so the skipped case of `EveryEventHandled` means given up |
| `EndToEnd.EveryEventHandledOnce` | apps/backend/src/infrastructure/messaging/event-consumer.ts:198-241 | Under the no-loss and once conditions: exactly once until a seen window has passed since it was first handled |
| `EndToEnd.OnlyWrittenEventsArrive` | apps/backend/src/infrastructure/outbox/outbox.relay.ts:114-129 | An event reaches a consumer only if some row was written for it |
| `EndToEnd.AlwaysCoupled` | apps/backend/src/infrastructure/messaging/messaging.port.ts:14-23 | In every run of the whole system each outbox and inbox is a run of its own machine, and inboxes hold messages exactly of the rows the broker received |
| `Reflection.ReflectionIndex.constructor` | apps/backend/src/infrastructure/rpc/reflection.ts:56-60 | The index holds exactly the files the services' files reach through imports |
| `Reflection.ReflectionIndex.AddFile` | apps/backend/src/infrastructure/rpc/reflection.ts:141-146 | Adds the file and keeps the index closed under imports, adding nothing the file does not reach; cyclic imports included |
| `Reflection.ReflectionIndex.FileByFilename` | apps/backend/src/infrastructure/rpc/reflection.ts:94-99 | Answered exactly for indexed files, with the file first, then every transitive import once, each after all of its own imports |
| `Reflection.Walk.Visit` | apps/backend/src/infrastructure/rpc/reflection.ts:168-174 | The depth-first visit appends everything reached once, imports first, the file last |
| `Reflection.Walk.FileResponse` | apps/backend/src/infrastructure/rpc/reflection.ts:165-186 | For any acyclic import graph: the file first, then its transitive imports, exactly once each, imports first |
| `Keyspace.KeysEqualExactly` | apps/backend/src/common/keyspace/keyspace.ts:150-191 | Two built keys are equal if and only if app, env, scope, capability, module, name, version and the texts of all ids are |
| `Keyspace.BuiltKeyParses` | apps/backend/src/common/keyspace/keyspace.ts:150-169 | A parser recovers everything a key was built from |
| `Keyspace.RefusedExactly` | apps/backend/src/common/keyspace/keyspace.ts:150-183 | A key is refused if and only if the tenant id, app or env does not match its pattern or an id is the empty text; with which error |
| `Keyspace.TenantIdExactly` | apps/backend/src/common/keyspace/tenant-id.ts:10-22 | Tenant ids are exactly the texts that match the regular expression |
| `Keyspace.SegmentExactly` | apps/backend/src/common/keyspace/keyspace.ts:79-80 | Segments are exactly the texts that match the regular expression of kebab-case words |
| `Keyspace.VersionExactly` | apps/backend/src/common/keyspace/keyspace.ts:80-80 | Versions are exactly the texts that match theirs |
| `Keyspace.DefinedExactly` | apps/backend/src/common/keyspace/keyspace.ts:203-220 | A family is defined if and only if its parts match their patterns and no word of its name is an abbreviation |
| `Keyspace.KeyText` | apps/backend/src/common/keyspace/keyspace.ts:150-169 | The text of a built key, piece by piece |
| `Keyspace.SegmentHasNoColon` | apps/backend/src/common/keyspace/keyspace.ts:79-80 | A kebab-case segment has no separator in it |
| `Keyspace.ScopeRoundTrip` | apps/backend/src/common/keyspace/keyspace.ts:177-183 | A scope is read back from its segment, so no tenant scope reads as the global one |
| `Keyspace.EscapedIdsParse` | apps/backend/src/common/keyspace/keyspace.ts:131-138 | A list of escaped ids is read back as the list of their texts |
| `Keyspace.NumbersPrintApart` | apps/backend/src/common/keyspace/keyspace.ts:131-133 | Different numeric ids, safe integers, have different texts |
| `PercentEncoding.EscapeRoundTrip` | apps/backend/src/common/keyspace/keyspace.ts:131-138 | Every text is read back from its escaped form |
| `PercentEncoding.EscapedAlphabet` | apps/backend/src/common/keyspace/keyspace.ts:130-138 | An escaped text has only letters, digits, '-', '_' and '%', and is not empty unless the text is |
| `PercentEncoding.EscapeIsOnePass` | apps/backend/src/common/keyspace/keyspace.ts:134-137 | encodeURIComponent and the replacement of marks are together one encoding of the narrowed alphabet |
| `PercentEncoding.EncodedByteExactly` | apps/backend/src/common/keyspace/keyspace.ts:134-137 | Which bytes stand for themselves in each pass, and the two upper-case hexadecimal digits of every other |
| `PageToken.Base64UrlRoundTrip` | packages/shared/src/pagination/page-token.ts:14-21 | Unpadded base64url inverts after re-padding, for every text of single-byte characters, and is URL-safe |
| `PageToken.EncodingFailsExactly` | packages/shared/src/pagination/page-token.ts:14-16 | Encoding throws if and only if a character needs more than one byte |
| `PageToken.TokenRoundTripsExactly` | packages/shared/src/pagination/page-token.ts:24-47 | For every safe offset a token is issued, and it decodes to the offset below 10^15 and to nothing from there on |
| `PageToken.DecodedIsBelowBound` | packages/shared/src/pagination/page-token.ts:35-47 | No token at all decodes to an offset of 10^15 or more |
| `PageToken.DecodedExactly` | packages/shared/src/pagination/page-token.ts:35-47 | A token decodes to an offset if and only if it is empty, or its text is "o:" and one to fifteen digits of that value |
| `PageToken.IssuedTokens` | packages/shared/src/pagination/page-token.ts:14-29 | Two tokens letter by letter, and the characters that stand for + and / |
| `PageToken.TokensAreDistinct` | packages/shared/src/pagination/page-token.ts:24-29 | No two offsets share a token |
| `Decimal.ValueOfPrint` | packages/shared/src/pagination/page-token.ts:28-46 | Decimal printing and parsing invert |
| `Envelope.EnvelopeToProperties` | packages/shared/src/events/envelope.ts:141-154 | Each attribute under its own `ce_` name, spelt out, the trace context under its own, and no other property |
| `Envelope.ReadSpeltOut` | packages/shared/src/events/envelope.ts:161-190 | Any properties: an envelope is read if and only if the version is 1.0 and id and type are not empty, each attribute from its own name or its default |
| `Envelope.PropertiesRoundTripExactly` | packages/shared/src/events/envelope.ts:117-190 | For any envelope at all: reading back gives it if and only if it could have been built and has an id and a type |
| `Envelope.NormalExactlyIfBuilt` | packages/shared/src/events/envelope.ts:118-138 | What every built envelope meets, and every envelope that meets it can be built |
| `Envelope.OnlyNormalEnvelopesAreRead` | packages/shared/src/events/envelope.ts:161-190 | Any properties read as a built envelope with an id and a type, or as none |
| `Envelope.EncodeOutgoing` | apps/backend/src/infrastructure/messaging/messaging.envelope.ts:102-134 | The body unchanged; every attribute from the publisher's own option or its default, `tenantid` from the option or the tenant in scope, empty ones absent; the envelope's properties over the caller's |
| `Envelope.AttributesSurviveExactly` | apps/backend/src/infrastructure/messaging/messaging.envelope.ts:155-181 | Every attribute survives the broker if and only if id and type are not empty, the caller's properties name no attribute left unset, and the message does not pose as a structured envelope; nothing is assumed of JSON |
| `Envelope.PublisherIsHeard` | apps/backend/src/infrastructure/messaging/messaging.envelope.ts:102-181 | Whatever the publisher passed as tenant, subject, id, type and the other options is what the consumer's envelope says, as far as `AttributesSurviveExactly` lets it through |
| `Envelope.StructuredExactly` | apps/backend/src/infrastructure/messaging/messaging.envelope.ts:155-168 | A body is handed on as sent, its `data` member as the body, if and only if it is a structured envelope and is labelled so or carries no attributes |
| `Envelope.UnlabelledGetsDefaults` | apps/backend/src/infrastructure/messaging/messaging.envelope.ts:169-180 | A message without attributes gets a fresh id, no tenant and the defaults, and keeps its trace context |
| `Envelope.PublishedObjectArrives` | apps/backend/src/infrastructure/messaging/messaging.envelope.ts:102-181 | A published JSON object under unreserved caller properties arrives with the same envelope, data included |
| `CacheClient.CacheClient.Load` | apps/backend/src/infrastructure/cache/cache.client.ts:55-80 | Hit, miss, disabled and failing store: the outcome and the store a load leaves |
| `CacheClient.CacheClient.Join` | apps/backend/src/infrastructure/cache/cache.client.ts:31-49 | Joins the pending load or starts one; a bad TTL changes nothing |
| `CacheClient.LoadIsItsSteps` | apps/backend/src/infrastructure/cache/cache.client.ts:55-80 | The code of one load and its steps in the state machine give the same answer and the same store |
| `CacheClient.OneLoadPerKey` | apps/backend/src/infrastructure/cache/cache.client.ts:41-48 | In every interleaving the in-flight map holds a key exactly while one load of it runs |
| `CacheClient.JoinedCallersAgree` | apps/backend/src/infrastructure/cache/cache.client.ts:41-48 | Callers of one load are answered together and alike |
| `CacheClient.StoreNeverChangesTheValue` | apps/backend/src/infrastructure/cache/cache.client.ts:59-79 | A caller whose load ran the loader gets what the loader gave, whatever the store did |
| `CacheClient.RejectedLoadStoresNothing` | apps/backend/src/infrastructure/cache/cache.client.ts:73-79 | A load that rejects or resolves to undefined writes nothing |
| `CircuitBreaker.CircuitBreaker.Start` | apps/backend/src/common/circuit-breaker/circuit-breaker.ts:48-61 | Whether a call is admitted, as a probe or not, and the new fields |
| `CircuitBreaker.CircuitBreaker.Settle` | apps/backend/src/common/circuit-breaker/circuit-breaker.ts:63-86 | The fields after a call settles, probe or not |
| `CircuitBreaker.HalfOpenHasOneProbe` | apps/backend/src/common/circuit-breaker/circuit-breaker.ts:57-61 | With any overlap, HALF_OPEN means exactly one probe is in flight, and there are never two |
| `CircuitBreaker.ProbeWaitsForReset` | apps/backend/src/common/circuit-breaker/circuit-breaker.ts:49-55 | A probe starts at least the reset timeout after the last recorded failure of any call |
| `CircuitBreaker.ClosedBelowThreshold` | apps/backend/src/common/circuit-breaker/circuit-breaker.ts:75-86 | CLOSED exactly below the threshold in every run if and only if the threshold is positive |
| `MembershipGraph.MembershipGraph.RecordMember` | apps/backend/src/features/membership-graph/services/membership-graph.service.ts:43-78 | Nothing for a removed user; otherwise the member and inviter edges, as far as the writes got |
| `MembershipGraph.MembershipGraph.RemoveMember` | apps/backend/src/features/membership-graph/services/membership-graph.service.ts:84-94 | A tombstone and no MEMBER_OF, also for a user never recorded |
| `MembershipGraph.MemberExactly` | apps/backend/src/features/membership-graph/processors/membership-graph.processor.ts:66-101 | For any order, repetition and partial failure: a member if and only if recorded and never removed |
| `MembershipGraph.MembershipConverges` | apps/backend/src/features/membership-graph/processors/membership-graph.processor.ts:26-33 | The same events in any order and number give the same members |
| `MembershipGraph.InvitedExactly` | apps/backend/src/features/membership-graph/services/membership-graph.service.ts:53-76 | For any order, repetition and partial failure: an INVITED edge if and only if an invitation got through before any removal of the user |
| `MembershipGraph.InvitationsConverge` | apps/backend/src/features/membership-graph/processors/membership-graph.processor.ts:26-33 | Without a user both invited and removed, the same events in any order and number give the same INVITED edges |
| `MembershipGraph.InvitationsOrderFreeExactly` | apps/backend/src/features/membership-graph/services/membership-graph.service.ts:53-76 | The INVITED edges are the same for every order of the events if and only if no user is both invited and removed |
| `MembershipGraph.InvitationsDependOnOrder` | apps/backend/src/features/membership-graph/services/membership-graph.service.ts:53-76 | The least such pair of orders |
| `MembershipGraph.MembershipRightExactly` | apps/backend/src/features/membership-graph/services/membership-graph.service.ts:43-94 | Records and removals interleaved call by call: members and tombstones stay right all along if and only if no record writes its user's node or MEMBER_OF after a removal its check came before |
| `MembershipGraph.OverlapResurrects` | apps/backend/src/features/membership-graph/services/membership-graph.service.ts:47-64 | In any such state a stale write of the node loses the tombstone and a stale write of MEMBER_OF brings the member back |
| `MembershipGraph.WrittenOneByOne` | apps/backend/src/features/membership-graph/services/membership-graph.service.ts:54-76 | A record handled alone is its graph writes one by one |

## Left out

- The Mongo, Redis, Pulsar, Kafka and in-memory adapters: only the contracts of their ports are modelled, as steps.
- Row retention, TTL deletion and `expireAt`, `dispatchedAt`, `skippedAt`, `lastError`: history no step reads.
- Gauges, counters, logs and tracing spans.
- The order and limit of `dueAggregates`: only whether an aggregate is due is modelled, because candidate order does not matter for safety.
- `relay()`'s in-flight guard and its refusal to poll while stopping, the poll timer loop, `onModuleDestroy` and `sweep`'s error handling.
- `write` without a session: its two updates are one step here.
- `OutboxRelay.AggregateRelay.Await`: its body does nothing; its contract is what callers rely on, any legal steps of everyone else.
- `EventConsumer.DedupStore.Elapse`: its body only moves the clock; its contract also lets other attempts use the store.
- `OutboxService.OutboxService.Meanwhile`: its body does nothing; its contract lets anyone else write, as `OutboxRelay.AggregateRelay.Others` does for the protocol.
- `OutboxService.OutboxService.RepairHeads`: its upserts are one step, and it gives terminal rows no expiry.
- `OutboxService.OutboxService.Redrive`: selects rows of one aggregate, by position; a row id names its aggregate and position.
- `OutboxService.OutboxService.Skip`: takes a row id the same way.
- `listDead`, `countDead`, `backlogByStatus`: plain queries.
- `start()`'s message handler (JSON object and tenant checks) and the set of consumers behind `health()`.
- Anonymous dedup claims: every claim modelled has an owner, as `onceEach` makes them.
- Broker order of keyed messages; a message may be handed out in any order.
- `PercentEncoding.EscapeRoundTrip`: texts are sequences of Unicode scalar values, so lone surrogates, on which encodeURIComponent throws, are not modelled.
- `Keyspace.NumbersPrintApart`: numeric key ids are safe integers; fractions, and integers that are not exact or that print in exponent form, are not modelled. Environment defaults of app and env.
- JSON text: parsing and printing are parameters. `headersToStrings`, `destinationName` and `isConformingEventType`.
- `resolvePageSize`, reflection lookups by symbol or extension, `listServices`, the registry, and the byte form of descriptors.
- Cache value encoding, `get`, `set` and `del` called directly; other writers of the store are the `StoreChanges` step.
- Queries of the membership graph and the projection's filtering of foreign event types.
- Tracking ingest, which repeats claim, extend and release with fail-open.
