# Aria: verified models of its protocols

Aria runs live chat rooms in which personas answer viewers. This project models, in Dafny, the parts of
it where correctness depends on more than one function, and proves what those parts are for.

* **Credits.** The payments service confirms or refunds a purchase and records the fact in an outbox in
  the same commit; a relay publishes the outbox; the wallet consumes the two topics into a ledger with a
  materialised balance. Loss is turned into duplication, and a ledger key absorbs the duplicates.
  `Wallet.dfy` has the ledger, `ApplyInterleaving.dfy` its concurrent transactions, `Delivery.dfy` the
  insensitivity to order and repetition, `Ranking.dfy` the donor ranking, `Payments.dfy` the payment
  saga and the event contract, `Relay.dfy` the relay, `CreditPipeline.dfy` all of it as one system, and
  `PipelineRuns.dfy` runs of it in which something is lost.
* **Who speaks in a room.** A priority lock with fencing tokens (`Coordinator.dfy`), the workers that
  generate under it (`Generation.dfy`), and the loop that decides what to say next (`Progress.dfy`) with
  its story queue (`StoryQueue.dfy`).
* **Which comment is answered.** A capped buffer and greedy clustering (`Clustering.dfy`), scores and the
  choice (`Selection.dfy`).
* **Views that must agree with a simple fact.** Cursor paging (`Paging.dfy`), closing abandoned rooms on
  an expiring clock (`Abandonment.dfy`), and two caches over a store that may fail (`Caches.dfy`).

Objects whose methods change state are classes whose methods are proved against specification functions;
the laws are then proved about those functions. Protocols between processes are step systems: a state, a
`Next` function in which a step that is not possible changes nothing, and theorems about every sequence of
steps.

## What the models assume

* Identifiers are text where only equality matters, and growing numbers where order does (message ids,
  outbox rows, stories). A response token is new at each acquisition and contains no colon. Every donation
  has a new id. Time is a number that does not go back.
* The database gives a unique index whose second writer waits for the first, a row lock under UPDATE, a
  condition evaluated on a committed row, and SKIP LOCKED. Redis gives an EXEC that succeeds when the
  version has not changed since WATCH; expiry is an event that may happen at any moment. The broker keeps
  what was published and delivers any of it, in any order between the topics, any number of times.
* One relay runs at a time. A persona has one live room, so a room's lock is its persona's. Writers of the
  ledger other than the event consumer write grants and donations, under any key.

## Where the code differs from a natural expectation

Each of these is proved at an input and with its exact condition.

* A fact can be lost although the outbox, the relay and the consumer all work: when a donation was given
  the fact's own key, which its sender chooses freely, or when a dead letter cannot be published and is
  only logged. `CreditPipeline.LostExactlyWhen`, `PipelineRuns.UsedKeySwallowsTheRefund`,
  `PipelineRuns.DroppedLetterLosesThePurchase`.
* Payment and room rows are written from the copy read earlier, so REFUNDED and FINISHED are final for one
  object but not for a row with overlapping calls. `CreditPipeline.RefundedReopensExactlyWhen`,
  `PipelineRuns.RefundedPaymentCanReopen`, `RoomAbandonment.FinishedReopensExactlyWhen`,
  `RoomAbandonment.FinishedRoomCanReopen`.
* A refund delivered before the purchase that covers it is refused, so refunds are not insensitive to order.
  `DeliveryLogs.RefundAndPurchaseCommuteExactlyWhen`, `DeliveryLogs.RefundBeforePurchaseIsRefused`.
* `donate` under a repeated key returns a donation that no table holds.
  `WalletLedger.ReturnedDonationIsStoredExactlyWhen`, `WalletLedger.RepeatedDonateReturnsAnUnstoredDonation`.
* A reply can be overtaken between its check and its publish. `GenerationWorkers.OvertakenExactlyWhen`,
  `GenerationWorkers.ReplyCanBeOvertaken`.
* A story whose call fails after its request was sent goes back to the queue and may be read twice; DONE
  still implies that it was sent. `StoryRuns.ReadOnceExactlyWhen`, `StoryRuns.StoryCanBeReadTwice`.
* The room lock has no token: it excludes only as long as it does not expire under its call.
  `StoryRuns.LockExcludesExactlyWhen`, `StoryRuns.ExpiryLetsTwoIn`.
* A page size above 100 or below 1 is clamped in the query but compared unclamped in the handler, so the
  cursor is lost; 0 on an empty room fails. `TranscriptPaging.WholeRoomExactlyWhen`,
  `TranscriptPaging.PagesOf101LoseAMessage`, `TranscriptPaging.ZeroOnAnEmptyRoomFails`.
* With an abandonment threshold above an hour the clock can expire while a room's last activity is still
  recent. `RoomAbandonment.ClosingIsExactUnlessTheKeyIsGone`, `RoomAbandonment.LongThresholdClosesAnActiveRoom`.

## Model

| member | source | states |
|---|---|---|
| `WalletDomain.ServicesBuildLegalRequests` | apps/aria/src/aria/contexts/wallet/application/service.py:32-110 | `grant` and `donate` hand over a request exactly when the sign fits the type, the texts fit and a donation's message has at most 200 characters; every request built (a grant of type DONATION aside) has its donation row and its ledger line saying the same thing |
| `WalletDomain.RequestsAreBuiltFromTheirInputs` | apps/aria/src/aria/contexts/wallet/application/service.py:32-110 | every field of the line and of the donation is the input it should be: user, sign, reference and key of the line; id, persona, donor, amount and message of the donation |
| `WalletLedger.WalletRepository.EnsureWallet` | apps/aria/src/aria/contexts/wallet/adapter/outbound/persistence/repository.py:122-130 | afterwards the user has a wallet row, committed on its own, and no other balance, line or donation has changed |
| `WalletLedger.WalletRepository.FlushLine` | apps/aria/src/aria/contexts/wallet/adapter/outbound/persistence/repository.py:66-88 | the line goes in exactly when its key, if any, is free; a taken key leaves the session as it was |
| `WalletLedger.WalletRepository.Credit` | apps/aria/src/aria/contexts/wallet/adapter/outbound/persistence/repository.py:132-138 | exactly that user gains exactly that amount |
| `WalletLedger.WalletRepository.Debit` | apps/aria/src/aria/contexts/wallet/adapter/outbound/persistence/repository.py:140-156 | succeeds exactly when the balance covers the amount, and takes it only then |
| `WalletLedger.WalletRepository.ApplyRequest` | apps/aria/src/aria/contexts/wallet/adapter/outbound/persistence/repository.py:60-108 | step by step with commits and rollbacks, the call has the atomic meaning: line, balance and donation together, or only a wallet row; the answer is the new balance, or none when credit is short |
| `WalletLedger.ApplyInFull` | apps/aria/src/aria/contexts/wallet/adapter/outbound/persistence/repository.py:60-108 | one call in the fields of the tables: a used key comes before a short balance, either leaves lines, donations and balances alone, the user has a wallet in any case, and otherwise line, donation and balance move together |
| `WalletLedger.ApplyKeepsSound` | apps/aria/src/aria/contexts/wallet/adapter/outbound/persistence/repository.py:60-156 | one call keeps every balance equal to the sum of the user's lines and non-negative, keys unique, and DONATION lines paired with donation rows |
| `WalletLedger.RunsAreSound` | apps/aria/src/aria/contexts/wallet/adapter/outbound/persistence/repository.py:60-156 | the books are sound after any sequence of grants, purchases, refunds and donations, refused ones included |
| `WalletLedger.LinesAndDonationsPair` | apps/aria/src/aria/contexts/wallet/adapter/outbound/persistence/repository.py:94-107 | one to one: every DONATION line has a donation row with its id, donor and the amount taken; ids are not shared; every donation row has its line; no two lines share a row |
| `WalletLedger.RedeliveryChangesNothing` | apps/aria/src/aria/contexts/wallet/adapter/outbound/persistence/repository.py:66-88 | a repeat of an applied keyed request, inserted at any later place in a log, changes nothing about the final books |
| `WalletLedger.RefusedDebitLeavesNoTrace` | apps/aria/src/aria/contexts/wallet/adapter/outbound/persistence/repository.py:90-96 | a refused debit changes no line, donation or balance; its key stays free, and the retry succeeds exactly when the balance has grown enough |
| `WalletLedger.ReturnedDonationIsStoredExactlyWhen` | apps/aria/src/aria/contexts/wallet/application/service.py:80-110 | the donation that `donate` returns was stored if and only if the key was still free |
| `WalletLedger.RepeatedDonateReturnsAnUnstoredDonation` | apps/aria/src/aria/contexts/wallet/application/service.py:95-110 | two donations under one key, the second of which returns a donation that no table holds |
| `DeliveryLogs.OrderAndRepetitionDoNotMatter` | apps/aria/src/aria/contexts/wallet/adapter/outbound/persistence/repository.py:60-108 | two purchase logs with the same events, in any order and with any repetition, end in the same balances and the same lines, one line for each key |
| `DeliveryLogs.RefundAndPurchaseCommuteExactlyWhen` | apps/aria/src/aria/contexts/wallet/adapter/outbound/persistence/repository.py:86-108 | a refund and a purchase of one user leave the same balance in both orders if and only if the refund is covered without the purchase or not even with it |
| `DeliveryLogs.RefundBeforePurchaseIsRefused` | apps/aria/src/aria/contexts/wallet/adapter/outbound/persistence/repository.py:86-108 | ten credits bought and refunded leave nothing in that order and all ten in the other |
| `ApplyInterleaving.InterleavingsAreSerial` | apps/aria/src/aria/contexts/wallet/adapter/outbound/persistence/repository.py:60-156 | every interleaving of `apply` transactions, crashes included, equals running the completed calls one by one in the order they were decided, with the same outcomes |
| `ApplyInterleaving.CommittedStatesAreSound` | apps/aria/src/aria/contexts/wallet/adapter/outbound/persistence/repository.py:60-156 | in every committed state of every interleaving the books are sound |
| `ApplyInterleaving.NoDeadlock` | apps/aria/src/aria/contexts/wallet/adapter/outbound/persistence/repository.py:66-108 | while a call is unfinished it, or a call further along, can move |
| `ApplyInterleaving.AdvancingAnswers` | apps/aria/src/aria/contexts/wallet/adapter/outbound/persistence/repository.py:66-108 | a call that can move gets further and never dies of it; when it ends it has the outcome the committed books call for at that moment |
| `ApplyInterleaving.CrashesLeaveNoTrace` | apps/aria/src/aria/contexts/wallet/adapter/outbound/persistence/repository.py:60-108 | a call can die at any moment before its end; nothing uncommitted is seen, and nobody waits for it |
| `ApplyInterleaving.EveryMoveUsesWork` | apps/aria/src/aria/contexts/wallet/adapter/outbound/persistence/repository.py:66-108 | each move or crash uses up work, so without new calls every run is finite |
| `DonationRanking.TopDonorsIsTop` | apps/aria/src/aria/contexts/wallet/adapter/outbound/persistence/repository.py:175-197 | the query's result groups the persona's donations by donor with the right totals, orders them by total and then first donation, and cuts at the limit |
| `DonationRanking.RankingReadsTopDown` | apps/aria/src/aria/contexts/wallet/adapter/outbound/persistence/repository.py:175-197 | over the rows of the donations table: each row shows the sum and number of one donor's donations to the persona, totals fall, equal totals go by the earlier first donation, and whoever is missing from a full ranking would not have stood higher |
| `DonationRanking.FirstAtIsTheLeast` | apps/aria/src/aria/contexts/wallet/adapter/outbound/persistence/repository.py:176-191 | the time that breaks ties is the least of the donor's donation times to the persona |
| `DonationRanking.CountIsTheNumber` | apps/aria/src/aria/contexts/wallet/adapter/outbound/persistence/repository.py:176-191 | the count is the number of the donor's donations to the persona |
| `DonationRanking.TotalIsTheSum` | apps/aria/src/aria/contexts/wallet/adapter/outbound/persistence/repository.py:176-191 | the total is the sum of their amounts |
| `DonationRanking.ShorterRankingIsPrefix` | apps/aria/src/aria/contexts/wallet/adapter/outbound/persistence/repository.py:175-197 | with distinct first-donation times the ranking is unique and a shorter one is a prefix of a longer one |
| `DonationRanking.OnlyOneOrder` | apps/aria/src/aria/contexts/wallet/adapter/outbound/persistence/repository.py:175-197 | two full rankings of the same donations agree on every prefix |
| `DonationRanking.RankingAgreesWithLedger` | apps/aria/src/aria/contexts/wallet/adapter/outbound/persistence/repository.py:175-197 | after any run, a donor's untruncated totals over all personas equal minus the donor's DONATION deltas in the ledger |
| `PaymentDomain.Payment.ConfirmWith` | apps/payments/src/payments/domain/model.py:58-71 | the mutable object moves as the state machine says; a refused call leaves every field alone |
| `PaymentDomain.Payment.FailNow` | apps/payments/src/payments/domain/model.py:73-76 | only a PENDING payment fails; otherwise nothing changes |
| `PaymentDomain.Payment.RefundNow` | apps/payments/src/payments/domain/model.py:78-85 | only a CONFIRMED payment is refunded, a repeat is silent, anything else is refused without a change |
| `PaymentDomain.CallsOnOneObjectOnlyMoveForward` | apps/payments/src/payments/domain/model.py:58-85 | over any calls on one object FAILED and REFUNDED are final, a confirmation ends only in a refund, and key and time come from one single confirmation |
| `PaymentDomain.KeysNameOneEvent` | apps/payments/src/payments/application/topics.py:17-28 | derived keys repeat only for the same payment and the same direction, and fit the ledger's column |
| `PaymentSaga.PaymentService.Prepare` | apps/payments/src/payments/application/service.py:48-61 | a valid new order is stored PENDING; an invalid or repeated one stores nothing |
| `PaymentSaga.PaymentService.LoadForRefund` | apps/payments/src/payments/application/service.py:113-118 | a refund goes on only for a known order with a provider key |
| `PaymentSaga.PaymentService.SaveWithOutbox` | apps/payments/src/payments/adapter/outbound/persistence/repository.py:66-87 | the payment row and the outbox row are written together or not at all |
| `PaymentSaga.SaveTakesFourColumns` | apps/payments/src/payments/adapter/outbound/persistence/repository.py:66-87 | a save changes status, provider key and the two times, never identity, owner or price |
| `PaymentSaga.PaymentService.FinishConfirm` | apps/payments/src/payments/application/service.py:73-103 | after the gateway answers, either nothing is written, or the confirmed payment and its purchase message are; the amount must be the recorded one |
| `PaymentSaga.PaymentService.FinishRefund` | apps/payments/src/payments/application/service.py:119-135 | after the gateway answers, either nothing is written, or the refunded payment and its refund message are |
| `CreditEvents.CreditEventConsumer.Consume` | apps/aria/src/aria/contexts/wallet/adapter/inbound/worker/router.py:49-72 | an unreadable message, told by its fields, becomes exactly one letter, kept or dropped, and changes no books; any acknowledged delivery leaves a line under its key or exactly one letter, and a readable purchase without a failure leaves none; it is acknowledged exactly when the consumer lives to return |
| `CreditEvents.CreditEventConsumer.ToDlq` | apps/aria/src/aria/contexts/wallet/adapter/inbound/worker/router.py:74-92 | the dead letter is published, or is gone when publishing fails |
| `CreditEvents.RecordedMessagesAreReadable` | apps/aria/src/aria/contexts/wallet/application/credit_events.py:42-116 | everything payments records for a valid payment decodes on the wallet side to that payment's credits, sign and key, and goes to the user's partition |
| `CreditEvents.UnreadableExactlyWhen` | apps/aria/src/aria/contexts/wallet/application/credit_events.py:42-116 | over decoding and the ledger model's checks together: the exact inputs that are refused (wrong version, missing or non-positive credits, ids that are no UUID, a key missing or over 64 characters) |
| `CreditEvents.DeadLetteredExactlyWhen` | apps/aria/src/aria/contexts/wallet/adapter/inbound/worker/router.py:49-72 | a letter is due exactly for an unreadable message, a failure around the ledger call, or a new refund that the balance does not cover |
| `CreditEvents.AppliedExactlyWhen` | apps/aria/src/aria/contexts/wallet/application/credit_events.py:78-116 | the one line a readable message adds, with its sign, type, reference and key, and exactly when |
| `CreditEvents.ConsumedRequestsAreLegal` | apps/aria/src/aria/contexts/wallet/application/credit_events.py:78-116 | whatever a payload says, a request it leads to has the type and sign of its topic and carries no donation |
| `OutboxRelay.Relay.FetchUnpublished` | apps/payments/src/payments/adapter/outbound/persistence/repository.py:94-105 | the rows fetched are unpublished, in ascending order and at most the limit; an unpublished row is missing only when the limit is reached and every row fetched is older |
| `OutboxRelay.OldestAreUnique` | apps/payments/src/payments/adapter/outbound/persistence/repository.py:94-105 | only one batch has that property |
| `OutboxRelay.Relay.MarkPublished` | apps/payments/src/payments/adapter/outbound/persistence/repository.py:107-113 | that row is marked and no other |
| `OutboxRelay.Relay.DrainOnce` | apps/payments/src/payments/application/relay.py:40-65 | publishes and marks the clean part of its batch in order and stops at the first failure |
| `OutboxRelay.DrainMarks` | apps/payments/src/payments/application/relay.py:40-65 | a drain marks as many oldest rows as publish cleanly, at most min(limit, remaining), and nothing else |
| `OutboxRelay.DrainIsARun` | apps/payments/src/payments/application/relay.py:40-65 | one drain is a run of fetch, publish and mark steps, so every law of the steps holds of it |
| `OutboxRelay.PrefixLaw` | apps/payments/src/payments/application/relay.py:40-65 | under failures, lost acknowledgements, crashes, batching and appends: marked rows are a prefix, the broker log without adjacent repeats is the first k rows, and k is at most one ahead |
| `OutboxRelay.HealthyDrainsEmptyTheBacklog` | apps/payments/src/payments/application/relay.py:40-65 | with a healthy broker repeated drains mark min(batch, remaining) rows each and empty a fixed backlog |
| `CreditPipeline.ExactlyOnceEffect` | apps/payments/src/payments/application/service.py:63-135 | in every run with crashes, re-confirms, republishing and redelivery in any order, whatever keys other writers use: every purchase line is +credits of a payment approved for exactly its amount, every refund line -credits of one also cancelled, and no payment has two of either |
| `CreditPipeline.NoCreditVanishes` | apps/payments/src/payments/application/relay.py:40-65 | with the dead-letter topic up and the key used by nobody else, every recorded fact has its own ledger line, or is unpublished, undelivered or a dead letter |
| `CreditPipeline.LostExactlyWhen` | apps/aria/src/aria/contexts/wallet/adapter/inbound/worker/router.py:49-92 | in every run: a fact that is published, delivered and not dead-lettered lacks its own line if and only if another writer's line took its key, or nothing did and its dead letter could not be published |
| `CreditPipeline.HandledExactlyWhen` | apps/aria/src/aria/contexts/wallet/adapter/inbound/worker/router.py:49-72 | in every run a copy in the broker counts as handled exactly when one of its deliveries was acknowledged |
| `CreditPipeline.CancelledWereApproved` | apps/payments/src/payments/application/service.py:105-117 | in every run the gateway is asked to cancel only orders that it approved for their recorded amount |
| `PipelineRuns.UsedKeySwallowsTheRefund` | apps/aria/src/aria/contexts/chat/adapter/inbound/http/schema.py:24-35 | a run in which a donation was given the refund's key: the refund is cancelled, recorded, published and delivered without a failure, and the credits stay |
| `PipelineRuns.DroppedLetterLosesThePurchase` | apps/aria/src/aria/contexts/wallet/adapter/inbound/worker/router.py:74-92 | a run in which ledger and dead-letter topic are both out of reach: an approved purchase leaves no line and no letter |
| `CreditPipeline.RefundedReopensExactlyWhen` | apps/payments/src/payments/application/service.py:63-103 | a late confirmation takes a REFUNDED row back if and only if the gateway approves the recorded amount and the copy it read was PENDING or CONFIRMED |
| `CreditPipeline.RefundedIsFinalInTurn` | apps/payments/src/payments/application/service.py:63-135 | when the calls on an order follow each other, a REFUNDED row never changes again, in any run |
| `PipelineRuns.RefundedPaymentCanReopen` | apps/payments/src/payments/application/service.py:63-135 | a run with two confirmations in flight in which a REFUNDED payment is CONFIRMED again |
| `CreditPipeline.NothingDroppedWhileDlqIsUp` | apps/aria/src/aria/contexts/wallet/adapter/inbound/worker/router.py:74-92 | while the dead-letter topic can be written nothing is dropped |
| `CreditPipeline.CreditsAreConserved` | apps/aria/src/aria/contexts/wallet/application/credit_events.py:78-116 | per user, what the distinct facts promise equals what purchases and refunds moved on the ledger, plus what a delivery would still apply, plus what keys used by others block; the last is nothing when nobody else uses payment keys |
| `CreditPipeline.BooksStaySound` | apps/aria/src/aria/contexts/wallet/adapter/outbound/persistence/repository.py:60-156 | through the whole pipeline every balance is the sum of its lines and never negative |
| `ResponseSlots.PriorityOf` | apps/aria/src/aria/contexts/chat/domain/source.py:21-31 | priorities lie between 0 and 3 |
| `ResponseSlots.PreemptsExactlyWhen` | apps/aria/src/aria/contexts/chat/domain/source.py:21-31 | who interrupts whom, pair by pair: superchat all others, chat stories, idle talk and system, stories and idle talk only system, and nothing else |
| `ResponseSlots.StoredTextReadsBack` | apps/aria/src/aria/contexts/chat/adapter/outbound/redis/coordinator.py:31-57 | the stored text parses back to the priority and token that were written |
| `RedisCoordinator.ResponseKey.TryAcquire` | apps/aria/src/aria/contexts/chat/adapter/outbound/redis/coordinator.py:31-57 | for any script of interference, the loop stops at the first attempt that does not want to write or whose key is untouched since its WATCH; at that attempt's reading a free room is taken, and a held one exactly for the pairs of sources that may interrupt |
| `RedisCoordinator.ResponseKey.Release` | apps/aria/src/aria/contexts/chat/adapter/outbound/redis/coordinator.py:72-91 | likewise, and it deletes the key exactly when the stored token was its own at that reading |
| `RedisCoordinator.StopsOnce` | apps/aria/src/aria/contexts/chat/adapter/outbound/redis/coordinator.py:31-91 | a script leaves a loop exactly one attempt to stop at, so those contracts determine answer and key |
| `RedisCoordinator.LoopsFollowTheScript` | apps/aria/src/aria/contexts/chat/adapter/outbound/redis/coordinator.py:31-91 | at each WATCH and each reading a loop has seen the whole script up to there |
| `RedisCoordinator.UntouchedExactlyWhen` | apps/aria/src/aria/contexts/chat/adapter/outbound/redis/coordinator.py:31-91 | an EXEC goes through exactly when nobody wrote the key and it did not go away while it was there |
| `RedisCoordinator.HeldUntilTouched` | apps/aria/src/aria/contexts/chat/adapter/outbound/redis/coordinator.py:63-70 | a slot whose token nobody else uses is still held exactly when nothing has happened to the key |
| `RedisCoordinator.ResponseKey.StillHolds` | apps/aria/src/aria/contexts/chat/adapter/outbound/redis/coordinator.py:63-70 | true exactly when the stored token is the slot's |
| `RedisCoordinator.ResponseKey.IsBusy` | apps/aria/src/aria/contexts/chat/adapter/outbound/redis/coordinator.py:59-61 | true exactly when somebody holds the room |
| `CoordinatorRefinement.LoopsRefineAtomicOperations` | apps/aria/src/aria/contexts/chat/adapter/outbound/redis/coordinator.py:31-91 | for any number of clients, interleaved round trip by round trip and with expiry, the stored value and every answer are those of indivisible operations in some order |
| `CoordinatorRefinement.FailedExecHasACause` | apps/aria/src/aria/contexts/chat/adapter/outbound/redis/coordinator.py:31-91 | an EXEC fails only because another client wrote or the key expired since the WATCH |
| `CoordinatorRefinement.EveryCallIsAnswered` | apps/aria/src/aria/contexts/chat/adapter/outbound/redis/coordinator.py:31-91 | a call ends only with its operation on record; a failed EXEC goes back to the WATCH and changes nothing else |
| `CoordinatorRefinement.TokensAreFresh` | apps/aria/src/aria/contexts/chat/adapter/outbound/redis/coordinator.py:31-57 | in every run a token belongs to one call only |
| `Fencing.LostForGood` | apps/aria/src/aria/contexts/chat/adapter/outbound/redis/coordinator.py:63-91 | a slot that stopped holding never holds again, and its late release changes nothing |
| `Fencing.SlotsNeverComeBack` | apps/aria/src/aria/contexts/chat/adapter/outbound/redis/coordinator.py:31-91 | in every run of the coordinator a preempted, released or expired slot never holds again |
| `Fencing.GrantsClimb` | apps/aria/src/aria/contexts/chat/adapter/outbound/redis/coordinator.py:31-57 | while the room stays occupied the granted priorities strictly increase and the holder is the last granted |
| `Fencing.AtMostFourSlotsBetweenFreeMoments` | apps/aria/src/aria/contexts/chat/domain/source.py:21-31 | between two free moments of a room at most four slots are granted, in strictly increasing priority |
| `ResponseGeneration.ResponseGenerationService.Handle` | apps/aria/src/aria/contexts/chat/application/generation.py:201-262 | for any script of what others do: nothing is recorded or published unless the stored token is the worker's own after generating, and both are when it is and the calls are up, so exactly when nothing happened to the key meanwhile; after a grant at most the own slot is removed on every exit |
| `ResponseGeneration.ResponseGenerationService.Record` | apps/aria/src/aria/contexts/chat/application/generation.py:277-299 | one transcript row with its link to the comment answered, or nothing when the record fails |
| `ResponseGeneration.ReleaseSeesEverything` | apps/aria/src/aria/contexts/chat/application/generation.py:209-262 | the release comes after all that happened to the key since the grant |
| `GenerationWorkers.RepliesAreDisciplined` | apps/aria/src/aria/contexts/chat/application/generation.py:201-262 | for any workers, preemptions and expiries: a publish follows a record attempt, which follows a check that found the slot stored and never lost; no slot does any of them twice |
| `GenerationWorkers.GrantedExactlyWhen` | apps/aria/src/aria/contexts/chat/application/generation.py:201-207 | a worker gets a free room, and a held one exactly when its source may interrupt the holder's, whose slot is lost |
| `GenerationWorkers.CheckedWorkerGoesOn` | apps/aria/src/aria/contexts/chat/application/generation.py:236-262 | from its check a worker whose token is stored records and publishes, and any other goes straight to its release |
| `GenerationWorkers.LostBeforeCheckNeverPublishes` | apps/aria/src/aria/contexts/chat/application/generation.py:232-246 | a slot preempted or expired before its check is never recorded or published |
| `GenerationWorkers.OvertakenExactlyWhen` | apps/aria/src/aria/contexts/chat/application/generation.py:236-258 | a published reply had lost its slot if and only if it lost it between its one check and its publish |
| `GenerationWorkers.ReplyCanBeOvertaken` | apps/aria/src/aria/contexts/chat/application/generation.py:236-258 | a run in which a superchat takes the room in that gap |
| `GenerationWorkers.EveryExitReleases` | apps/aria/src/aria/contexts/chat/application/generation.py:214-262 | short of a dead process, every granted slot is being worked on or its release has been tried |
| `CandidateBuffers.CandidateBuffer.Add` | apps/aria/src/aria/contexts/chat/adapter/outbound/redis/candidates.py:36-42 | the newest fifty elements, in arrival order |
| `CandidateBuffers.CandidateBuffer.TakeAll` | apps/aria/src/aria/contexts/chat/adapter/outbound/redis/candidates.py:44-55 | the whole buffer is consumed and its readable elements returned in order |
| `CandidateBuffers.ParsedOneByOne` | apps/aria/src/aria/contexts/chat/adapter/outbound/redis/candidates.py:44-55 | a readable element gives its comment, another nothing, and neither affects the rest |
| `CandidateBuffers.BatchIsTheLastFifty` | apps/aria/src/aria/contexts/chat/adapter/outbound/redis/candidates.py:36-55 | however many comments arrive, a batch is exactly the last fifty of them |
| `LexicalClustering.Tokens` | apps/aria/src/aria/contexts/chat/adapter/outbound/clustering/lexical.py:67-82 | the set built in the loop is the n-grams of the words that are long enough and not stopwords |
| `LexicalClustering.TokenCharsAre` | apps/aria/src/aria/contexts/chat/adapter/outbound/clustering/lexical.py:64 | digits, Latin letters and Hangul syllables, by code point |
| `LexicalClustering.WordsAreMaximalRuns` | apps/aria/src/aria/contexts/chat/adapter/outbound/clustering/lexical.py:64-76 | the words found are exactly the maximal runs of digits, Latin letters and Hangul syllables in the text |
| `LexicalClustering.TokensAreTheGramsOfTheWords` | apps/aria/src/aria/contexts/chat/adapter/outbound/clustering/lexical.py:67-82 | a token is exactly a three-character piece of such a word, or a short word whole; one-character words and stopwords give none |
| `LexicalClustering.SimilarMeansSharedTokens` | apps/aria/src/aria/contexts/chat/adapter/outbound/clustering/lexical.py:85-112 | two token sets are similar exactly when both are non-empty and share at least 12 percent of the smaller |
| `LexicalClustering.FirstFit` | apps/aria/src/aria/contexts/chat/adapter/outbound/clustering/lexical.py:104-112 | the first bucket reaching the threshold, or none reaches it |
| `LexicalClustering.Cluster` | apps/aria/src/aria/contexts/chat/adapter/outbound/clustering/lexical.py:98-119 | the loop over mutable buckets yields the topics of the specification proved below to be the greedy partition |
| `LexicalClustering.ClusteringIsGreedyPartition` | apps/aria/src/aria/contexts/chat/adapter/outbound/clustering/lexical.py:98-119 | a stable partition: every candidate in one topic, arrival order kept, tokens the union of the members', and each member joined the first topic reaching the overlap with its earlier members |
| `LexicalClustering.GreedyIsUnique` | apps/aria/src/aria/contexts/chat/adapter/outbound/clustering/lexical.py:98-119 | only one partition has that property, so it determines the clustering |
| `LexicalClustering.TokenlessStayAlone` | apps/aria/src/aria/contexts/chat/adapter/outbound/clustering/lexical.py:85-95 | a comment without tokens opens its own topic and nobody joins it |
| `LexicalClustering.TopicsCoverTheBatch` | apps/aria/src/aria/contexts/chat/adapter/outbound/clustering/lexical.py:98-119 | topics are non-empty, no larger than the batch, and together hold exactly the batch |
| `CommentSelection.ChoiceIsTheMaximum` | apps/aria/src/aria/contexts/chat/domain/topic.py:133-150 | every candidate scores less than the choice, or the same and came no earlier; there is no choice exactly when there is no candidate |
| `CommentSelection.ChoiceIgnoresOrder` | apps/aria/src/aria/contexts/chat/domain/topic.py:133-150 | with distinct times any rearrangement of topics and of comments in them gives the same choice |
| `CommentSelection.RoundingIsMonotone` | apps/aria/src/aria/contexts/chat/domain/topic.py:96-130 | rounding to four digits never reverses two scores |
| `CommentSelection.RoundingIsNearest` | apps/aria/src/aria/contexts/chat/domain/topic.py:96-130 | it goes to the nearest four-digit number, a tie to the even one |
| `CommentSelection.ScoreBounds` | apps/aria/src/aria/contexts/chat/domain/topic.py:78-130 | after rounding a non-question scores at most 0.5 and a question in a batch of at most fifty at least 0.504 |
| `CommentSelection.BoundsAreTight` | apps/aria/src/aria/contexts/chat/domain/topic.py:78-130 | the bounds 0.5 and 0.504 are reached, and texts at the ends of the length scale score what the weights say |
| `CommentSelection.LengthScoreIs` | apps/aria/src/aria/contexts/chat/domain/topic.py:78-86 | for every length: 0 below 6 characters, n/40 up to 40, 40/n up to 80, and a half beyond |
| `CommentSelection.QuestionsEndInAMarkOrHoldAWord` | apps/aria/src/aria/contexts/chat/domain/topic.py:89-93 | a text is a question exactly when, stripped, it ends in one of the two question marks or one of the words stands somewhere in it |
| `CommentSelection.TextEndingInAMarkIsAQuestion` | apps/aria/src/aria/contexts/chat/domain/topic.py:89-93 | so is every text that ends in a question mark |
| `CommentSelection.StripIsTheMiddle` | apps/aria/src/aria/contexts/chat/domain/topic.py:78-93 | stripping removes the white space at both ends and nothing else |
| `CommentSelection.ReasonsSayWhatHappened` | apps/aria/src/aria/contexts/chat/domain/topic.py:96-130 | the reasons in whole numbers: a question, under 6 characters, 32 to 50 characters, a topic at least four fifths of the largest and not alone |
| `CommentSelection.QuestionsWin` | apps/aria/src/aria/contexts/chat/domain/topic.py:78-150 | any batch of at most fifty comments that holds a question is answered with a question |
| `CommentSelection.BatchAlwaysYieldsAChoice` | apps/aria/src/aria/contexts/chat/application/progress.py:167-180 | whatever arrived, a non-empty batch from the buffer yields one of its comments, a question if it holds one |
| `StoryQueue.StoryRepository.Add` | apps/aria/src/aria/contexts/community/adapter/outbound/persistence/repository.py:36-50 | the story joins the end of the queue, waiting |
| `StoryQueue.StoryRepository.ClaimNextPending` | apps/aria/src/aria/contexts/community/adapter/outbound/persistence/repository.py:70-100 | the persona's oldest waiting story, and only it, becomes READING |
| `StoryQueue.StoryRepository.MarkDone` | apps/aria/src/aria/contexts/community/adapter/outbound/persistence/repository.py:102-108 | the story is DONE afterwards if it exists, and nothing else changes |
| `StoryQueue.StoryRepository.Release` | apps/aria/src/aria/contexts/community/adapter/outbound/persistence/repository.py:110-118 | only a story being read goes back to waiting |
| `StoryQueue.FirstPending` | apps/aria/src/aria/contexts/community/adapter/outbound/persistence/repository.py:78-90 | the oldest row that is the persona's, waiting and not locked by another call; no earlier row is |
| `StoryQueue.ReleaseUndoesClaim` | apps/aria/src/aria/contexts/community/adapter/outbound/persistence/repository.py:70-118 | a claim that is given back leaves the queue as it was |
| `StoryRuns.ClaimsAreExclusive` | apps/aria/src/aria/contexts/community/adapter/outbound/persistence/repository.py:70-118 | in every run, whatever fails, dies or expires: two calls never have the same story in hand, a story is READING exactly when one call has it in hand or a call ended without giving it back, and DONE implies its request was sent |
| `StoryRuns.RequestsAreCounted` | apps/aria/src/aria/contexts/chat/application/progress.py:128-153 | a story was requested as often as a call failed after sending its request, plus once if it is DONE or about to be |
| `StoryRuns.WaitingAgainExactlyWhen` | apps/aria/src/aria/contexts/chat/application/progress.py:137-151 | a waiting story was already requested if and only if a call failed after sending its request |
| `StoryRuns.ReadOnceExactlyWhen` | apps/aria/src/aria/contexts/chat/application/progress.py:104-160 | every story is requested at most once if and only if no request is sent for a story whose earlier request was sent by a call that then failed |
| `StoryRuns.WithoutLateFailuresReadOnce` | apps/aria/src/aria/contexts/chat/application/progress.py:104-160 | when no publish raises after sending, no mark fails and no call dies, every story is read at most once |
| `StoryRuns.StoryCanBeReadTwice` | apps/aria/src/aria/contexts/chat/application/progress.py:137-153 | a run without deaths or expiries in which one story is requested twice because its mark failed |
| `StoryRuns.QueueStaysInOrder` | apps/aria/src/aria/contexts/chat/application/progress.py:104-160 | with at most one `advance` in flight per persona and any failures, a persona's stories are DONE, then at most one READING, then PENDING, apart from stories left READING by a call that ended |
| `StoryRuns.LockExcludesExactlyWhen` | apps/aria/src/aria/contexts/chat/adapter/outbound/redis/idle_lock.py:30-34 | through a run every call in flight holds its room's lock, one call a room, if and only if no lock expires under its call |
| `StoryRuns.ExpiryLetsTwoIn` | apps/aria/src/aria/contexts/chat/adapter/outbound/redis/idle_lock.py:16-34 | a run in which a lock expires too early and two calls are in one room |
| `StoryRuns.LockKeepsQueueInOrder` | apps/aria/src/aria/contexts/chat/adapter/outbound/redis/idle_lock.py:16-34 | so when no lock expires under its call the queue stays in order in every run |
| `RoomProgress.IdleLock.Acquire` | apps/aria/src/aria/contexts/chat/adapter/outbound/redis/idle_lock.py:19-31 | gets in exactly when nobody holds the lock or it has expired, and then keeps others out for 30 seconds |
| `RoomProgress.ProgressService.MakePlan` | apps/aria/src/aria/contexts/chat/application/progress.py:162-203 | comments first; unasked speech only to an audience after silence; any of its calls may raise; a story is claimed exactly when it is what will be said or the claim raises after its commit |
| `RoomProgress.ProgressService.CarryOut` | apps/aria/src/aria/contexts/chat/application/progress.py:130-153 | with publish, mark and release each going through, not, or unheard: the story ends DONE when its request went out and its mark was written, READING when it could not be given back, and waiting otherwise |
| `RoomProgress.ProgressService.Advance` | apps/aria/src/aria/contexts/chat/application/progress.py:104-160 | a busy or taken room loses nothing; otherwise, whatever raises, the batch is consumed, the lock is free again and the clock is touched only on success; a publish that reaches Kafka sends exactly one request, from CHAT for a comment, STORY for a claimed story and IDLE otherwise, and one that does not sends none |
| `RoomProgress.ConsumedCommentsAreAnswered` | apps/aria/src/aria/contexts/chat/application/progress.py:167-180 | a consumed batch never falls through to a story or self-talk: one of its comments is answered |
| `RoomProgress.UnaskedSpeechNeedsASilentAudience` | apps/aria/src/aria/contexts/chat/application/progress.py:182-203 | the persona speaks unasked exactly when no comment waits, somebody watches and the room is silent; it reads its oldest waiting story, and talks to itself only when it has none |
| `RoomProgress.QuietExactlyWhen` | apps/aria/src/aria/contexts/chat/adapter/outbound/redis/activity.py:26-37 | silence is no activity as recent as the threshold, or as an hour |
| `RoomProgress.StoriesAreConsumedByRequests` | apps/aria/src/aria/contexts/chat/application/progress.py:124-153 | a claimed story ends DONE exactly when the publish went through and the mark was written; it waits again exactly when one of them failed and the release went through, whether or not a request was sent; otherwise it stays READING |
| `RoomProgress.RequestsSayWhatTheyAreFor` | apps/aria/src/aria/contexts/chat/application/progress.py:167-203 | the source and content of the request, for each of the three reasons to speak, and no request without one |
| `RoomProgress.AdvancedExactlyWhen` | apps/aria/src/aria/contexts/chat/application/progress.py:126-160 | the call succeeds exactly when its request went out unharmed and, for a story, the mark too; it ends with nothing said exactly when there is no comment and no audience or no silence |
| `TranscriptPaging.Transcript.Append` | apps/aria/src/aria/contexts/chat/adapter/outbound/persistence/transcript.py:65-80 | no other row changes, and as ids grow the rows stay in order and the message is the room's newest |
| `TranscriptPaging.Transcript.Page` | apps/aria/src/aria/contexts/chat/adapter/inbound/http/router.py:198-216 | a page of 1 to 100 is newest first, holds only what was asked for, and whatever it misses lies below its cursor |
| `TranscriptPaging.AppendsGrowAtTheEnd` | apps/aria/src/aria/contexts/chat/adapter/outbound/persistence/transcript.py:65-80 | any appends with growing ids between the pages are a table the walk is proved for |
| `TranscriptPaging.PagesAreTheWholeRoom` | apps/aria/src/aria/contexts/chat/adapter/inbound/http/router.py:186-216 | for page sizes 1 to 100 and any appends between pages, following the cursor ends and yields exactly the room's messages at the first call, newest first, each once |
| `TranscriptPaging.WholeRoomExactlyWhen` | apps/aria/src/aria/contexts/chat/adapter/inbound/http/router.py:198-216 | for every page size: the walk returns the whole room if and only if the size is 1 to 100 or the room fits the one page the clamped size gives |
| `TranscriptPaging.OtherSizesGiveOnePage` | apps/aria/src/aria/contexts/chat/adapter/inbound/http/router.py:198-216 | what every other page size yields: the one page of the clamped size, or an error for 0 on an empty room |
| `TranscriptPaging.PagesOf101LoseAMessage` | apps/aria/src/aria/contexts/chat/adapter/inbound/http/router.py:214-215 | a room of 101 messages in pages of 101 never shows its oldest |
| `TranscriptPaging.ZeroOnAnEmptyRoomFails` | apps/aria/src/aria/contexts/chat/adapter/inbound/http/router.py:214-215 | page size 0 on an empty room is an error |
| `TranscriptPaging.WalkCollects` | apps/aria/src/aria/contexts/chat/adapter/outbound/persistence/transcript.py:82-95 | from any cursor on, the remaining pages are the remaining older messages, whatever is appended |
| `RoomAbandonment.ActivityTracker.Touch` | apps/aria/src/aria/contexts/chat/adapter/outbound/redis/activity.py:26-27 | the clock holds the last of all touches, for an hour |
| `RoomAbandonment.ActivityTracker.SecondsSinceLast` | apps/aria/src/aria/contexts/chat/adapter/outbound/redis/activity.py:33-37 | the time since the last touch, or nothing once the key has expired |
| `RoomAbandonment.ActivityTracker.IsIdle` | apps/aria/src/aria/contexts/chat/adapter/outbound/redis/activity.py:29-31 | silent for at least the threshold, or no record left |
| `RoomAbandonment.IdleExactlyWhen` | apps/aria/src/aria/contexts/chat/adapter/outbound/redis/activity.py:26-37 | after any touches a room is idle exactly when none is as recent as the threshold, or as an hour |
| `RoomAbandonment.Room.TransitionTo` | apps/aria/src/aria/contexts/chat/domain/room.py:74-89 | only forward moves happen; a refused one changes nothing |
| `RoomAbandonment.AllowedIsForward` | apps/aria/src/aria/contexts/chat/domain/room.py:38-42 | the table of transitions is exactly "forward in PENDING, LIVE, FINISHED" |
| `RoomAbandonment.RoomsOnlyMoveForward` | apps/aria/src/aria/contexts/chat/domain/room.py:38-89 | over any requests a room only moves forward, FINISHED is final, and the closing time is that of the one move that finished it |
| `RoomAbandonment.FinishedReopensExactlyWhen` | apps/aria/src/aria/contexts/chat/application/room.py:67-72 | a FINISHED row is taken back if and only if a move to LIVE is saved from a copy read while the room was PENDING |
| `RoomAbandonment.FinishedRoomCanReopen` | apps/aria/src/aria/contexts/chat/application/room.py:67-72 | two calls on a waiting room after which a finished room is on air |
| `RoomAbandonment.CloseIfAbandoned` | apps/aria/src/aria/contexts/chat/application/abandon.py:46-68 | after any touches and with a threshold of at most an hour, a room that is not finished is closed exactly when nobody watches and neither opening nor activity is recent; nothing else changes |
| `RoomAbandonment.ClosingIsExactUnlessTheKeyIsGone` | apps/aria/src/aria/contexts/chat/application/abandon.py:46-57 | for any threshold and touch history the closer is right if and only if the key has not expired while the last activity is still recent |
| `RoomAbandonment.ClosingIsExact` | apps/aria/src/aria/contexts/chat/domain/room.py:91-100 | with a threshold of at most an hour it closes exactly when nobody watches and neither opening nor activity is recent |
| `RoomAbandonment.LongThresholdClosesAnActiveRoom` | apps/aria/src/aria/contexts/chat/application/abandon.py:46-57 | a two-hour threshold, activity 4000 seconds ago, and the room is closed |
| `TtlCache.ServedWasTrueRecently` | apps/aria/src/aria/contexts/community/adapter/outbound/cache/like_count.py:54-93 | under any pattern of store failures and garbled values, and whichever right answer the database gives, a served value was a right answer less than the TTL ago |
| `TtlCache.AnnouncedWritesKeepCurrent` | apps/aria/src/aria/contexts/community/adapter/outbound/cache/like_count.py:42-60 | when every write drops its key and no delete fails, reads are always current |
| `LikeCounts.CachedLikeRepository.Add` | apps/aria/src/aria/contexts/community/adapter/outbound/cache/like_count.py:42-44 | the like stands once, and the persona's cached count is dropped if Redis is up |
| `LikeCounts.CachedLikeRepository.Remove` | apps/aria/src/aria/contexts/community/adapter/outbound/cache/like_count.py:46-48 | the like is gone, and the persona's cached count is dropped if Redis is up |
| `LikeCounts.CachedLikeRepository.CountByPersona` | apps/aria/src/aria/contexts/community/adapter/outbound/cache/like_count.py:54-86 | a live readable entry is served; otherwise the true count, stored for a minute |
| `LikeCounts.CountIsOfStandingLikes` | apps/aria/src/aria/contexts/community/adapter/outbound/persistence/repository.py:121-168 | a user counts for a persona exactly when a like of theirs was never taken back |
| `LikeCounts.CountIsTheNumberOfUsers` | apps/aria/src/aria/contexts/community/adapter/outbound/persistence/repository.py:161-168 | and the count is the number of those users |
| `LikeCounts.LikeCountWasTrueWithinAMinute` | apps/aria/src/aria/contexts/community/adapter/outbound/cache/like_count.py:54-93 | under any Redis failures a served like count was the true one less than 60 seconds ago |
| `LikeCounts.LikeCountIsCurrent` | apps/aria/src/aria/contexts/community/adapter/outbound/cache/like_count.py:42-60 | if no invalidation fails, a served like count is the number of users whose like stands |
| `RankingCache.CachedDonationRepository.ReadTopDonors` | apps/aria/src/aria/contexts/wallet/adapter/outbound/cache/donation_ranking.py:55-88 | for any order the database gives ties: a live readable entry for that persona and limit is served; otherwise a true ranking, stored for half a minute |
| `RankingCache.RankingWasTrueWithinHalfAMinute` | apps/aria/src/aria/contexts/wallet/adapter/outbound/cache/donation_ranking.py:55-88 | a served ranking was a true top-N for the very N asked less than 30 seconds ago, however ties were ordered |

## Left out

- WalletLedger.WalletRepository.ApplyRequest: the balance it returns is read right after the commit; a concurrent call could come in between that commit and that read.
- CreditEvents.UnreadableExactlyWhen: the payload's fields are typed, so JSON values that conversion would accept (a number as text, a version of `true`), other spellings of a UUID, and an id that is no text, whose error the consumer does not catch, are not modelled; payments records none of them.
- PaymentSaga.PaymentService.FinishConfirm: the gateway is an answer only (approved with an amount, cancelled, or failed); money at the gateway is not modelled.
- RoomProgress.ProgressService.Advance: failures of the busy check, of the lock's own two calls and of the final touch are not in its contract, and time stands still during a call; a lock that expires under its call is a step of `StoryRuns`.
- StoryRuns.QueueStaysInOrder: stories left READING by a call that ended are outside the order, because the code never takes them up again.
- CandidateBuffers.CandidateBuffer.TakeAll: the text's lower-case form is a field of the candidate, because case folding of Unicode text is not modelled.
- CommentSelection.ScoreBounds: scores are exact fractions rounded half to even to four digits; binary floating point is not modelled.
- LikeCounts.LikeCountIsCurrent: calls follow each other; a write between a reader's query and its store of the result is not modelled.
- RankingCache.RankingWasTrueWithinHalfAMinute: calls follow each other here too.
- A grant of type DONATION, which the service would build and no caller asks for.
- Topic labels, prompts, selection metadata, tracing, logging.
- The serialisation of generation requests and the registry that removes repeated messages.
- Listing stories, likes, entries and donations page by page.
- HTTP and WebSocket handlers other than the paging expression, dependency wiring, migrations, settings.
- Identity, personas, tokens and passwords; language-model adapters.
