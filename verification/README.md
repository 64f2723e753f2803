# RouteGuard: models and proofs

RouteGuard runs a sealed-bid freight auction on a Hedera consensus topic and settles it with one
payment. This project models the three parts of it that carry the correctness argument, and proves
what those parts promise.

**The auction engine.** Commitments observed on the topic, private bids and receipts are reconciled,
judged by 22 reason codes, ranked by price, delivery, consensus time and bid id, and published as a
hash-bound decision manifest; a closure proof made from the evidence drives a guarded state machine.
Proved: the published winner is the minimum, in rank order, of the commitments that satisfy the
published rules, and there is none exactly when no commitment satisfies them; the manifest, with its
hashes, does not depend on the order of the evidence; the independent verifier accepts exactly the
reconstructed manifest; in every run of the machine a closed auction rests on an authentic proof
over a complete window, has exactly one exit, and a decided auction never changes.

**The durable attempt protocol.** A compare-and-set store over a lock file, a temporary file and an
atomic rename, used by any number of processes, with steps that claim and confirm one topic, five
ordered messages and one payment. `StoreMachine` interleaves the processes at each file operation
with crashes anywhere. Proved: mutual exclusion, a record file that is always absent or complete,
versions 1, 2, 3, …, each with one successor, refinement of an atomic store. `AttemptHistory` adds
what callers do: exactly when stale writers fail closed, at most one claim of each kind in the whole
history of processes that compare with the version they read, a topic id that never changes, an outbox
that is always a confirmed prefix. `InfrastructureRunner` is the second crash protocol: seven
network writes under transaction ids that are saved before they are used.

**The encodings under the hashes.** The canonical JSON printer with its decoder, UTF-8, and the UTC
timestamp profile (section 5.6 of RFC 3339 restricted to `Z`, without the leap second of section
5.7). Proved: canonical texts are uniquely decodable, two values print the same exactly when they are
equal with objects taken as maps, and timestamps are ordered as their fields are.

## How it is modelled

- Strings are sequences of 16-bit units, numbers in JSON are safe integers. `Oracles` holds what the
  auction does not look into: schemas beyond the fields used, hashes, signatures and the clock. The
  clock in use is `Reconciliation.Clock`, built on `UtcTime.ParseUtc`; `Reconciliation.ClockBarFree`
  shows that it meets the one hypothesis (`BarFree`) that the reconciliation needs.
- The SHA-256 digest is an uninterpreted function. `CollisionFree` is a hypothesis of the binding
  lemmas only.
- Objects that the code compares by identity carry it: entries of the evidence maps have an
  `objectId`, closure proofs made by the factory are `Made(id)` and every other object is `Other`.
- `None` and `Err` stand for throws. Times of day written into records (`claimedAt`, `updatedAt`) are
  left out of the records, and random tokens and ids are drawn from a counter.
- Nondeterministic choice (`if *`) stands for crashes, network failures and answers of the mirror.
  Whether the mirror is honest, reporting success only of transactions that reached the network, is a
  parameter of the infrastructure runner: at most one submission per step holds either way. Another
  parameter says that nothing fails, and then a first run completes.

## Where the code differs from what it says

- The store's header promises that stale writers fail closed. `compareAndSet` keeps that promise, but
  `persistAttempt`, through which the orchestration writes, gets the version to compare with by itself,
  outside the lock and after the caller made its record. `AttemptHistory.PersistCommitsTwoTopicClaims` is a
  run of two processes that commits two topic claims, and `AttemptHistory.PersistRefusesOvertakenClaim` one
  in which the second is refused. `AttemptHistory.GetGuardsExactly` and `AttemptHistory.DecideExactly` say
  which: a stale record is let through when the store moved on before the version was got, and refused
  when it moved on after. `AttemptHistory.StaleWritersExactly` gives the exact condition over all runs: the
  promise holds if and only if every committed compare-and-set carried a record of the very version it was
  compared with, which a caller can see before it compares. Under that condition no claim is
  committed twice (`AttemptHistory.GuardedClaimsOnce`); processes that compare with the version they read
  (`AttemptHistory.DisciplinedScript`) always meet it.
- `DUPLICATE_COMMITMENT` and `INVALID_PAYMENT_OPTIONS` are never reported
  (`Reconciliation.ValidateReconciliationInputs`, `Eligibility.PaymentOptionsCodeNeverOccurs`).
- `assertSafeToStartFinalDemoLive` does not look for `FAILED` and `RESOLUTION_INCOMPLETE`
  (`AttemptRecord.GuardIgnoresFailedClaims`); no step writes them, and for reachable records the guard
  is exact (`AttemptRecord.SafeToStartExactly`).
- A commitment a hundred nanoseconds late passes the coarse deadline check of the final demo although the
  auction rule calls it late (`Timing.LateCommitmentPasses`), and so does a barrier that is early by as much
  (`Timing.EarlyBarrierPasses`); `Timing.CommitmentCheckExactly` and `Timing.BarrierCheckExactly` give the
  exact extent.
- An HCS message other than ROUTE_RESERVED that was marked ambiguous can never be confirmed, although the
  orchestration tries to: `AttemptRecord.AmbiguousIsReached` is such a history, and
  `AttemptRecord.AmbiguousMessageBlocks` says that every one stays where it is.

## Model

| member | source | states |
|---|---|---|
| `CanonicalJson.DecodeCanonical` | src/domain/canonical-hash.ts:14-121 | A parser recovers from the canonical text of every value the value itself with its object keys sorted, and leaves nothing over |
| `CanonicalJson.CanonicalTextDeterminesValue` | src/domain/canonical-hash.ts:14-121 | Two values have the same canonical text if and only if they are equal with objects taken as maps, whatever the key insertion order |
| `CanonicalJson.CanonicalizeInternal` | src/domain/canonical-hash.ts:23-121 | The recursive printer with its part lists and sorted key copy yields exactly the print of the normalized value: a text that decodes to the given value with the keys of every object in ascending code-unit order |
| `CanonicalJson.CanonicalizeItems` | src/domain/canonical-hash.ts:66-78 | The array loop keeps order and joins the printed items |
| `CanonicalJson.CanonicalizeMembers` | src/domain/canonical-hash.ts:96-117 | The loop over the sorted keys prints the members in ascending code-unit order, each with its own value |
| `CanonicalJson.NormalizedMembers` | src/domain/canonical-hash.ts:96-117 | The members of a canonical object are the given ones with canonical values, in strictly ascending code-unit order of their keys |
| `CanonicalJson.CanonicalSaysAscending` | src/domain/canonical-hash.ts:14-121 | Every canonical text decodes to the given value with keys ascending at every depth |
| `CanonicalJson.SampleTexts` | src/domain/canonical-hash.ts:24-41 | The exact texts of null, the booleans, a number, an array, and an object given in descending key order |
| `CanonicalJson.EscapeTable` | src/domain/canonical-hash.ts:43-46 | Exactly which units are escaped, and the escapes of JSON.stringify |
| `Utf16.DecimalShortest` | src/domain/canonical-hash.ts:34-41 | Printed numbers have no leading zero |
| `CanonicalJson.UnescapeEscape` | src/domain/canonical-hash.ts:43-46 | String escaping is undone by the decoder for every sequence of 16-bit units |
| `Utf16.LessTrichotomy` | src/domain/canonical-hash.ts:145-149 | The string comparison is a strict total order on 16-bit units |
| `Utf8.PrintWellFormed` | src/domain/canonical-hash.ts:127-134 | Canonical texts contain no unpaired surrogate, so their UTF-8 form loses nothing |
| `Utf8.EncodeScalarExactly` | src/domain/canonical-hash.ts:127-134 | Each scalar is encoded in the shortest form of the table of section 3 of RFC 3629, which decodes to it |
| `Utf8.EncodeInjective` | src/domain/canonical-hash.ts:127-134 | UTF-8 is injective on texts without unpaired surrogates |
| `Utf8.HashDeterminesValue` | src/domain/canonical-hash.ts:127-134 | With a collision-free digest, equal hashes come from equal values |
| `UtcTime.AcceptedExactly` | src/domain/time.ts:37-105 | Exactly the Z timestamps with a real date, a clock time below 24:00:00 without second 60 and a year from 100 on are accepted, and their nanosecond count is that of the calendar |
| `UtcTime.RoundTripExactly` | src/domain/time.ts:70-82 | The Date.UTC round trip succeeds for a valid date exactly when the year is at least 100 |
| `UtcTime.SecondsCount` | src/domain/time.ts:70-97 | The second after a valid date and time, over ends of minutes, days, months, leap years, counts one more |
| `UtcTime.EpochIsZero` | src/domain/time.ts:95-97 | 1970-01-01T00:00:00Z is nanosecond zero |
| `UtcTime.CompareIsFieldOrder` | src/domain/time.ts:84-122 | Comparing epoch nanoseconds is the lexicographic comparison of year, month, day, hour, minute, second and padded fraction |
| `UtcTime.EqualUpToTrailingZeros` | src/domain/time.ts:116-122 | Two accepted timestamps compare equal exactly when they differ at most in trailing fraction zeros |
| `Timing.MillisecondsAreFloor` | src/final-demo/timing.ts:40-75 | Date.parse of an accepted timestamp is the floor of its nanosecond count |
| `Timing.CommitmentCheckExactly` | src/final-demo/timing.ts:40-58 | The millisecond check accepts exactly the timely commitments and those in the deadline's millisecond, late by less than a millisecond, and refuses unparseable texts |
| `Timing.BarrierCheckExactly` | src/final-demo/timing.ts:60-75 | The same for a barrier that must not precede the deadline |
| `Timing.LateCommitmentPasses` | src/final-demo/timing.ts:40-58 | A commitment a hundred nanoseconds after the deadline is accepted |
| `Timing.EarlyBarrierPasses` | src/final-demo/timing.ts:60-75 | A barrier a hundred nanoseconds before the deadline is accepted |
| `Reconciliation.KeyDeterminesSequence` | src/auction/reconciliation.ts:71-88 | The bar-joined identity key repeats only if the sequence number repeats, even when ids contain bars |
| `Reconciliation.ClockBarFree` | src/domain/time.ts:37-105 | No accepted timestamp contains a bar |
| `Reconciliation.ReconcileCommitments` | src/auction/reconciliation.ts:37-98 | Accepts exactly valid commitments with distinct sequences and bid ids, returns them sorted, and never reports DUPLICATE_COMMITMENT |
| `Reconciliation.ReconcileEntries` | src/auction/reconciliation.ts:100-158 | Accepts exactly entries with distinct keys that match their bodies, reports the first failure otherwise, and the object identity check never changes the outcome |
| `Reconciliation.ValidateReconciliationInputs` | src/auction/reconciliation.ts:30-165 | Succeeds exactly on reconcilable inputs, with the reconciled set as result |
| `Reconciliation.ReconciledFacts` | src/auction/reconciliation.ts:93-165 | Reconciled commitments are a permutation of the input, strictly increasing in sequence, with unique bid ids, and the maps hold exactly the consistent entries |
| `Reconciliation.ReconciliationForgetsOrder` | src/auction/reconciliation.ts:30-165 | Reordering the three lists changes neither success nor result |
| `Reconciliation.IsSequenceRangeComplete` | src/auction/reconciliation.ts:171-198 | True exactly when the window is well formed and the observed list is a permutation of it |
| `Eligibility.EvaluateCommitmentEligibility` | src/auction/eligibility.ts:57-365 | The evaluator that adds codes as it goes yields the codes of exactly the broken rules and the evidence fields that go with them |
| `Eligibility.OrderIsComplete` | src/auction/types.ts:34-57 | The fixed code order lists every code |
| `Eligibility.OrderedCodesExactly` | src/auction/eligibility.ts:43-48 | Ordering drops no code and adds none |
| `Eligibility.EligibleIffUnbroken` | src/auction/rules.ts:35-54 | The conjunction of all eligibility rules holds exactly when no code applies |
| `Eligibility.RankableExactly` | src/auction/eligibility.ts:406-409 | A commitment can be ranked exactly when it satisfies every rule, and then carries price, delivery and hash of its bid |
| `Eligibility.ResultIsRight` | src/auction/eligibility.ts:57-365 | Of every readable commitment the result records identity, timeliness, presence and hashes of the evidence, validity and versions as they are; it is QUALIFIED exactly when every rule holds, and holds a code exactly when that rule is broken |
| `Eligibility.PaymentOptionsCodeNeverOccurs` | src/auction/eligibility.ts:332-344 | The catch branch of the recipient check is dead: INVALID_PAYMENT_OPTIONS is never among the codes of a result |
| `Eligibility.EvaluateAllCommitments` | src/auction/eligibility.ts:367-404 | Evaluates every commitment and sorts the results by sequence and bid id |
| `Eligibility.EvaluateAllInOrder` | src/auction/eligibility.ts:396-401 | For reconciled commitments the results stand in commitment order |
| `Ranking.CompareIsRankOrder` | src/auction/ranking.ts:24-40 | The comparator is the strict order by price, delivery instant, consensus instant and bid id, total on distinct bid ids |
| `Ranking.RankOrderTotal` | src/auction/ranking.ts:24-40 | The comparator is a total preorder, so sorting by it is well defined |
| `Ranking.RankQualifiedBids` | src/auction/ranking.ts:42-71 | Collects exactly the rankable results and sorts them by the comparator |
| `Ranking.WinnerIsFirst` | src/auction/ranking.ts:73-78 | The winner is an entry that no entry ranks before; there is none exactly when there are no entries |
| `Ranking.WinnerExactly` | src/auction/ranking.ts:42-78 | The winner of evaluated commitments is the unique best of those that satisfy the declarative rules, null exactly when none does |
| `Ranking.WinnerUnique` | src/auction/rules.ts:35-54 | No auction has two winners |
| `AuctionDocuments.BidSetJsonInjective` | src/auction/decision-manifest.ts:34-92 | The document under the bid-set hash determines tender, version and every ordered entry |
| `AuctionDocuments.ManifestJsonInjective` | src/auction/decision-manifest.ts:105-145 | The document under the manifest hash determines the manifest body |
| `AuctionDocuments.ManifestJsonSays` | src/auction/decision-manifest.ts:130-144 | The manifest document holds each field of the body under its own key, and no other key |
| `AuctionDocuments.EntryJsonSays` | src/auction/decision-manifest.ts:119-126 | An entry holds each field under its own key, the decision as QUALIFIED or REJECTED |
| `AuctionDocuments.BidSetJsonSays` | src/auction/decision-manifest.ts:87-91 | The bid-set document holds tender id, version and entries under their keys |
| `AuctionDocuments.CommitmentJsonSays` | src/auction/decision-manifest.ts:54-66 | The bound commitment holds each field and its timeliness under its own key |
| `AuctionDocuments.EvidenceJsonSays` | src/auction/decision-manifest.ts:53-76 | The bound entry holds the submitted evidence and its schema verdicts under their keys |
| `AuctionDocuments.InterpretationJsonSays` | src/auction/decision-manifest.ts:77-84 | The bound entry holds the validated hashes, verdicts, decision and codes under their keys |
| `AuctionDocuments.CodeNames1` | src/auction/types.ts:34-57 | The published names of the codes of a submission |
| `AuctionDocuments.CodeNames2` | src/auction/types.ts:34-57 | The published names of the codes of hashes, receipt and registration |
| `AuctionDocuments.CodeNames3` | src/auction/types.ts:34-57 | The published names of the codes of the carrier and its bid |
| `AuctionDocuments.CodeNames4` | src/auction/types.ts:34-57 | The published names of the codes of terms and payment |
| `DecisionManifest.CodesStandInOrder` | src/auction/eligibility.ts:43-48 | The codes of every result stand in the published order, each at most once |
| `DecisionManifest.BuiltSays` | src/auction/decision-manifest.ts:105-196 | The header is that of tender and input; entry by entry the manifest and the hashed evidence give each reconciled commitment's identity, QUALIFIED exactly when it is eligible, and exactly the codes of its broken rules; both hashes are of these documents |
| `DecisionManifest.BuildDecisionManifest` | src/auction/decision-manifest.ts:147-196 | Succeeds exactly on buildable input and yields the expected manifest, which says of every commitment whether it is eligible and which rules it breaks, under the header of the input |
| `DecisionManifest.ManifestForgetsOrder` | src/auction/decision-manifest.ts:147-196 | Permuted evidence fails both times or yields the identical manifest, hashes and winner included |
| `DecisionManifest.VerifyDecisionManifestIntegrity` | src/auction/decision-manifest.ts:233-410 | Returns ok exactly when the manifest equals the reconstructed one in every field, entry and hash, its entries are unique and the winner agrees with the rankable results |
| `DecisionManifest.CompareEntries` | src/auction/decision-manifest.ts:324-363 | Reports no error exactly when the two entry lists are equal |
| `DecisionManifest.CheckUnique` | src/auction/decision-manifest.ts:365-377 | Reports no error exactly when bid ids and sequences are unique |
| `DecisionManifest.ReconstructionVerifies` | src/auction/decision-manifest.ts:233-410 | The manifest reconstructed from evaluated, reconciled inputs always verifies |
| `DecisionManifest.ManifestWinner` | src/auction/decision-manifest.ts:105-145 | The published winner is the best eligible commitment with the hash it committed to; none exactly when none is eligible |
| `DecisionManifest.BidSetHashBinds` | src/auction/decision-manifest.ts:34-99 | With a collision-free digest, equal bid-set hashes mean the same tender and the same ordered evidence, interpretation and decision |
| `DecisionManifest.BidSetHashBindsEvidence` | src/auction/decision-manifest.ts:30-99 | With a collision-free digest, two auctions with one bid-set hash have the same commitments and, for each, the same submitted bid and receipt, readable or not |
| `DecisionManifest.ManifestHashBinds` | src/auction/decision-manifest.ts:192-195 | With a collision-free digest, equal manifest hashes mean equal manifest bodies |
| `ClosureProof.ClosureRegistry.Create` | src/auction/closure-proof.ts:96-258 | Succeeds exactly on closable input, registers exactly the proof of that input, and registers nothing on failure |
| `ClosureProof.Prepare` | src/auction/closure-proof.ts:96-254 | All checks of the factory together accept exactly the closable inputs |
| `ClosureProof.AssertManifestIntegrity` | src/auction/closure-proof.ts:206-224 | The tender and integrity assertions never fail on the manifest just built |
| `ClosureProof.ProofIsRight` | src/auction/closure-proof.ts:235-256 | A proof records the fields of its input, the manifest of its evidence, the completeness of its window and one right result for each commitment |
| `ClosureProof.ProofForgetsOrder` | src/auction/closure-proof.ts:96-258 | Permuted evidence closes the auction both times or neither time, and with one and the same proof |
| `AuctionMachine.TransitionKeepsSound` | src/auction/state-machine.ts:84-343 | Every transition keeps the agreement of a context with its authentic proof |
| `AuctionMachine.RunKeepsInv` | src/auction/state-machine.ts:84-343 | After any calls on a fresh machine, proofs made in between, the invariant holds |
| `AuctionMachine.ClosedIsProved` | src/auction/state-machine.ts:124-193 | A closed or decided auction has an authentic proof with complete window, its own deadline, and barrier and evaluation not before it; from reconciliation on the machine's time is not before the deadline |
| `AuctionMachine.ClosedHasExactlyOneExit` | src/auction/state-machine.ts:230-343 | From a reachable closed state exactly one of winner selected and no qualified bid succeeds |
| `AuctionMachine.ClosesExactly` | src/auction/state-machine.ts:124-225 | A pending auction is closed by exactly the authentic proofs for its deadline over a complete window at the right times, and marked incomplete by exactly the authentic proofs over another window |
| `AuctionMachine.EveryClosableAuctionIsDecided` | src/auction/state-machine.ts:84-343 | Every accepted closure input with complete window and timely evaluation has a run from a fresh machine that closes and decides the auction, for a winner exactly when some commitment is eligible |
| `AuctionMachine.IncompleteWindowIsMarked` | src/auction/state-machine.ts:198-225 | With any other window the run ends in INCOMPLETE_HCS_WINDOW |
| `AuctionMachine.TerminalIsAbsorbing` | src/auction/state-machine.ts:33-45 | No calls change the context of an auction in a terminal state |
| `AuctionMachine.TerminalExactly` | src/auction/state-machine.ts:362-368 | The terminal states are exactly those without legal successor |
| `AuctionMachine.ClosedAuctionIsRight` | src/auction/state-machine.ts:124-343 | Past closing, each window position was observed exactly once, every evaluated commitment lies in the window, and manifest and state name the best eligible commitment or, exactly when there is none, nobody |
| `AttemptRecord.StepKeepsInv` | src/final-demo/attempt-store.ts:856-1111 | Every claim, confirm, topic and payment step keeps the record invariant |
| `AttemptRecord.StepPassesValidation` | src/final-demo/attempt-store.ts:445-469 | Every step on an accepted record, a confirmation in particular, yields a record that passes the store's validation |
| `AttemptRecord.ClaimKeepsOutbox` | src/final-demo/attempt-store.ts:856-922 | A message is claimed only at the end of the confirmed prefix |
| `AttemptRecord.ConfirmedMessageSound` | src/final-demo/attempt-store.ts:924-1026 | A confirmed message was in flight, has its expected sequence and meets the CONFIRMED rule |
| `AttemptRecord.StepProgress` | src/final-demo/attempt-store.ts:856-1111 | No step takes back a claim, a topic or a confirmation; a payment id may be replaced by another but not dropped |
| `AttemptRecord.AtMostOneClaim` | src/final-demo/attempt-store.ts:1028-1052 | No history of steps holds two topic claims or two claims of one message |
| `AttemptRecord.TopicNeverChanges` | src/final-demo/attempt-store.ts:1054-1096 | A topic id once set stays, and is neither empty nor the historical topic |
| `AttemptRecord.OutboxIsOrdered` | src/final-demo/attempt-store.ts:196-219 | In every reachable record the confirmed messages are a prefix, at most the next is in flight, and each has its expected sequence |
| `AttemptRecord.HashIsTheClaimedOne` | src/final-demo/attempt-store.ts:997-1012 | A message keeps the envelope hash of its claim for good |
| `AttemptRecord.AmbiguousMessageBlocks` | src/final-demo/attempt-store.ts:963-975 | An ambiguous message before ROUTE_RESERVED stays ambiguous and nothing after it starts |
| `AttemptRecord.AmbiguousIsReached` | src/final-demo/orchestration.ts:796-810 | A history in which the first message is ambiguous and every confirmation of it is refused |
| `AttemptRecord.ClearingForgetsNothing` | src/final-demo/payment-claim-recovery.ts:44-112 | Clearing a payment claim discards no transaction id, finds ROUTE_RESERVED untouched and leaves topic and outbox unchanged |
| `AttemptRecord.PaymentIdStays` | src/final-demo/payment-claim-recovery.ts:91-112 | Once a payment id is recorded it stays, no claim can be cleared and no start is allowed |
| `AttemptRecord.SafeToStartExactly` | src/final-demo/attempt-store.ts:1117-1186 | For reachable records the start guard holds exactly when the record is live, not blocked by status, and nothing is claimed |
| `AttemptRecord.SafeToStartMeansUnclaimed` | src/final-demo/attempt-store.ts:1117-1186 | A reachable record passes the start guard only if no topic or message claim was ever made and no payment claim is outstanding |
| `AttemptRecord.GuardIgnoresFailedClaims` | src/final-demo/attempt-store.ts:1144-1179 | The guard alone lets a failed topic claim pass, in a record that no step produces |
| `AttemptSteps.ClaimExactly` | src/final-demo/attempt-store.ts:866-894 | A message can be claimed exactly when it is the first that is not confirmed and is untouched, for another than the historical topic |
| `AttemptSteps.ClaimStores` | src/final-demo/attempt-store.ts:895-921 | A claimed message holds what the caller gave, and nothing else but the status changes |
| `AttemptSteps.ConfirmExactly` | src/final-demo/attempt-store.ts:936-996 | From either source a confirmation is accepted exactly when it matches the message in flight in topic, sequence and hash and brings a consensus time and a transaction id or the resolver |
| `AttemptSteps.ConfirmStores` | src/final-demo/attempt-store.ts:997-1025 | A confirmed message keeps its claim and holds trimmed transaction id, consensus time, sequence, receipt status and topic; nothing else but the status changes |
| `AttemptSteps.MarkExactly` | src/final-demo/orchestration.ts:796-804 | Exactly a claimed message can be marked submitted or ambiguous |
| `AttemptSteps.TopicClaimExactly` | src/final-demo/attempt-store.ts:1028-1052 | The topic can be claimed exactly while unclaimed, and only claim and status change |
| `AttemptSteps.FinalizeExactly` | src/final-demo/attempt-store.ts:1054-1096 | A claimed topic is finalized exactly with a new topic and a transaction id; then every message expects it |
| `AttemptSteps.MarkTopicExactly` | src/final-demo/attempt-store.ts:1098-1111 | Marking the topic ambiguous is always possible and keeps everything else |
| `AttemptSteps.ClearExactly` | src/final-demo/payment-claim-recovery.ts:44-112 | A payment claim is cleared exactly when it has no transaction id, the reservation has issued its challenge and done nothing since, and ROUTE_RESERVED is untouched; then it can be claimed again |
| `AttemptSteps.PaymentExactly` | src/final-demo/orchestration.ts:1334-1416 | A payment is claimed exactly while unclaimed, and recorded exactly with a transaction id |
| `AttemptSteps.AllMessagesPublish` | src/final-demo/attempt-store.ts:856-1026 | A history exists in which all five messages are claimed and confirmed one after the other, whatever the topic, hashes and answers |
| `Utf16.TrimExactly` | src/final-demo/attempt-store.ts:1002 | Trimming takes off spaces at both ends and nothing else |
| `AttemptStore.AtomicExactly` | src/final-demo/attempt-store.ts:616-696 | A create succeeds exactly on an absent file with a valid record, a compare-and-set exactly on the expected version of the same attempt and mode with a valid successor; what is stored is what was given, apart from the version |
| `AttemptStore.AtomicAdvances` | src/final-demo/attempt-store.ts:642-696 | A successful operation advances the version by one from the expected one and keeps attempt id and mode |
| `AttemptStore.SecondCasFails` | src/final-demo/attempt-store.ts:656-662 | After a successful compare-and-set every other one against the same version fails |
| `AttemptStore.FinalDemoAttemptStore.AcquireLock` | src/final-demo/attempt-store.ts:733-773 | Takes exactly a free lock; a held or unreadable lock is left as it is, with the error that belongs to it |
| `AttemptStore.FinalDemoAttemptStore.ReleaseLock` | src/final-demo/attempt-store.ts:814-823 | Removes the lock exactly when it names the own token |
| `AttemptStore.FinalDemoAttemptStore.WriteAtomic` | src/final-demo/attempt-store.ts:712-731 | The record file holds the whole record and the temporary file is gone |
| `AttemptStore.FinalDemoAttemptStore.CreateRecord` | src/final-demo/attempt-store.ts:616-640 | With a free lock it succeeds exactly when the file is absent and the record valid, and stores the given record with version 1; otherwise nothing changes; the lock is as before |
| `AttemptStore.FinalDemoAttemptStore.CompareAndSet` | src/final-demo/attempt-store.ts:642-696 | With a free lock it succeeds exactly when the current record has the expected version, attempt and mode and the successor is valid, and stores the given record with the next version; otherwise nothing changes; the lock is as before |
| `StoreMachine.StepKeepsInv` | src/final-demo/attempt-store.ts:616-823 | Every file operation of every process, crash or failure keeps the store invariant |
| `StoreMachine.MutualExclusion` | src/final-demo/attempt-store.ts:733-823 | In every run at most one process is between creating and removing the lock file |
| `StoreMachine.FileIsAbsentOrComplete` | src/final-demo/attempt-store.ts:712-731 | In every run the record file is absent or the last committed record, complete and valid |
| `StoreMachine.VersionsFormAChain` | src/final-demo/attempt-store.ts:616-696 | Committed versions are 1, 2, 3, …, from a create and then compare-and-sets against the version before, with one attempt id and mode |
| `StoreMachine.WritesExactly` | src/final-demo/attempt-store.ts:646-690 | In every run a call goes on to write exactly when its operation may succeed on the last committed record |
| `StoreMachine.CommitsAreGiven` | src/final-demo/attempt-store.ts:628-689 | In every run what is committed is the caller's record in every field but the version |
| `StoreMachine.UniqueSuccessor` | src/final-demo/attempt-store.ts:642-696 | No two successful compare-and-sets expected the same version |
| `StoreMachine.SuccessMeansCommitted` | src/final-demo/attempt-store.ts:689-695 | A call that reports a record has committed that record |
| `StoreMachine.StepsAreAtomic` | src/final-demo/attempt-store.ts:616-823 | Each file operation leaves the record file alone or is the whole atomic operation its process was called for |
| `StoreMachine.SoloCallSucceeds` | src/final-demo/attempt-store.ts:616-823 | From a free lock an undisturbed call that the atomic operation accepts gets through, commits and frees the lock again |
| `StoreMachine.OrphanedLockFreezes` | src/final-demo/attempt-store.ts:746-757 | After a crash that leaves the lock behind nothing is ever written again |
| `AttemptHistory.StaleWritersExactly` | src/final-demo/attempt-store.ts:5 | In every run of direct and `persistAttempt` calls, each commit is its caller's step on the very record it replaced if and only if every committed compare-and-set carried a record of the version it was compared with |
| `AttemptHistory.GetGuardsExactly` | src/final-demo/orchestration.ts:362-370 | `persistAttempt` compares with the version that is current when it gets it, which is that of the caller's record exactly when nobody has committed since |
| `AttemptHistory.DecideExactly` | src/final-demo/attempt-store.ts:646-674 | Under the lock a step on a stored record is accepted exactly when nobody committed since its version was got, and refused otherwise |
| `AttemptHistory.PersistCommitsTwoTopicClaims` | src/final-demo/orchestration.ts:362-371 | A run of two `persistAttempt` callers that start from one record and both commit a topic claim |
| `AttemptHistory.PersistRefusesOvertakenClaim` | src/final-demo/orchestration.ts:362-371 | A run in which the second of them is refused because it got the version too early |
| `AttemptHistory.GuardedClaimsOnce` | src/final-demo/attempt-store.ts:856-922 | While every committed compare-and-set was guarded, no topic or message claim was committed twice, `persistAttempt` callers included |
| `AttemptHistory.AtMostOneClaimEver` | src/final-demo/attempt-store.ts:1028-1052 | Among any number of disciplined processes at most one successful compare-and-set carries a topic claim and at most one a claim of each message |
| `AttemptHistory.TopicIsStable` | src/final-demo/attempt-store.ts:1054-1096 | The stored topic id never changes |
| `AttemptHistory.StoredOutboxIsOrdered` | src/final-demo/attempt-store.ts:884-894 | The stored outbox is always a confirmed prefix with at most one message in flight |
| `AttemptHistory.RestartForgetsNothing` | src/final-demo/attempt-store.ts:1117-1186 | A stored record that may be started again has no topic, message or payment effect in its whole history |
| `HcsResolver.ResolveRouteReserved` | src/final-demo/hcs-resolver.ts:25-108 | Answers FOUND exactly for a pristine window 1 to 5 whose last message alone has the wanted hash, AMBIGUOUS otherwise |
| `HcsResolver.PristineEnd` | src/final-demo/hcs-resolver.ts:39-80 | The two loops accept exactly the pristine windows |
| `HcsResolver.PristineCoversWindow` | src/final-demo/hcs-resolver.ts:67-80 | A pristine window has a message at every position |
| `HcsResolver.AnswerForgetsOrder` | src/final-demo/hcs-resolver.ts:50-65 | The answer does not depend on the order of the snapshot |
| `HcsResolver.PublishedIsFound` | src/final-demo/hcs-resolver.ts:43-107 | The window of an attempt's five labels, in any order, is FOUND for its last hash when no other message has it, with the fields of the last message |
| `HcsResolver.FoundConfirms` | src/final-demo/attempt-store.ts:924-1026 | What the resolver finds confirms an unconfirmed ROUTE_RESERVED message of a reachable record, with or without transaction id |
| `InfrastructureRunner.AtMostSeven` | scripts/run-v2-demo-infrastructure-live.ts:72-81 | Submissions in step order are seven at most |
| `InfrastructureRunner.Runner.SaveProgress` | scripts/run-v2-demo-infrastructure-live.ts:194-222 | A crash leaves the old, an unreadable or the new progress file; the network stays accounted for |
| `InfrastructureRunner.Runner.ReconcileRecorded` | scripts/run-v2-demo-infrastructure-live.ts:497-509 | A recorded step goes on only when reconciled; nothing is submitted |
| `InfrastructureRunner.Runner.SuccessfulWriteCount` | scripts/run-v2-demo-infrastructure-live.ts:493-495 | At most seven, and seven exactly when every step has a successful receipt |
| `InfrastructureRunner.Runner.RecordPending` | scripts/run-v2-demo-infrastructure-live.ts:529-544 | The transaction id is on disk before anything is sent |
| `InfrastructureRunner.Runner.Submit` | scripts/run-v2-demo-infrastructure-live.ts:518-567 | At most one transaction is sent, only for the next step and only if none was sent for it before; any stop leaves the file accounting for it; when it goes through, that step alone is changed and has a successful receipt and mirror status under the id that was sent; without failures it goes through |
| `InfrastructureRunner.Runner.NoteOutcome` | scripts/run-v2-demo-infrastructure-live.ts:555-564 | What was sent ends with receipt and mirror success under its id, or stops accounted for |
| `InfrastructureRunner.Runner.CreateFile` | scripts/run-v2-demo-infrastructure-live.ts:577-587 | The file id is the one the step created, unless it was there before |
| `InfrastructureRunner.Runner.CreateContract` | scripts/run-v2-demo-infrastructure-live.ts:602-617 | The contract id is the one the step created and not that of the completed proof |
| `InfrastructureRunner.Runner.CreateTopic` | scripts/run-v2-demo-infrastructure-live.ts:628-640 | The topic id is the one the step created and not that of the completed proof |
| `InfrastructureRunner.Runner.ExecuteWrites` | scripts/run-v2-demo-infrastructure-live.ts:569-641 | Ends with all seven steps reconciled and all identities recorded, or stops with the progress file accounting for everything sent; without failures it ends |
| `InfrastructureRunner.Runner.Run` | scripts/run-v2-demo-infrastructure-live.ts:846-890 | An unreadable progress file stops the run with nothing sent; a completed run has all seven steps reconciled with successful receipts and new identities and, with an honest mirror, seven submissions; a first run in which nothing fails completes |
| `InfrastructureRunner.Runner.Sessions` | scripts/run-v2-demo-infrastructure-live.ts:493-641 | Over any number of starts and crashes each step is submitted at most once, at most seven in all, and the saved steps are a prefix with all but the last reconciled |

## Left out

- The Hedera SDK, the mirror node client, the x402 facilitator, servers and webhooks: only their outcomes appear, as choices.
- ECDSA, SHA-256 and key handling: uninterpreted functions.
- The rules document: its hash is a parameter of the manifest.
- Object schemas beyond the fields that the rules read: `Oracles.bidShape` and `Oracles.receiptShape` stand for them.
- Numbers that are not safe integers and values that `canonicalize` rejects: one-branch facts.
- Evidence that is not JSON: the evaluator throws UNSUPPORTED_EVIDENCE_TYPE for it; the model has no such values.
- Messages of errors: only whether a call throws, and for the reconciliation and the store which code it reports.
- fsync, paths, hostnames, process ids and the in-process mutex: the lock file alone carries the argument. Nothing is claimed about progress once a lock is left behind.
- Removal of a finished or failed dry-run attempt file by the orchestration, outside the lock.
- The orchestration, except for the record steps it makes itself (marking a message, claiming and recording the payment, changing the status). Recording a payment is modelled with a non-empty transaction id.
- The reservation service, proof-of-delivery store, escrow contract and the other live runners.
- Preflights, chunking of the bytecode and the written evidence of the infrastructure runner.
- Rendering of reports, environment guards and secret scans.
- AttemptStore.FinalDemoAttemptStore.AcquireLock: other processes do not act while it waits; `StoreMachine` models that interleaving.
- AttemptStore.FinalDemoAttemptStore.CompareAndSet: the error code of an absent file is that of the failed read; the ATTEMPT_MISSING test behind it is never reached.
- ClosureProof.ClosureRegistry.Create: the evidence lists can be read twice; a one-shot iterable, which the factory would find empty the second time, is not modelled. Nor is the depth of freezing: a proof is a value here, while the code freezes it only shallowly.
- ClosureProof.Prepare: as for ClosureRegistry.Create, evidence that can be read only once is not modelled.
- ClosureProof.AssertManifestIntegrity: with a one-shot iterable the assertion does fail in the code.
- AttemptRecord.StepProgress: the payment id is kept as present, not as the same id, because the orchestration may record another one.
- HcsResolver.ResolveRouteReserved: messages are compared as values where the code compares references, which is the same once their sequences are distinct.
