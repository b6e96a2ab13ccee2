# Agent Hub: a verified model of its core

This project models the parts of Agent Hub whose correctness is hardest to see, and proves what they are for:
sharing model capacity fairly and releasing every lease, taking an inbound delivery once, keeping memory bounded
without losing what must be kept, publishing and approving at most once, and reading back what was written.

| files | what they model |
|---|---|
| `ScopePolicies`, `WeightedRoundRobin`, `ModelCapacity` | deployments folded into quota-scope limits; smooth weighted round-robin over stored credits; candidate ordering |
| `Registration`, `RegistrationSteps`, `RegistrationAgreement`, `Heartbeat` | claims on credentials and scopes in a shared store, with compensation; the same step by step while the catalog may grow, and that the two agree where it does not; the renewal delay and the heartbeat loop |
| `Fallbacks`, `LeasedCompletion` | fallback validation and chains; one completion from acquisition to release, with every failure and cancellation |
| `InboundDedup`, `InboundRetries` | the reservation table with its unique constraints and any number of handlers whose steps interleave and fail; what becomes of a delivery whose submission fails |
| `MemoryRetention`, `MemoryRepository`, `MemoryPlanning`, `MemoryExecution`, `MemoryMaintenance`, `MemoryOutcomes` | judging records, planning a pass, consolidating groups, applying decisions, the audit list; what a pass means record by record and event by event |
| `Improvements`, `Approvals`, `ConfigRevisions` | publishing with an external call between two critical sections; approvals coupled to run resolution; revision history |
| `Framing`, `Segments`, `ResourcePolicy` | Content-Length frames and lines on a byte stream; path normalisation and prefix rules |
| `Prelude`, `Ordering`, `Grouping` | result types, stable sorting, grouping by key |

What the source changes in place is a class whose methods are proved against functions or relations on its state;
what it computes is a function. Where other tasks may run between two steps, the steps are the actions of a state
machine and the results hold for every sequence of them. `Registration` is one attempt over a catalog that stays as it
is meanwhile; `RegistrationSteps` lets it grow between any two store calls. Clock readings, replies of the store, of the
run repository and of providers, and the outcome of every call that may raise are parameters, so each result holds for
all of them.
`dafny verify dfyconfig.toml` checks everything.

## Findings

Where the code does not meet what one would expect of it, the model follows the code, and says exactly when it does.

- A model error is what the caller sees unless the wait for the lease's release is cancelled twice or the release
  itself ends cancelled, as at a shutdown; then the caller sees a cancellation instead
  (`LeasedCompletion.ModelErrorSurvives`, `LeasedCompletion.ModelErrorCanBeHidden`).
- A cancellation that arrives while an outcome is recorded, or once while a lease is released, is forgotten if the
  model had failed; if it failed retryably, the gateway goes on to the next group. One that arrives while a lease is
  released after a good answer is forgotten if recording that answer had failed: the caller sees a gateway error
  (`LeasedCompletion.CancellationIsSeenIff`, `LeasedCompletion.CancellationCanBeForgotten`).
- The catalog may grow while a first registration awaits the store. Passing `_require_initialized` then means holding
  every claim exactly if no entry accepted since planning needs an unplanned fingerprint
  (`RegistrationSteps.RegistrationHoldsIff`, `RegistrationSteps.PassingMeansHoldingIff`,
  `RegistrationSteps.GrowthGoesUnnoticed`); the next refresh repairs it (`RegistrationSteps.RefreshCovers`).
- The rollback of a first registration does not know scopes added after planning. If it had planned, it leaves claimed
  exactly those of them that it had come to; if it fails before, it leaves what an earlier one left. So it leaves none
  of the owner's claims exactly if there were none of these (`RegistrationSteps.FailedFirstLeavesNothingIff`); a run
  from the start that leaves one, and a retry that leaves it again, are in
  `RegistrationSteps.FailedFirstLeavesAScope`.
- A publisher that takes effect and then raises sends its proposal back to draft, and it can be published again; that
  is the only way to a second publication (`Improvements.LastUnlessRaised`, `Improvements.RepeatedOnlyAfterRaising`).
- `mark_completed` does not look at the row's state. Completing a reservation and then cleaning up is harmless exactly
  if no handler is still submitting under it; otherwise a second submission of the same message can start
  (`InboundDedup.CompletionIsSafeIffUnowned`, `InboundDedup.EarlyCompletionBreaks`).
- A reservation whose handler dies, is cancelled, or cannot release it after its submission failed stays in the way:
  until it is reported completed no redelivery is submitted and whoever waits for its run waits in vain. Nothing else
  leaves one behind (`InboundRetries.OrphanedIff`, `InboundRetries.OrphanBlocks`); a reservation that is released frees
  its message (`InboundRetries.FailedSubmissionFreesIds`, `InboundRetries.RetryIsSubmitted`).
- Normalising a resource twice gives the same as once unless the first result has a colon as its second character;
  then it is refused (`ResourcePolicy.IdempotentIff`, `ResourcePolicy.NotIdempotent`).
- Asking for an approval may hand out a pending record that has already expired (`Approvals.StaleRecordIsReturned`).
  It is live exactly if no pending record of the fingerprint is past its expiry and, where there is none, records
  live for some time (`Approvals.HandedLiveIff`). After a sweep that was not cut short this means that no record of
  the fingerprint that survived the sweep has expired between its reading of the clock and the request
  (`Approvals.SweptIsHandedLiveIff`, `Approvals.RequestAfterSweep`).
- Cancelling `publish` between its two critical sections leaves the proposal publishing for ever, and nothing else
  does (`Improvements.StrandedIffCancelled`, `Improvements.StrandedForEver`).
- The last check of `normalize_resource`, for a leading slash, can never fail (`ResourcePolicy.RefusedExactlyIf`).

## Model

| member | source | states |
|---|---|---|
| `ScopePolicies.SafeOperationalLimit` | src/agent_hub/models/capacity.py:138-162 | an accepted limit lies between 1 and the concurrency minus reserved slots, and within the usable share unless that rounds to 0; exactly which inputs are refused |
| `ScopePolicies.ValidationSucceeds` | src/agent_hub/models/capacity.py:317-343 | a batch is accepted exactly if it agrees with the catalog and itself and, once frozen, brings nothing new; it adds the batch and nothing else |
| `ScopePolicies.ValidationStopsAt` | src/agent_hub/models/capacity.py:317-343 | a failed validation has taken in all deployments before the first offender and nothing else, and says whether that one was known otherwise or new to a frozen catalog |
| `ScopePolicies.AdmitKeepsCoherent` | src/agent_hub/models/capacity.py:331-343 | tightening one scope by one deployment keeps every scope's policy the exact minimum over its catalogued deployments, absent rates ignored |
| `ScopePolicies.PoliciesUnique` | src/agent_hub/models/capacity.py:317-343 | exact policies are a function of the catalog alone |
| `ScopePolicies.PoliciesIgnoreOrder` | src/agent_hub/models/capacity.py:317-343 | batches naming the same deployments in any order and multiplicity are accepted alike and leave the same policies |
| `ModelCapacity.CapacityPool.ValidateConfiguration` | src/agent_hub/models/capacity.py:317-343 | folds in order up to the first conflict and leaves the policies exact even then |
| `WeightedRoundRobin.RunLedger` | src/agent_hub/models/capacity.py:662-670 | after n picks from zero, credit is n times weight minus count times total, above minus the total, and all credits sum to 0 |
| `WeightedRoundRobin.WholeRoundsAreExact` | src/agent_hub/models/capacity.py:662-670 | after whole rounds every deployment was chosen exactly in proportion to its weight and every credit is 0 |
| `WeightedRoundRobin.NeverAheadOfShare` | src/agent_hub/models/capacity.py:662-670 | at no moment is a deployment a whole pick ahead of its share |
| `WeightedRoundRobin.CallsRunScope` | src/agent_hub/models/capacity.py:645-670 | what repeated orderings pick in one scope is a round-robin run of that scope |
| `WeightedRoundRobin.CallsShareExactly` | src/agent_hub/models/capacity.py:645-670 | repeated orderings offer each deployment exactly in proportion to its weight in its scope |
| `WeightedRoundRobin.CreditsConserved` | src/agent_hub/models/capacity.py:645-670 | over calls on any candidate subsets the sum of all stored credits stays 0 |
| `ModelCapacity.CapacityPool.AddWeights` | src/agent_hub/models/capacity.py:662-667 | every deployment earns its weight; returns the total |
| `ModelCapacity.CapacityPool.MostCredited` | src/agent_hub/models/capacity.py:668 | the largest credit, ties to the smaller id |
| `ModelCapacity.CapacityPool.WeightedChoice` | src/agent_hub/models/capacity.py:662-670 | the winner by credit and id pays the total of the group; nobody else's credit and no credit in total changes otherwise |
| `ModelCapacity.CapacityPool.ChooseRepresentatives` | src/agent_hub/models/capacity.py:645-655 | one pick in each scope, scopes not touching each other's credits |
| `ModelCapacity.CapacityPool.OrderedCandidates` | src/agent_hub/models/capacity.py:645-660 | exactly one candidate per distinct scope, sorted by load over base limit with ties by scope id; nobody but the candidates gains or loses credit |
| `WeightedRoundRobin.LoadOrderCrosswise` | src/agent_hub/models/capacity.py:650-660 | scopes are compared by load against base limit exactly, crosswise, with ties broken by scope id and then deployment id |
| `Registration.RegistrationDeadline` | src/agent_hub/models/capacity.py:530-536 | the deadline is nine tenths of a lifetime after the start, for lifetimes under ten milliseconds one millisecond short of it, and in any case short of the earliest possible expiry of the claims |
| `Registration.PlannedFingerprints` | src/agent_hub/models/capacity.py:400-430 | one fingerprint per entry, never one for two scopes; exactly why planning fails |
| `Registration.PlanCovers` | src/agent_hub/models/capacity.py:400-460 | the planned claims include everything a catalog needs |
| `Registration.ClaimNext` | src/agent_hub/models/capacity.py:431-480 | one more claim renews its key and moves nothing else |
| `Registration.CreatedNext` | src/agent_hub/models/capacity.py:457-480 | a key is recorded as created exactly if its claim met no live entry at that call |
| `Registration.CreatedIffDeadWhenClaimed` | src/agent_hub/models/capacity.py:457-480 | an attempt shorter than a lifetime creates exactly the entries not alive when it first came to them |
| `Registration.OutlivingIsNotCreated` | src/agent_hub/models/capacity.py:457-480 | however long the attempt, an entry that outlives it is none that it created |
| `Registration.CapacityRegistration.ClaimAll` | src/agent_hub/models/capacity.py:431-480 | claims in order until a call fails or is cancelled, and lists exactly the keys it created |
| `Registration.CapacityRegistration.ClaimOrUndo` | src/agent_hub/models/capacity.py:431-495 | either all the work is claimed, or all of it is taken back, or exactly what was created if a registration was current |
| `Registration.CapacityRegistration.RollbackRegistration` | src/agent_hub/models/capacity.py:552-584 | removes exactly this owner's entries for the given keys |
| `Registration.CapacityRegistration.RegisterMetadata` | src/agent_hub/models/capacity.py:400-495 | success means every needed claim outlives the deadline; a failed first attempt leaves none of the planned claims; of the claims held before, a failed refresh removes exactly those it created itself, and it leaves no other (for a catalog that does not grow meanwhile) |
| `Registration.CapacityRegistration.EnsureRegistration` | src/agent_hub/models/capacity.py:353-398 | success means holding an unexpired claim on everything required, and a forced call or one that finds nothing current or a refresh due has registered anew with a new deadline and refresh time; exactly when it succeeds, and what a failure leaves: nothing of a first registration, of a refresh exactly what it did not create (for a catalog that does not grow meanwhile) |
| `Registration.CapacityRegistration.RegisterUnderLock` | src/agent_hub/models/capacity.py:374-398 | an attempt opens the gate and freezes the catalog exactly if it succeeds; a failure closes the gate and forgets the deadline unless a registration was current |
| `Registration.CapacityRegistration.RequireInitialized` | src/agent_hub/models/capacity.py:592-599 | when no attempt saw the catalog grow, passing the check means holding an unexpired claim on every fingerprint and scope of the catalog |
| `RegistrationSteps.StepKeepsInv` | src/agent_hub/models/capacity.py:317-495 | every step of an attempt, every addition to the catalog and every check keeps: planned keys are claimed as far as the attempt has come, scopes are held while initialised |
| `RegistrationSteps.RegistrationHoldsIff` | src/agent_hub/models/capacity.py:378-398 | a successful attempt holds all that its catalog needs exactly if no entry accepted since planning needs an unplanned fingerprint |
| `RegistrationSteps.PassingMeansHoldingIff` | src/agent_hub/models/capacity.py:592-599 | in every run, passing the check means holding everything exactly if that was so for the last success |
| `RegistrationSteps.RefreshCovers` | src/agent_hub/models/capacity.py:378-398 | once the catalog is frozen every later success covers all of it |
| `RegistrationSteps.PlanGivesUpIff` | src/agent_hub/models/capacity.py:400-427 | planning fails exactly for missing credential metadata or a credential shared by two scopes |
| `RegistrationSteps.HarmlessRunsHold` | src/agent_hub/models/capacity.py:317-343 | if nothing unplanned is added between planning and freezing, passing the check always means holding everything |
| `RegistrationSteps.GrowthGoesUnnoticed` | src/agent_hub/models/capacity.py:317-343 | an entry added while the first one's claim is awaited: the check passes without its fingerprint being held |
| `RegistrationSteps.FailedFirstLeavesNothingIff` | src/agent_hub/models/capacity.py:427-495 | however a registration fails before the catalog is frozen, in any run: past planning it leaves exactly the late scopes it had claimed, before that what was held already; so nothing exactly if there are none |
| `RegistrationSteps.FailedFirstLeavesAScope` | src/agent_hub/models/capacity.py:427-495 | a run from the start whose failed first registration leaves a late scope claimed, and a retry that fails while resolving and leaves it too |
| `RegistrationAgreement.AttemptFollows` | src/agent_hub/models/capacity.py:378-495 | for every attempt that comes to claiming, with its clock and its store replies, there is a run of steps without additions that ends with the claims, deadline and flags that `RegisterMetadata` and `EnsureRegistration` promise, whether it succeeds, fails or is interrupted |
| `RegistrationAgreement.ReportedProgress` | src/agent_hub/models/capacity.py:457-480 | what an attempt takes down as created, call by call, is exactly what it created |
| `Heartbeat.SafeRenewalDelay` | src/agent_hub/models/capacity.py:793-798 | the delay is at most half of the lifetime that is certainly left; 0 exactly if the call took the whole lease |
| `Heartbeat.Delay` | src/agent_hub/models/gateway.py:605-622 | what the loop sleeps leaves at least as much lifetime again |
| `Heartbeat.PromptArrivesInTime` | src/agent_hub/models/capacity.py:760-798 | a renewal that takes less than half of the lifetime left reaches the store before expiry |
| `Heartbeat.HalfIsTooMuch` | src/agent_hub/models/capacity.py:793-798 | the bound is sharp: with exactly half, a renewal can meet an expired lease |
| `Heartbeat.PromptKeepsLease` | src/agent_hub/models/gateway.py:605-622 | prompt renewals keep the lease however many there are |
| `Heartbeat.StreakDecides` | src/agent_hub/models/gateway.py:609-618 | the counter of immediate renewals reaches its limit exactly at the fourth grant running without a pause |
| `Heartbeat.Beat` | src/agent_hub/models/gateway.py:605-622 | at most three renewals run without a pause before the loop fails; every renewal before the end met a live lease; exactly why the loop ends |
| `Heartbeat.BeatPromptly` | src/agent_hub/models/gateway.py:605-622 | with prompt renewals the loop never reports an expired lease, and fails only when four calls each took a whole lease |
| `Fallbacks.AcyclicIffChainsEnd` | src/agent_hub/models/gateway.py:302-320 | a configuration is acyclic exactly if every model's chain ends, and then within as many steps as it has entries |
| `Fallbacks.WalkIsShort` | src/agent_hub/models/gateway.py:439-446 | on an acyclic configuration a walk never repeats a model |
| `Fallbacks.FirstEdgeErrorMeaning` | src/agent_hub/models/gateway.py:303-312 | the edge checks pass exactly if every edge is between two different known models with safe names, and otherwise report the fault of the first edge that is not |
| `Fallbacks.ValidateFallbacks` | src/agent_hub/models/gateway.py:302-320 | terminates and accepts exactly the acyclic maps between different known models with safe names; every other fault is reported exactly for the first edge that has it, a cycle exactly if no edge has one |
| `Fallbacks.CheckEdges` | src/agent_hub/models/gateway.py:303-312 | the first complaint in configuration order |
| `Fallbacks.SafeNames` | src/agent_hub/models/types.py:11-42 | names have up to 128 lower-case letters and digits, with underscores and hyphens anywhere but first |
| `Fallbacks.CheckAcyclic` | src/agent_hub/models/gateway.py:313-320 | true exactly for acyclic configurations |
| `Fallbacks.WalkEnds` | src/agent_hub/models/gateway.py:313-320 | stops at the end of the chain or at a model met twice, which is a cycle |
| `Fallbacks.FallbackChain` | src/agent_hub/models/gateway.py:439-446 | starts at the requested model, follows the configuration, never repeats, has at most one more model than the configuration entries and ends at a model without fallback |
| `Fallbacks.CandidateGroups` | src/agent_hub/models/gateway.py:325-348 | the chain up to the first model without a capable deployment; refused exactly if that is the requested one |
| `LeasedCompletion.EveryLeaseIsReleased` | src/agent_hub/models/gateway.py:448-533 | in a disciplined log every acquisition is followed by its own release before anything else is acquired or released |
| `LeasedCompletion.LeasedEventsDisciplined` | src/agent_hub/models/gateway.py:448-533 | one leased attempt is a disciplined stretch, whatever fails |
| `LeasedCompletion.TraceDisciplined` | src/agent_hub/models/gateway.py:349-396 | over all groups at most one lease is held at a time and every one is released exactly once |
| `LeasedCompletion.ModelErrorSurvives` | src/agent_hub/models/gateway.py:508-533 | a model error is reported exactly unless the wait for the release is cancelled twice or the release itself ends cancelled |
| `LeasedCompletion.ModelErrorCanBeHidden` | src/agent_hub/models/gateway.py:624-638 | under any granted lease, an upstream 400 after which the caller sees a cancellation: once because the wait for the release is cancelled twice, once because the release ends cancelled |
| `LeasedCompletion.CancellationIsSeenIff` | src/agent_hub/models/gateway.py:349-396 | exactly when a delivered cancellation is what the caller sees, and when the gateway goes on to the next group |
| `LeasedCompletion.CancellationCanBeForgotten` | src/agent_hub/models/gateway.py:508-533 | under any granted lease, cancellations while recording and while releasing that are followed by the next group after an upstream 503, and one while releasing that becomes a gateway error because recording a good answer had failed |
| `LeasedCompletion.ReturnsIffSucceeds` | src/agent_hub/models/gateway.py:325-396 | a response is returned exactly if transport, recording and release of some attempt all succeeded and every earlier one may move on; it is the response of the first such attempt |
| `LeasedCompletion.VerdictMeaning` | src/agent_hub/models/gateway.py:349-396 | which attempts return, which move on to the next group |
| `LeasedCompletion.VerdictByCause` | src/agent_hub/models/gateway.py:448-533 | what a leased attempt comes to, cause by cause: returned, retried, refused, not recorded, not released; a cancellation out of the release beats all of it |
| `LeasedCompletion.RetryableByCause` | src/agent_hub/models/gateway.py:462-500 | the error that a retryable failure carries, cause by cause |
| `LeasedCompletion.OtherVerdicts` | src/agent_hub/models/gateway.py:349-380 | without a matching lease: only lack of capacity moves on, and a wrong lease is released and refused |
| `LeasedCompletion.OutcomeRecordedIff` | src/agent_hub/models/gateway.py:505-520 | the health of the scope hears of a success exactly for a good answer, of a failure exactly for one that is worth retrying or refused outright, with the status the provider gave |
| `LeasedCompletion.LastFailureIsRaised` | src/agent_hub/models/gateway.py:382-402 | when no attempt decides, the caller sees the last retryable failure, or lack of capacity if there was none |
| `LeasedCompletion.AsciiBlankIff` | src/agent_hub/models/gateway.py:483-490 | which texts count as empty |
| `LeasedCompletion.ModelGateway.ReleaseCleanup` | src/agent_hub/models/gateway.py:624-638 | issues one release whatever happens to it; raises exactly if the second wait is cancelled or the release itself ends cancelled |
| `LeasedCompletion.ModelGateway.CallModel` | src/agent_hub/models/gateway.py:448-507 | the first failure among credential, transport, heartbeat and empty answer; when the scope is to hear of it |
| `LeasedCompletion.ModelGateway.CompleteLeased` | src/agent_hub/models/gateway.py:448-533 | result and events of a leased call for every outcome of every step; exactly when a model error is reported |
| `LeasedCompletion.ModelGateway.TryGroup` | src/agent_hub/models/gateway.py:349-396 | one turn of the loop: next group, retry, raise or return |
| `LeasedCompletion.ModelGateway.CompleteWithContext` | src/agent_hub/models/gateway.py:325-396 | the first group that neither lacks capacity nor fails retryably decides; otherwise the last retryable failure is raised |
| `InboundDedup.InboundDedupRepository.FindExisting` | src/agent_hub/channels/dedup.py:193-226 | the oldest row sharing the event or message id, or none exists |
| `InboundDedup.InboundDedupRepository.InsertReservation` | src/agent_hub/channels/dedup.py:159-183 | inserts exactly if no unique constraint is violated |
| `InboundDedup.InboundDedupRepository.MarkSubmitted` | src/agent_hub/channels/dedup.py:80-90 | attaches the run to its row and touches no other |
| `InboundDedup.InboundDedupRepository.MarkCompleted` | src/agent_hub/channels/dedup.py:92-102 | completes its row, in whatever state it is |
| `InboundDedup.InboundDedupRepository.ReleaseReservation` | src/agent_hub/channels/dedup.py:104-118 | a row that is reserved without a run is gone, and no other row changes |
| `InboundDedup.InboundDedupRepository.CleanupCompletedOlderThan` | src/agent_hub/channels/dedup.py:138-157 | removes exactly the rows completed before the cutoff and counts them |
| `InboundDedup.StepKeepsInv` | src/agent_hub/channels/gateway.py:51-101 | every step of every handler, failed or not, keeps: one row per event id and message id, one owner per live reservation, truthful outcomes |
| `InboundDedup.StepKeepsSound` | src/agent_hub/channels/dedup.py:80-157 | every step, and completion at any time, keeps: one row per event id and message id, no reservation with two handlers, no run attached under a live submission |
| `InboundDedup.EveryRunIsExclusive` | src/agent_hub/channels/gateway.py:51-101 | from any sound state, every interleaving keeps submissions exclusive |
| `InboundDedup.AlwaysExclusive` | src/agent_hub/channels/gateway.py:51-101 | from an empty table, in every interleaving, at most one live submission per event and per message |
| `InboundDedup.RunIdIsSetOnce` | src/agent_hub/channels/dedup.py:80-157 | in every run, however early completions are reported, a run id seen at any moment is there at every later moment, unchanged, until its completed row is cleaned up |
| `InboundDedup.NoSubmissionBesideARun` | src/agent_hub/channels/dedup.py:72-90 | in every run that completes no reservation under a submission, while a row with a run id remains, nobody is submitting for its event or message |
| `InboundDedup.NewSubmissionNeedsFreeIds` | src/agent_hub/channels/dedup.py:72-78 | submitting starts only while no row shares the event or message id |
| `InboundDedup.AttachesOnce` | src/agent_hub/channels/dedup.py:80-90 | a run is attached only to a row that never had one |
| `InboundDedup.OnlyCleanupRemoves` | src/agent_hub/channels/dedup.py:104-157 | a row with a run disappears only by cleanup after completion |
| `InboundDedup.RunIdsArePermanent` | src/agent_hub/channels/dedup.py:80-157 | one step leaves an attached run id as it is, or cleans up its completed row |
| `InboundDedup.CompletionIsSafeIffUnowned` | src/agent_hub/channels/dedup.py:92-102 | reporting completion keeps submissions exclusive in all futures exactly if no handler is submitting under the row |
| `InboundDedup.EarlyCompletionBreaks` | src/agent_hub/channels/dedup.py:92-102 | the steps by which a completion that comes too early lets a second submission start |
| `InboundDedup.AttachedIsUnowned` | src/agent_hub/channels/dedup.py:80-102 | a row with a run id has no handler submitting under it, so completing it is safe |
| `InboundRetries.FailedSubmissionFreesIds` | src/agent_hub/channels/gateway.py:79-97 | however a submission fails and whatever others do before its release: unless that reservation is reported completed, no row shares its event or message id afterwards |
| `InboundRetries.RetryIsSubmitted` | src/agent_hub/channels/gateway.py:79-97 | so the next delivery of the message is submitted under a reservation of its own |
| `InboundRetries.ReleaseFreesIff` | src/agent_hub/channels/dedup.py:104-118 | a release frees the ids exactly if the row is still reserved without a run |
| `InboundRetries.OrphanedIff` | src/agent_hub/channels/gateway.py:84-97 | a handler leaves its reservation orphaned exactly by dying, cancellation included, or by failing to release it |
| `InboundRetries.OrphanStaysOver` | src/agent_hub/channels/dedup.py:104-118 | an orphaned reservation stays as it is over every run in which it is not reported completed |
| `InboundRetries.OrphanBlocks` | src/agent_hub/channels/dedup.py:72-78 | as long as it does, no run is attached to it and no delivery that shares an id with it is submitted |
| `InboundRetries.DeliveryIsAccepted` | src/agent_hub/channels/gateway.py:51-101 | a delivery with free ids that nothing disturbs is accepted with the run made for it, and its row has that run |
| `InboundRetries.DuplicateGetsRun` | src/agent_hub/channels/gateway.py:61-76 | a duplicate is answered with the run of the oldest row in its way, or waits for it |
| `InboundRetries.WaitingGetsRun` | src/agent_hub/channels/dedup.py:120-135 | one that waits gets the run as soon as it looks after the run was attached |
| `InboundRetries.LostInsertionIsDuplicate` | src/agent_hub/channels/dedup.py:72-78 | losing the race for an insertion makes a delivery a duplicate, in either attempt |
| `InboundRetries.TwoAttempts` | src/agent_hub/channels/dedup.py:72-78 | a lost insertion is repeated once if the row in the way is gone, and not twice |
| `InboundRetries.AcceptedHasRow` | src/agent_hub/channels/gateway.py:79-83 | a run is reported only for a row that has it, however early completions are reported |
| `InboundRetries.UnaddressedIsIgnored` | src/agent_hub/channels/gateway.py:52-58 | a message not meant for the agent is neither reserved nor submitted in any run |
| `MemoryRetention.RetentionScore` | src/agent_hub/memory/maintenance.py:371-381 | scores lie between 0 and 1 |
| `MemoryRetention.ScoreIsMonotone` | src/agent_hub/memory/maintenance.py:371-381 | worth as much in every respect and marked no worse means scored no lower |
| `MemoryOutcomes.ScoreParts` | src/agent_hub/memory/maintenance.py:371-381 | what each component adds to a score between the bounds |
| `MemoryOutcomes.NothingScoresZero` | src/agent_hub/memory/maintenance.py:371-381 | a record with nothing for it or against it scores 0 |
| `MemoryOutcomes.WholeDays` | src/agent_hub/memory/maintenance.py:50-86 | ages count whole days of 24 hours |
| `MemoryOutcomes.DecisionExplains` | src/agent_hub/memory/maintenance.py:38-113 | every decision names its record, its score and the one reason that applies |
| `MemoryRetention.WhatIsDecided` | src/agent_hub/memory/maintenance.py:38-113 | exactly which records are deleted, archived, tombstoned or cooled when judged on their own |
| `MemoryRetention.PlannedIsStillValid` | src/agent_hub/memory/maintenance.py:361-369 | at one clock reading the check before a destructive step never turns down what was planned |
| `MemoryRetention.EvaluatedOutcome` | src/agent_hub/memory/maintenance.py:38-113 | judging and applying deletes exactly the unprotected records whose window has elapsed and keeps identity, key and protection of the others |
| `MemoryRetention.Fate` | src/agent_hub/memory/maintenance.py:115-187 | what a pass does to any record: consolidated, displaced, deleted or kept |
| `MemoryRetention.ProtectedUnchanged` | src/agent_hub/memory/maintenance.py:147-168 | locked and core records are left exactly as they were |
| `MemoryRetention.PurgedIffWindowElapsed` | src/agent_hub/memory/maintenance.py:38-113 | a record disappears exactly if it is unprotected and was tombstoned or archived for its window |
| `MemoryRetention.WorkingSetsAreBounded` | src/agent_hub/memory/maintenance.py:189-230 | after a pass no owner has more active unprotected records than allowed |
| `MemoryRetention.SourcesAreTheConsolidated` | src/agent_hub/memory/maintenance.py:268-320 | a new summary's sources are exactly the records archived with its id |
| `MemoryRetention.SecondPassFindsNoGroup` | src/agent_hub/memory/maintenance.py:232-266 | a second pass at the same clock has nothing to consolidate |
| `MemoryRetention.NothingLeftToPurge` | src/agent_hub/memory/maintenance.py:54-80 | a second pass at the same clock has nothing to delete |
| `MemoryRepository.InMemoryMemoryRepository.Upsert` | src/agent_hub/memory/repository.py:15-18 | replaces or adds one record |
| `MemoryRepository.InMemoryMemoryRepository.Delete` | src/agent_hub/memory/repository.py:24-26 | removes one record and tells whether it was there |
| `MemoryRepository.InMemoryMemoryRepository.ListAll` | src/agent_hub/memory/repository.py:36-38 | every record once, in order of insertion |
| `MemoryPlanning.SortedMembersAreGroup` | src/agent_hub/memory/maintenance.py:232-254 | the compressible records of one key, oldest first, form a group exactly if they are enough |
| `MemoryPlanning.CollectedAll` | src/agent_hub/memory/maintenance.py:232-254 | no key with enough compressible records is left out |
| `MemoryPlanning.LowestOfOwner` | src/agent_hub/memory/maintenance.py:208-226 | an owner's surplus is its lowest ranked by score, heat and last update |
| `MemoryPlanning.DisplacedAll` | src/agent_hub/memory/maintenance.py:189-230 | every owner's surplus is displaced and nothing else |
| `MemoryPlanning.Overridden` | src/agent_hub/memory/maintenance.py:228-230 | after the override every record still has exactly one decision, and the right one |
| `MemoryMaintenance.MemoryMaintenanceService.SelectCompressible` | src/agent_hub/memory/maintenance.py:256-266 | exactly the compressible records |
| `MemoryMaintenance.MemoryMaintenanceService.CompressionGroups` | src/agent_hub/memory/maintenance.py:232-254 | all groups large enough, one per key, oldest first |
| `MemoryMaintenance.MemoryMaintenanceService.SelectEligible` | src/agent_hub/memory/maintenance.py:195-206 | exactly the records that count against an owner's limit |
| `MemoryMaintenance.MemoryMaintenanceService.Replacements` | src/agent_hub/memory/maintenance.py:189-230 | overrides exactly each owner's lowest-ranked surplus |
| `MemoryMaintenance.MemoryMaintenanceService.CompressionDecisions` | src/agent_hub/memory/maintenance.py:118-128 | one decision for every grouped record |
| `MemoryMaintenance.MemoryMaintenanceService.LifecycleDecisions` | src/agent_hub/memory/maintenance.py:129-131 | every other record judged on its own |
| `MemoryMaintenance.MemoryMaintenanceService.Plan` | src/agent_hub/memory/maintenance.py:116-132 | groups, the cap, and exactly one right decision for every record |
| `MemoryMaintenance.MemoryMaintenanceService.CompressGroup` | src/agent_hub/memory/maintenance.py:268-320 | re-reads the group and consolidates what is still compressible into one summary, or does nothing if too little is left |
| `MemoryMaintenance.MemoryMaintenanceService.ArchiveSources` | src/agent_hub/memory/maintenance.py:303-320 | archives and audits every source, and changes no other record |
| `MemoryMaintenance.MemoryMaintenanceService.Apply` | src/agent_hub/memory/maintenance.py:147-178 | carries out one decision if it is still valid, with its audit event; touches no other record |
| `MemoryMaintenance.MemoryMaintenanceService.ConsolidateOne` | src/agent_hub/memory/maintenance.py:141-145 | by its turn nothing of a planned group has changed, so all of it is consolidated |
| `MemoryMaintenance.MemoryMaintenanceService.Maintain` | src/agent_hub/memory/maintenance.py:115-187 | the plan carried out as decided; records grow by summaries and shrink by purges; the audit grows by exactly the counted events; a dry run changes nothing |
| `MemoryExecution.CarriedOut` | src/agent_hub/memory/maintenance.py:136-187 | consolidating and then applying every decision is what the plan says, audited as planned |
| `MemoryExecution.ChangesAreAudited` | src/agent_hub/memory/maintenance.py:348-359 | no record changes or disappears without an event that names it |
| `MemoryExecution.KindsPartition` | src/agent_hub/memory/maintenance.py:136-187 | audit growth is the sum of the five counters |
| `MemoryOutcomes.SummaryBelongs` | src/agent_hub/memory/maintenance.py:277-294 | a summary has the tenant, user, project and conversation of every one of its sources, is locked and never consolidated again, and is as confident as its most confident source but at most 0.95 |
| `MemoryOutcomes.GroupedIff` | src/agent_hub/memory/maintenance.py:232-266 | a record is consolidated exactly if it is a plain unexpired memory and enough others of its user, project, conversation and category are |
| `MemoryOutcomes.AsManyStayAsFit` | src/agent_hub/memory/maintenance.py:189-230 | of an owner's counted records exactly as many stay as the limit allows |
| `MemoryOutcomes.KeptOutranksDisplaced` | src/agent_hub/memory/maintenance.py:208-226 | whoever stays outranks whoever goes by score, then heat, then last update |
| `MemoryOutcomes.EveryChange` | src/agent_hub/memory/maintenance.py:136-187 | exactly which records a pass archives, tombstones or cools, with which marks and for which reason; nothing else of a record changes |
| `MemoryOutcomes.RereadIs` | src/agent_hub/memory/maintenance.py:268-276 | a group is consolidated from its records as they are now, as far as they are still plain memories |
| `MemoryOutcomes.OutdatedIsSkipped` | src/agent_hub/memory/maintenance.py:361-369 | a destructive step is skipped exactly if its record is protected or by now due for something else |
| `MemoryOutcomes.EventsTellTheTruth` | src/agent_hub/memory/maintenance.py:348-359 | every audit event is dated, names a summary or record and its owner, and says what became of it and why |
| `Improvements.ImprovementService.StoreDraft` | src/agent_hub/improvements/service.py:184-191 | returns the stored proposal of the fingerprint, storing one only if there is none |
| `Improvements.ImprovementService.BeginPublish` | src/agent_hub/improvements/service.py:226-233 | only a draft becomes publishing |
| `Improvements.ImprovementService.FinishPublish` | src/agent_hub/improvements/service.py:258-272 | stores the published snapshot if the proposal is still publishing |
| `Improvements.ImprovementService.FailPublish` | src/agent_hub/improvements/service.py:249-257 | back to a draft if still publishing |
| `Improvements.StepKeepsInv` | src/agent_hub/improvements/service.py:208-272 | every step of every task keeps: a running call holds its proposal publishing and unchanged, no two share one, publications are accounted for |
| `Improvements.OneCallAtATime` | src/agent_hub/improvements/service.py:226-248 | a proposal's publisher is in flight at most once and only while it is publishing |
| `Improvements.RepeatedOnlyAfterRaising` | src/agent_hub/improvements/service.py:208-272 | counting every publication that took effect, one that is followed by another of the same proposal is one whose call then raised |
| `Improvements.LastUnlessRaised` | src/agent_hub/improvements/service.py:234-272 | a publication is the last one of its proposal in every future exactly unless its call raised |
| `Improvements.RecheckNeverFails` | src/agent_hub/improvements/service.py:265-272 | the final re-check never fails, and storing the snapshot loses no change |
| `Improvements.PublishedIsFinal` | src/agent_hub/improvements/service.py:208-272 | a published proposal never changes again |
| `Improvements.UniqueByFingerprint` | src/agent_hub/improvements/service.py:184-191 | a stored proposal is the only one of its tenant and fingerprint |
| `Improvements.StrandedIffCancelled` | src/agent_hub/improvements/service.py:249-257 | a proposal is left publishing without a call exactly if its call was cancelled |
| `Improvements.StrandedForEver` | src/agent_hub/improvements/service.py:226-233 | such a proposal stays so under all later steps |
| `Approvals.ApprovalService.BindRunRepository` | src/agent_hub/capabilities/approvals.py:98-99 | from now on settling a record also resolves its run; records and resolutions stay |
| `Approvals.ApprovalService.Create` | src/agent_hub/capabilities/approvals.py:104-107 | the pending record of the fingerprint, or a new one |
| `Approvals.ApprovalService.StartWaiting` | src/agent_hub/capabilities/approvals.py:109-117 | the record stays even if the run does not begin to wait |
| `Approvals.ApprovalService.Approve` | src/agent_hub/capabilities/approvals.py:119-146 | the caller is told that the record is approved exactly if this call approved it: own user, same request, in time, run repository agreeing; expired exactly if this call expired it; any other answer means nothing changed |
| `Approvals.ApprovalService.Reject` | src/agent_hub/capabilities/approvals.py:148-194 | never answered with a record: rejected or expired exactly if this call did that, and otherwise nothing changed |
| `Approvals.ApprovalService.ExpireDue` | src/agent_hub/capabilities/approvals.py:196-221 | expires due records in order until the run repository refuses one; if none is refused, returns how many were due |
| `Approvals.ApprovedIffTold` | src/agent_hub/capabilities/approvals.py:119-146 | in every run a record is approved exactly if one caller was told so, and no second one ever is |
| `Approvals.SweepCounts` | src/agent_hub/capabilities/approvals.py:196-221 | a sweep that is not cut short counts the records that were due |
| `Approvals.SameFingerprintIff` | src/agent_hub/capabilities/approvals.py:286-300 | requests have one fingerprint exactly if they are equal up to resources with the same normal form |
| `Approvals.OnePendingPerFingerprint` | src/agent_hub/capabilities/approvals.py:258-272 | at any time at most one record per fingerprint is pending |
| `Approvals.ResolvedExactlyOnce` | src/agent_hub/capabilities/approvals.py:119-221 | with a repository bound, a run is resolved exactly when its record is settled and only once: running exactly if approved |
| `Approvals.SettledIffCause` | src/agent_hub/capabilities/approvals.py:223-256 | one operation settles a pending record in a certain way exactly if it is a cause of that |
| `Approvals.SettledExactlyIfCaused` | src/agent_hub/capabilities/approvals.py:119-256 | in every run a record is approved exactly if its own user approved the same request before expiry; likewise for rejected and expired |
| `Approvals.RunProgresses` | src/agent_hub/capabilities/approvals.py:119-221 | a settled record is never touched again |
| `Approvals.Swept` | src/agent_hub/capabilities/approvals.py:196-221 | exactly which records a sweep expires, when the repository may refuse one midway |
| `Approvals.SweepLeavesNothingDue` | src/agent_hub/capabilities/approvals.py:196-221 | a sweep that is not cut short leaves nothing due |
| `Approvals.HandedLiveIff` | src/agent_hub/capabilities/approvals.py:258-272 | a request is handed an unexpired approval exactly if no pending record of its fingerprint is past its expiry and, where there is none, records live for some time |
| `Approvals.SweptIsHandedLiveIff` | src/agent_hub/capabilities/approvals.py:196-221 | after a sweep that was not cut short a request at any time is handed an unexpired approval exactly if no record of its fingerprint that survived the sweep has expired since and, where none survived, records live for some time |
| `Approvals.RequestAfterSweep` | src/agent_hub/capabilities/approvals.py:196-272 | the same after every run of operations; always, if no time has passed and records live for some time |
| `Approvals.StaleRecordIsReturned` | src/agent_hub/capabilities/approvals.py:258-262 | a pending record past its expiry is handed out again |
| `ConfigRevisions.ConfigService.CreateDraft` | src/agent_hub/config/service.py:70-87 | a valid document becomes the next version, as a draft |
| `ConfigRevisions.ConfigService.Publish` | src/agent_hub/config/service.py:89-172 | by version or by id: retires the current revision and publishes a later valid draft, or changes nothing |
| `ConfigRevisions.ConfigService.Rollback` | src/agent_hub/config/service.py:174-227 | republishes a once published document as the next version |
| `ConfigRevisions.ConfigService.Republish` | src/agent_hub/config/service.py:203-217 | no write on the way breaks a unique constraint |
| `ConfigRevisions.NextVersion` | src/agent_hub/config/repository.py:69-75 | the next version is one more than the number of revisions |
| `ConfigRevisions.HistoryShape` | src/agent_hub/config/service.py:70-217 | over every sequence of steps versions are exactly 1 to n, at most one revision is published, one is once any is not a draft, and its version exceeds every superseded one |
| `ConfigRevisions.RunKeepsInv` | src/agent_hub/config/service.py:70-217 | nothing is lost, no document or version changes, statuses only go forward |
| `ConfigRevisions.CurrentOnlyAdvances` | src/agent_hub/config/service.py:108-121 | when the published revision changes its version goes up, and the one it replaces never comes back |
| `ConfigRevisions.OldDraftsStay` | src/agent_hub/config/service.py:111-115 | a draft older than the current revision can never be published |
| `ConfigRevisions.PublishSucceedsIff` | src/agent_hub/config/service.py:89-121 | publishing succeeds exactly for a valid draft later than what is published |
| `ConfigRevisions.RollbackSucceedsIff` | src/agent_hub/config/service.py:174-217 | rollback succeeds exactly for a once published revision whose document still validates |
| `ConfigRevisions.CreateOutcome` | src/agent_hub/config/service.py:70-87 | a draft is the validated document as the next version, or refused |
| `ConfigRevisions.PublishOutcome` | src/agent_hub/config/service.py:89-172 | by version or by id: each reason for refusal, and otherwise that the draft takes over from the current revision and nothing else changes, whether or not the notification succeeds |
| `ConfigRevisions.RollbackOutcome` | src/agent_hub/config/service.py:174-227 | each reason for refusal, and otherwise that the validated document is appended as the published revision in place of the current one |
| `ConfigRevisions.FailureChangesNothing` | src/agent_hub/config/service.py:263-267 | a failed step changes nothing, unless only its notification failed after the commit |
| `Framing.ParseDecimal` | src/agent_hub/mcp/client.py:256-278 | a printed length is parsed back |
| `Framing.NumberIff` | src/agent_hub/mcp/client.py:256-278 | a length is digits with single underscores between them and nothing else |
| `Framing.NumberDenotes` | src/agent_hub/mcp/client.py:256-278 | it denotes what its digits do in base ten |
| `Framing.ParseSigned` | src/agent_hub/mcp/client.py:256-278 | a sign before it is understood |
| `Framing.StreamReader.ReadFramedOrLine` | src/agent_hub/mcp/client.py:272-287 | one message or error and what is left of the stream |
| `Framing.StreamWriter.WriteFramed` | src/agent_hub/mcp/client.py:251-257 | appends one frame |
| `Framing.FrameRoundTrip` | src/agent_hub/mcp/client.py:251-287 | a frame with any payload is read back whole and nothing after it is touched |
| `Framing.LineRoundTripIff` | src/agent_hub/mcp/client.py:272-287 | a newline-terminated message is read back exactly if its line does not look like a length header |
| `Framing.OtherFrames` | src/agent_hub/mcp/client.py:272-287 | a frame with its header in any case and spacing, any further header lines and either line ending is read to exactly the announced length; invalid, negative and unmet lengths are reported |
| `Framing.ClosedIff` | src/agent_hub/mcp/client.py:272-275 | the stream is reported closed exactly at its end |
| `Framing.StreamRoundTrip` | src/agent_hub/mcp/client.py:251-287 | any list of frames and lines is read back in order, trailing bytes untouched |
| `Framing.TruncationIsDetected` | src/agent_hub/mcp/client.py:272-287 | a frame cut off after its label is never taken for a shorter message |
| `Segments.PrefixIsPartPrefix` | src/agent_hub/capabilities/policy.py:99-102 | the string test for a prefix holds exactly if the segments of the prefix are the first of the resource |
| `ResourcePolicy.NormalizeResource` | src/agent_hub/capabilities/policy.py:63-84 | the loop over segments computes the normal form |
| `ResourcePolicy.ResolveConcat` | src/agent_hub/capabilities/policy.py:69-78 | segments are processed compositionally |
| `ResourcePolicy.SkippedVanishes` | src/agent_hub/capabilities/policy.py:71-72 | an empty or "." segment changes nothing wherever it stands |
| `ResourcePolicy.NameThenUpCancels` | src/agent_hub/capabilities/policy.py:73-78 | a name and the ".." after it cancel wherever they stand |
| `ResourcePolicy.RefusedIffClimbsOut` | src/agent_hub/capabilities/policy.py:73-76 | a path is refused exactly if on its way it climbs above its root |
| `ResourcePolicy.RefusedExactlyIf` | src/agent_hub/capabilities/policy.py:63-84 | all reasons for which a resource is refused |
| `ResourcePolicy.NormalFormIsCanonical` | src/agent_hub/capabilities/policy.py:63-84 | a normal form has no empty, "." or ".." segment, no backslash and no NUL |
| `ResourcePolicy.IdempotentIff` | src/agent_hub/capabilities/policy.py:63-84 | normalising again gives the same, unless the second character is a colon |
| `ResourcePolicy.NotIdempotent` | src/agent_hub/capabilities/policy.py:67-68 | a resource whose normal form is refused |
| `ResourcePolicy.MadeRuleMatches` | src/agent_hub/capabilities/policy.py:20-24 | however its prefix is spelled, a stored rule matches exactly the requests it applies to whose resource, however spelled, comes down to segments that begin with those of the prefix |
| `ResourcePolicy.DecisionBySegments` | src/agent_hub/capabilities/policy.py:38-60 | the decision in terms of segments: denial first, then approval, then permission, denied by default; it carries the resource in normal form |
| `ResourcePolicy.OrderDoesNotMatter` | src/agent_hub/capabilities/policy.py:38-60 | order and repetition of rules do not matter |

## Left out

- Store internals: the Lua scripts, SQL and advisory locks are replaced by what their callers rely on: a claim sets its expiry and reports whether the owner had a live entry, a call that raises had no effect, a rollback removes this owner's entries, unique constraints hold, transactions are atomic.
- Registration of overlapping scoped views, malformed store replies and rollbacks that fail: the registration invariant is not promised there; one catalog with one registration state is modelled.
- RegistrationSteps: the calls of a rollback are one step, and a late entry that shares a planned fingerprint under another scope counts as holding it.
- Acquisition itself (queueing, adaptive limits, health windows) happens in the store; the gateway model takes any outcome of it, including a lease for the wrong deployment.
- Rounding: utilisation, load ratios, scores, delays and times are real numbers; the store's millisecond clock is exact.
- Deployment: URL, pricing and capability checks of its constructor are not modelled.
- InboundDedup: a submission that is repeated because a mark failed before it took effect and the reservation was then released is allowed by the code; only concurrent submissions are excluded.
- InboundDedup: the polling interval of the wait for a run id is not modelled; a waiting handler may look at any time and give up at any time.
- MemoryMaintenance.MemoryMaintenanceService.Plan: leaves open which of equally ranked records are displaced and in which order groups and decisions come; the code lets insertion order decide.
- Memory text, its validators and the summary text are abstract; one pass runs at one clock reading and without other writers.
- Improvements: role checks and the validators of drafts are not modelled.
- Approvals: task cancellation in the middle of an operation is not modelled; fingerprints are compared as the values they are hashed from.
- Configuration: the schema is any function from documents to validated documents; each tenant's history is separate.
- Framing: JSON is left to the decoder, which is handed the bytes the model calls raw; the stream reader's limit on line length and the interpreter's limit on digits of an integer are not modelled.
- FastAPI application, routers, webhooks, provider and HTTP clients, document builders, front end, migrations, authentication and evolution rounds: input, output and templating, or members easier than these.
