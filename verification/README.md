# Verification models

Dafny models of the parts of the system whose correctness is easiest to lose and hardest to see:
cost provenance, rate limiting, import checking, canonical JSON and the approvals that rest on it,
CSV export, authorised search paging, asset retirement with data wipe and disposal, schema
migration, knowledge recommendation sessions, the recommendation feed, and the two bounded-retry
consumers of the worker. Each model follows its source branch by branch; the lemmas state what
callers rely on. Check everything with

    dafny verify --resource-limit 2000000 dfyconfig.toml

Code that computes a value is a function here. Code that changes rows or fields in place is a class
whose methods return on each error as the source does and roll back what a transaction rolls back;
each such method is tied to a function of the old state, and the theorems are about those functions
over every input, run or interleaving.

| files | what they model |
|---|---|
| `JsonText`, `CanonicalJson`, `Approvals` | the canonical printer, a reader for it, approval evidence and redelivery hashes |
| `CostSlices`, `CostAllocation`, `MinorUnits` | charging and crediting walks, releases, the split in minor units |
| `CostLines`, `CreditNotes` | a receipt line over time: allocations that become visible in another order than they were matched in, and the units that credit notes are given |
| `Claims`, `CostEvents`, `CostClaims` | what an event records under the capacity of each source line; the walk over order line, allocations and notes; when a source line keeps what it gives |
| `CostRuns`, `CostCredits`, `CostExamples` | runs of approved invoices, applied notes and events about any assets; when a credit line is released and what events record of it; small lines on which they fail |
| `RateLimiter`, `RateLimiterProofs`, `RateLimiterLimits` | the token bucket limiter and the request decision |
| `ImportGraph` | layering rules and depth-first cycle search |
| `CsvExport` | the cell guard, quoting and an RFC 4180 reader |
| `SearchPaging` | batched, authorised keyset pages and the exact fallback |
| `AssetLifecycle`, `AssetLifecycleStore`, `AssetLifecycleProofs`, `AssetLifecycleEffects` | retirement, wipe jobs, operations, disposal, reactivation: what is kept over runs, what each command leaves |
| `Migration` | the migration loop with failures and the prefix gate |
| `RecommendationSession`, `RecommendationFeed` | session commands; family pages and feed order |
| `Assetizer`, `AssetizerProofs`, `CostRetry` | registration of received units and retries of cost events |
| `Wrappers`, `Sequences` | shared result types and facts about lists |

## Findings

Where the code does not do what its name or documentation suggests, the model follows the code, and a
lemma says exactly when the expectation is met. Lemmas marked (example) show a concrete case.

- Under a key order that can tie two different keys, as `localeCompare` may, the canonical text
  depends on the insertion order of keys (`TieShowsOrder`, for any tie); it is blind to it exactly for
  orders that never tie (`OrderBlindIffSeparates`). The code-unit order never ties.
- The crediting walk gives up at an earlier allocation whose quantity is no positive safe integer,
  the charging walk skips it (`WalksDisagree`, example); both agree exactly when there is none
  (`WalksAgree`).
- Every event walks the order line, all allocations of approved invoices and all applied notes of the
  receipt line again. An allocation moves on when one matched before it is approved (`BaseGrows`). A
  note counts every other applied note as prior, later ones included; it keeps the units it was given
  exactly as long as nothing else is released from its allocations and none of them moves
  (`KeepsUnits`). So, with invoice lines matched to the receipt line as a whole, an event about all its
  assets goes through exactly if no recorded line that still gives anything moved since, and order and
  invoice lines suffice for their unit prices (`CompleteEventsGoThroughExactly`, `FittingExactly`); for
  an event about some assets the condition is one on each source line (`EventsGoThroughExactly`).
  Three ways to fail: two notes on one allocation, applied and handled strictly in order
  (`InOrderFails`, example); an invoice matched first and approved second (`EarlierApprovalFails`,
  example), which also moves the units of notes (`ApprovalMovesNote`, example); an invoice line whose
  total a discount has brought below its price times its quantity (`DiscountedFails`). A line that has
  moved fails all later events (`FailsFromThenOn`). Two notes applied before the first event credit one
  unit for both (`TogetherOverlaps`, example, and `CreditedTwice`).
- One walk charges a unit at most once (`ChargedOnce`), a run may charge it under two allocations
  (`ChargedTwice`, example), but only if one of them moved after it was charged (`ChargedUnderOne`). No
  source line is ever charged or credited beyond its quantity or amount (`NeverExceeded`).
- Released units without an asset get no adjustment. What is recorded of a credit is all of it exactly
  if each such unit has a share of nothing (`RegisteredCredit`).
- A refused call of the limiter does not bound its table. The bound on the number of buckets still
  holds, exactly if the capacity is at least one token (`SizeIsBounded`).
- The retry advice of a mutation is that of the first limiter that refuses. When both refuse it
  suffices exactly if it is not the shorter one; when one refuses, exactly if the other limiter has
  or refills a second token (`FirstRefusalAdvice`; `FirstAdviceFails`, example). Limiters that refill a
  token each second, as the shipped ones do, always advise well (`ShippedAdviceSuffices`).
- Pruning is observable exactly if the burst is above the rate, a full bucket pays for a request and
  the table has room (`UnobservableExactly`); draining a bucket before and after it is pruned shows it.
- A completed wipe can never be followed by another. From the report on that a wipe does not apply or
  that the medium has to be destroyed, destruction is the only disposal left for the asset and no
  reactivation succeeds (`ReportBindsDisposal`, `OnlyDestructionRemains`); if it passed and the asset was
  reused, it can be disposed of on that old wipe after any later use (`OldWipeCountsAgain`).
- Reactivation does not use up the reuse decision (`ReuseIsNotConsumed`): a new candidate and its
  approved retirement suffice for the next one on the same decision (`ReusedAgain`).
- The gate on the applied table does not see in which order migrations ran (`GateIgnoresOrder`, example).
- With two workers a unit that one has given up can still be registered by the other
  (`FailedCanBeLeft`, example), and a late failure asks for a review of a registered unit
  (`LateFailureAsksForReview`). With one worker both ends are final (`SettledStays`).
- The 300 second cap on retry delays is never reached (`BackoffIsShort`).

## Model

| member | source | states |
|---|---|---|
| CanonicalJson.QuotedReads | apps/api/src/asset-lifecycle-routes.ts:137-147 | a string printed with the escapes of section 7 of RFC 8259, lone surrogates included, reads back as itself before any following text |
| CanonicalJson.SortKeepsElements | apps/api/src/asset-lifecycle-routes.ts:141-145 | sorting members loses and invents none, whatever the order on keys |
| CanonicalJson.PrintReads | apps/api/src/asset-lifecycle-routes.ts:137-147 | the canonical text of any value at any depth, followed by any stop, reads as exactly what the value means |
| CanonicalJson.ReadPrint | apps/api/src/asset-lifecycle-routes.ts:137-147 | reading the canonical text of a value gives its meaning, with objects as maps |
| CanonicalJson.SameTextSameMeaning | apps/agent-gateway/src/automation-action-routes.ts:25-33 | equal texts mean equal values under any key order: the text is unambiguous |
| CanonicalJson.SameMeaningSameText | apps/agent-gateway/src/automation-action-routes.ts:25-33 | values that mean the same print alike under an order that is total, transitive and never ties |
| CanonicalJson.OrderBlindIffSeparates | apps/agent-gateway/src/automation-action-routes.ts:25-33 | the printer ignores insertion order exactly if the key order never ties two different keys |
| CanonicalJson.TieShowsOrder | apps/agent-gateway/src/automation-action-routes.ts:25-33 | two tied keys give two texts for one meaning |
| CanonicalJson.CanonicalTextIsMeaning | packages/messaging/src/idempotency.ts:5-19 | with keys in code-unit order, two values have one text if and only if they mean the same |
| CanonicalJson.MembersAscend | apps/api/src/asset-lifecycle-routes.ts:141-145 | the members of a canonical object stand in strictly ascending order of keys: a proper prefix first, else the smaller code unit where two keys first differ |
| CanonicalJson.PlainIsCopied | apps/api/src/asset-lifecycle-routes.ts:142-147 | a string of other characters than quotes, backslashes, control characters and surrogates is printed as it is |
| CanonicalJson.EscapesAreShort | apps/api/src/asset-lifecycle-routes.ts:142-147 | quotes, backslashes and five control characters are printed with the two-character escapes of section 7 of RFC 8259 |
| CanonicalJson.EscapesAreLower | apps/api/src/asset-lifecycle-routes.ts:142-147 | every other control character and lone surrogate is printed with six characters and lower-case digits |
| Approvals.UnattestedMeans | apps/api/src/asset-lifecycle-routes.ts:127-136 | no expected entry is unattested exactly if the evidence records each with the same meaning |
| Approvals.ApprovalComparesMeaning | apps/api/src/asset-lifecycle-routes.ts:104-136 | an approval passes if and only if it is approved, by somebody else, on object evidence that means every expected entry |
| Approvals.RefusalExactly | apps/api/src/asset-lifecycle-routes.ts:108-136 | a refusal says which condition fails first: approval, independence, evidence, or the first expected entry that the evidence does not record |
| Approvals.RedeliveryComparesMeaning | apps/agent-gateway/src/automation-action-routes.ts:145-173 | a dispatched command is handed out again only if it still means what was first delivered, and always then under a separating order; otherwise, or without a delivery, the answer is a conflict, and before dispatch nothing |
| CostSlices.SelectedKeepsRows | apps/worker/src/cost-provenance.ts:193-194 | the rows charged are exactly those of the receipt line and approved exceptions, each as often as stored and in the order of the table |
| CostSlices.RecordActual | apps/worker/src/cost-provenance.ts:201-257 | the charging loop with its map of offsets logs exactly the charges of the slices of the selected rows, and ambiguity where a slice does not fit |
| CostSlices.RecordRow | apps/worker/src/cost-provenance.ts:224-257 | one row is ambiguous if its slice overruns the units, charges the target if the slice holds it, and does nothing otherwise |
| CostSlices.UnitsForAllocation | apps/worker/src/cost-provenance.ts:89-116 | the crediting loop returns exactly the units of the credited slice, or nothing |
| CostSlices.CollectReleased | apps/worker/src/cost-provenance.ts:342-367 | the loop over releases collects every release's units in order or gives up on the first that is unclear |
| CostSlices.RecordCreditLine | apps/worker/src/cost-provenance.ts:320-374 | the loops over a credit line answer skipped, ambiguous or released as `CostCredits.CreditLineExactly` says, the released line with the units of its releases in order |
| CostAllocation.WalksAgree | apps/worker/src/cost-provenance.ts:89-116 | the crediting slice of an allocation is the rest of its charged slice after prior releases, and exists exactly if the charged one does, all quantities before it count and something is left |
| CostAllocation.WalksDisagree | apps/worker/src/cost-provenance.ts:89-93 | half a unit before a whole one is skipped by charging and stops crediting |
| CostAllocation.SlicesAreDisjoint | apps/worker/src/cost-provenance.ts:217-224 | slices that two allocations of one line charge follow each other without overlap |
| CostAllocation.ChargedOnce | apps/worker/src/cost-provenance.ts:201-257 | one walk charges a unit once if some slice holds it and not at all otherwise |
| CostAllocation.ReleaseIsNoteSlice | apps/worker/src/cost-provenance.ts:342-366 | a release taken from the tables is the note's part of the charged slice |
| CostAllocation.ReleasesAreDisjoint | apps/worker/src/cost-provenance.ts:342-366 | releases of different allocations of a line give back different units |
| CostAllocation.ReleasedAreDistinct | apps/worker/src/cost-provenance.ts:366-374 | a credit line releases no unit twice |
| CostAllocation.CreditIsConserved | apps/worker/src/cost-provenance.ts:375-390 | exactly the released units have a share of the credit, and the shares add up to the credited amount in minor units |
| CostAllocation.CreditLineConserves | apps/worker/src/cost-provenance.ts:320-390 | a released credit line gives back exactly its quantity of distinct units, whose shares add up to its amount in minor units |
| CostAllocation.RegisteredCredit | apps/worker/src/cost-provenance.ts:386-408 | adjustments of the units with an asset never exceed the credit, and are all of it exactly if every other unit has a share of nothing |
| CostLines.BaseGrows | apps/worker/src/cost-provenance.ts:80-87 | approvals only ever move an allocation on along its receipt line, and exactly when one that was matched before it and takes units is among the newly approved |
| CostLines.ChargedFromBase | apps/worker/src/cost-provenance.ts:201-224 | the charging walk over the approved allocations charges each right behind all approved ones matched before it |
| CostLines.PlaceIsOfOne | apps/worker/src/cost-provenance.ts:201-224 | at any time a place of the receipt line belongs to at most one approved allocation |
| CreditNotes.KeepsUnits | apps/worker/src/cost-provenance.ts:80-113 | a note line keeps the units it was given if and only if no other note applied since releases from one of its allocations and no allocation matched before one of them was approved since |
| CreditNotes.LosesUnit | apps/worker/src/cost-provenance.ts:80-113 | otherwise it is no longer given one of its units |
| CreditNotes.EndsAtTotal | apps/worker/src/cost-provenance.ts:94-113 | the units of a release end where all releases of applied notes from the allocation end, whichever note it belongs to |
| CreditNotes.ApartExactly | apps/worker/src/cost-provenance.ts:94-113 | lines of two applied notes are given different units if and only if they release from different allocations |
| Claims.EventExactly | apps/worker/src/cost-provenance.ts:409-440 | an event about any assets goes through with these records if and only if they are what was recorded and what the source lines give its assets, agreeing where they meet, and exceed no line; the order of walking does not matter |
| Claims.GoesThroughExactly | modules/procurement/application/cost-provenance.ts:269-300 | an event goes through if and only if each source line can bear it: amounts on record agree, and what is recorded and newly asked exceeds neither quantity nor amount |
| Claims.UnitsWithin | modules/procurement/application/cost-provenance.ts:269-296 | an event that goes through leaves no source line over its quantity or amount |
| Claims.LostNeedOpen | modules/procurement/application/cost-provenance.ts:287-296 | a line that is given out in full can bear an event by its quantity exactly if it has as many units open as it has recorded for units that it no longer gives |
| CostEvents.CostLinker.HandleClaim | modules/procurement/application/cost-provenance.ts:269-300 | one cost is recorded, found again, or refused for its amount, its quantity or another amount on record |
| CostEvents.CostLinker.UnitsCharged | apps/worker/src/cost-provenance.ts:201-224 | the next allocation with the running offset is charged with the units of its slice, or with none, and the offset is moved on |
| CostEvents.CostLinker.HandleUnit | apps/worker/src/cost-provenance.ts:409-440 | one asset is walked through order line, allocations and applied notes, in this order, up to the first failure |
| CostEvents.CostLinker.Handle | apps/worker/src/cost-provenance.ts:444-518 | an event walks all source lines for all its assets, and records everything or nothing |
| CostClaims.ChargedAsWalked | apps/worker/src/cost-provenance.ts:201-257 | what an allocation is charged with is its slice in the charging walk over the visible allocations |
| CostClaims.StillGivesSame | apps/worker/src/cost-provenance.ts:80-113 | a source line that gives something before and after gives the same if nothing moved it in between |
| CostClaims.MovedTakesBack | apps/worker/src/cost-provenance.ts:80-113 | a source line that gives something before and after and was moved in between takes it back from some unit |
| CostClaims.CreditInFull | apps/worker/src/cost-provenance.ts:375-408 | a credit note line that gives anything gives its whole quantity and its whole amount in minor units |
| CostClaims.ChargeInFull | modules/procurement/application/cost-provenance.ts:230-238 | an allocation of a whole invoice line gives the whole quantity, and the line can bear it exactly if its total covers the unit price for all of it |
| CostRuns.InvAlways | modules/procurement/application/cost-provenance.ts:269-296 | over every run no source line is exceeded, and each record is what its line gave its unit when it was made |
| CostRuns.NeverExceeded | modules/procurement/application/cost-provenance.ts:269-296 | over every run, of events about any assets, no order, invoice or credit note line is exceeded in quantity or amount |
| CostRuns.RecordsStay | apps/worker/src/cost-provenance.ts:409-440 | whatever happens later, no record changes or goes away |
| CostRuns.EventsGoThroughExactly | apps/worker/src/cost-provenance.ts:444-518 | after every run an event about any assets, one or all, goes through if and only if every source line can bear it |
| CostRuns.CreditGoesExactly | modules/procurement/application/cost-provenance.ts:269-296 | a credit note line bears an event exactly if it has as many units open as are credited that it no longer gives back, their shares fit and amounts on record agree |
| CostRuns.FittingExactly | modules/procurement/application/cost-provenance.ts:216-240 | all source lines can bear what they give if and only if the order line suffices for all units and each charged invoice line for its own at the unit price |
| CostRuns.SettledGoThrough | apps/worker/src/cost-provenance.ts:409-440 | as long as no recorded line moved and all can bear what they give, every event goes through, whatever assets it and those before it are about |
| CostRuns.CompleteEventsGoThroughExactly | apps/worker/src/cost-provenance.ts:409-440 | over every run whose events are about all assets of the receipt line, the next one goes through if and only if no recorded line that gives anything moved since it was recorded and all lines can bear what they give |
| CostRuns.FailsFromThenOn | modules/procurement/application/cost-provenance.ts:287-296 | once a line that was recorded in full has moved, every later event about all assets fails as long as the line gives anything |
| CostRuns.CreditedInFull | apps/worker/src/cost-provenance.ts:409-440 | in a run of such events a credit note line that is recorded at all is credited with its whole quantity and amount |
| CostRuns.ChargedUnderOne | apps/worker/src/cost-provenance.ts:201-257 | after any run a unit is charged under one allocation only, unless one of two was moved by the approval of an earlier one after it was charged |
| CostRuns.DiscountedFails | modules/procurement/application/cost-provenance.ts:230-238 | while an invoice line whose total is below its price times its quantity is charged, every event about all assets fails |
| CostRuns.CreditedTwice | apps/worker/src/cost-provenance.ts:94-113 | an event that goes through with two notes on one allocation credits some unit for both |
| CostCredits.ReleaseFitsExactly | apps/worker/src/cost-provenance.ts:89-113 | a release is clear exactly if its allocation is on the line, all quantities up to it are whole and available, and it stays within its allocation behind what other notes released; it then starts right behind those |
| CostCredits.CreditLineExactly | apps/worker/src/cost-provenance.ts:320-374 | a credit line is skipped exactly if its quantity or amount is not positive, released exactly if both are, the releases add up to the safe quantity and each fits, and ambiguous otherwise; a released line gives back the units of its releases |
| CostCredits.CreditsExactly | apps/worker/src/cost-provenance.ts:320-374 | a credit note line of a receipt line gives something if and only if its note is applied, quantity and amount are positive, its releases add up and each fits where its allocation stands now; it then gives exactly the units at the places its releases hold |
| CostCredits.ClearLinesAreCredited | apps/worker/src/cost-provenance.ts:375-408 | after any run an event that goes through leaves every unit it is about recorded with its share under each such line that holds its place |
| CostCredits.AllocationsAreCharged | apps/worker/src/cost-provenance.ts:217-257 | and under each approved allocation that takes its place, at the unit price of the invoice line |
| CostCredits.UnitsAreCommitted | apps/worker/src/cost-provenance.ts:131-176 | and under the order line, at its unit price |
| CostCredits.ShareExactly | apps/worker/src/cost-provenance.ts:375-390 | a released unit is credited the even share of the amount in minor units, and one more exactly if fewer released units come before it than the division leaves over |
| CostCredits.AmbiguousExactly | apps/worker/src/cost-provenance.ts:201-233 | the charging walk reports one ambiguity for each row it cannot slice and none for the others |
| CostCredits.LogTells | apps/worker/src/cost-provenance.ts:201-257 | its log names an invoice exactly for a row that cannot be sliced, and charges an asset under an allocation exactly if the slice of its row has the unit |
| CostExamples.InOrderFails | apps/worker/src/cost-provenance.ts:409-440 | two notes of one unit each, applied and handled in order: the second event fails |
| CostExamples.TogetherOverlaps | apps/worker/src/cost-provenance.ts:94-113 | the same notes applied before the first event both credit the second unit |
| CostExamples.EarlierApprovalFails | apps/worker/src/cost-provenance.ts:181-199 | two invoices of one unit each, the one matched second approved and charged first: once the other is approved, the next event fails |
| CostExamples.ApprovalMovesNote | apps/worker/src/cost-provenance.ts:80-113 | that approval moves the unit of a note of the second invoice, with nothing released |
| CostExamples.ChargedTwice | apps/worker/src/cost-provenance.ts:201-257 | two events about the first asset alone, before and after that approval, charge its unit under both invoices |
| MinorUnits.PrintMinorReads | apps/worker/src/cost-provenance.ts:273-288 | a printed share reads back as its minor units for any number of minor digits, none included |
| MinorUnits.MinorTruncates | apps/worker/src/cost-provenance.ts:278-280 | an amount in minor units is the amount scaled by its digits and rounded down |
| MinorUnits.SharesConserve | apps/worker/src/cost-provenance.ts:281-287 | the shares of any total among any number of units add up to the total |
| MinorUnits.SharesAreFair | apps/worker/src/cost-provenance.ts:281-287 | two shares differ by at most one minor unit and earlier shares are not smaller |
| MinorUnits.SplitConserves | apps/worker/src/cost-provenance.ts:273-288 | the printed shares, read back, add up to the truncated amount and differ by at most one |
| RateLimiter.PolicyRates | apps/api/src/edge-policy.ts:33-35 | a policy's capacity, refill and idle window are valid, and two idle windows refill the bucket exactly if burst is at most rate |
| RateLimiter.TokenBucketLimiter.Consume | apps/api/src/edge-policy.ts:31-58 | the mutable limiter's table and decision are those of the specified step |
| RateLimiter.TokenBucketLimiter.PruneIdle | apps/api/src/edge-policy.ts:64-67 | pruning removes exactly the idle buckets and keeps the order of the rest |
| RateLimiter.TokenBucketLimiter.BoundSize | apps/api/src/edge-policy.ts:69-75 | bounding drops exactly the oldest buckets in excess |
| RateLimiterProofs.DrawHealthy | apps/api/src/edge-policy.ts:40-58 | tokens stay between zero and the capacity through every draw |
| RateLimiterProofs.IdleIsFull | apps/api/src/edge-policy.ts:33-43 | a bucket that is idle would be full |
| RateLimiterProofs.PruningIsUnobservable | apps/api/src/edge-policy.ts:31-67 | over every run with a monotone clock, a key that is never evicted gets the decisions of a limiter that never prunes |
| RateLimiterProofs.RateIsBounded | apps/api/src/edge-policy.ts:31-58 | among any consecutive requests of a bucket, accepted ones number at most the capacity plus what refills meanwhile |
| RateLimiterProofs.LimiterRateIsBounded | apps/api/src/edge-policy.ts:31-67 | the same bound for each key of the pruning limiter with its other keys and requests |
| RateLimiterProofs.RetryAfterIsExact | apps/api/src/edge-policy.ts:46-52 | a key left alone for the advised seconds is accepted; one second less, if the advice exceeds one, is refused |
| RateLimiterProofs.FirstRefusalAdvice | apps/api/src/edge-policy.ts:144-167 | waiting as advised suffices exactly if, when both limiters refuse, the first advice is not the shorter, and when one refuses, the other has or refills a second token |
| RateLimiterProofs.FastLimitersAdviseWell | apps/api/src/edge-policy.ts:46-52 | limiters that refill a token each second advise one second, and that suffices for both |
| RateLimiterProofs.ShippedAdviceSuffices | apps/api/src/edge-policy.ts:7-8 | so do the shipped policies, whatever their buckets hold |
| RateLimiterProofs.FirstAdviceFails | apps/api/src/edge-policy.ts:144-167 | with one mutation a minute the advised second is not enough, whether both limiters refuse or one |
| RateLimiterProofs.StepSize | apps/api/src/edge-policy.ts:54-75 | the table stays within its bound and holds the key just served |
| RateLimiterProofs.SizeIsBounded | apps/api/src/edge-policy.ts:46-57 | every call keeps every table within the bound if and only if the capacity is at least one |
| RateLimiterLimits.LargeBurstIsObservable | apps/api/src/edge-policy.ts:33-43 | if idling does not refill a bucket that pays for a request, some run tells the pruning limiter from one that never prunes, fractional capacities included |
| RateLimiterLimits.UnobservableExactly | apps/api/src/edge-policy.ts:31-75 | for every policy and table size, pruning is unobservable over all runs if and only if burst is at most rate, a full bucket pays for nothing, or the table has no room |
| RateLimiterLimits.PolicyGrants | apps/api/src/edge-policy.ts:31-46 | of requests made at once by a new key exactly the whole number of rate plus burst is allowed, a window refills the rate up to both together, and a bucket idles after two windows |
| RateLimiterLimits.PolicyRateIsBounded | apps/api/src/edge-policy.ts:31-67 | between any of its requests a key that is never evicted is accepted at most rate plus burst and the rate for each window between them, among all other traffic |
| ImportGraph.CycleIsReported | scripts/check-boundaries.ts:103-116 | a cycle of finished files always contains a reported one |
| ImportGraph.CycleChecker.Walk | scripts/check-boundaries.ts:105-115 | a visit ends with its file finished or reported, every reported file on a cycle, and the active set as before |
| ImportGraph.CycleChecker.WalkAll | scripts/check-boundaries.ts:111-112 | after the loop every import of the file is finished or reported |
| ImportGraph.Cycles | scripts/check-boundaries.ts:103-117 | the search names only files on cycles and meets every cycle |
| ImportGraph.ForbiddenImports | scripts/check-boundaries.ts:60-102 | the findings are exactly the forbidden imports with their rules |
| ImportGraph.UnfitSpecifiers | scripts/check-boundaries.ts:66-91 | the findings are exactly the nonliteral imports, the paths into packages and the outside names in a domain layer |
| ImportGraph.Check | scripts/check-boundaries.ts:46-118 | nothing is found if and only if the graph is acyclic, no import is forbidden and no specifier is unfit; the findings are exactly the forbidden imports, the unfit specifiers and files on cycles |
| ImportGraph.LayeringIsTransitive | scripts/check-boundaries.ts:5-36 | where every import obeys the layers, so does every chain of imports |
| ImportGraph.AcceptedIsLayered | scripts/check-boundaries.ts:5-36 | without forbidden imports no file reaches another against the layers by any path |
| ImportGraph.ViolationExactly | scripts/check-boundaries.ts:5-36 | an import is let through if and only if it breaks none of the six rules, and a rule that is named is broken |
| ImportGraph.ModulesMeetAtIndex | scripts/check-boundaries.ts:12-18 | in an accepted tree every chain of imports from one module into another leads through the index.ts of the other |
| ImportGraph.UnfitExactly | scripts/check-boundaries.ts:67-91 | computed imports and paths into packages are unfit anywhere, outside names exactly in the domain layer of a module |
| CsvExport.FieldReads | apps/api/src/reporting-routes.ts:86-90 | a guarded and quoted cell reads back as the guarded text before any separator |
| CsvExport.ExportReads | apps/api/src/reporting-routes.ts:460-462 | every export reads as a table by section 2 of RFC 4180, cell by cell as guarded |
| CsvExport.RoundTripExactly | apps/api/src/reporting-routes.ts:460-462 | rows and columns come back unchanged if and only if there is a row and every row has a cell |
| CsvExport.NoCellIsActive | apps/api/src/reporting-routes.ts:88-88 | no cell that a reader gets back starts with = + - @, tab or CR |
| CsvExport.CellComesBack | apps/api/src/reporting-routes.ts:86-90 | every cell of a table comes back in its place: a string or other value as it is, behind an apostrophe exactly if it starts with one of those six, a missing value as two quotes |
| CsvExport.GuardCollides | apps/api/src/reporting-routes.ts:88-88 | two texts are guarded alike exactly if they are equal or one is the other behind an apostrophe and active |
| CsvExport.ExportIsInjective | apps/api/src/reporting-routes.ts:86-90 | equal exports have equal cells wherever neither cell starts with an apostrophe |
| SearchPaging.QueryWithAuthorization | apps/api/src/search-routes.ts:198-277 | the batched loop gives the first readable candidates after the cursor among the first thousand, with a cursor exactly if there are more, and says when it was cut short |
| SearchPaging.PageOrder | apps/api/src/search-routes.ts:198-277 | what a page shows is readable and never rises in score; equal scores go by type, equal types by id |
| SearchPaging.PageMoves | apps/api/src/search-routes.ts:256-276 | the next cursor continues right behind the candidates that the page covers |
| SearchPaging.FollowYieldsReadable | apps/api/src/search-routes.ts:223-276 | following cursors to the end yields a prefix of the readable candidates, all of them exactly if no page is cut by the cap |
| SearchPaging.FallbackIsQuery | apps/api/src/search-routes.ts:298-341 | the fallback returns the data and cursor of the batched scan exactly if the cap leaves room for them |
| SearchPaging.FallbackDraws | apps/api/src/search-routes.ts:298-341 | the fallback shows only readable candidates of the state and site asked for behind the cursor, and all of them if the page is not full |
| AssetLifecycle.Claimable | apps/agent-gateway/src/asset-wipe-routes.ts:187-190 | a claim finds the oldest queued job of the agent that it supports and nobody has locked, and none only if there is none |
| AssetLifecycle.VerifyEvidence | apps/agent-gateway/src/asset-wipe-routes.ts:116-157 | evidence is absent exactly for a failure and otherwise was found under its checksum |
| AssetLifecycle.LatestReuse | apps/api/src/asset-lifecycle-routes.ts:1364-1367 | the decision found is the newest recorded internal reuse of the asset, and none only if there is none |
| AssetLifecycleStore.LifecycleStore.CreateCandidate | apps/api/src/asset-lifecycle-routes.ts:747-778 | inserts a candidate, blocked if in use, or stops with the error |
| AssetLifecycleStore.LifecycleStore.Retire | apps/api/src/asset-lifecycle-routes.ts:828-975 | retires, records a block, or stops with the error |
| AssetLifecycleStore.LifecycleStore.StartWipe | apps/api/src/asset-lifecycle-routes.ts:1015-1116 | queues the next generation with its operation, or stops with the error, also behind a job already inserted |
| AssetLifecycleStore.LifecycleStore.Claim | apps/agent-gateway/src/asset-wipe-routes.ts:187-212 | moves job and operation, or stops with the error behind the job already moved |
| AssetLifecycleStore.LifecycleStore.TransitionOperation | packages/persistence/src/operations.ts:43-76 | an operation moves only along an allowed edge from the state and version seen |
| AssetLifecycleStore.LifecycleStore.Report | apps/agent-gateway/src/asset-wipe-routes.ts:218-387 | concludes job and operation with the outcome as reported, as `AssetLifecycleProofs.ReportsGoThrough` spells out row by row, or stops with the error, also that of the table's unique key and checksum checks |
| AssetLifecycleStore.LifecycleStore.Dispose | apps/api/src/asset-lifecycle-routes.ts:1144-1286 | records a disposition and, unless reused, disposes of the asset, or stops with the error, also that of the checksum check |
| AssetLifecycleStore.LifecycleStore.Reactivate | apps/api/src/asset-lifecycle-routes.ts:1353-1389 | makes a retired asset available on a reuse decision, or stops with the error |
| AssetLifecycleStore.LifecycleStore.Run | apps/api/src/asset-lifecycle-routes.ts:1431-1467 | a command with all its rows is committed as specified, or every row is as before, wherever in its transaction an error strikes |
| AssetLifecycleProofs.LatestIsLast | apps/api/src/asset-lifecycle-routes.ts:1069-1072 | the job of the highest generation is the last of the asset's history |
| AssetLifecycleProofs.StepKeeps | apps/api/src/asset-lifecycle-routes.ts:1069-1116 | every command and every change by other modules keeps generations, pairing, evidence, records and standing |
| AssetLifecycleProofs.InvAlways | apps/agent-gateway/src/asset-wipe-routes.ts:187-387 | in every state of every run an asset's wipes count from one, all but the last failed, neighbours differ in method and approval, completed ones carry verified evidence, job and operation are paired, and only assets in use have a retirement pending |
| AssetLifecycleProofs.ClaimingKeeps | apps/agent-gateway/src/asset-wipe-routes.ts:192-202 | in every such state a claim never conflicts with its operation |
| AssetLifecycleProofs.ReportsGoThrough | apps/agent-gateway/src/asset-wipe-routes.ts:218-387 | a report succeeds if and only if the agent holds the claim at the named version, the outcome is known, the agent has not used the key before and the evidence has a SHA-256 checksum; it then stores exactly its outcome, evidence and key in the row of that job, failed exactly for FAIL, moves its operation, and leaves every other row as before |
| AssetLifecycleProofs.DisposalIsEarned | apps/api/src/asset-lifecycle-routes.ts:1144-1286 | an asset becomes disposed of only from RETIRED by a disposal with a completed record, independent evidence of that method, and a passed, verified wipe unless destroyed |
| AssetLifecycleProofs.RetirementIsLeft | apps/api/src/asset-lifecycle-routes.ts:1353-1389 | RETIRED is left only by disposal, or by reactivation after a passed wipe and on the newest reuse decision, approved by somebody else |
| AssetLifecycleProofs.DisposedForever | apps/api/src/asset-lifecycle-routes.ts:1166-1171 | nothing in any run leaves DISPOSED |
| AssetLifecycleProofs.CompletedWipeIsLast | apps/api/src/asset-lifecycle-routes.ts:1080-1084 | once a wipe has completed, the asset's history of wipes never changes again |
| AssetLifecycleProofs.OnlyDestructionRemains | apps/api/src/asset-lifecycle-routes.ts:1196-1211 | after a wipe that completed without passing only destruction is ever accepted |
| AssetLifecycleProofs.RetiresExactly | apps/api/src/asset-lifecycle-routes.ts:828-975 | a retirement completes if and only if record, versions, state, approval and clearances are in order and nothing blocks |
| AssetLifecycleProofs.WipesExactly | apps/api/src/asset-lifecycle-routes.ts:1031-1091 | a wipe starts if and only if the asset is retired, approved and online, and the last wipe failed by another method and approval |
| AssetLifecycleProofs.DisposesExactly | apps/api/src/asset-lifecycle-routes.ts:1164-1258 | a disposition is accepted if and only if nothing of its list is missing, evidence compared by meaning and the physical checksum one that the table takes |
| AssetLifecycleProofs.ReuseIsNotConsumed | apps/api/src/asset-lifecycle-routes.ts:1364-1378 | at any later time of any run, while it is the newest, the decision that reactivated an asset does so again exactly if the asset is retired again and the approval stands |
| AssetLifecycleProofs.ReactivatesExactly | apps/api/src/asset-lifecycle-routes.ts:1353-1389 | a reactivation goes through if and only if the asset is retired at that version, evidence is given, and the newest reuse decision is still approved by somebody else |
| AssetLifecycleProofs.ReusedAgain | apps/api/src/asset-lifecycle-routes.ts:1364-1378 | from every reactivation a new candidate and its approved retirement lead to the next one on the same decision |
| AssetLifecycleProofs.OldWipeCountsAgain | apps/api/src/asset-lifecycle-routes.ts:1190-1205 | after a reactivation the wipe made before it stays proven in every later state, and no other can start |
| AssetLifecycleProofs.DisposalsGrow | database/migrations/asset/20260912_009_replacement_retirement_disposal.sql:72-72 | no run changes or takes back a recorded disposition |
| AssetLifecycleEffects.ReportDecides | apps/agent-gateway/src/asset-wipe-routes.ts:278-283 | from any accepted report but a failure on, in every later state of every run, the asset's wipe is proven if and only if the report said PASS |
| AssetLifecycleEffects.ReportBindsDisposal | apps/api/src/asset-lifecycle-routes.ts:1196-1211 | once NOT_APPLICABLE or PHYSICAL_DESTRUCTION_REQUIRED was reported, no later disposition but DESTROY and no reactivation of the asset is accepted |
| AssetLifecycleEffects.ReportConcludes | apps/agent-gateway/src/asset-wipe-routes.ts:278-283 | right behind any accepted report its outcome is that of the asset's last wipe, completed exactly if it is no failure |
| AssetLifecycleEffects.WipePasses | apps/agent-gateway/src/asset-wipe-routes.ts:187-387 | a wipe that was started can be claimed by its agent and, reported as passed with checked evidence, is proven and its operation succeeded |
| AssetLifecycleEffects.WipeQueues | apps/api/src/asset-lifecycle-routes.ts:1092-1130 | a wipe that starts adds one queued job for that agent, record, method and approval, of the next generation, and its operation, and nothing else |
| AssetLifecycleEffects.ClaimsExactly | apps/agent-gateway/src/asset-wipe-routes.ts:187-202 | a claim takes exactly the oldest job queued for the agent within its methods and not locked, with its operation, and changes nothing without one |
| AssetLifecycleEffects.VerifiesExactly | apps/agent-gateway/src/asset-wipe-routes.ts:117-156 | evidence is taken if and only if the claim is held, all three parts are given and the stored object has that checksum but for letter case; the stored checksum is kept |
| AssetLifecycleEffects.CandidatesExactly | apps/api/src/asset-lifecycle-routes.ts:743-790 | a candidate is taken if and only if the asset is in stock or use without a pending record, and is blocked exactly if assigned or in use |
| AssetLifecycleEffects.CandidateForetells | apps/api/src/asset-lifecycle-routes.ts:765-778 | a new candidate is in state CANDIDATE exactly if a retirement in order, with nothing else in its way, would complete at once |
| AssetLifecycleEffects.RetirementEnds | apps/api/src/asset-lifecycle-routes.ts:828-975 | a retirement that is in order completes with asset and record one version on, or is recorded as blocked exactly if something holds on to the asset or one of four clearances is missing |
| AssetLifecycleEffects.ClearedExactly | apps/api/src/asset-lifecycle-routes.ts:889-899 | a clearance is given exactly by an object with a string under its key that is not blank |
| AssetLifecycleEffects.RetirementIsApproved | apps/api/src/asset-lifecycle-routes.ts:853-888 | a retirement is approved exactly by somebody else's approval for its record that records asset and clearances |
| AssetLifecycleEffects.WipeIsApproved | apps/api/src/asset-lifecycle-routes.ts:1045-1058 | a wipe is approved exactly by one that records asset, retirement and method |
| AssetLifecycleEffects.DisposalIsApproved | apps/api/src/asset-lifecycle-routes.ts:1182-1196 | a disposition is approved exactly by one that records asset, retirement, method and clearances |
| AssetLifecycleEffects.ReuseIsApproved | apps/api/src/asset-lifecycle-routes.ts:1373-1376 | a reactivation rests exactly on somebody else's approval that records asset and internal reuse |
| AssetLifecycleEffects.NamesDiffer | apps/api/src/asset-lifecycle-routes.ts:1149-1158 | no two methods of wiping or of disposal go by one name |
| AssetLifecycleEffects.DisposalLeaves | apps/api/src/asset-lifecycle-routes.ts:1259-1286 | an accepted disposition adds one row with its method and approval, and makes the asset DISPOSED one version on unless it is reused |
| AssetLifecycleEffects.ChecksumExactly | database/migrations/asset/20260912_009_replacement_retirement_disposal.sql:59 | the tables take exactly 64 hexadecimal digits for the checksum of a disposition |
| AssetLifecycleEffects.TrimExactly | apps/api/src/asset-lifecycle-routes.ts:72-77 | a required text is stored as the piece of it without white space at its ends, and nothing else is cut off |
| AssetLifecycleEffects.ReuseReactivates | apps/api/src/asset-lifecycle-routes.ts:1353-1389 | a decision for internal reuse that was just accepted reactivates the asset at the same version on the same approval |
| AssetLifecycleEffects.ReactivatedTo | apps/api/src/asset-lifecycle-routes.ts:1379-1389 | a reactivation makes the asset available and unassigned one version on and changes nothing else |
| AssetLifecycleEffects.StaleDisposal | apps/api/src/asset-lifecycle-routes.ts:1166-1171 | a disposition of a retired asset conflicts exactly if the asset has moved on |
| AssetLifecycleEffects.StaleReactivation | apps/api/src/asset-lifecycle-routes.ts:1358-1363 | so does a reactivation |
| AssetLifecycleEffects.StaleWipe | apps/api/src/asset-lifecycle-routes.ts:1035-1040 | and a wipe |
| AssetLifecycleEffects.StaleReport | apps/agent-gateway/src/asset-wipe-routes.ts:235-240 | a report conflicts in version exactly if the agent holds the claim at another one |
| AssetLifecycleEffects.ReportAnswers | apps/agent-gateway/src/asset-wipe-routes.ts:220-231 | a report on no job of the agent is not found, and the tables refuse one in order exactly for a used key or a checksum that is none |
| AssetLifecycleEffects.WipeAnswers | apps/api/src/asset-lifecycle-routes.ts:1059-1091 | a wipe in order is refused as in progress exactly if the last one is under way, and for want of an agent exactly if none is online |
| AssetLifecycleEffects.OperationsMove | packages/persistence/src/operations.ts:43-76 | an operation ends for good as succeeded, failed or cancelled, succeeds only while running, and moves one version at a step |
| Migration.Database.Migrate | database/scripts/runner.ts:31-68 | the loop with its transactions ends, at its limit or any failure, in the specified committed state and with none open |
| Migration.RunKeepsPrefix | database/scripts/runner.ts:45-67 | from a prefix, wherever the loop breaks off, what is committed is a prefix at least as long |
| Migration.MigrationKeepsPrefix | packages/persistence/src/migration-manifest.ts:70-80 | the same for a whole run under any step limit: it leaves at most as many scripts as the limit, or those there were, and a run that succeeds has applied all it was limited to |
| Migration.LimitedRunExactly | packages/persistence/src/migration-manifest.ts:70-80 | a run is refused, with nothing done, exactly if its limit is malformed or outside the manifest; with a connection and no fault any other run succeeds and leaves exactly the files that its limit covers, unless more had run before |
| Migration.RunStopsExactly | database/scripts/runner.ts:45-68 | from any state a run stops at the first file that is on record otherwise or that a fault hits, having executed exactly what was missing before it, and that file only if its commit landed unseen; a changed file is reported exactly if it could be compared |
| Migration.TableGoesAlong | database/scripts/runner.ts:57-63 | the applied table records exactly what ran, wherever a run ends |
| Migration.DeploymentsKeepPrefix | database/scripts/runner.ts:31-77 | over any sequence of runs the committed state stays a growing prefix |
| Migration.TableDeterminesSchema | database/scripts/runner.ts:57-63 | equal tables of applied migrations mean equal schemas, however they came about |
| Migration.CompletedRunsMissing | database/scripts/runner.ts:45-63 | from any state a completed run executes exactly the missing files, in manifest order |
| Migration.CompletedRunIsFinal | database/scripts/runner.ts:47-55 | after a completed run no run of the same manifest executes anything |
| Migration.GateExactly | database/scripts/applied-schema-revision.ts:24-32 | the gate accepts rows if and only if they are the table of some prefix, without repetition |
| Migration.DeploymentsPassGate | database/scripts/applied-schema-revision.ts:24-32 | whatever any runs leave behind passes the gate |
| Migration.InOrderExactly | database/scripts/runner.ts:45-63 | after a completed run the scripts ran in manifest order if and only if the earlier ones were a prefix of it |
| Migration.GateIgnoresOrder | database/scripts/applied-schema-revision.ts:24-32 | a file added in the middle runs last and the gate accepts |
| RecommendationSession.SessionStore.Run | apps/api/src/knowledge-recommendation-routes.ts:950-1393 | a command changes the row and its log as its law below says, or is rolled back |
| RecommendationSession.SessionStore.AppendInteraction | modules/problem/application/recommendations.ts:372-448 | an interaction is appended, recognised as a replay, or conflicts |
| RecommendationSession.SessionStore.TransitionSession | modules/problem/application/recommendations.ts:450-506 | a transition needs the version seen and an open session |
| RecommendationSession.SessionsSettle | apps/api/src/knowledge-recommendation-routes.ts:1003-1393 | after any commands, deflection, ticket, events and timestamps are determined by the outcome and the start |
| RecommendationSession.TicketOrDeflection | apps/api/src/knowledge-recommendation-routes.ts:1081-1366 | at most one ticket and one confirmed deflection, never both; a typed deflection exactly for resolved sessions that began without a ticket, so no session is the inconsistent one that reporting.ts:42 looks for |
| RecommendationSession.TerminalIsAbsorbing | apps/api/src/knowledge-recommendation-routes.ts:1003-1366 | a resolved or escalated session keeps its row through any commands |
| RecommendationSession.GuardNeverFires | database/migrations/problem/20260918_002_task093_recommendations.sql:24-72 | no command ever violates the table's checks or its update trigger |
| RecommendationSession.SelectsExactly | apps/api/src/knowledge-recommendation-routes.ts:1003-1024 | in every state that commands reach, a selection is taken if and only if it is current, the item eligible, articles on offer and the key free or told the same, and changes nothing but the interactions |
| RecommendationSession.FeedbackExactly | apps/api/src/knowledge-recommendation-routes.ts:1024-1068 | feedback is taken under the same conditions while the session is open; helpful feedback keeps the row, unhelpful feedback makes it NOT_HELPFUL at the next version, and each adds its own kind of interaction for the item or repeats it |
| RecommendationSession.ConfirmsExactly | apps/api/src/knowledge-recommendation-routes.ts:1081-1216 | a resolution is confirmed if and only if the session has items and the key is free or told the same, or it is resolved already; an open session is resolved at the next version with its kind of deflection unless it has a ticket, one handed over reports it once |
| RecommendationSession.RefusesExactly | apps/api/src/knowledge-recommendation-routes.ts:954-969 | a foreign session or item not on offer is not found, a stale version conflicts, an escalation without any ticket is refused for that, each exactly then |
| RecommendationSession.EscalatesExactly | apps/api/src/knowledge-recommendation-routes.ts:1218-1366 | in every state that commands reach, an escalation goes through if and only if the session is escalated already, which changes nothing, or open with a ticket and a key that is free or told the same; it then hands over to the session's own ticket or else the new one, at the next version |
| RecommendationFeed.CountMeansComplete | apps/api/src/recommendation-routes.ts:275-284 | comparing the sizes of two sets decides whether every current source has its exact projection |
| RecommendationFeed.ScanActive | apps/api/src/recommendation-routes.ts:244-274 | the paging loop with lookahead visits every stored row once and keeps exactly the current, not dismissed ones |
| RecommendationFeed.ActivePage | apps/api/src/recommendation-routes.ts:218-285 | a family is available, with exactly the current rows not dismissed, if and only if no current source lacks its projection; otherwise the reason is denial, failure or staleness as it was |
| RecommendationFeed.ShownExactly | apps/api/src/recommendation-routes.ts:244-274 | a row is shown if and only if it is stored, active, in the context, not dismissed and of the present generation of a source in the context |
| RecommendationFeed.HistoryPage | apps/api/src/recommendation-routes.ts:174-217 | rows of another state are those still readable, unless a check fails |
| RecommendationFeed.ListedExactly | apps/api/src/recommendation-routes.ts:174-217 | a row of another state is listed if and only if it is stored in that state, in the context, and its source may be read |
| RecommendationFeed.CompareIsTotal | apps/api/src/recommendation-routes.ts:288-320 | the comparator is a total order that ties only on equal ids |
| RecommendationFeed.SortedExactly | apps/api/src/recommendation-routes.ts:288-320 | a feed is sorted exactly if incidents come first by time, then articles by rank, then assets by priority and falling score, ties by id |
| RecommendationFeed.SortIsUnique | apps/api/src/recommendation-routes.ts:555-555 | any two sorted arrangements of the same rows are equal |
| RecommendationFeed.FeedIsFamilyByFamily | apps/api/src/recommendation-routes.ts:534-555 | the merged feed is the families one after another, each in its own order |
| RecommendationFeed.PagesTile | apps/api/src/recommendation-routes.ts:556-560 | consecutive pages put together give the feed |
| Assetizer.Worker.Deliver | apps/worker/src/goods-receipt-assetizer.ts:56-153 | a delivery registers the unit with its event and marker as `AssetizerProofs.RegistersExactly` says, or leaves only a failed marker |
| Assetizer.Worker.Fail | apps/worker/src/goods-receipt-assetizer.ts:213-236 | a failure is counted, delayed or final as specified, or not recorded at all if its transaction fails |
| Assetizer.Worker.ProcessEvent | apps/worker/src/goods-receipt-assetizer.ts:187-238 | the loop takes up every unit that is pending and due, in order, until a failure cannot be recorded |
| AssetizerProofs.InvAlways | apps/worker/src/goods-receipt-assetizer.ts:56-238 | every interleaving of workers keeps units, registrations, assets, events and markers consistent |
| AssetizerProofs.ExactlyOnce | apps/worker/src/goods-receipt-assetizer.ts:62-153 | a unit has exactly one ASSET.CREATED event once registered and none before, its marker implies it, and no asset serves two units |
| AssetizerProofs.RegisteredForever | modules/procurement/application/goods-receipts.ts:875-894 | a registered unit keeps its row and asset through any interleaving |
| AssetizerProofs.ProcessedForever | apps/worker/src/goods-receipt-assetizer.ts:56-62 | a delivery that got through stays processed through any interleaving, and delivered again does nothing |
| AssetizerProofs.RegistersExactly | apps/worker/src/goods-receipt-assetizer.ts:62-85 | a unit that is not registered, pending or given up, is registered if and only if nothing fails, its identity is known and untaken and the drawn id free; the asset has that identity and one event is added, and a refusal names its first reason |
| AssetizerProofs.FailureCountsExactly | apps/worker/src/goods-receipt-assetizer.ts:203-236 | a failure gives a pending unit up exactly if it is permanent or the fifth, and delays it otherwise; of another unit it only asks for a review |
| AssetizerProofs.WorkExactly | apps/worker/src/goods-receipt-assetizer.ts:193-236 | one worker leaves a unit alone until it is due, then registers it if all is good and otherwise marks and counts the failure; the round ends exactly if that is not recorded |
| AssetizerProofs.EventRegisters | apps/worker/src/goods-receipt-assetizer.ts:187-203 | in a round over an event a due unit whose turn comes with all good ends it registered with the asset drawn for it |
| AssetizerProofs.GoodRoundSettles | apps/worker/src/goods-receipt-assetizer.ts:187-238 | over rounds a unit is registered by the first that takes it up with all good, and nothing changes after |
| AssetizerProofs.FailedIsLeftExactly | modules/procurement/application/goods-receipts.ts:884-893 | FAILED is left exactly by a delivery that was begun on an earlier check and goes through |
| AssetizerProofs.FailedCanBeLeft | modules/procurement/application/goods-receipts.ts:884-893 | two workers reach a registered unit that was given up |
| AssetizerProofs.LateFailureAsksForReview | apps/worker/src/goods-receipt-assetizer.ts:218-236 | a failure asks for a review exactly if it is permanent, the fifth, or of a unit no longer pending |
| AssetizerProofs.SettledStays | apps/worker/src/goods-receipt-assetizer.ts:193-200 | one worker never changes a unit that is registered or failed |
| AssetizerProofs.BackoffIsShort | apps/worker/src/goods-receipt-assetizer.ts:226-229 | a pending retry waits two to the number of attempts, at most 16 seconds |
| AssetizerProofs.FiveRoundsSettle | apps/worker/src/goods-receipt-assetizer.ts:187-238 | rounds 16 seconds apart count a pending unit once for each recorded one, and five recorded rounds leave it registered, or failed with a work item |
| CostRetry.RetryRow.RecordFailure | apps/worker/src/cost-provenance.ts:520-549 | the upsert and its work item count, delay and give up as specified, or leave everything as it was |
| CostRetry.EffectsOnce | apps/worker/src/cost-provenance.ts:444-518 | in any interleaving an event's effects are committed once if it ever goes through, and giving up leaves a work item |
| CostRetry.PollsSettleForGood | apps/worker/src/cost-provenance.ts:561-600 | one worker counts at most five failures, and a settled event stays as it is |
| CostRetry.FivePollsSettle | apps/worker/src/cost-provenance.ts:520-600 | five recorded polls leave an event processed once, or failed with a work item, however many unrecorded ones come between, all 16 seconds apart |
| CostRetry.TurnExactly | apps/worker/src/cost-provenance.ts:520-600 | a poll leaves an open event alone until it is due and then commits its effects or counts the failure; after failure n it is taken up again from exactly 2^n seconds on, after the fifth never, with a work item |
| CostRetry.GoodPollSettles | apps/worker/src/cost-provenance.ts:561-600 | the first poll that takes an event up and does not break commits its effects, once for all |
| CostRetry.LateFailureIsHarmless | apps/worker/src/cost-provenance.ts:564-572 | a failure recorded after success leaves a row but the event is not taken up again |

## Readings of the source

- A JSON number is identified with the text `JSON.stringify` gives it; objects have distinct keys,
  as `JSON.parse` and `jsonb` deliver them. The alphabet of texts is UTF-16 code units.
- Tokens, times and quantities are real numbers; rounding of floating point is not modelled. The
  clock of the limiter is monotone and each limiter serves one policy.
- Uuids and entity types are given by their rank in the collation order. Cursor comparison by code
  units and sorting by `localeCompare` are taken to agree on them.
- Allocation rows obey the CHECK of migrations/procurement: only an approved exception has no
  receipt line. Texts of amounts are decimals as PostgreSQL prints a non-negative `numeric`; amounts of
  credit note lines have the four decimals of their column, prices six.
- Allocations are written when an invoice is matched and show once it is approved; the list of a
  receipt line holds those of the evaluation that is approved, in the order of their creation. Approved
  invoices and applied notes stay so. Units are accepted, and the order line is in force or not, before
  the first event of a run.
- Object storage keeps an object under its reference. Other modules change assets in any way that
  neither retires, disposes, reactivates nor assigns a retired asset, and leave wipe operations alone.
- Queries that page through rows see one snapshot, as the REPEATABLE READ transaction gives them.
- Received units have their state row before any delivery, as both are written with the receipt.
- The RFC 4180 reader takes any code unit but comma, quote, CR and LF as plain text.

## Left out

- HTTP parsing, routes, authentication, permissions, audit, outbox delivery, timelines and work item texts.
- Idempotency records of API commands: a replayed command is no step.
- Replacement plans: their commands only set states, and review has no guard on the state.
- Ranking of recommendation items and discovery of candidates.
- Migration scripts that end their own transaction, and a ROLLBACK that fails.
- The fallback `canonicalJson(undefined)`: absent entries are compared as absent.
- Contract costs and manual allocations, and currencies that differ from the source's.
- Hashes: command hashes are compared under the assumption that they do not collide; generation keys are given.
- Asset codes, serial number folding and the advisory lock of asset registration; a code collision is one of the faults of a delivery.
- CostEvents.CostLinker.Handle: one receipt line at a time. An order or invoice line that covers several receipt lines shares its capacity among them, and a note may release on several; each receipt line is modelled as if it were the only one. Failures of the database are not part of the transaction here.
- CostRuns.CompleteEventsGoThroughExactly: assumes that each invoice line is matched to the receipt line as a whole; without that `CostRuns.EventsGoThroughExactly` gives the condition by the records.
- CostRuns.ChargedUnderOne: a unit is charged twice only if an allocation moved; not every move charges a unit twice.
- ImportGraph.Check: the order of findings, and how a specifier is resolved to a file.
- Assetizer.Worker.ProcessEvent: one event; a round that is broken off also leaves the events behind it for the next poll.
- RateLimiterProofs.FirstRefusalAdvice: no other request of the key in between, and no pruning of its buckets while it waits.
