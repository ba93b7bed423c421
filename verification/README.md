# BrandSpace core: models and proofs

Dafny models of the four stateful parts of the platform that have to stay right while callers race, processes stop and
deliveries repeat, and proofs of what they keep:

- the **AI gateway** (`packages/ai-gateway`): idempotency keys, credit reservations, the provider walk, the stuck-request
  sweep, pricing and routing. `GatewayLifecycle` is the transition system (any number of callers, a crash possible between any two
  writes), `GatewaySettlement` what it guarantees about money, `GatewayHolds` what the steps of a run
  say of one reservation, `GatewayClock` how that fits its lifetime, `GatewayService` the service's own methods, each proved to
  be a run of that system; `CreditLedger`, `ChainWalk`, `StuckSweep`, `Pricing`, `Routing` and `Errors` are the parts it stands on;
- the **asset library** (`packages/assets`): the folder tree (`FolderForest`), object keys (`StorageKeys`), and versions, scans and
  purges (`AssetLifecycle` the transition system, `AssetEffects` what each call does to the rows, `AssetHistory` and `AssetVerdicts`
  what every run keeps, `AssetServices` the calls);
- **analytics ingestion** (`packages/analytics`): the observation upsert (`Observations`), the leased cursor and its backfill
  (`Ingestion`), evidence grounding (`Evidence`), anomaly detection (`Anomalies`) and the CSV export (`CsvExport`);
- **fair rotation and keyset paging** (`apps/api/src/scheduler.ts`, `packages/activity`): `Rotation`, `KeysetPaging`, `FixedListing`, `ActivityLog`, over the
  total order of `KeyOrder`.

`dafny verify dfyconfig.toml` checks everything.

## Where the code is narrower than its documentation

Each of these is stated as an exact condition, for all inputs, and not repaired in the model; where a run or an input is named, it shows the failure.

- **A failed request can have been paid for, and its key paid for twice.** `docs/AI-GATEWAY.md` section 7.4 and
  `gateway.ts:454-456` promise no charge for a failure and one charge for a re-run. `CreditLedger.settle` and `release` leave a
  reservation that is no longer open untouched (`credit-ledger.ts:603-605` and 702), so when a settlement commits and its record
  does not, the failure path releases nothing and the row ends FAILED with charge 0. `GatewaySettlement.StrandedExactlyByLoss`
  says when that happens, `RetrySettlesAgainIff` when a retry settles the key again, `AtMostOneSettlementPerKey` that nothing else
  can, and `ChargedForAFailure` gives the run.
- **A success can be recorded and charged with nothing settled.** A reservation lives for the route's timeout and a minute
  (`gateway.ts:567`), while moderation and the provider walk may each take that timeout; settling one that has expired changes nothing.
  `GatewayHolds.SuccessIsPaidIff`: exactly when the run has a step in which that reservation expires. `ChargedWithoutSettlement` is the run.
  By the clock, `GatewayClock.UnpaidOnlyBySlowRoutes`: exactly when two timeouts are longer than that lifetime, so never up to a
  timeout of a minute and always possible from 61 seconds on.
- **A terminal request can leave its reservation open**, exactly when the note of the reservation id was lost, because its write
  failed or because the process stopped before it (`gateway.ts:571-578`), and until the reservation expires by itself:
  `GatewayHolds.FailureLeavesHoldOpenIff`, with `HoldLeftOpenByFault` and `HoldLeftOpenByStop`.
- **The worst case is not the worst for every billing unit.** It bounds tokens of a text and images of an image request
  (`gateway.ts:1377-1388`); a rule per second or per character reserves for none. `Pricing.ReservationCoversExactly` says for which rules
  no usage can charge past the reservation, `ExcessCostsMore` gives the usage that does otherwise; the settlement is then refused.
- **Evaluations of threshold rules can stop for everyone.** An evaluation that throws ends the pass before its rule is parked
  (`scheduler.ts:1105-1155`), so such a rule reaches the front and stays there: `Rotation.OneThrowerStopsEverything`. Without one,
  `Rotation.EveryRuleIsVisited` gives the documented bound.
- **A live asset can be filed in a deleted folder**, exactly by completing an upload opened before the folder was deleted:
  `FolderForest.FilesStayReachableIff`, and the run `FileLostInDeletedFolder`.
- **A post link can depend on delivery order**, although values converge: `Observations.LinkSurvivesEveryOrderIff`.
- **A scan verdict can be committed for a version that was replaced meanwhile** (`processing.ts:79-178` reads the asset, scans, and
  writes later, at PostgreSQL's default isolation): `AssetVerdicts.CleanIsClearedIff`, and the run
  `NewVersionGetsTheOldVerdict`. Version rows do not have this problem.
- **Anomaly detection divides by zero** when the configured floor is 0 (which `domains.ts:1674` allows) and a baseline truncates to 0:
  `Anomalies.ThrowsExactlyOnAZeroBaseline`, and the series `QuietSeriesThrows`.
- **A role with two activity permissions does not always get the wider view** that `scope.ts:22-23` describes:
  `ActivityLog.MorePermissionsHideExactly`.
- **A backfill window can be walked over although the provider never answered for it**, exactly when some pull over it closed its
  run as failed or rate-limited (`ingestion.ts:295-311` takes any closed run for done): `Ingestion.WalkedWindowIsAnsweredIff`, and
  `FailedWindowIsPassedOver` from every cursor.
- **As many failing connections as the cursor sweep's batch holds stop it for all others**: `Rotation.FailuresTakeTheBatch`, the other
  side of `EveryConnectionIsEnsured`.
- **Times are stored in microseconds and cursors print milliseconds** (`library.ts:716`, `service.ts:151`). Newest first, the rows after
  a page that share its last row's millisecond are never shown (`KeysetPaging.SkippedExactly`, `SecondRowNeverShown`); oldest first, rows
  come back (`ShownAgainExactly`). `FixedListing.ListingIsWholeIff` says for which tables and page sizes following the cursors lists
  everything once and ends, `KeysetPaging.StableRowShown` when a row of a changing table is shown once. Oldest first the end itself can
  be missing: `FixedListing.EndsSoonOrNever` decides it within one page more than there are rows, `WalkEnds` and
  `CrowdedMillisecondNeverEnds` give tables on either side, and `TwoRowsNeverEnd` two rows and a page of one.
- **A pull that outlives its lease can set the backfill back**, exactly when the window it walked starts after where the backfill
  stands by then: `Ingestion.SetBackExactly`, and the run `OvertakenSetsBack`. It leaves no gap: `OvertakingLeavesNoGap`.

## Model

| member | source | states |
|---|---|---|
| CreditLedger.Settle | packages/entitlements/src/credit-ledger.ts:570-681 | closes an open hold for the amount asked, refuses more than the estimate, and never moves a hold that is already closed |
| CreditLedger.Release | packages/entitlements/src/credit-ledger.ts:689-745 | gives an open hold back in full and leaves a closed one as it is |
| CreditLedger.ClosedIsFinal | packages/entitlements/src/credit-ledger.ts:603-605 | no sequence of settle, release and expire calls changes a closed hold |
| CreditLedger.FirstClosingWins | packages/entitlements/src/credit-ledger.ts:570-745 | the first call that can close an open hold decides it, whatever follows |
| Errors.RetriedClassesAreNotFinal | packages/ai-gateway/src/errors.ts:40-76 | a class that earns another attempt is never one that is replayed as final |
| Errors.EveryClassHasItsKind | packages/ai-gateway/src/errors.ts:40-76 | each class is passing, of the model alone, of the request, or worth no retry, exactly as listed |
| GatewayLifecycle.SupersededName | packages/ai-gateway/src/gateway.ts:457-465 | moving a key aside always gives a longer name |
| GatewayLifecycle.StepKeepsInv | packages/ai-gateway/src/gateway.ts:423-607 | every step of any caller, crash, sweep or expiry keeps the invariant tying rows, reservations and usage together |
| GatewayLifecycle.RunKeepsInv | packages/ai-gateway/src/gateway.ts:423-1085 | so does every run |
| GatewayLifecycle.ActKeepsRequestInv | packages/ai-gateway/src/gateway.ts:916-1085 | one act of a request's process keeps its row, its hold and its usage rows consistent, and never changes a terminal row |
| GatewaySettlement.BooksInEveryReachableState | packages/ai-gateway/src/gateway.ts:916-1085 | usage charges plus settled-but-unrecorded amounts equal settlements plus recorded-but-unpaid charges, in every reachable state |
| GatewaySettlement.RowsInEveryReachableState | packages/ai-gateway/src/gateway.ts:546-607 | terminal with a recorded reservation means closed; not succeeded means zero charge; a success has exactly one usage row, its own charge, which is what was settled for it, or nothing was because the hold had expired |
| GatewaySettlement.TwoSettlementsMeanAStrandedOne | packages/ai-gateway/src/gateway.ts:423-475 | two settlements for one customer key mean one of them was never recorded |
| GatewaySettlement.StrandedExactlyByLoss | packages/ai-gateway/src/gateway.ts:916-972 | a settlement loses its record exactly when the record write fails or the process stops before it |
| GatewaySettlement.StrandedForGood | packages/ai-gateway/src/gateway.ts:982-1023 | no run ever repairs such a request |
| GatewaySettlement.LosslessStrandsNobody | packages/ai-gateway/src/gateway.ts:916-1023 | without a lost record no request of a key is ever in that state |
| GatewaySettlement.AtMostOneSettlementPerKey | packages/ai-gateway/src/gateway.ts:423-540 | one customer key is settled at most once over any run without a lost record |
| GatewaySettlement.RetryCanSettle | packages/ai-gateway/src/gateway.ts:442-467 | a retry of a transiently failed key can run through to a settlement of its own |
| GatewaySettlement.RetrySettlesAgainIff | docs/AI-GATEWAY.md:402-416 | a retry can settle the key a second time if and only if an earlier request of it is settled without being a success |
| GatewaySettlement.ChargedForAFailure | docs/AI-GATEWAY.md:402-404 | the run that ends FAILED with charge 0 and a full settlement, for every key and price |
| GatewaySettlement.SuccessIsFinal | packages/ai-gateway/src/gateway.ts:438-440 | after a recorded success no run changes the row, claims the key again or settles anything more for it |
| GatewaySettlement.TerminalIsInert | packages/ai-gateway/src/gateway.ts:457-468 | a terminal request, and so one whose key was moved aside, is never settled, recorded or charged again |
| GatewayHolds.ExpiredExactlyByItsStep | packages/entitlements/src/credit-ledger.ts:689-745 | over any run a hold has expired exactly when a step of the run was its expiry |
| GatewayHolds.SuccessIsPaidIff | packages/ai-gateway/src/gateway.ts:916-971 | a success was settled for its charge if and only if its hold did not expire in the run, or the charge is zero |
| GatewayHolds.ChargedWithoutSettlement | packages/ai-gateway/src/gateway.ts:556-568 | the run that ends in a success charged in full with nothing settled, for every key and price |
| GatewayClock.SettledInTimeIsPaid | packages/ai-gateway/src/gateway.ts:556-568 | a success settled within its reservation's lifetime was settled for its charge |
| GatewayClock.UnpaidOnlyBySlowRoutes | packages/ai-gateway/src/gateway.ts:567 | with moderation and walk each within the route's timeout, a success can go unpaid if and only if two timeouts outlast the lifetime |
| GatewayClock.GivenUpNeverSucceeds | packages/ai-gateway/src/gateway.ts:982-1085 | a request on the failure path, or stopped, is never recorded as a success |
| GatewayHolds.NoteGoneExactlyByLoss | packages/ai-gateway/src/gateway.ts:571-578 | a reservation loses its note exactly when the write fails or the process stops before it |
| GatewayHolds.OpenHoldOfATerminalRequest | packages/ai-gateway/src/gateway.ts:571-578 | a terminal request with an open hold never noted it, and only the hold's own expiry closes it |
| GatewayHolds.FailureLeavesHoldOpenIff | packages/ai-gateway/src/gateway.ts:546-607 | over whole runs, a terminal request's hold is open if and only if a step lost the note of it and it has not expired |
| GatewayHolds.HoldLeftOpenByFault | packages/ai-gateway/src/gateway.ts:571-580 | the run in which the write of the note fails, for every key and price |
| GatewayHolds.HoldLeftOpenByStop | packages/ai-gateway/src/gateway.ts:1312-1325 | the run in which the process stops before that write and a sweep records the end |
| GatewaySettlement.UndisturbedBooksAgree | packages/ai-gateway/src/gateway.ts:916-1085 | with no lost record and no early expiry the wallet and the usage ledger are equal whenever nothing is in flight |
| GatewayService.AiGateway.FindByKey | packages/ai-gateway/src/gateway.ts:425-428 | finds the row that holds a key, or that none does |
| GatewayService.AiGateway.ReplayIfRecorded | packages/ai-gateway/src/gateway.ts:423-475 | answers fresh for a free key, still running for a running one, the row itself for a terminal one no retry may supersede, and moves any other aside; only a lost race ends without an answer |
| GatewayService.AiGateway.MoveAside | packages/ai-gateway/src/gateway.ts:463-467 | renames the row only if it still holds the key, and then the key is free |
| GatewayService.AiGateway.CreateRequest | packages/ai-gateway/src/gateway.ts:501-540 | claims the key with one fresh row if and only if it is free, and otherwise answers with what the winner has |
| GatewayService.AiGateway.Execute | packages/ai-gateway/src/gateway.ts:259-352 | with what the call met given, exactly when its request ends as a success charged what the walk answered, as blocked, as failed or timed out (and with which class), or is left for the sweep; a key that is running or has a standing outcome is only reported, a free or freed one runs, unless a rival was first |
| GatewayService.AiGateway.RunReserved | packages/ai-gateway/src/gateway.ts:546-607 | the whole of one request's processing is a run of the lifecycle, and succeeds if and only if reserved, noted, unflagged, started, answered within the estimate, settled and recorded; likewise for every other end |
| GatewayService.AiGateway.ReserveCredits | packages/ai-gateway/src/gateway.ts:556-580 | goes through exactly when the wallet grants a positive estimate; a refusal charges nothing and is recorded as failed, with its class |
| GatewayService.AiGateway.SettleHold | packages/ai-gateway/src/gateway.ts:916-930 | the wallet pays if and only if the settlement commits and an open hold covers the charge, and then exactly that charge; otherwise nothing is spent |
| GatewayService.AiGateway.RecordSuccess | packages/ai-gateway/src/gateway.ts:932-971 | the success and its single usage row appear together, never above the reservation |
| GatewayService.AiGateway.SettleAndRecord | packages/ai-gateway/src/gateway.ts:916-972 | both happened exactly when both commit and the charge is within the estimate; otherwise the request goes down the failure path unchanged |
| GatewayService.AiGateway.ReleaseAndRecord | packages/ai-gateway/src/gateway.ts:982-1022 | a recorded failure has its noted reservation closed and charges nothing |
| GatewayService.AiGateway.RecordFailure | packages/ai-gateway/src/gateway.ts:1024-1085 | a timeout becomes TIMEOUT, everything else FAILED, with zero charge, and a zero usage row exactly when a provider was reached |
| GatewayService.AiGateway.BlockForModeration | packages/ai-gateway/src/gateway.ts:1147-1166 | a blocked request has given its hold back before it is marked |
| ChainWalk.AttemptOnce | packages/ai-gateway/src/gateway.ts:676-763 | one attempt extends a well-formed trace that fits the clock, the replies and the jitter, and says why the model goes on, settles or is given up |
| ChainWalk.CallProvider | packages/ai-gateway/src/gateway.ts:704-758 | one provider call: an answer is settled by the model's own rule, any other reply goes to the backoff |
| ChainWalk.BackOff | packages/ai-gateway/src/gateway.ts:746-806 | a failed attempt is repeated only for a retryable class with attempts left and a wait that ends before the deadline |
| ChainWalk.TryModel | packages/ai-gateway/src/gateway.ts:675-764 | attempts on one model end in a settled answer, the deadline, or a class to decide on |
| ChainWalk.VisitEntry | packages/ai-gateway/src/gateway.ts:653-771 | one entry of the chain: unusable, a model that ends the walk, or a fallback-eligible class that hands over to the next |
| ChainWalk.RunChain | packages/ai-gateway/src/gateway.ts:625-806 | the whole walk's trace is well formed and each of its events is the clock reading, the reply or the pause that was next; a success charges by the rule of the model that answered, a failure had to stop, and the rule lookup cannot fail |
| ChainWalk.VisitsAPrefix | packages/ai-gateway/src/gateway.ts:653-772 | the walk visits the chain front to back without skipping an entry |
| ChainWalk.AttemptsAreNumbered | packages/ai-gateway/src/gateway.ts:675-764 | a model is attempted at most maxAttempts times |
| ChainWalk.NothingFollowsAnAnswer | packages/ai-gateway/src/gateway.ts:719-745 | no provider call follows one that answered, even if settling it throws |
| ChainWalk.BetweenTwoCalls | packages/ai-gateway/src/gateway.ts:653-806 | a second call on a model follows a retryable class and a backoff inside the deadline; a call on a later model follows a fallback-eligible class with only unusable entries between |
| ChainWalk.WalkIsDetermined | packages/ai-gateway/src/gateway.ts:625-806 | clock, replies and jitter decide a walk: two finished traces that fit them are the same |
| ChainWalk.FirstAnswerSucceeds | packages/ai-gateway/src/gateway.ts:676-745 | a usable first model read before the deadline whose answer settles ends the walk there, charged by its own rule |
| ChainWalk.NoTimeNoCall | packages/ai-gateway/src/gateway.ts:676-690 | at or past the deadline the walk ends in a timeout and no provider is called |
| ChainWalk.PausesOfAPolicy | packages/ai-gateway/src/gateway.ts:780-806 | without jitter no pause, a fixed one, or one that doubles with each attempt |
| ChainWalk.JitterOfAPolicy | packages/ai-gateway/src/gateway.ts:780-806 | with it, half the pause and the other half times the number drawn, rounded down |
| StuckSweep.RequestTable.SweepStuckRequests | packages/ai-gateway/src/gateway.ts:1277-1336 | the batches amount to one pass over the stuck rows in order, swept + failed = attempted, exhausted exactly when it stopped short of both bounds, and then at the end of the order |
| StuckSweep.RequestTable.FindStuck | packages/ai-gateway/src/gateway.ts:1290-1304 | one bounded batch, oldest deadline first, without the rows this sweep failed on |
| StuckSweep.RemainingCandidates | packages/ai-gateway/src/gateway.ts:1290-1304 | after n rows the query returns exactly the rest of the order |
| StuckSweep.SweepNeverStarves | packages/ai-gateway/src/gateway.ts:1262-1276 | with room for the unfixable rows besides the limit, it sweeps the limit or all there is to fix |
| StuckSweep.ExhaustedMeansDrained | packages/ai-gateway/src/gateway.ts:1306-1310 | then every stuck row is timed out or listed as failed |
| StuckSweep.OthersUntouched | packages/ai-gateway/src/gateway.ts:1291-1295 | rows that are terminal or within their deadline are never touched |
| Pricing.DivideRoundingUp | packages/ai-gateway/src/pricing.ts:87-90 | the least integer whose product covers the numerator |
| Pricing.UnitsAddUp | packages/ai-gateway/src/pricing.ts:69-85 | usage adds up: a token of either kind is a thousandth, an image, second or character a whole unit, a request one |
| Pricing.ChargeIsTheExactRationalRoundedUpOnce | packages/ai-gateway/src/pricing.ts:135-149 | every charge is the exact rational, rounded up once |
| Pricing.ChargeIsMonotone | packages/ai-gateway/src/pricing.ts:135-149 | more billable units never cost less |
| Pricing.FindCreditRule | packages/ai-gateway/src/pricing.ts:152-168 | the rule of the pair, or that there is none |
| Pricing.ReservationEstimate | packages/ai-gateway/src/gateway.ts:317-321 | the dearest worst case along the chain, which some model attains, or a throw exactly if one is unpriced |
| Pricing.ChargeWithinReservation | packages/ai-gateway/src/gateway.ts:306-321 | usage within the worst case is charged within the reservation on whichever model answers, and its rule is there |
| Pricing.ReservationCoversExactly | packages/ai-gateway/src/gateway.ts:1369-1389 | no usage within the request can charge past the reservation if and only if the model's rule bills what the request limits, or no units |
| Pricing.WorstCaseIsWithin | packages/ai-gateway/src/gateway.ts:1369-1389 | the worst case is itself within the request: four characters a token rounded up, all the output allowed, or the images asked for |
| Pricing.ExcessCostsMore | packages/ai-gateway/src/pricing.ts:68-85 | under any other rule there is usage within the request that charges more than any given reservation |
| Pricing.QuoteCoversReservation | packages/ai-gateway/src/gateway.ts:389-407 | a quote is at least the reservation, and equal when the ceiling drops no model |
| Pricing.CostIsTheExactSumRoundedUp | packages/ai-gateway/src/pricing.ts:99-123 | the cost is the least that pays every token at its own kind's rate, or every other unit at the output rate, and is known exactly when both rates are |
| Pricing.WithinCapExactly | packages/ai-gateway/src/budgets.ts:157-171 | over the ceiling exactly when there is one and the model's own cost is above it; a model without a basis passes |
| Pricing.AffordableChain | packages/ai-gateway/src/gateway.ts:285-292 | the chain keeps exactly the models within the ceiling, each where the operator put it, in order |
| Pricing.SizeRequest | packages/ai-gateway/src/gateway.ts:274-321 | refused as over the ceiling exactly when every model is, throws exactly when rates are missing or an affordable model is unpriced; otherwise sized on every affordable model, in order |
| Pricing.RequiredPriceMicroMinor | packages/ai-gateway/src/pricing.ts:205-216 | defined exactly for targets from 0% to below 100% |
| Pricing.RequiredPriceIsLeast | packages/ai-gateway/src/pricing.ts:205-216 | a price reaches the target margin exactly from the derived price on |
| Pricing.DerivedPriceMeetsItsFloor | packages/ai-gateway/src/pricing.ts:236-270 | assessing a whole credit at the derived price breaches no floor at the target, and reports at least the target exactly when the credit costs something or the target is zero |
| Pricing.OneCheaperMissesTheTarget | packages/ai-gateway/src/pricing.ts:205-216 | one unit cheaper misses it |
| Pricing.FloorIsBreachedIff | packages/ai-gateway/src/pricing.ts:236-270 | the alarm goes off if and only if the floor is positive and the true margin, unrounded, is below it rounded up to a hundredth of a percent; without a credit value never |
| Routing.ModalityOf | packages/ai-gateway/src/tasks.ts:60-149 | every task's declared modality agrees with its capability |
| Routing.TasksOfACapability | packages/ai-gateway/src/tasks.ts:60-149 | capability by capability, exactly the tasks that need it |
| Routing.WhatCapabilitiesWant | packages/ai-gateway/src/capabilities.ts:76-170 | modality by modality and feature by feature, exactly the capabilities that want it |
| Routing.SpecificScopeWins | packages/ai-gateway/src/routing.ts:193-199 | a workspace rule beats a plan rule and that one a global rule, whatever the priorities |
| Routing.Winner | packages/ai-gateway/src/routing.ts:252-293 | the winning rule is the lexicographic maximum of scope, priority and earliest position among those that apply |
| Routing.BuildChain | packages/ai-gateway/src/routing.ts:296-316 | the chain is an order-preserving, duplicate-free selection of the rule's models that keeps every live one of the task's modality; the rest are excluded |
| Routing.RankingIsOrdered | packages/ai-gateway/src/routing.ts:401-460 | a ranking is strictly ordered by profile, preference and key |
| Routing.RankingIsUnique | packages/ai-gateway/src/routing.ts:393-460 | which models are ranked determines the ranking |
| Routing.CatalogueOrderIsIrrelevant | packages/ai-gateway/src/routing.ts:393-460 | no permutation of a catalogue with distinct keys changes the chain |
| Routing.ChainIsTheBest | packages/ai-gateway/src/routing.ts:573-582 | no admissible model left out ranks before one in the chain |
| Routing.ProfileDecides | packages/ai-gateway/src/routing.ts:393-460 | no admissible model left out is cheaper under Economy or of higher quality under Premium at equal preference, none cheaper or quicker where that was preferred, and Balanced wants quality exactly where features are required |
| Routing.PricesWeigh | packages/ai-gateway/src/routing.ts:362-384 | an output step weighs three input steps where output dominates the cost, the other way round elsewhere; an image is its own price |
| Routing.MayServeExactly | packages/ai-gateway/src/capabilities.ts:213-238 | live, declared, of the capability's modality and with every feature it requires |
| Routing.Admissible | packages/ai-gateway/src/routing.ts:540-551 | exactly the models that are live, declared, satisfying and at or above the floor |
| Routing.ExplicitChain | packages/ai-gateway/src/routing.ts:554-572 | a named route keeps exactly its eligible models, each once, at its first mention and in the declared order |
| Routing.ResolveCapabilityRoute | packages/ai-gateway/src/routing.ts:508-620 | every member of the chain may serve the capability, a named route in its declared order; refused as disabled exactly when switched off, as unsatisfied exactly when nothing named, or nothing at all, may serve |
| Routing.ResolveRoute | packages/ai-gateway/src/routing.ts:214-346 | a winning rule decides alone, by its live models or with the reason none is; without one the capability decides, unless nothing is declared; each refusal exactly, and every resolved chain is non-empty, duplicate-free and of live models of the task's modality |
| FolderForest.ForestIffAcyclic | packages/assets/src/library.ts:473-481 | being a forest is exactly: every parent exists and no folder is above itself |
| FolderForest.GivingUpForcesRefusal | packages/assets/src/library.ts:655-685 | on any graph, when the bounded descendant walk gives up early the depth walk forces the refusal |
| FolderForest.BoundedChecksAreExact | packages/assets/src/library.ts:471-490 | on a forest the two bounded checks decide exactly "not below the folder, and shallower than the limit" |
| FolderForest.MoveKeepsForestIff | packages/assets/src/library.ts:473-481 | a move keeps the forest if and only if the new parent is outside the folder's subtree |
| FolderForest.StepKeepsInv | packages/assets/src/library.ts:377-542 | every operation keeps the tree acyclic, of one brand per path, with live parents |
| FolderForest.RunKeepsInv | packages/assets/src/library.ts:377-542 | so does every run, under any sequence of depth limits |
| FolderForest.EveryReachableTree | packages/assets/src/library.ts:377-542 | in every reachable tree any folder above another is a different one, of its brand, and live if it is |
| FolderForest.FilesStayReachableIff | packages/assets/src/upload.ts:360-364 | no live asset sits in a deleted folder until, exactly, an upload completes into one |
| FolderForest.FileLostInDeletedFolder | packages/assets/src/upload.ts:360-395 | the run that does, for any ids |
| FolderForest.AssetLibrary.DepthOf | packages/assets/src/library.ts:655-668 | ends on any table with the number of folders above, capped one past the limit |
| FolderForest.AssetLibrary.IsDescendantOf | packages/assets/src/library.ts:671-685 | ends on any table and finds the ancestor exactly if it is within the limit |
| FolderForest.AssetLibrary.CreateFolder | packages/assets/src/library.ts:377-411 | on a forest, done if and only if the parent, if any, is live, of the brand and shallower than the limit; exactly one row appears |
| FolderForest.AssetLibrary.MoveFolder | packages/assets/src/library.ts:461-496 | on a forest, done if and only if the folder is live and the new parent, if any, is live, of its brand, not below it and shallower than the limit; then exactly its parent changes, and the invariant is kept |
| FolderForest.AssetLibrary.DeleteFolder | packages/assets/src/library.ts:519-533 | refused exactly while a live child or a live asset is in the folder; otherwise exactly it is marked deleted |
| FolderForest.AssetLibrary.FileAsset | packages/assets/src/library.ts:240-260 | an asset goes only into a live folder that takes its brand, and nothing but its folder changes |
| FolderForest.AssetLibrary.CompleteUpload | packages/assets/src/upload.ts:360-395 | the asset appears in the folder its session named when it was opened, with its brand, and the session is used up |
| FolderForest.RowsOfOtherCalls | packages/assets/src/library.ts:240-260 | opening and aborting uploads and deleting assets: accepted exactly when said, touching one row each |
| StorageKeys.KeysAreDistinct | packages/assets/src/storage-keys.ts:23-73 | two keys are equal exactly when they name the same object |
| StorageKeys.LowerFoldsExactly | packages/assets/src/storage-keys.ts:52-60 | a kind's capitals become their own small letters in the key, and nothing else changes |
| StorageKeys.WorkspacePrefixIsExclusive | packages/assets/src/storage-keys.ts:1-21 | a workspace's prefix holds that workspace's objects and nobody else's |
| StorageKeys.DerivativesLieUnderTheirVersion | packages/assets/src/storage-keys.ts:44-60 | derivatives lie under the prefix of the version they derive from |
| StorageKeys.SplitJoin | packages/assets/src/storage-keys.ts:11-16 | a key of separator-free segments can be read back into them |
| AssetHistory.StepKeepsInv | packages/assets/src/versions.ts:76-269 | every call of every service keeps the invariant, whatever processing is in flight |
| AssetHistory.EveryReachableAsset | packages/assets/src/versions.ts:98-147 | version rows number exactly 1..current, unpurged ones resolve to their bytes, the asset row repeats the current one, READY implies CLEAN |
| AssetHistory.HistoryIsAppendOnly | packages/assets/src/versions.ts:24-33 | no run changes where a version points, what it was created with, or a clean verdict |
| AssetHistory.RemovalSparesOthers | packages/assets/src/maintenance.ts:68-166 | purging one asset or expiring an upload removes no object of any other asset |
| AssetVerdicts.CleanIsClearedIff | packages/assets/src/processing.ts:170-177 | an asset row says CLEAN only about bytes a scan cleared, until exactly a clean verdict is committed after the bytes changed, to bytes no pass of the run was told are clean |
| AssetVerdicts.NewVersionGetsTheOldVerdict | packages/assets/src/processing.ts:110-177 | the run that ends with unscanned bytes selectable, for any two contents |
| AssetVerdicts.UninterruptedPassIsNeverStale | packages/assets/src/processing.ts:79-227 | a pass nothing else commits in between is never such a verdict |
| AssetVerdicts.CleanVersionsAreCleared | packages/assets/src/processing.ts:174-177 | a version row that says CLEAN is always about bytes a scan cleared |
| AssetVerdicts.SelectableIsSafeToUse | packages/assets/src/library.ts:697-699 | a selectable asset's bytes are there and cleared |
| AssetVerdicts.FailedPassIsNotUsable | packages/assets/src/processing.ts:237-296 | a failed pass leaves nothing selectable, quarantines exactly for scan problems, and retries exactly operational failures with attempts left |
| AssetVerdicts.RetriesAreBounded | packages/assets/src/processing.ts:101-262 | however passes overlap, stop half-way or repeat, the passes that commit are counted, and failures put a job back fewer times than its limit |
| AssetServices.Services.Complete | packages/assets/src/upload.ts:249-431 | the first version of a new asset, quarantined, as the specified step |
| AssetServices.Services.AddVersion | packages/assets/src/versions.ts:76-173 | a new object and a new version, back in quarantine, as the specified step |
| AssetServices.Services.RestoreVersion | packages/assets/src/versions.ts:188-269 | a forward version on the old object with the old verdict, as the specified step; RestoreBringsBackThatVersion says which |
| AssetServices.Services.BeginProcess | packages/assets/src/processing.ts:79-110 | a finished job stops; otherwise the pass reads the current version and its bytes |
| AssetServices.Services.FinishProcess | packages/assets/src/processing.ts:101-227 | the writes of a pass, in order, amount to the specified step |
| AssetServices.Services.Fail | packages/assets/src/processing.ts:237-296 | the failure's writes amount to the specified job and asset rows |
| AssetServices.Services.PurgeAsset | packages/assets/src/maintenance.ts:126-166 | deletes each object of the asset once and keeps its rows |
| AssetServices.Services.PurgeDeletedAssets | packages/assets/src/maintenance.ts:113-169 | a sweep is a run of single purges |
| AssetServices.Services.ExpireStaleSessions | packages/assets/src/maintenance.ts:68-99 | a sweep is a run of single expiries, each only if still open |
| AssetEffects.RestoreBringsBackThatVersion | packages/assets/src/versions.ts:188-269 | after an accepted restore of n the new row and the asset have the key, content and verdict version n had, READY exactly if it was CLEAN; every older row and every object stays |
| AssetEffects.AddedVersionHoldsTheBytes | packages/assets/src/versions.ts:76-173 | the bytes are stored under the next version's own key, unscanned, with a new job; every older row stays |
| AssetEffects.CompletedUploadHoldsTheBytes | packages/assets/src/upload.ts:249-431 | a new asset of the session's brand with version 1, its bytes, unscanned, and a job; the session is used up |
| AssetEffects.PassReadsTheCurrentVersion | packages/assets/src/processing.ts:79-110 | a pass reads the current version, its key and the bytes there, or that there are none, and changes no row |
| AssetEffects.WhyAPassFails | packages/assets/src/processing.ts:110-168 | no object, no answer, infected, failed, or not what it claims, each exactly |
| AssetEffects.CleanPassMarksWhatItRead | packages/assets/src/processing.ts:170-227 | a clean pass marks the asset CLEAN and READY, and of the versions only the one it read |
| AssetEffects.FailedPassWritesItsVerdict | packages/assets/src/processing.ts:237-296 | a bad verdict is written to the asset row alone, which is quarantined for a scan problem and failed for any other |
| AssetEffects.FailedPassRequeuesItsJob | packages/assets/src/processing.ts:237-296 | a failed pass counts, and its job is queued again exactly for a failed or unavailable scan with attempts left |
| AssetEffects.RestoredRow | packages/assets/src/library.ts:280-360 | an asset back from the archive is READY exactly if it is CLEAN, and quarantined otherwise |
| AssetEffects.PurgedRow | packages/assets/src/maintenance.ts:113-166 | a purge takes the objects of all versions of a deleted asset, and its key; the version rows stay |
| AssetEffects.LifeOfASession | packages/assets/src/maintenance.ts:68-99 | a session is opened once, and aborted or expired only while open; only an expiry removes the staged bytes |
| Observations.ObservationStore.UpsertObservations | packages/analytics/src/observations.ts:127-209 | all of the batch or nothing: refused exactly for a mixed workspace or a row written twice; written and unchanged add up |
| Observations.BatchingIsIrrelevant | packages/analytics/src/observations.ts:127-209 | however readings are batched, only the readings and their order matter |
| Observations.StoredIsTheWinner | packages/analytics/src/observations.ts:176-206 | what is stored is the last delivery among those with the greatest observation time |
| Observations.StoredBrandIsTheFirst | packages/analytics/src/observations.ts:176-206 | the stored brand is the one the key was first delivered with |
| Observations.StoredLinkIsTheLastCarried | packages/analytics/src/observations.ts:200-205 | a stored post link is that of the last delivery carrying one that was at least as fresh as all before it, and there is none without such a delivery |
| Observations.WrittenCountsTheAccepted | packages/analytics/src/observations.ts:193-209 | of a batch with distinct keys, written are exactly the rows that are new or at least as fresh as what is there |
| Observations.NothingRollsBack | packages/analytics/src/observations.ts:34-38 | the time never decreases, a link is never emptied, the brand never changes |
| Observations.Converges | packages/analytics/src/observations.ts:16-39 | any order, duplication and batching of the same readings leaves the same figures, when equal times carry equal figures |
| Observations.LinkSurvivesEveryOrderIff | packages/analytics/src/observations.ts:200-205 | the post link is there under every order if and only if some freshest reading carries it |
| Observations.DistinctKeysNeverCollide | packages/analytics/src/observations.ts:193-206 | a batch with distinct keys is never refused for writing a row twice |
| Ingestion.ClaimsAreLeaseApart | packages/analytics/src/ingestion.ts:182-204 | two claims with no release between them are more than the lease apart |
| Ingestion.EveryReturnReleases | packages/analytics/src/ingestion.ts:212-476 | every return of a pull releases the claim and closes the run it names; a scheduled one leaves the backfill alone |
| Ingestion.WindowsExactly | packages/analytics/src/ingestion.ts:479-518 | a scheduled window runs from the day boundary the refresh days begin at to now; a backfill window ends where the backfill stands and is a whole pass long or stops at the horizon, and is absent exactly when off, done or there |
| Ingestion.PullAnswers | packages/analytics/src/ingestion.ts:212-476 | when a pull answers succeeded, partial, failed or rate-limited, exactly, and whether it names a run |
| Ingestion.PullCloses | packages/analytics/src/ingestion.ts:291-476 | a run already closed keeps its status, any other is closed with the one of the answer |
| Ingestion.NextAttemptByAnswer | packages/analytics/src/ingestion.ts:634-724 | due again after the interval, the backoff or the time the provider said; only success clears the failures and moves what is covered, only failure counts one |
| Ingestion.BackfillMovesExactlyByAdvancing | packages/analytics/src/ingestion.ts:492-518 | the backfill moves exactly on an advancing pull, strictly back, at most one pass, not past the horizon, and completes exactly at it |
| Ingestion.AdvanceIsAnsweredIff | packages/analytics/src/ingestion.ts:291-311 | an advancing pull has its window answered for if and only if its run was not already closed as failed or rate-limited |
| Ingestion.WalkedWindowIsAnsweredIff | packages/analytics/src/ingestion.ts:212-476 | over any sequence of pulls, a walked window was answered for if and only if no pull over it closed its run as failed or rate-limited |
| Ingestion.FailedWindowIsPassedOver | packages/analytics/src/ingestion.ts:291-311 | from any cursor with a window to fetch, a pull without an answer and any later one over that window walk over it unanswered |
| Ingestion.SetBackExactly | packages/analytics/src/ingestion.ts:634-694 | a pull whose row was overtaken sets the backfill later exactly when it advances over a window starting after where it stands |
| Ingestion.OvertakingLeavesNoGap | packages/analytics/src/ingestion.ts:182-204 | however pulls overtake each other, every instant from where the backfill stands up to where it began lies in a walked window |
| Ingestion.OvertakenSetsBack | packages/analytics/src/ingestion.ts:634-694 | the run of three pulls that sets it back, from any cursor with two windows left |
| Ingestion.TilesWalkBack | packages/analytics/src/ingestion.ts:492-518 | over any sequence of pulls the walked windows abut, each ending where the last began |
| Ingestion.EveryInstantOnce | packages/analytics/src/ingestion.ts:488-491 | abutting windows cover every instant between their ends exactly once |
| Ingestion.BackfillEnds | packages/analytics/src/ingestion.ts:488-518 | no more advancing passes follow than the distance to the horizon takes, rounded up |
| Ingestion.ReachedIsReached | packages/analytics/src/ingestion.ts:512-513 | once the horizon is reached there is no window ever again |
| Ingestion.Service.Claim | packages/analytics/src/ingestion.ts:182-204 | wins exactly a cursor that is due and unclaimed or past its lease |
| Ingestion.Service.ReleaseDone | packages/analytics/src/ingestion.ts:634-694 | the release of a pull that succeeded |
| Ingestion.Service.PullWindow | packages/analytics/src/ingestion.ts:212-476 | a whole pull, branch by branch, as specified |
| Evidence.DigitRuns | packages/analytics/src/evidence.ts:287-301 | exactly the maximal digit runs of the text, in either script |
| Evidence.FoldsExactlyTheDigits | packages/analytics/src/evidence.ts:278-301 | the digits of both Arabic scripts fold to the ASCII digit of their value and no other character changes |
| Evidence.NumeralIsRead | packages/analytics/src/evidence.ts:278-301 | a number standing by itself is read as the same numeral in any of the three scripts |
| Evidence.RunsAcross | packages/analytics/src/evidence.ts:249-275 | a separator without digits neither joins nor loses a numeral |
| Evidence.JoinedRunsAreTheUnion | packages/analytics/src/evidence.ts:225-232 | the digit runs of the joined rendering are exactly the union of the rows' own |
| Evidence.RowStatesItsFigures | packages/analytics/src/evidence.ts:249-262 | a row always lets a claim restate its value, previous value, change and ordinal |
| Evidence.RowStatesExactly | packages/analytics/src/evidence.ts:241-275 | the numerals of a row are exactly those of its ordinal, figures, dates and texts |
| Evidence.BuildEvidencePackage | packages/analytics/src/evidence.ts:135-239 | the first candidates up to the limit, numbered from one, each with exactly its own numerals |
| Evidence.ValidateGrounding | packages/analytics/src/evidence.ts:335-381 | reports exactly the unknown citations, the missing citation and the numerals no cited row prints |
| Evidence.InventedNumberIsReported | packages/analytics/src/evidence.ts:360-381 | a number of two digits or more that no cited row prints is reported, in whichever script it is written |
| Evidence.NoViolationIffGrounded | packages/analytics/src/evidence.ts:311-334 | nothing is reported if and only if the text is grounded |
| Evidence.ValidateGroundedDocument | packages/analytics/src/evidence.ts:401-434 | nothing is reported if and only if every claim stands on its own citations and uncited prose on none |
| Evidence.BothLanguagesAreRead | packages/analytics/src/evidence.ts:410-418 | a number in either language is checked |
| Evidence.UncitedProseStatesNothing | packages/analytics/src/evidence.ts:389-398 | uncited prose passes exactly when its longer numerals were all allowed explicitly |
| Evidence.MoreEvidenceChangesNothing | packages/analytics/src/evidence.ts:86-100 | appending evidence never changes the verdict on a text citing the rows there were |
| Anomalies.DetectAnomalies | packages/analytics/src/anomalies.ts:62-116 | the detection loop computes the specified findings |
| Anomalies.NoHindsight | packages/analytics/src/anomalies.ts:54-60 | the result on the first part of a series is the first part of the result |
| Anomalies.GapsAreIgnored | packages/analytics/src/anomalies.ts:71-74 | inserting or deleting empty buckets changes nothing |
| Anomalies.ObservedPointsInOrder | packages/analytics/src/anomalies.ts:71-74 | what is assessed are the points with an observation, in order and with their values |
| Anomalies.FindingsAreWhatStandsOut | packages/analytics/src/anomalies.ts:74-113 | the findings are exactly the periods above the floor and past the threshold, each once, in order |
| Anomalies.BaselineIsTheMean | packages/analytics/src/anomalies.ts:81-89 | the baseline is the mean of exactly the preceding periods, truncated toward zero |
| Anomalies.FindingSaysWhatItCompared | packages/analytics/src/anomalies.ts:97-116 | a finding states its period, value, baseline, the first and last period compared, its direction and its deviation in thousandths |
| Anomalies.RoundingKeepsThreshold | packages/analytics/src/anomalies.ts:97-98 | truncating the deviation never changes whether it is past the threshold |
| Anomalies.ThrowsExactlyOnAZeroBaseline | packages/analytics/src/anomalies.ts:89-97 | detection throws exactly when the floor is zero and some baseline truncates to zero |
| Anomalies.QuietSeriesThrows | packages/analytics/src/anomalies.ts:89-97 | a series of zeros one longer than the window throws, for every window |
| CsvExport.Guard | packages/analytics/src/export.ts:51-65 | a guarded text never starts a formula and is the text itself or one apostrophe longer |
| CsvExport.DocumentReadsBack | packages/analytics/src/export.ts:53-72 | a reader of section 2 of RFC 4180 returns the same rows, columns and guarded texts, whatever the cells hold |
| CsvExport.NoFormulaSurvives | packages/analytics/src/export.ts:44-66 | no cell that is read back starts a formula |
| CsvExport.GuardLosesExactly | packages/analytics/src/export.ts:62-65 | two texts print alike exactly when one already was the other's guarded form |
| CsvExport.ToCsv | packages/analytics/src/export.ts:126-227 | refused exactly when too large; otherwise a file that reads back as header and rows, saying whether any was a mock |
| CsvExport.EachFieldUnderItsName | packages/analytics/src/export.ts:75-210 | in the file read back, under each of the thirteen names stands that field of the row, guarded, and nothing for a missing one |
| CsvExport.FormulasStartWith | packages/analytics/src/export.ts:44-65 | the six characters that start a formula, and no others |
| KeyOrder.SortedIsUnique | apps/api/src/scheduler.ts:1086-1087 | an ascending list of exactly the rows is the sorted one |
| Rotation.QueueAfter | apps/api/src/scheduler.ts:1072-1076 | the rows served go to the back and the others keep their order |
| Rotation.EveryRuleIsVisited | apps/api/src/scheduler.ts:1065-1076 | every one of n rules is visited in any ceil(n / batch) consecutive passes, if no enabled one throws |
| Rotation.OneThrowerStopsEverything | apps/api/src/scheduler.ts:1105-1155 | with one that always throws, after n passes no rule is ever visited again |
| Rotation.ParksEndAtTheLatest | apps/api/src/scheduler.ts:1143-1151 | however overlapping passes interleave, a rule ends at the latest time it was parked at |
| Rotation.EveryConnectionIsEnsured | apps/api/src/scheduler.ts:639-678 | every sound connection is reached as long as fewer fail than a batch holds, at the rate of the places left |
| Rotation.FailuresTakeTheBatch | apps/api/src/scheduler.ts:639-678 | with as many failing connections as the batch holds, after as many passes as there are sound ones none of those is reached again |
| Rotation.Scheduler.ProduceThresholdEvents | apps/api/src/scheduler.ts:1062-1159 | one pass parks exactly the rules before the first that throws |
| Rotation.Scheduler.EnsureCursors | apps/api/src/scheduler.ts:639-678 | one pass parks exactly the connections of the batch that did not fail |
| KeysetPaging.FetchPage | packages/assets/src/library.ts:142-159 | a page is the next rows in order after the cursor, with the printed place of its last row as cursor exactly if more follow |
| KeysetPaging.WholeListing | packages/assets/src/library.ts:142-159 | of a walk that ended on a fixed table: all pages but the last are full, and they are every row once, in order, if and only if none of its boundaries cuts a millisecond it must not |
| FixedListing.ListingIsWholeIff | packages/assets/src/library.ts:142-159 | in either direction and by any column, following the cursors ends having shown every row once, in order, if and only if the table cut into pages of that size cuts no millisecond that a row to come shares (newest first), or none at all (oldest first) |
| FixedListing.WalkEnds | packages/assets/src/library.ts:152-159 | the walk ends within as many pages as there are rows, and one: newest first, by a column printed in full, over whole milliseconds, or with fewer rows in every millisecond than a page holds |
| FixedListing.EndsSoonOrNever | packages/assets/src/library.ts:152-159 | any walk that ends does so within as many pages as there are rows, and one |
| FixedListing.CrowdedMillisecondNeverEnds | packages/assets/src/library.ts:579-607 | by time oldest first, no walk from before a millisecond with a page full of rows inside it, and one more there or later, ever ends |
| FixedListing.TwoRowsNeverEnd | packages/assets/src/library.ts:579-607 | two rows and a page of one that never end |
| KeysetPaging.StableRowShown | packages/assets/src/library.ts:579-607 | while other rows change between pages, an unchanged row appears exactly once if and only if no page ends where its printed cursor gets that row wrong; newest first never twice, oldest first never left out |
| KeysetPaging.StableRowsAppearOnce | packages/assets/src/library.ts:579-607 | so it appears exactly once when the sort value is printed in full: a name, a size, or times of whole milliseconds |
| KeysetPaging.SkippedExactly | packages/activity/src/service.ts:149-209 | newest first a row is skipped exactly when it is older than the last row shown but not older than its printed time, the id deciding a tie; none is shown twice |
| KeysetPaging.SecondRowNeverShown | packages/activity/src/service.ts:149-209 | the walk over two rows of one millisecond that ends without the second |
| KeysetPaging.CutsExactly | packages/activity/src/service.ts:149-209 | a boundary cuts a millisecond, in terms of stored times, exactly when it gets some row of the table wrong |
| KeysetPaging.ShownAgainExactly | packages/assets/src/library.ts:713-716 | oldest first a row comes back exactly when it is not past the last row shown but past its printed time, the id deciding a tie; none is skipped |
| ActivityLog.Take | packages/activity/src/service.ts:117 | a page holds between one row and the maximum whatever is asked |
| ActivityLog.ReadPage | packages/activity/src/service.ts:104-154 | every row returned satisfies the reader's scope and the filter, and the page is the next of those |
| ActivityLog.FiltersOnlyNarrow | packages/activity/src/service.ts:219-243 | whatever filter is sent, the rows are among those the scope allows |
| ActivityLog.WhoSeesARow | packages/activity/src/scope.ts:43-57 | exactly who sees a row, by permission, brand scope and actor |
| ActivityLog.FilterKeepsExactly | packages/activity/src/service.ts:219-243 | a filter keeps exactly the rows of its brand, action, actor and time span |
| ActivityLog.MorePermissionsHideExactly | packages/activity/src/scope.ts:43-57 | adding a permission hides a row exactly when own-graded access is joined by a restricted brand grade that does not cover it |
| Text.NatTextInjective | packages/assets/src/storage-keys.ts:41 | no two numbers print alike |

## Left out

- PostgreSQL, Redis, HTTP, timers, provider adapters and the scanner: tables are maps and sequences with unique keys, and what a call out of the code meets is a parameter.
- Tenancy: row-level security, permissions, the actor's brand scope in asset and folder calls, cross-workspace refusals, redaction and audit rows.
- The gateway's budgets, the moderation call itself, stored outputs and their purge, cost capture and provider fields of a row; and a row update that throws inside the provider walk, which escapes it.
- The wallet: grants, allocations and balances behind a reservation. A hold is its estimate, its status and what was settled.
- The sweep racing a request that is still running: a sweep acts on requests whose process has stopped, one sweeper per row, over a table that does not change under it.
- GatewayService.AiGateway.Interfere: stands for every other process, so its body does nothing and callers may rely only on its contract; so do Race and Others, and whether a rival acts at the two places that decide an answer is a parameter.
- GatewayService.AiGateway.ReplayIfRecorded: does not say which of two racing retries wins, because the conditional update decides that.
- ChainWalk.RunChain: the abort signal handed to an adapter and the adapter's own timeout.
- Pricing: the missing-rate error is a missing result; fractional unit counts.
- GatewayLifecycle: the step RecordFault stands both for a success whose write failed and for a settlement that committed but whose re-read threw, which the gateway cannot tell apart; likewise LoseNote for a reservation and the write of its id.
- Routing.ResolveCapabilityRoute: the excluded list, the timeouts, parameters and retry policy a route carries; model keys are compared by their place in an abstract collation order.
- FolderForest: folder names, and two folder calls interleaving between their checks and their write; each call is one step. A depth bound on the whole tree is not kept by the code, which checks only the moved folder's own level.
- AssetLifecycle: quota, metadata, duplicate detection, expiry times and derivatives (no encoder exists); each call but processing commits as one step. A processing pass is one transaction of its worker (apps/worker/src/processors/assets.ts), so the attempt of one that stops half-way is rolled back and not counted; jobs waiting for each other's row locks are left out. Objects are named by what they are stored for, which StorageKeys.KeysAreDistinct shows is the same as by their text.
- Observations: the hash of a key and the joining of its parts are taken to be injective.
- Ingestion.ClaimsAreLeaseApart: one cursor; the batch limit and its order are left out.
- Ingestion.TilesWalkBack: pulls one after another; those that overtake each other are the subject of SetBackExactly and OvertakingLeavesNoGap, without the runs they share.
- Evidence.BuildEvidencePackage: the loops that turn metrics, anomalies, posts, knowledge and absences into candidate rows, and the fence put around the text.
- Evidence.ValidateGrounding: the order in which ungrounded numerals are listed.
- CsvExport: the query, the window check and the file name; values arrive as text.
- Rotation: what an evaluation does, the timed producer, and rows enabled or disabled between passes.
- KeysetPaging: how a cursor is encoded; names that look like timestamps; it is a sort value and an id.
- FixedListing.WalkEnds: between its tables and those of CrowdedMillisecondNeverEnds the way through one millisecond depends on the ids of its rows; EndsSoonOrNever bounds how far it must be followed.
- Anomalies: JavaScript numbers; all arithmetic is on integers.
