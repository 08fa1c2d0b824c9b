# Verified model of the in-app message server

A Dafny model of the parts of the server that carry its meaning, and proofs about them.

- **Delivery**: message states, the change log with prune-on-write, the bundle cache with its segment index, entity
  tags, delta synchronisation, and one device that adds, removes and expires entries. Runs interleave creation, state
  changes, segment and membership changes, other channels' synchronisations and the device's own.
  (`ChangeLog`, `Definitions`, `Payload`, `Etag`, `Delivery`, `DeliveryInvariants`, `DeliveryRuns`, `DeliveryTimeliness`,
  `DeliveryTags`, `DeliveryFastPath`, `DeliveryLoss`, `DeliveryWithdrawal`, `DeliveryAnswers`, `DeliveryKinds`, `DeliveryDeltas`,
  `Lifecycle`, `PayloadMeaning`, `DeliveryService`)
- **Experiments**: bucket allocation by largest remainders, range tables, lookup, reweighting.
  (`Allocation`, `AssignmentMeaning`, `RangeTables`, `RangeFaults`, `Reweighting`, `MajorTransition`)
- **Audience predicates**: the registry, the checked tree, its row-wise evaluation with error-absorbing `&&` and `||`, its
  compilation to a SQL condition under three-valued logic, the agreement of the two, the evaluator's program cache.
  (`Predicates`, `SqlCompile`, `Agreement`, `Lenience`, `Comparisons`, `WindowMeaning`, `Acceptance`, `Evaluator`, `SemVer`,
  `SemVerMeaning`)
- **Membership**: the forward and reverse indexes, full recomputation with generations, incremental updates.
  (`Membership`, `MembershipRuns`, `MembershipMeaning`, `Freshness`, `MembershipJobs`)
- **Rollups**: the two consumers, crashes and replays included, and the reach sketches. (`Rollups`,
  `RollupMeaning`, `RollupRuns`, `EventTable`, `RollupJobs`, `Hll`)
- **Budget, clocks, reach**: the sliding-window counter and late or early reports to it, the median clock offset, the Wilson
  interval. (`Budget`, `BudgetReports`, `BudgetChecks`, `BudgetKeys`, `ClockOffset`, `Reach`, `ReachMeaning`)

`Wrappers`, `Ordering` and `Decimals` hold shared vocabulary. Code that changes state step by step is a class with
methods and loops, each proved to have exactly the effect of a function on values; the properties of whole runs are
lemmas about those functions. The modules named for a meaning say what such a function stands for without using it: in an
event's own fields, in plain numbers, in the requests of a run. `dafny verify dfyconfig.toml` verifies everything.

## Findings

Where the code does not do what its comments or design say, the code is modelled as it is. A lemma exhibits the
failure, and another says exactly when the promise holds.

- **A device can lose a message for good.** A cached bundle is reused however old it is (`bundle.go:113-119`), while a delta
  takes every message whose window opened before the cursor was issued for one the device has (`deliver.go:204`). If the
  window opens between the bundle's assembly and the cursor's issue, no delta ever sends the message.
  `DeliveryLoss.TheCacheLosesAMessage` is such a run; `DeliveryRuns.DeviceShowsCurrentIffNotMissed` says which messages
  are missed and that nothing else goes wrong. Over whole runs: every answer leaves exactly the eligible set if and only
  if none used a bundle assembled before the window of a message eligible by then (`DeliveryTimeliness.RunsShowTheEligibleSetIff`).
  Equal tags promise no less: after a rebuild answered Unchanged the same messages are shown and missed (`DeliveryTags.EqualTagsShowCurrentIffNotMissed`).
- **The cached tag outlives a withdrawal.** A state change drops bundles (`admin.go:60-108`) but no cached tag, so until the tag expires a device
  is told "unchanged" (`deliver.go:90-95`) and goes on showing a paused campaign: `DeliveryWithdrawal.TheCachedTagHidesAWithdrawal` is such a run.
  The device then shows the eligible set if and only if the messages its cursor sent, by the change log, the windows and the memberships, are the
  ones eligible now (`DeliveryFastPath.CachedTagShowsTheEligibleSetIff`); after timely answers, the ones eligible when the cursor was issued
  (`DeliveryFastPath.TimelyCachedTagShowsIff`). It lasts for the tag's lifetime and no longer: a tag answers only for a payload made for the channel less
  than that ago (`DeliveryAnswers.TagsAnswerForTheirLifetime`), so a message withdrawn that long ago is not shown (`DeliveryAnswers.WithdrawalsAreSeenInTime`).
- **The database matches channels that have no version.** `semver_normalize(NULL)` is version 0.0.0, not NULL, so
  `semver(app_version) < semver("2")` selects such channels; row by row it is an error (`Agreement.AMissingVersionMatches`). The guard is exact:
  `Agreement.SemVerAgreesIff`. Components longer than ten characters are cut by `lpad` (`SemVer.NormalisationsAgreeIff`), and a missing value sought in
  an empty list is FALSE, not NULL (`Agreement.EmptyListAgreesIff`). These two leniencies are the whole difference, on any tree and any row
  (`Lenience.DatabaseIsLenient`, `Lenience.EvaluationsAgreeIff`); without `&&` and `||`, `Lenience.UnjoinedAgreeIff` says which missing values make it,
  and `Lenience.JoinedAgreeIff` carries that through `&&` and `||`.
- **Segments read back from the store share one program.** Their hash is empty (`segment.go:78`, `segment.go:101`), so an evaluator runs the
  first for all (`Evaluator.ReadBackSegmentsShareAProgram`). Evaluation is faithful exactly when equal hashes mean equal trees (`Evaluator.FaithfulIff`).
- **One missing attribute makes another segment stale.** `UpdateChannel` gives up at the first evaluation error
  (`Freshness.AMissingAttributeStalesAnother`); exactly when that leaves a bit wrong is `Freshness.TouchKeepsFreshIff`,
  and over runs `Freshness.IncrementalEqualsRecomputeIff`.
  `Freshness.TheStaleCaseArises` gives the two segments and the channel.
- **"Never skipped" needs a restart.** After an error before the commit, a log consumer that goes on polling has moved past the
  batch, and the next commit moves the group past it (`RollupRuns.AnErrorSkipsItsBatch`). A commit skips nothing if and only if every
  record between the group's position and the client's is applied or in the batch (`RollupRuns.CompletingSkipsNothingIff`); over runs that is
  `RollupRuns.NeverSkipsIff`. Crashes anywhere, and errors followed by a restart, meet it (`RollupRuns.CarefulRunsSkipNothing`). Counts are exact in either case.
- **Reweighting is not always minimal.** With three arms it can move more buckets than another assignment to the same weights does
  (`Reweighting.ReweightIsNotAlwaysMinimal`). The fewest possible are what the arms grow by (`Reweighting.NoReassignmentMovesFewer`,
  `Reweighting.LeastIsAttained`), and it moves just those if and only if every arm's ranges are nested (`Reweighting.ReweightIsMinimalIff`).
- **A schema-major transition can fail whole payloads.** Weights are validated per language (`validate.go:127-141`) and assigned after
  narrowing to one major (`bundle.go:186`, `bundle.go:199`). A message with two majors in one language leaves weights short of 100
  (`MajorTransition.ATwoMajorMessageDrifts`), no table is accepted, and the payload fails. It fails if and only if one of its messages has a
  language group whose floors leave over less than nothing or more than one bucket a variant (`MajorTransition.PayloadFailsIff`).
- **A negative cap reports nothing left and refuses nothing** (`Budget.RemainingIsExactIff`).
- **Impressions are booked at device time.** A late report counts in the current window and an early one forgets both buckets
  (`BudgetReports.ALateImpressionCountsNow`, `BudgetReports.AnEarlyImpressionForgets`). Over runs of reports the buckets are true totals
  throughout if and only if the reports' windows never go back (`BudgetReports.ReportsKeepTotalsIff`). The bound on overshoot survives late reports and
  fails with a report one window ahead; reports may be ahead by no window at all, exactly (`BudgetReports.StaysNearTheCapIff`). At one check of one run it holds, whatever the cap, if and only
  if the buckets cover the trailing window (`BudgetChecks.NearForEveryCapIff`), as they do when the stored window is not past the server's.
  Past it, that depends on what led there (`BudgetChecks.AlwaysCoversIff`, `BudgetChecks.CoveredIffNotForgotten`).
- **Versions of 10^10 and more sort wrongly**, and exactly from there on (`SemVer.OrderPreservedIff`).

## Model

| member | source | states |
|---|---|---|
| `ChangeLog.Table.Record` | internal/delivery/changelog/changelog.go:53-66 | appends the row under the next sequence number, then prunes rows older than the retention of this write |
| `ChangeLog.Table.ReadCurrentSeq` | internal/delivery/changelog/changelog.go:70-79 | the highest sequence number in the table, 0 when empty |
| `ChangeLog.Table.ReadSince` | internal/delivery/changelog/changelog.go:83-106 | every row past a sequence number, in order |
| `ChangeLog.CurrentSeqCountsWrites` | internal/delivery/changelog/changelog.go:70-79 | over every run the current sequence number is the number of writes, so it never decreases, whatever the clock does |
| `ChangeLog.PruningKeepsTheRetention` | internal/delivery/changelog/changelog.go:53-66 | under a non-decreasing clock the table is exactly the full history cut at the last write's retention |
| `ChangeLog.SinceIsCompleteIff` | internal/delivery/changelog/changelog.go:83-106 | a reader gets every later write if and only if the first of them is still inside the retention |
| `ChangeLog.HonourableCursorMissesNothing` | internal/delivery/deliver/deliver.go:171-183 | a cursor young enough to be honoured misses no row written since it was issued |
| `DeliveryService.Service.UpdateState` | internal/definition/store/store.go:212-250 | an allowed transition changes the one message and appends one audit row; a refused one changes nothing |
| `Lifecycle.MovesIff` | internal/definition/model/message.go:20-29 | a move is allowed if and only if it does not go back, pauses only what was scheduled or active, and completes only what was active or paused |
| `Lifecycle.ReachableIff` | internal/definition/model/message.go:20-29 | a chain of allowed moves leads from one state to another if and only if the other is no earlier a stage |
| `Lifecycle.MessagesOnlyAdvance` | internal/definition/model/message.go:31-42 | over every run a message stays once created, changes nothing but its state, and that never to an earlier stage |
| `Lifecycle.TheTrailIsTrue` | internal/definition/store/store.go:212-250 | over every run each message is where its latest audit entry moved it, each entry continues from the one before by an allowed move, and entry for entry the trail is the change log's writes, upserts being the moves to active |
| `Lifecycle.EntriesNameTheirActors` | internal/definition/store/store.go:212-250 | each audit entry is of a request made in the run, with its target, actor and time |
| `Lifecycle.PermittedMovesAreEntered` | internal/definition/store/store.go:212-250 | an allowed move of a known message adds its entry, from where the trail says the message was |
| `DeliveryService.Service.UpdateMessageState` | internal/platform/connectserver/admin.go:60-108 | state change, change-log row and bundle invalidation as one step, or nothing |
| `DeliveryService.Service.CreateMessage` | internal/platform/connectserver/admin.go:35-58 | a message is stored as a draft whatever state it was sent with |
| `DeliveryService.Service.InvalidateCampaign` | internal/delivery/payload/bundle.go:355-379 | drops every bundle listed under the message's audience and leaves the lists |
| `DeliveryService.Service.SetCachedBundle` | internal/delivery/payload/bundle.go:315-335 | caches the bundle and lists its key under every segment it was assembled from |
| `DeliveryService.Service.SharedBundleFor` | internal/delivery/payload/bundle.go:103-139 | a hit is returned as it is; a miss is assembled, cached and listed |
| `DeliveryService.Service.BuildFor` | internal/delivery/payload/payload.go:110-165 | no membership gives an empty payload; otherwise the shared bundle with the channel's overlay |
| `DeliveryService.Service.Decide` | internal/delivery/deliver/deliver.go:153-222 | the delta decision: honourable or not, entries, tombstones, and the fresh cursor |
| `DeliveryService.Service.Synchronise` | internal/delivery/deliver/deliver.go:86-142 | the whole synchronisation: fast path, build, tag cache, full or delta answer, and the new server state |
| `DeliveryService.CollectLatestKinds` | internal/delivery/deliver/deliver.go:184-190 | the last change of each message wins |
| `DeliveryService.SelectEntries` | internal/delivery/deliver/deliver.go:197-208 | keeps, in order, the entries that changed or whose window opened since the cursor |
| `DeliveryService.SelectTombstones` | internal/delivery/deliver/deliver.go:210-219 | names exactly the withdrawn messages that are not in the payload, once each |
| `DeliveryService.ListKey` | internal/delivery/payload/bundle.go:326-330 | adds the key to the list of every given segment, removes none |
| `Payload.Assemble` | internal/delivery/payload/bundle.go:146-175 | the bundle is that of the eligible messages in serving order, or the first message's error |
| `Payload.Build` | internal/delivery/payload/payload.go:137-152 | the entries of a bundle for one viewer, holdouts left out, or the first error |
| `Payload.BuiltEntries` | internal/delivery/payload/bundle.go:146-266 | the entries built from an assembled bundle are exactly the entries of the messages eligible at assembly |
| `PayloadMeaning.EntryMeans` | internal/delivery/payload/bundle.go:182-266 | a viewer's entry for a message is just what carries the message's own fields and the id, schema and content of one variant: the assigned one among those of the major and language, or the first of the major when there is none of the language |
| `PayloadMeaning.PayloadMeans` | internal/delivery/payload/bundle.go:146-266 | the payload has just such an entry of every message active, open and for one of the segments at assembly, and nothing else |
| `PayloadMeaning.PayloadIsInOrder` | internal/delivery/payload/payload.go:333-345 | higher priorities come first, and of equal ones the smaller id |
| `PayloadMeaning.FailureNamesTheFirst` | internal/delivery/payload/payload.go:137-152 | a failed payload names the first message of the bundle that cannot be assigned |
| `PayloadMeaning.AssemblyNamesTheFirst` | internal/delivery/payload/bundle.go:146-175 | a failed assembly names the first eligible message, in that order, without any variant |
| `Payload.BuiltEntriesDistinct` | internal/delivery/payload/payload.go:137-152 | a payload carries each message at most once |
| `Payload.DraftChangesNothing` | internal/platform/connectserver/admin.go:43-48 | a new draft changes no eligible set, so no change-log row is needed for it |
| `Payload.OutsiderChangesNothing` | internal/delivery/payload/bundle.go:80-97 | changing the state of a message outside a bundle's segments leaves what that bundle is assembled from unchanged |
| `Etag.Compute` | internal/delivery/etag/etag.go:25-40 | sorts a copy and writes the fields of each entry, each ended by a NUL |
| `Etag.StreamIdentifiesProjections` | internal/delivery/etag/etag.go:25-40 | for distinct NUL-free ids the hashed stream is the same if and only if the sets of hashed projections are, whatever the order |
| `Etag.SameTagIff` | internal/delivery/etag/etag.go:25-40 | so two payloads have one stream if and only if each entry of either has one in the other with the same message, version, variant, schema version and policy |
| `DeliveryInvariants.UpdateKeepsCache` | internal/delivery/payload/bundle.go:337-379 | after a state change every remaining bundle is still what assembling it at its own time on the current store gives, and is still listed |
| `DeliveryInvariants.SharedBundleKeepsCache` | internal/delivery/payload/bundle.go:103-139 | so it is after a hit or a miss |
| `DeliveryInvariants.CachedMessagesAreActive` | internal/delivery/payload/bundle.go:146-175 | no cached bundle contains a message that is not active |
| `DeliveryRuns.RunsKeepTheInvariant` | internal/delivery/deliver/deliver.go:86-222 | over every run the caches stay faithful, the log complete and the device's cursor truthful, also after an Unchanged answer |
| `DeliveryRuns.DeltaHolds` | internal/delivery/deliver/deliver.go:180-222 | message by message, applying a delta leaves what the full payload would have, except for the lost messages |
| `DeliveryRuns.DeviceShowsCurrentIffNotMissed` | internal/delivery/deliver/deliver.go:86-222 | after any answer with content, in any run, the device shows of a message exactly what a full assembly now gives if and only if the message is not missed |
| `DeliveryTimeliness.ShownIffTimely` | internal/delivery/deliver/deliver.go:197-208 | after one answer, lost messages having expired, the device shows exactly the eligible set if and only if the bundle was assembled after every eligible message's window opened |
| `DeliveryTimeliness.RunsShowTheEligibleSetIff` | internal/delivery/deliver/deliver.go:86-222 | over every run, cache hits included, all answers leave exactly the eligible set if and only if all of them were timely in that sense |
| `DeliveryTimeliness.FreshRunsShowTheEligibleSet` | internal/delivery/deliver/deliver.go:86-222 | in particular so when every answer assembles its own bundle |
| `DeliveryTags.TagsDescribeTheDevice` | internal/delivery/deliver/deliver.go:86-142 | over every run the device's tag is that of the payload sent last, and the device holds that payload's messages, lost and expired ones apart |
| `DeliveryTags.EqualTagsShowCurrentIffNotMissed` | internal/delivery/deliver/deliver.go:105-112 | for ids without NUL: after a rebuild answered Unchanged, in any run, the device shows of a message exactly what a full assembly now gives if and only if the message is not missed |
| `DeliveryTags.ConfirmationsShowTheEligibleSetIff` | internal/delivery/deliver/deliver.go:105-112 | in a run of timely answers such a rebuild vouches for the whole eligible set if and only if it is timely too |
| `DeliveryFastPath.HoldingsAreHistory` | internal/delivery/deliver/deliver.go:86-222 | over every run, a device holds of each unexpired message, changed since or not, just what the change log up to its cursor, the cursor's segments and the bundle's time say it was sent, lost messages apart |
| `DeliveryFastPath.CachedTagShowsTheEligibleSetIff` | internal/delivery/deliver/deliver.go:90-95 | in any run, an answer from the cached tag leaves exactly the eligible set if and only if the unexpired messages so sent are the ones eligible now; what the device holds is not asked |
| `DeliveryFastPath.TimelyCachedTagShowsIff` | internal/delivery/deliver/deliver.go:90-95 | after timely answers, if and only if the unexpired messages active, in the segments and open when the cursor was issued are the ones eligible now |
| `DeliveryFastPath.QuietCachedTagShowsIff` | internal/delivery/deliver/deliver.go:90-95 | without state or membership changes since, if and only if no eligible message's window opened since |
| `DeliveryWithdrawal.TheCachedTagHidesAWithdrawal` | internal/delivery/deliver/deliver.go:90-95 | a concrete run in which the cached tag answers for a device that still shows a paused campaign |
| `DeliveryAnswers.TagsAnswerForTheirLifetime` | internal/delivery/deliver/deliver.go:90-106 | in any run, a tag answers without a rebuild only for a payload with that tag that was built for the channel no longer ago than the configured lifetime |
| `DeliveryAnswers.TagsLiveTheirLifetime` | internal/delivery/deliver/deliver.go:90-106 | and for all of it: after an answer the next synchronisation within the lifetime rebuilds nothing, whatever others did meanwhile |
| `DeliveryAnswers.WithdrawalsAreSeenInTime` | internal/delivery/deliver/deliver.go:90-106 | a message whose last state change, to another state than active, is as old as the lifetime or older is not shown after an answer from the cached tag |
| `DeliveryKinds.AnswersAreDecided` | internal/delivery/deliver/deliver.go:105-183 | in any run, a rebuild is answered Unchanged if and only if the payload is alike in all a tag sees to the one sent last, otherwise with a delta if and only if the cursor is of the present membership and at most seven days old |
| `DeliveryDeltas.DeltasCarryJust` | internal/delivery/deliver/deliver.go:180-222 | in any run, a delta has of the payload just the entries whose message was changed since the cursor was issued or opened then or later, and withdraws just the messages changed since, inactive now and not in the payload; its cursor counts all that was written |
| `DeliveryKinds.PlainAnswersReplace` | internal/delivery/deliver/deliver.go:105-142 | without delta mode an answer with content leaves of each message what a full assembly gives, except those whose window opened since the bundle was assembled, and nothing else |
| `DeliveryKinds.UpdatesDropTheAudiencesBundles` | internal/delivery/payload/bundle.go:355-379 | in any run, a state change drops a bundle if and only if it was assembled for a membership with the message's audience, and keeps the others as they are |
| `DeliveryLoss.TheCacheLosesAMessage` | internal/delivery/payload/bundle.go:308-335 | a concrete run after which an answered device lacks an active, open message of its audience |
| `Allocation.AllocateExperimentBuckets` | internal/delivery/payload/payload.go:262-293 | computes floors, sorts by remainder then id, hands out the leftover |
| `Allocation.AllocationFills` | internal/delivery/payload/payload.go:256-293 | weights summing to 100 fill the non-holdout total exactly |
| `Allocation.AllocationIsFair` | internal/delivery/payload/payload.go:256-293 | every variant gets the floor or the ceiling of its exact share, a zero weight nothing |
| `Allocation.AllocationIgnoresOrder` | internal/delivery/payload/payload.go:256-261 | the allocation does not depend on the order of the ids |
| `Allocation.AllocationIsAccepted` | internal/delivery/payload/payload.go:238-245 | the allocation always gives a table that is accepted |
| `Allocation.AssignVariant` | internal/delivery/payload/payload.go:224-254 | sorts the ids, sizes the holdout, builds the table and looks the bucket up |
| `Allocation.AssignmentIsTotal` | internal/delivery/payload/payload.go:224-254 | with valid weights every bucket gets a variant or the holdout, never an error |
| `AssignmentMeaning.AllocationMeans` | internal/delivery/payload/payload.go:256-293 | each variant gets the whole buckets of its percentage, or one more if that is not whole, and together they get all |
| `AssignmentMeaning.LargestRemaindersFirst` | internal/delivery/payload/payload.go:280-291 | of two variants the one given a bucket more has the larger fraction, or an equal one and the smaller id |
| `AssignmentMeaning.HoldoutIsNearest` | internal/delivery/payload/payload.go:238 | the holdout is the number of buckets nearest to its fraction of ten thousand, halves up |
| `AssignmentMeaning.AssignmentMeans` | internal/delivery/payload/payload.go:224-254 | with the arms laid out by id over their allocations and the holdout last, a bucket is assigned the arm in whose stretch it lies |
| `MajorTransition.AllocationIsAcceptedIff` | internal/delivery/payload/payload.go:256-293 | for non-negative weights of any sum the allocation is accepted if and only if the floors leave over between none and one bucket per variant |
| `MajorTransition.AssignmentSucceedsIff` | internal/delivery/payload/payload.go:224-254 | with any holdout, assignment succeeds for every bucket alike if and only if the leftover is in that range |
| `MajorTransition.AssignmentNeedsAHundred` | internal/delivery/payload/payload.go:224-254 | without a holdout and below a hundred variants, assignment succeeds if and only if the weights sum to 100 |
| `MajorTransition.ATwoMajorMessageDrifts` | internal/delivery/payload/bundle.go:182-213 | a message that passes validation with two majors in one language leaves a group that does not sum to 100 |
| `MajorTransition.OneGroupFailsThePayload` | internal/delivery/payload/payload.go:137-152 | one message whose group cannot be assigned fails the whole payload, whatever the other messages are |
| `MajorTransition.PayloadFailsIff` | internal/delivery/payload/payload.go:137-152 | for distinct variants with non-negative weights and holdouts in [0, 1], as validated: a payload fails if and only if some message has a language group whose leftover is outside none to one bucket a variant |
| `RangeTables.NewRangeTable` | internal/experiment/assign/rangetable.go:24-56 | the loop builds the table of cumulative ranges, or the first fault |
| `RangeTables.Reweight` | internal/experiment/assign/rangetable.go:66-75 | rebuilds over the arms of the current table in their order |
| `RangeTables.Lookup` | internal/experiment/assign/rangetable.go:78-85 | the first range that covers the bucket |
| `RangeTables.BuiltIffAccepted` | internal/experiment/assign/rangetable.go:24-56 | a table is built if and only if order, weights and holdout are acceptable, and then partitions the buckets |
| `RangeFaults.RefusalsNameTheFirstFault` | internal/experiment/assign/rangetable.go:24-56 | a refusal names the first arm at fault and how, with none a negative holdout, else the sum that is not ten thousand |
| `RangeTables.LookupFindsTheOwner` | internal/experiment/assign/rangetable.go:78-85 | every bucket belongs to exactly one arm, and lookup finds it |
| `Reweighting.ReweightKeepsTheArms` | internal/experiment/assign/rangetable.go:66-75 | reweighting keeps the arms and their order |
| `Reweighting.ReweightMovesIff` | internal/experiment/assign/rangetable.go:58-75 | a bucket changes arm if and only if some cumulative boundary passes over it |
| `Reweighting.MovesBoundedByDisplacement` | internal/experiment/assign/rangetable.go:58-63 | between two accepted weightings of one order, the buckets looked up in another arm number at most the sum of the boundaries' displacements |
| `Reweighting.LookupsMatchWeights` | internal/experiment/assign/rangetable.go:78-85 | each arm of an accepted table, the holdout included, is looked up for exactly as many buckets as its weight |
| `Reweighting.FewestMoves` | internal/experiment/assign/rangetable.go:58-63 | any reassignment moves at least what the arms grow by, and no more if and only if no arm both gains and loses |
| `Reweighting.NoReassignmentMovesFewer` | internal/experiment/assign/rangetable.go:58-63 | however buckets are dealt out to the new weights of a table, at least the arms' total growth moves |
| `Reweighting.LeastIsAttained` | internal/experiment/assign/rangetable.go:58-63 | some way of dealing buckets out to the new weights moves exactly the arms' total growth |
| `Reweighting.ReweightMovesGrowthIff` | internal/experiment/assign/rangetable.go:58-63 | reweighting a table moves exactly that many lookups if and only if every arm's old and new ranges are nested |
| `Reweighting.ReweightIsMinimalIff` | internal/experiment/assign/rangetable.go:58-63 | no assignment to the new weights moves fewer buckets than reweighting if and only if every arm's old and new ranges are nested |
| `Reweighting.ReweightIsNotAlwaysMinimal` | internal/experiment/assign/rangetable.go:58-63 | an order of three arms and two accepted weightings between which reweighting moves more than 1000 buckets and another assignment moves 1000 |
| `SemVer.NormalizeSemVer` | internal/audience/registry/semver.go:21-40 | the loop gives the padded components of the parsed version, or an error |
| `SemVerMeaning.VersionsAreRead` | internal/audience/registry/semver.go:21-40 | a text is read as a version if and only if it is one to three 64-bit decimal numerals with dots between, missing ones zero |
| `SemVer.RenderPreservesOrder` | internal/audience/registry/semver.go:9-20 | below 10^10, byte order of the normal forms is numeric order of the versions, and equality equality |
| `SemVer.OrderPreservedIff` | internal/audience/registry/semver.go:9-20 | the order is preserved for all components below a limit if and only if the limit is at most 10^10 |
| `SemVer.NormalisationsAgreeIff` | migrations/0003_audience_channels.sql:17-30 | on a version Go accepts, the database's normal form is the same if and only if every component fits ten characters or is zero |
| `SemVer.MissingIsZero` | migrations/0003_audience_channels.sql:22-30 | the database's normal form of NULL is that of version 0.0.0 |
| `Predicates.EvaluationReadsOnlyReferenced` | internal/membership/incremental/incremental.go:165-185 | row-wise evaluation depends on nothing but the identifiers of the tree |
| `Predicates.EvaluationIsTyped` | internal/audience/predicate/predicate.go:51-79 | on well-typed rows a checked predicate gives a value of its type or an error |
| `Predicates.ComparisonsAreAnOrder` | internal/audience/sqlcompile/sqlcompile.go:19-28 | on each ordered type the six comparisons are those of one total order |
| `Comparisons.AttributesCompare` | internal/audience/sqlcompile/sqlcompile.go:19-28 | a comparison of a stored attribute with a literal is accepted, and both evaluations decide it by which of the plain values comes first: numbers and instants by size, false before true, strings by their first differing character |
| `Comparisons.AggregatesCompare` | internal/audience/sqlcompile/sqlcompile.go:258-276 | of an aggregate the number of occurrences of the event within the window is so compared, zero included |
| `Comparisons.LiteralsCompare` | internal/audience/sqlcompile/sqlcompile.go:19-28 | and so are two literals of one type |
| `Comparisons.InstantsCompare` | internal/audience/sqlcompile/sqlcompile.go:130-155 | and a stored instant with the one a timestamp literal stands for |
| `WindowMeaning.TheWindowCounts` | internal/audience/sqlcompile/sqlcompile.go:258-276 | a window's sum is the number of occurrences counted on its days, and absent only if no row is of them |
| `SqlCompile.Compiler.Placeholder` | internal/audience/sqlcompile/sqlcompile.go:291-294 | appends the argument and names its position, from 1 |
| `SqlCompile.Compiler.Compile` | internal/audience/sqlcompile/sqlcompile.go:47-58 | compiles a tree, leaving condition and arguments exactly as specified, errors included |
| `SqlCompile.Compiler.CompileCall` | internal/audience/sqlcompile/sqlcompile.go:60-128 | the branch for each operator, with its arity errors |
| `SqlCompile.Compiler.CompileHaystack` | internal/audience/sqlcompile/sqlcompile.go:185-207 | literal string lists and string-set attributes, everything else refused |
| `SqlCompile.Compiler.LiteralStringList` | internal/audience/sqlcompile/sqlcompile.go:209-223 | the strings of a literal list, or a refusal |
| `SqlCompile.Compiler.CompileIdent` | internal/audience/sqlcompile/sqlcompile.go:231-276 | a column cast to the attribute's type, or the rollup sum of an aggregate |
| `SqlCompile.CompileToSQL` | internal/audience/sqlcompile/sqlcompile.go:38-45 | condition and arguments from an empty list, or an error alone |
| `Acceptance.CompilesIff` | internal/audience/sqlcompile/sqlcompile.go:47-294 | a tree compiles if and only if each of its constructs has a SQL form, whatever arguments came before |
| `Acceptance.ComplaintsAreTrue` | internal/audience/sqlcompile/sqlcompile.go:47-294 | a refusal is of something the tree has: the attribute it names is there and unregistered or of the wrong kind, the text it names is no version or no time |
| `Acceptance.ReadsIff` | internal/membership/incremental/incremental.go:165-185 | the attributes a predicate reads are those named somewhere in its tree |
| `SqlCompile.CompilingAppends` | internal/audience/sqlcompile/sqlcompile.go:291-294 | compiling only appends arguments, and every placeholder names one that was issued |
| `SqlCompile.MeaningSurvives` | internal/audience/sqlcompile/sqlcompile.go:291-294 | a condition means the same on every row after any later arguments are appended |
| `Agreement.DatabaseFollowsRowWise` | internal/audience/sqlcompile/sqlcompile.go:47-294 | whatever the row-wise evaluation decides the database decides, and the query never faults |
| `Agreement.EvaluationsAgree` | internal/audience/sqlcompile/sqlcompile.go:47-294 | true is TRUE, false is FALSE, error is NULL, each way, on rows meeting the two guards |
| `Agreement.PlainPredicatesAgree` | internal/audience/conformance_integration_test.go:95-98 | a predicate without semver() of an attribute or an empty list agrees so on every well-typed row, missing attributes included |
| `Acceptance.JunctionsDecide` | internal/audience/sqlcompile/sqlcompile.go:60-100 | in both evaluations one false side makes a conjunction false and one true side a disjunction true, even beside a side without a verdict, and two true or false sides what is usual |
| `Acceptance.NegationDecides` | internal/audience/sqlcompile/sqlcompile.go:60-100 | and negation turns a verdict round |
| `Acceptance.ListsAreSearched` | internal/audience/sqlcompile/sqlcompile.go:185-223 | a stored string is in a list of literals, to both, if and only if it is one of them |
| `Acceptance.SetsAreSearched` | internal/audience/sqlcompile/sqlcompile.go:185-207 | a literal is in a stored set of strings, to both, if and only if it is one of them |
| `Lenience.DatabaseIsLenient` | internal/audience/sqlcompile/sqlcompile.go:47-294 | on every well-typed row the condition has the value, or the NULL, of row-wise evaluation with semver() total and searches in empty lists false |
| `Lenience.EvaluationsAgreeIff` | internal/audience/conformance_integration_test.go:95-98 | of any tree, junctions included, the two evaluations agree if and only if those leniencies make no difference row-wise |
| `Lenience.UnjoinedAgreeIff` | internal/audience/sqlcompile/sqlcompile.go:47-294 | without junctions, on rows whose versions fit: if and only if no call meets something missing or malformed, or something is missing where the database notices |
| `Lenience.JoinedAgreeIff` | internal/audience/sqlcompile/sqlcompile.go:47-294 | of any tree, on rows whose versions fit: if and only if no leniency decides it, read through junctions from the row-wise verdicts of their other sides |
| `Lenience.UnjoinedDecidesIff` | internal/audience/sqlcompile/sqlcompile.go:47-294 | and below the junctions a leniency decides a part if and only if a call meets something missing or malformed and nothing is missing where the database notices |
| `Agreement.SemVerAgreesIff` | internal/audience/sqlcompile/sqlcompile.go:157-177 | given agreement on its argument a semver() call agrees if and only if the argument is a version that fits |
| `Agreement.EmptyListAgreesIff` | internal/audience/sqlcompile/sqlcompile.go:186-191 | a search in an empty list agrees if and only if the needle is not an error |
| `Agreement.VersionsCompareAsNumbers` | internal/audience/predicate/env.go:16-22 | comparing an attribute with a literal through semver() compares the versions as numbers |
| `Agreement.AMissingVersionMatches` | internal/audience/sqlcompile/sqlcompile.go:172-176 | a predicate and a row where the database matches and the row-wise evaluation errs |
| `Evaluator.Evaluator.Evaluate` | internal/audience/eval/eval.go:32-47 | the verdict of the program under the predicate's hash, and the cache after it |
| `Evaluator.Evaluator.Program` | internal/audience/eval/eval.go:49-70 | the cached program, or the predicate's own tree, cached |
| `Evaluator.FaithfulIff` | internal/audience/eval/eval.go:49-70 | a run evaluates every predicate with its own tree if and only if equal hashes mean equal trees |
| `Evaluator.CompiledPredicatesAreFaithful` | internal/audience/predicate/predicate.go:72-79 | predicates hashed on compilation are told apart |
| `Evaluator.ReadBackSegmentsShareAProgram` | internal/membership/segment/segment.go:69-109 | of segments read back, one evaluator runs the first for all |
| `Membership.PassChangesOnlyItsBits` | internal/membership/incremental/incremental.go:61-84 | an update touches only the channel's own bits of the segments it was given |
| `Membership.PassFailsIff` | internal/membership/incremental/incremental.go:66-69 | an update fails exactly when some given incremental segment has no answer |
| `Membership.PassGivesVerdicts` | internal/membership/incremental/incremental.go:66-83 | otherwise each segment's bit is its own predicate's answer |
| `MembershipRuns.UpdateKeepsTheIndexes` | internal/membership/incremental/incremental.go:31-96 | success or failure, an update leaves forward and reverse bits equal for every live channel and segment |
| `MembershipRuns.RecomputeBuildsMatches` | internal/membership/batch/batch.go:129-166 | the new generation holds exactly the ordinals each query selects |
| `MembershipRuns.RecomputeKeepsTwoGenerations` | internal/membership/batch/batch.go:221-238 | reclaiming keeps the new and the preceding generation row for row, and nothing older |
| `MembershipRuns.RunsKeepTheIndexes` | internal/membership/batch/batch.go:61-127 | in every reachable state the forward bit at the current generation is the reverse bit |
| `MembershipMeaning.ChannelsAsAsked` | internal/membership/ordinal/ordinal.go:19-60 | over every run a channel has an ordinal once registered, and is retired for good once retired after that |
| `MembershipMeaning.OrdinalsAreInOrder` | internal/membership/ordinal/ordinal.go:1-33 | over every run ordinals count from one in the order of first registration and never change |
| `MembershipMeaning.RecomputationsSelect` | internal/membership/batch/batch.go:61-166 | in any run a successful recomputation marks, in each segment, exactly the registered and not retired channels whose row the condition is true of, and lists the segment under exactly them |
| `MembershipMeaning.DisagreementCountsChannels` | internal/membership/batch/batch.go:90-100 | in any run the disagreement reported of a segment is the number of registered channels its bitmap is wrong about |
| `MembershipMeaning.TheLastWriteStands` | internal/membership/membership_integration_test.go:284-288 | a row shows the last write of an attribute, or its removal, until that attribute or the row is written again |
| `MembershipMeaning.SegmentsAsSaved` | internal/membership/segment/segment.go:38-60 | over every run each segment is as it was saved, and maintained between recomputations if and only if no attribute it reads is an aggregate |
| `MembershipJobs.Jobs.UpdateForwardBit` | internal/membership/incremental/incremental.go:101-140 | one bit set or cleared, skipped when right already |
| `MembershipJobs.Jobs.UpdateChannel` | internal/membership/incremental/incremental.go:31-96 | the loop over segments, all or nothing, in both indexes |
| `MembershipJobs.Jobs.DependencyMap` | internal/membership/incremental/incremental.go:146-163 | lists under each registered attribute, in order, exactly the incremental segments that read it |
| `MembershipMeaning.DependentsAre` | internal/membership/incremental/incremental.go:146-185 | a segment depends on an attribute if and only if it is incremental, its tree names the attribute and the attribute is registered |
| `MembershipJobs.Jobs.RecomputeSegment` | internal/membership/batch/batch.go:129-166 | the ordinals of live channels the condition selects, or a failure |
| `MembershipJobs.Jobs.Distribute` | internal/membership/batch/batch.go:101-107 | adds the segment to the reverse set of exactly the live ordinals in its bitmap |
| `MembershipJobs.Jobs.Rebuild` | internal/membership/batch/batch.go:82-108 | everything computed before the first write: bitmaps, reverse sets and disagreement counts |
| `MembershipJobs.Jobs.Recompute` | internal/membership/batch/batch.go:61-127 | one failing segment changes nothing; otherwise new generation, reverse sets, reclaimed rows and the report |
| `MembershipJobs.Jobs.SetMany` | internal/membership/reverse/reverse.go:74-92 | overwrites the sets of the live channels and no others |
| `MembershipJobs.Jobs.Reclaim` | internal/membership/batch/batch.go:221-238 | deletes the rows older than the preceding generation |
| `Freshness.SelectionReadsOnlyReferenced` | internal/membership/incremental/incremental.go:165-185 | the compiled condition cannot tell apart rows that agree on the tree's identifiers |
| `Freshness.TouchSucceedsIff` | internal/membership/incremental/incremental.go:61-84 | an update after a write succeeds exactly when every dependent segment has an answer on the new row |
| `Freshness.TouchKeepsFreshIff` | internal/membership/incremental/incremental.go:31-185 | it keeps every incremental segment as recomputed if and only if it succeeded or no dependent's selection changed |
| `Freshness.AgeKeepsFresh` | internal/membership/segment/segment.go:18-27 | time passing changes no incremental segment, which is why aggregates are excluded |
| `Freshness.IncrementalEqualsRecomputeIff` | internal/membership/incremental/incremental.go:31-185 | after a recomputation, every incremental segment stays as recomputed throughout a run of writes and of time passing if and only if each write gave all its dependents an answer or changed no selection |
| `Freshness.FreshIffNothingToDo` | internal/membership/batch/batch.go:61-127 | being so is exactly that the next recomputation changes nothing of either index and reports no disagreement |
| `Freshness.IncrementalEqualsRecompute` | internal/membership/incremental/incremental.go:31-185 | so after such a run the next recomputation changes nothing |
| `Freshness.AMissingAttributeStalesAnother` | internal/membership/incremental/incremental.go:66-69 | how one segment's missing attribute leaves another segment's bit stale |
| `Freshness.TheStaleCaseArises` | internal/membership/incremental/incremental.go:66-69 | an index with two segments and a channel in which that happens |
| `Hll.RankBounds` | internal/event/hll/hll.go:48-59 | ranks lie between 1 and 51, and 51 means no bits were left |
| `Hll.RegistersAreRanks` | internal/event/hll/hll.go:48-63 | no register of a sketch exceeds 51 |
| `Hll.OrderAndRepeatsDoNotMatter` | internal/event/hll/hll.go:48-63 | the registers depend only on the set of hashes seen |
| `Hll.SplittingDoesNotMatter` | internal/event/report/report.go:125-160 | however identities are split over days, the merged daily sketches are the sketch of all |
| `Hll.MergeIsASemilattice` | internal/event/hll/hll.go:65-77 | merging is commutative, associative and idempotent |
| `Hll.Sketch.Add` | internal/event/hll/hll.go:48-63 | raises the selected register to the hash's rank, in place |
| `Hll.Sketch.AddIdentity` | internal/event/hll/hll.go:39-43 | adds the hash of an identity |
| `Hll.OneIdentitySetsOneRegister` | internal/event/hll/hll.go:39-63 | after one identity exactly the register numbered by the low fourteen bits of its sum is set |
| `Hll.RankIsTheRank` | internal/event/hll/hll.go:48-63 | the rank is one more than how often an odd number was doubled to make the bits above those, and 51 when they are zero |
| `Hll.AddingIsSeeing` | internal/event/hll/hll.go:39-63 | adding an identity raises the register of its sum's low bits to the rank of the others and leaves the rest |
| `Hll.Sketch.Merge` | internal/event/hll/hll.go:67-77 | register-wise maximum in place, also with itself; refused when sizes differ |
| `Hll.Sketch.Unmarshal` | internal/event/hll/hll.go:109-116 | a fresh sketch with the given registers, for the right size only |
| `Hll.RoundTrip` | internal/event/hll/hll.go:102-116 | saving and reading back gives the same registers |
| `Rollups.BucketsStayNearReceipt` | internal/event/model/event.go:195-216 | the bucket time is the device's unless implausible, and never far from receipt |
| `RollupMeaning.OneEventChanges` | internal/event/consumer/consumer.go:160-347 | an event not yet applied raises by one the targeting count of its channel, name and the day its time is in; with a message, that of its hour and kind or of its suppression reason; only an impression with a message touches a sketch; nothing else changes |
| `RollupMeaning.EveryEventIsCounted` | internal/event/model/event.go:195-216 | there is exactly one such name, time, day and hour for every event: the device's time if from thirty days before to five minutes after the receipt, else the receipt's |
| `RollupMeaning.CountsStayNearReceipt` | internal/event/consumer/consumer.go:85-95 | no event is counted on a day that begins more than five minutes after its receipt or thirty-one days or more before it |
| `Rollups.CountsAreExact` | internal/event/consumer/consumer.go:160-208 | each count is the number of distinct delivered ids whose first copy has its key |
| `Rollups.SketchesAreExact` | internal/event/consumer/consumer.go:311-347 | each reach sketch is the sketch of the channels of the applied impressions with its key |
| `Rollups.RedeliveryIsANoOp` | internal/event/consumer/consumer.go:160-208 | delivering again what was delivered changes nothing |
| `RollupRuns.CountsAreExactInEveryRun` | internal/event/consumer/logconsumer.go:45-86 | so it is over any interleaving of both consumers with crashes, errors, replays and resets |
| `EventTable.RunsHoldFirstCopies` | internal/event/ingest/ingest.go:170-185 | over every run the event table has just the first copy of each event handed in, each id once, under increasing numbers |
| `RollupRuns.CompletingSkipsNothingIff` | internal/event/consumer/logconsumer.go:33-36 | a committed batch leaves every record before the new position applied if and only if each record between the group's position and the client's was applied or is in the batch |
| `RollupRuns.NeverSkipsIff` | internal/event/consumer/logconsumer.go:33-44 | over every run of both consumers, nothing is ever skipped if and only if every step met a guard that can be checked before it |
| `RollupRuns.CarefulRunsSkipNothing` | internal/event/consumer/logconsumer.go:33-44 | crashes anywhere, and errors followed by a restart before the next poll, never skip an event |
| `RollupRuns.AnErrorSkipsItsBatch` | internal/event/consumer/logconsumer.go:69-79 | an error and one further batch without a restart: exactly which events of the failed batch are lost |
| `RollupJobs.Consumer.MarkApplied` | internal/event/consumer/consumer.go:200-209 | records an id and says whether it was there |
| `RollupJobs.Consumer.ApplyReachSketch` | internal/event/consumer/consumer.go:311-347 | adds the channel to the stored or a new sketch and writes it back |
| `RollupJobs.Consumer.ApplyBatch` | internal/event/consumer/consumer.go:160-193 | applies the events in order, each at most once |
| `RollupJobs.Consumer.RunOnce` | internal/event/consumer/consumer.go:102-146 | applies the next batch and moves the offset to its last row |
| `RollupJobs.Consumer.Work` | internal/event/consumer/recompute_job.go:62-76 | the drain loop ends, and everything that was pending has been applied, in order |
| `Budget.Counter.Eval` | internal/governance/budget/budget.go:34-75 | the script: rollover, estimate, cap check, increment, write, expiry |
| `Budget.Counter.Remaining` | internal/governance/budget/budget.go:110-122 | what is left of the cap rounded down, zero when exceeded, and the key rewritten |
| `Budget.Counter.RecordImpression` | internal/governance/budget/budget.go:127-130 | one impression recorded, never refused |
| `Budget.Counter.CheckAndIncrement` | internal/governance/budget/budget.go:136-139 | whether one more fits, and it recorded if so |
| `Budget.RunsRefineTheLog` | internal/governance/budget/budget.go:34-75 | under a clock that never goes back the two buckets are the true totals of their windows, over every run |
| `Budget.SeenIsTheLog` | internal/governance/budget/budget.go:46-58 | at any later time a call works on the true totals of its window and the one before |
| `Budget.ExpiryChangesNothing` | internal/governance/budget/budget.go:143-145 | an expired key gives what rolling it over would give |
| `BudgetKeys.KeyIsThereIff` | internal/governance/budget/budget.go:34-75 | over any calls the key is there if and only if the last happened less than two windows ago by the store's clock |
| `Budget.EveryRunStaysNearTheCap` | internal/governance/budget/budget.go:60-68 | at each allowed check of every run the trailing window holds at most cap + f * prev impressions, f the elapsed fraction |
| `Budget.EstimateNeverRises` | internal/governance/budget/budget.go:97-105 | without impressions the estimate never rises, within a window, across a boundary or over a gap |
| `Budget.ReadsChangeNothing` | internal/governance/budget/budget.go:110-122 | asking what remains changes no later answer |
| `Budget.RemainingIsExactIff` | internal/governance/budget/budget.go:107-139 | exactly the remaining number of checks succeed and the next is refused, if and only if the cap is not negative |
| `BudgetReports.RecordKeepsTotalsIff` | internal/governance/budget/budget.go:34-75 | recording an impression keeps the buckets the true totals of their windows if and only if its window is not before the stored one |
| `BudgetReports.TotalsStayTrueIff` | internal/governance/budget/budget.go:34-75 | over runs with any times, at the device and at the store, the totals stay true if and only if every call met its condition |
| `BudgetReports.ReportsKeepTotalsIff` | internal/event/consumer/consumer.go:214-227 | for reported impressions the totals are true at every point if and only if the reports' windows never go back |
| `BudgetReports.LateReportsStayNearTheCap` | internal/event/consumer/consumer.go:214-227 | however late reports come, at each allowed check the trailing window holds at most cap + f * prev |
| `BudgetReports.AnEarlyReportBreaksTheCap` | internal/event/consumer/consumer.go:214-227 | for every cap of two or more, a run with one report a window ahead after which an allowed check exceeds that bound |
| `BudgetReports.StaysNearTheCapIff` | internal/event/consumer/consumer.go:214-227 | the bound holds of all runs with reports at most so many windows ahead if and only if that many is none |
| `BudgetChecks.NearForEveryCapIff` | internal/governance/budget/budget.go:58-68 | at one check of one run with any times, the bound holds for every cap that allows it if and only if the buckets cover the trailing window |
| `BudgetChecks.CurrentWindowIsCovered` | internal/event/consumer/consumer.go:214-227 | while the key lives, whatever earlier reports said, a check finding the stored window not past the server's is so covered |
| `BudgetChecks.CoveredIffNotForgotten` | internal/event/consumer/consumer.go:214-227 | while the key lives, the buckets cover the trailing window if and only if they count as many late reports as they forgot impressions, or more |
| `BudgetChecks.AlwaysCoversIff` | internal/event/consumer/consumer.go:214-227 | stored buckets cover the trailing window whatever led to them if and only if their window is the server's |
| `BudgetReports.ALateImpressionCountsNow` | internal/event/consumer/consumer.go:214-227 | a report for an earlier window is counted in the stored one, which then says one more than the impressions there |
| `BudgetReports.AnEarlyImpressionForgets` | internal/event/consumer/consumer.go:214-227 | a report two or more windows ahead forgets both buckets, and calls up to its time stay in its window |
| `ClockOffset.MedianOffset` | internal/event/clockoffset/clockoffset.go:72-85 | the median of a copy, the caller's array untouched |
| `ClockOffset.MedianMeans` | internal/event/clockoffset/clockoffset.go:69-85 | the median is half the sum of the two samples with as many before as after them in order, fractions dropped; of an odd number these are one sample; of none it is zero |
| `ClockOffset.Correct` | internal/event/clockoffset/clockoffset.go:95-101 | the corrected time, or the receipt time when that is earlier |
| `ClockOffset.MedianIgnoresOrder` | internal/event/clockoffset/clockoffset.go:69-85 | permuting the samples does not change the median |
| `ClockOffset.MedianIsRobust` | internal/event/clockoffset/clockoffset.go:40-43 | changing k samples keeps the median within k places of the old middle, for odd and even numbers |
| `ClockOffset.OneBadSample` | internal/event/clockoffset/clockoffset.go:40-43 | replacing one of three or more (odd) keeps it between the old neighbours |
| `ClockOffset.MajoritySkewIsMeasured` | internal/event/clockoffset/clockoffset.go:33-43 | a skew shared by more than half of the samples is the median |
| `Reach.WilsonContainsTheRate` | internal/audience/reach/reach.go:113-132 | before clamping, 0 <= low <= center <= high <= 1 and the interval contains the observed rate |
| `ReachMeaning.EndsAreAtTheLimit` | internal/audience/reach/reach.go:113-132 | of all rates, the ends of the interval are just those z standard errors from the observed rate, the observed rate is between them and the centre in their middle |
| `Reach.EstimateReach` | internal/audience/reach/reach.go:37-111 | the scaled estimate or the error, with Low <= Count <= High <= population |
| `ReachMeaning.EstimateMeans` | internal/audience/reach/reach.go:90-111 | bounds and count are, to the nearest channel, the population times those two rates and their middle, for the rate of the channels that matched |

## Left out

- Floating point: shares, weights, the estimate, the interval and their square root are exact here; ties that only rounding noise would break are broken as exact arithmetic breaks them.
- Concurrency: each handler or job call is one atomic step; interleavings inside a call, and rows becoming visible out of sequence order, are not modelled.
- Hashes: entity tags are compared by the hashed bytes, memberships are carried whole, channels and predicates are hashed by given functions, and bucket assignment takes the bucket as given.
- Delivery: the size ceiling, the next synchronisation time, the budget figure in the answer and the holdout event; a device's language and declared schema major stay fixed.
- `DeliveryService.Service.CreateMessage`: the validation that may refuse a message before it is stored is not modelled.
- `DeliveryService.Service.BuildFor`: the truncation at the size ceiling and the next synchronisation time are not modelled.
- `DeliveryService.Service.Synchronise`: the answer's budget figure and next synchronisation time are not modelled.
- `Delivery.Sync` and its runs: database and cache failures half way through a call, which the code reports as errors, are not modelled.
- `PayloadMeaning.EntryMeans`: takes a message's variants to have distinct ids, as the key of their table makes them.
- `AssignmentMeaning.AssignmentMeans`: takes weights that sum to 100; for other sums `MajorTransition.AssignmentSucceedsIff` says when there is an arm at all.
- Cursors: the base64 text; a cursor that does not decode is no cursor.
- Predicates: parsing, JSON of the tree, the constructs the SQL compiler refuses anyway; rows hold values of their registered type (a JSON null is a value of none).
- SQL: text and operator precedence; strings are ordered byte by byte on both sides; times are instants parsed alike by a given function.
- `Agreement.EvaluationsAgree`: its guards are sufficient; the exact condition on whole trees is `Lenience.EvaluationsAgreeIff`.
- `Lenience.DatabaseIsLenient`: empty lists are searched for strings; of other needles the query would be refused for unlike types.
- `Freshness.IncrementalEqualsRecompute`: takes the cache as fitting the segments and the rows as meeting the agreement guard; what happens otherwise is stated apart.
- Membership: ordinals beyond 32 bits, moving the current generation back, gauges.
- `RollupJobs.Consumer.RunOnce`: the budget reconciliation after the commit is not modelled with the run, so neither is its repetition under replay.
- Rollups: decoding of log records, several partitions (one is modelled), `date_trunc` in other zones than UTC.
- Budget: windows are whole seconds.
- `BudgetReports.ReportsKeepTotalsIff`: the reports of one channel follow each other before the key expires; `BudgetReports.TotalsStayTrueIff` covers expiry.
- `Reach.EstimateReach`: takes the verdicts of the sampled channels; sampling, decoding of stored attributes and the queries behind aggregates are not modelled.
- HyperLogLog's estimate, attribution, rate limiting, message validation, content codecs, authentication, configuration and the clients of the stores.
