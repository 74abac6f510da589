# Trove, verified

A Dafny model of the parts of trove, an OCI registry with hosted, proxied and grouped
repositories, whose mistakes cost content, availability or trust, and proofs of what
those parts promise. `dafny verify dfyconfig.toml` checks the whole project.

Each component is modelled in the form its source has. State that is updated step by
step is a class or a method with loops, proved against a function or a relation over
values; the promises are lemmas about those, for all inputs, all runs and all
interleavings. Instants are integers in nanoseconds, digests are strings in Go's byte
order, regular expressions and hashes are arbitrary functions, and a store or an upstream
is whatever its contract allows: failures, other writers and answers are parameters.

| modules | component |
|---|---|
| `Wrappers`, `Order` | missing values and bytes; lexicographic order, sorting, increasing listings |
| `SubjectGraph`, `Snapshots`, `Inventories` | the repository snapshot retention reads |
| `Retention`, `Plans`, `Evaluation`, `PlanReports` | rules, verdicts, cascades, plans and their summaries |
| `RetentionLaws`, `ProtectionLaws` | what every plan satisfies |
| `VerifiedReads`, `CacheFills` | streaming verification and the cache tee over it |
| `RateLimits`, `LimiterLaws`, `AttemptLimits` | the login rate limiter |
| `GcWorld`, `GcSweeps`, `GcCollector` | hosted garbage collection among concurrent pushes |
| `ImportGraphs` | import-boundary checking |
| `TagLeases`, `LeaseLaws` | tag leases, remembered absences and upstream backoff |
| `CacheEviction` | cache budgets, shared bytes and orphans |
| `GroupResolution`, `GroupServing` | groups of repositories |
| `Ulids`, `PhcStrings`, `EventBus` | event identifiers, password verifiers, the event bus |

## Where the code says something else

- Garbage collection. The store's contract has a manifest put check its blobs and insert
  its references in one transaction; the handler looks the rows up one by one and writes
  afterwards (internal/registry/manifests.go:163-258). References then keep their rows
  exactly when every such put still finds them (`GcWorld.RefsHaveRowsIff`). That is so when
  no sweep takes a row between a put's look at it and its write
  (`GcWorld.UncrossedPutsAreSafe`), and `GcWorld.CheckedPutLosesBlob` is a run in which one
  does. Likewise nothing orders a push of the same content against the two deletes of a
  sweep: rows keep their bytes exactly when every byte delete finds its digest unclaimed
  (`GcWorld.RowsHaveBytesIff`). That is so when nobody publishes a digest around its two
  deletes (`GcWorld.QuietWindowsAreSafe`), and `GcWorld.PushBetweenDeletesLosesBytes` is a
  run in which somebody does. Upload sessions opened by the registry carry no digest
  (internal/registry/uploads.go:58-60), so pins do not narrow that window.
- Import chains. The breadth-first parent map marks the start with the empty name, so a
  chain through a package of that name loses its beginning. `ImportGraphs.ChainsAreRealIff`
  gives the exact condition; graphs loaded from the toolchain meet it, because records
  without an import path are skipped.
- Leases. An upstream that moves a tag to content that cannot be kept has answered, yet the
  lease keeps the digest before (`LeaseLaws.StaleAfterUnusable`); a stale answer is the
  digest last named exactly when what was named then could be kept or was leased already
  (`LeaseLaws.StaleIsLastNamedIff`).
- Groups. A member the subject cannot read changes nothing about resolution, but its row is
  still read: a missing one fails the group (`GroupServing.HiddenMemberMustHaveRow`).
- Identifiers. An entropy counter of all ones that has to be stepped repeats or falls back
  whatever is drawn next (`Ulids.WrapRepeats`), and an instant outside 48 bits is truncated.
  `Ulids.IncreasingIff` says for every clock when the order holds; within 48 bits it is
  exactly the absence of such a step (`Ulids.InRangeIncreasingIff`).
- Eviction. A page of rows of size zero frees nothing and ends a pass over its target
  (`CacheEviction.WeightlessPageStalls`). A pass gets down to its target exactly when no
  such page comes up (`CacheEviction.Evictor.Drain`), as it cannot with fewer rows of size
  zero than a page holds (`CacheEviction.SizedNeverStalls`).

## Model

| member | source | states |
|---|---|---|
| `SubjectGraph.RankedAcyclic` | internal/policy/inventory.go:384-414 | a rank that drops along every subject edge rules out cycles; the certificate the walk leaves behind |
| `SubjectGraph.OneTop` | internal/policy/inventory.go:361-373 | one subject per manifest: two tops above the same attachment are the same manifest |
| `SubjectGraph.CyclesAreLive` | internal/policy/inventory.go:384-414 | the digests on a subject cycle are the same whether or not edges to manifests outside the snapshot are counted, and each has its subject inside it |
| `Snapshots.SelectableMeaning` | internal/policy/inventory.go:424-459 | selectable exactly when no tag is protected or immutable, the subject is not in the snapshot, and no manifest lists it as a child |
| `Snapshots.PinnedMeaning` | internal/policy/plan.go:375-385 | a manifest has a blocking exclusion exactly when it is shielded by a tag or listed by an index |
| `Snapshots.SnapshotOrderIrrelevant` | internal/policy/inventory.go:279-351 | permuting rows, and tags and children inside rows, neither changes acceptance nor the catalog read |
| `Inventories.CheckTags` | internal/policy/inventory.go:315-335 | accepts exactly the rows whose tag names are non-empty, unrepeated and unclaimed, records their owner, and otherwise names a real fault |
| `Inventories.CheckChildren` | internal/policy/inventory.go:337-348 | accepts exactly the rows without an empty child or themselves as child, and yields the children sorted and without repeats |
| `Inventories.ValidateManifest` | internal/policy/inventory.go:295-351 | accepts exactly the valid rows, returns their normal form, and otherwise blames something the row has |
| `Inventories.WalkFrom` | internal/policy/inventory.go:394-410 | one three-colour walk up the subjects: a cycle found is a real one, and a walk that ends leaves a ranked path |
| `Inventories.WalkSubjects` | internal/policy/inventory.go:381-415 | reports an error exactly when the subject graph has a cycle, and the digest blamed lies on one |
| `Inventories.Inventory.IndexEdges` | internal/policy/inventory.go:361-379 | referrers and index parents are exactly the edges of the snapshot, each list sorted |
| `Inventories.Inventory.BuildEdges` | internal/policy/inventory.go:361-416 | the edges, or an error exactly when there is a subject cycle |
| `Inventories.Inventory.BuildSelectable` | internal/policy/inventory.go:424-459 | the selectable rows in digest order, and every exclusion of every other row, in its order |
| `Inventories.Search` | internal/policy/inventory.go:514-532 | the queue and the seen set end with exactly what is transitively attached |
| `Inventories.CollectSubtree` | internal/policy/inventory.go:514-532 | the strict transitive closure of the referrer relation, sorted and without repeats |
| `Inventories.Inventory.ReferrerSubtree` | internal/policy/inventory.go:514-532 | the same of a built inventory |
| `Inventories.NewInventory` | internal/policy/inventory.go:255-286 | an inventory of exactly that snapshot for every acceptable one and no other, or an error that names a real fault |
| `Retention.CompileRules` | internal/policy/retention.go:191-287 | compiles exactly the rule sets whose rules are complete, whose patterns compile and whose names differ; otherwise blames the first rule that does not fit and the first thing wrong with it |
| `Retention.AheadIsPrefix` | internal/policy/retention.go:346-355 | in the newest-first ranking, what stands before a manifest is exactly what was pushed later, ties by digest |
| `Retention.NewestKept` | internal/policy/retention.go:345-361 | the first N of the ranking are exactly the manifests with fewer than N ahead of them |
| `Retention.KeepNewest` | internal/policy/retention.go:345-361 | keep-last-N on a matched set keeps exactly those with fewer than N ahead |
| `Retention.KeepSince` | internal/policy/retention.go:362-383 | the age rules keep exactly what was pushed, or last used, inside the window |
| `Retention.Keeps` | internal/policy/retention.go:342-388 | what a rule keeps of what it matched, for every kind of rule |
| `Retention.Resolve` | internal/policy/retention.go:536-595 | the verdict depends only on the set of opinions: the strongest priority decides, agreeing rules are all named, disagreement is a conflict naming both sides |
| `Plans.FirstProtectedReferrer` | internal/policy/plan.go:375-385 | the least digest of the cascade that is pinned and its first blocking exclusion, or nothing exactly when none is |
| `Plans.SelectAll` | internal/policy/plan.go:295-341 | after any prefix of the selectable rows, entries, refusals and cascades are those of that prefix |
| `Plans.KeepRest` | internal/policy/plan.go:343-354 | one kept entry for every manifest neither selected, refused nor cascaded, in digest order |
| `Plans.BuildPlan` | internal/policy/plan.go:289-405 | the plan is the one the catalog and the verdicts mean |
| `Evaluation.HearAll` | internal/policy/retention.go:483-501 | every rule's opinion of every manifest it matches is gathered, and nothing else |
| `Evaluation.SettleAll` | internal/policy/retention.go:503-512 | verdicts and conflicts manifest by manifest, conflicts in digest order |
| `Evaluation.Evaluate` | internal/policy/retention.go:475-518 | the plan, the complete conflict list, or the missing argument; a function of inventory, rule set and time |
| `RetentionLaws.OneEntryEach` | internal/policy/plan.go:289-357 | no attachment is cascaded under two entries |
| `RetentionLaws.PlanPartitions` | internal/policy/plan.go:289-357 | each manifest is exactly one of selected, cascaded under exactly one entry, refused, or kept |
| `RetentionLaws.PartitionSize` | internal/policy/plan.go:257-279 | the four parts add up to the inventory |
| `RetentionLaws.DeletesNothingPinned` | internal/policy/plan.go:289-385 | nothing deleted carries a protected or immutable tag or is listed as a child by any manifest |
| `RetentionLaws.DeletionClosed` | internal/policy/plan.go:289-357 | what is attached to something deleted is deleted with it |
| `RetentionLaws.SurvivorsKeepTheirEdges` | internal/policy/plan.go:289-385 | no survivor loses a live subject or a child |
| `RetentionLaws.ConflictMeaning` | internal/policy/retention.go:536-595 | a manifest is in conflict exactly when two rules of its lowest-numbered priority disagree about it |
| `RetentionLaws.OrderIrrelevant` | internal/policy/retention.go:475-595 | any permutation of rules, rows, tags and children gives the same plan field by field, or the same conflict list |
| `ProtectionLaws.AheadShrinks` | internal/policy/retention.go:345-361 | protecting tags never puts more manifests ahead of one that stays selectable |
| `ProtectionLaws.SavesGrows` | internal/policy/retention.go:342-388 | a rule that kept a manifest still keeps it |
| `ProtectionLaws.TargetsShrink` | internal/policy/retention.go:536-595 | what the rules would delete only shrinks, across priority tiers and re-ranking |
| `ProtectionLaws.DoomedShrinks` | internal/policy/plan.go:289-385 | what a plan deletes only shrinks, newly refused cascades included |
| `ProtectionLaws.ProtectionMonotone` | internal/policy/inventory.go:424-459 | marking any tags protected or immutable keeps the snapshot acceptable and deletes a subset |
| `PlanReports.Digests` | internal/policy/plan.go:240-250 | entries and cascades together, sorted |
| `PlanReports.DigestsOfPlan` | internal/policy/plan.go:240-250 | the digests listed are exactly what the plan deletes, without repeats |
| `PlanReports.TotalSize` | internal/policy/plan.go:58-64 | an entry and its whole cascade |
| `PlanReports.Summarize` | internal/policy/plan.go:257-279 | the headline numbers, and the reasons things were kept that occur, with their counts |
| `PlanReports.SummaryCountsInventory` | internal/policy/plan.go:257-279 | the manifests counted are the manifests of the inventory |
| `PlanReports.SummaryBytes` | internal/policy/plan.go:257-279 | the bytes counted are the sizes of the digests listed, each once |
| `PlanReports.PlannedDigestsAreSafe` | internal/policy/plan.go:240-385 | of every listed digest: unprotected, no index's child, and nothing attached to it survives |
| `PlanReports.ProtectionDeletesNoMore` | internal/policy/retention.go:475-518 | re-evaluating with more tags protected lists no digest that was not listed before, or conflicts |
| `VerifiedReads.Source.Read` | internal/blob/verify.go:80-92 | the reader underneath: any chunking, an error with or after the last bytes, repeated ever after |
| `VerifiedReads.Verifier.Verify` | internal/blob/verify.go:46-51 | no error exactly when what was hashed has the expected digest; otherwise both digests and the size |
| `VerifiedReads.VerifiedReader.Shift` | internal/blob/verify.go:159-174 | what arrived is hashed, the held byte goes out in front and the last byte is held; delivered plus held is hashed |
| `VerifiedReads.VerifiedReader.ReadAside` | internal/blob/verify.go:132-151 | a one-byte buffer releases the held byte through a byte read aside |
| `VerifiedReads.VerifiedReader.ReadThrough` | internal/blob/verify.go:153-188 | a larger buffer, with every way the source can end |
| `VerifiedReads.VerifiedReader.Finish` | internal/blob/verify.go:192-218 | at the end of the stream: the held byte is released on a match, dropped and reported once on a mismatch; there is always room |
| `VerifiedReads.VerifiedReader.Read` | internal/blob/verify.go:118-189 | stays within the buffer, never returns nothing without an error, repeats its last error, and keeps delivered plus held equal to hashed |
| `VerifiedReads.ReadAll` | internal/blob/verify.go:118-218 | for every chunking and all buffer sizes: all bytes and a clean end exactly when the whole stream matches, otherwise all but the last byte and an error |
| `CacheFills.Session.Commit` | internal/blob/store.go:111-115 | publishes what the session holds only when it has the digest |
| `CacheFills.Fill.Discard` | internal/proxy/fill.go:549-558 | cancels the session unless it is settled |
| `CacheFills.Fill.Abandon` | internal/proxy/fill.go:541-546 | gives up on caching and cancels the session once |
| `CacheFills.Fill.Complete` | internal/proxy/fill.go:568-599 | commits once unless settled or abandoned; the row only after a successful commit |
| `CacheFills.Fill.Copy` | internal/proxy/fill.go:507-511 | the session gets exactly the bytes about to be returned, or the fill is abandoned |
| `CacheFills.Fill.Read` | internal/proxy/fill.go:505-531 | keeps: while unsettled the session holds what the client received; settled once it ends |
| `CacheFills.Fill.Close` | internal/proxy/fill.go:535-538 | leaves the session settled |
| `CacheFills.Serve` | internal/proxy/fill.go:464-599 | over any reads then a close: the stream has ended once more buffers with room were read than there are bytes, and then the client has what a verified read gives; settled exactly once; committed exactly when it ended cleanly and no session write failed; then the blob published is what the client received; the row only follows a published blob |
| `RateLimits.Poorest` | internal/authn/ratelimit.go:236-244 | the key owing least |
| `RateLimits.Evict` | internal/authn/ratelimit.go:224-247 | below the bound nothing; else every key owing nothing; and only if that is not enough the least indebted, down to one free place |
| `RateLimits.NewLimiter` | internal/authn/ratelimit.go:61-115 | a limiter exactly for positive settings, else the first one that is not |
| `RateLimits.Limiter.Bucket` | internal/authn/ratelimit.go:201-209 | the key's standing, a new key owing nothing, within the bound |
| `RateLimits.Limiter.Allow` | internal/authn/ratelimit.go:129-147 | spends one attempt or says how long until it could |
| `RateLimits.Limiter.Refund` | internal/authn/ratelimit.go:158-172 | gives one attempt back, never banking credit |
| `RateLimits.Limiter.Peek` | internal/authn/ratelimit.go:177-184 | the answer without the spending |
| `LimiterLaws.OwnStep` | internal/authn/ratelimit.go:129-197 | the bounded map treats the key of the operation as virtual scheduling does |
| `LimiterLaws.OtherStep` | internal/authn/ratelimit.go:201-247 | every other key keeps its debt unless it is dropped owing something |
| `LimiterLaws.KeysBounded` | internal/authn/ratelimit.go:201-247 | the map never exceeds its bound |
| `LimiterLaws.DebtBounded` | internal/authn/ratelimit.go:120-147 | no debt exceeds the burst |
| `LimiterLaws.WindowBound` | internal/authn/ratelimit.go:120-172 | between any two instants attempts less refunds are at most the burst plus one per whole refill interval, while the key is not dropped in debt |
| `LimiterLaws.WaitIsExact` | internal/authn/ratelimit.go:124-147 | refused before the wait is over, allowed from then on |
| `LimiterLaws.BurstIsExact` | internal/authn/ratelimit.go:117-122 | at one instant a fresh key is allowed exactly the burst |
| `LimiterLaws.RefundUndoes` | internal/authn/ratelimit.go:149-172 | an attempt refunded at once leaves the debt as it was |
| `LimiterLaws.BoundedAgrees` | internal/authn/ratelimit.go:199-247 | while fewer keys than the bound are in debt at every creation, every answer is the unbounded limiter's |
| `AttemptLimits.AttemptLimiter.Allow` | internal/authn/ratelimit.go:292-319 | let through exactly when both dimensions allow it; a refusal charges neither; an attempt let through is charged once in each; the wait is the longer one |
| `AttemptLimits.AttemptLimiter.Succeed` | internal/authn/ratelimit.go:335-342 | one attempt back in each dimension named |
| `GcWorld.RefsStep` | internal/meta/store.go:585-600 | a step keeps every stored reference's row exactly when it is not a two-step put whose rows have gone |
| `GcWorld.RefsHaveRowsIff` | internal/registry/manifests.go:163-258 | over every interleaving of pushes, deletes and sweeps: references always have rows exactly when every put checked beforehand still finds its rows as it writes |
| `GcWorld.AtomicPutsAreSafe` | internal/meta/store.go:585-600 | with check and write in one transaction, as the contract has it, no interleaving loses a referenced row |
| `GcWorld.UncrossedPutsAreSafe` | internal/registry/manifests.go:163-258 | puts that look their blobs up one by one and write afterwards lose no row in any run where no sweep deletes a row between the look at it and the write |
| `GcWorld.CheckedPutLosesBlob` | internal/registry/manifests.go:163-258 | as the handler does it, a sweep between the look at a blob and the write leaves a reference without a row |
| `GcWorld.BytesStep` | internal/gc/sweep.go:323-377 | a step keeps bytes behind every row and every commit under way exactly when it is not the delete of bytes claimed again |
| `GcWorld.RowsHaveBytesIff` | internal/gc/sweep.go:323-377 | over every interleaving: rows always have bytes exactly when every byte delete finds its digest unclaimed |
| `GcWorld.QuietWindowsAreSafe` | internal/registry/uploads.go:255-281 | rows keep their bytes throughout any run where, for every row delete and the byte delete that follows it, nobody was publishing the digest at the first and nobody commits it before the second |
| `GcWorld.PushBetweenDeletesLosesBytes` | internal/registry/uploads.go:255-281 | a push of the same content between the two deletes leaves a row without bytes |
| `GcSweeps.PageReaches` | internal/meta/store.go:564-583 | whatever a page of candidates leaves out comes after its rows |
| `GcSweeps.ListCandidates` | internal/meta/memory/gc.go:60-92 | the first reclaimable digests after the cursor, in digest order |
| `GcSweeps.PageCovers` | internal/gc/sweep.go:247-253 | once a page is worked through up to a row, everything up to it that was reclaimable all along met an error |
| `GcCollector.CursorAdvances` | internal/gc/sweep.go:247-254 | every candidate considered brings the sweep closer to its end |
| `GcCollector.Registry.Recheck` | internal/gc/sweep.go:326-338 | the row goes only if still reclaimable; a store that cannot answer leaves it alone, and that call is on record as the failed re-check of this digest |
| `GcCollector.Registry.Collect` | internal/gc/sweep.go:323-345 | row first, then bytes; scanned, deleted, skipped, leaked and bytes counted as it happened; the digest counts as errored exactly when its re-check call failed; bytes are leaked only where a call failed |
| `GcCollector.Registry.Batch` | internal/gc/sweep.go:247-253 | one page under other writers and failures: counters add up to the rows deleted and the bytes leaked, the cursor only rises, everything behind it that was reclaimable all along met a failed re-check, and the history grew by what others had to do and the collector's own deletes alone |
| `GcCollector.Registry.Sweep` | internal/gc/sweep.go:214-256 | pages until one is empty: terminates, fails only where a call failed, and otherwise leaves nothing reclaimable all along except where the re-check call of that digest failed; what happened meanwhile is what others had to do and its own deletes |
| `GcCollector.Registry.Begin` | internal/gc/sweep.go:286-315 | succeeds exactly when the run can be found or, there being none, started; the unfinished run with its own deadline and cursor, or a new one whose life starts in the world that what others had done so far had made |
| `GcCollector.Registry.Enter` | internal/gc/sweep.go:214-377 | each call to a store lets others do the next of what they have to do, fails exactly when the store does, and goes on record with its outcome |
| `GcCollector.Registry.Save` | internal/gc/sweep.go:385-394 | the cursor and counters, or the older ones |
| `GcCollector.Registry.Run` | internal/gc/sweep.go:199-279 | over any resumes, failures, cancellations and other writers: scanned is deleted plus skipped, and deleted and leaked are the rows that went and the bytes left behind; only the run's original deadline deletes; the saved cursor never moves back; a cancelled run stays open; it fails, and leaks, only where a call failed; a completed one leaves no row reclaimable ever since it began unless its re-check call failed, so none when no call since then failed; and since it began nothing happened but what others had to do, in order, and its own deletes |
| `ImportGraphs.Scan` | internal/archtest/archtest.go:354-367 | one dequeued package: a forbidden import, or all its imports found and queued in depth order |
| `ImportGraphs.FoundWithin` | internal/archtest/archtest.go:350-368 | everything within the searched depth has been found, at no greater depth |
| `ImportGraphs.BuildChain` | internal/archtest/archtest.go:372-382 | the tree path to the hit, cut after the last empty name on it |
| `ImportGraphs.FindTransitive` | internal/archtest/archtest.go:350-369 | nothing exactly when no forbidden package other than the start is reachable; otherwise a shortest import path to one, cut after an empty name |
| `ImportGraphs.ChainsAreRealIff` | internal/archtest/archtest.go:352-382 | every chain the search may report is a real path from the start, for every start and rule, exactly when the empty name imports nothing but itself; then it is a shortest one whole |
| `ImportGraphs.BlankBreaks` | internal/archtest/archtest.go:352-382 | otherwise a search from the empty name finds something, and whatever it reports is no path from there |
| `ImportGraphs.FindChain` | internal/archtest/archtest.go:340-369 | a chain exactly when the rule is broken, for both modes |
| `ImportGraphs.Packages` | internal/archtest/archtest.go:296-303 | every package, sorted |
| `ImportGraphs.Check` | internal/archtest/archtest.go:317-337 | one violation for each rule and package that breaks it, rules as given and packages in order, and no other |
| `ImportGraphs.CleanMeansClean` | internal/archtest/archtest.go:317-337 | an empty report means every rule holds of every package it covers, and conversely |
| `TagLeases.Delay` | internal/proxy/backoff.go:151-174 | the wait after a refusal lies between what was asked for, up to the cap, and the cap |
| `TagLeases.Backoff.Ready` | internal/proxy/backoff.go:134-143 | may be called, or when it may |
| `TagLeases.Backoff.Penalize` | internal/proxy/backoff.go:151-179 | the standing after a refusal |
| `TagLeases.Filler.RecordUpstream` | internal/proxy/backoff.go:259-280 | an answer clears the standing, throttling penalizes, nothing else counts |
| `TagLeases.Filler.RecordNegative` | internal/proxy/negative.go:68-81 | an absence is remembered unless the setting is off |
| `TagLeases.Filler.ResolveFailed` | internal/proxy/lease.go:231-269 | forgets a withdrawn name, serves what is held when waiting may help, fails otherwise |
| `TagLeases.Filler.CacheResolved` | internal/proxy/lease.go:221-228 | keeps the manifest of a moved tag, fetching it when it did not come along and the upstream may be called |
| `TagLeases.Filler.ResolveTag` | internal/proxy/lease.go:103-181 | the whole decision: the records, the answer and the calls made are those of the reference step |
| `LeaseLaws.LeaseIsConfirmation` | internal/proxy/lease.go:151-180 | over every run a lease is exactly the last confirmation of its tag: the upstream was asked, named the digest, and its content is held; and there is none after a withdrawal |
| `LeaseLaws.RevalidatedIff` | internal/proxy/lease.go:151-180 | an answer is marked as revalidated exactly when the upstream was asked, replied, and said the held digest still stands or named content that could be kept; it carries that digest |
| `LeaseLaws.NegativeIsDenial` | internal/proxy/negative.go:57-91 | over every run a remembered absence is exactly the upstream's last denial, unless it has named a digest since |
| `LeaseLaws.HitWasConfirmed` | internal/proxy/lease.go:103-112 | a hit's digest was named by the upstream, asked less than the current time to live ago, and no call was made |
| `LeaseLaws.StaleWasConfirmed` | internal/proxy/lease.go:231-269 | a stale answer is the digest the upstream last confirmed, only for a degraded failure or a closed window outside strict mode, and moves no confirmation time |
| `LeaseLaws.StaleIsLastNamedIff` | internal/proxy/lease.go:167-180 | it is the digest of the upstream's last naming exactly when, at that request, the upstream said the held digest stands, the content it named could be kept, or it named the digest already leased |
| `LeaseLaws.LeaseSinceNaming` | internal/proxy/lease.go:151-269 | after the upstream last named a digest for a tag, the digest of the lease does not move, and a tag never named has no lease |
| `LeaseLaws.StaleAfterUnusable` | internal/proxy/lease.go:167-170 | a moved tag whose manifest cannot be kept, then an outage: the earlier digest is served |
| `LeaseLaws.AbsenceWasDenied` | internal/proxy/negative.go:48-62 | an absence answered from memory was the upstream's, less than the current negative time to live ago |
| `LeaseLaws.NeverBoth` | internal/proxy/lease.go:114-149 | a lease and a remembered absence never coexist for a tag |
| `LeaseLaws.NoCallInWindow` | internal/proxy/backoff.go:129-179 | after throttling, met by the tag lookup or by the fetch of a moved tag's manifest, no call reaches the entity before the window ends, whatever is asked in between |
| `LeaseLaws.ThrottledStanding` | internal/proxy/backoff.go:151-179 | throttling sets a window between the wait asked for, up to the cap, and the cap; nothing else sets or moves one |
| `CacheEviction.CachedUsage` | internal/meta/memory/cached.go:329-361 | the sizes of the rows in scope |
| `CacheEviction.ListEvictable` | internal/meta/memory/cached.go:370-428 | coldest rows first, and whatever a page leaves out is warmer |
| `CacheEviction.Evictor.EvictItem` | internal/cache/evict.go:368-436 | the row goes; its bytes go only if that was the last claim on the digest and, with nothing failing, then always; each outcome counted |
| `CacheEviction.FollowOn` | internal/cache/evict.go:402-456 | over any sequence of evictions the bytes gone are among those of digests that lost their last claim, and with nothing failing exactly those |
| `CacheEviction.Evictor.EvictPage` | internal/cache/evict.go:339-350 | rows of a page in order until the target is reached; bytes only follow their last claim |
| `CacheEviction.Evictor.Drain` | internal/cache/evict.go:324-361 | page after page: terminates even when deletes fail; with nothing failing, each row taken is the coldest left and taken while over target, and it ends at or under it exactly when no whole page of the coldest rows, still over target, has size zero |
| `CacheEviction.FreedNothingIff` | internal/cache/evict.go:339-361 | taking more of the coldest rows frees nothing exactly when all of them have size zero |
| `CacheEviction.SizedNeverStalls` | internal/cache/evict.go:324-361 | with fewer rows of size zero than a page holds no page stalls |
| `CacheEviction.WeightlessPageStalls` | internal/cache/evict.go:351-361 | a coldest row of size zero and pages of one: a pass stops over its target |
| `CacheEviction.Evictor.SweepScope` | internal/cache/evict.go:304-362 | nothing within budget; otherwise coldest first, down to the target exactly when no such page stalls the pass |
| `CacheEviction.PagesDoNotMatter` | internal/cache/evict.go:324-361 | the rows a pass takes are determined: pages of any size take the same |
| `CacheEviction.Evictor.Sweep` | internal/cache/evict.go:279-301 | with nothing failing and fewer rows of size zero than a page holds every positive budget holds at once afterwards; rows and bytes counted are those gone; bytes go only with their last claim and, with nothing failing, always do |
| `CacheEviction.Evictor.FindOrphans` | internal/cache/orphan.go:57-84 | unclaimed digests only, all of them unless cut short |
| `CacheEviction.Evictor.SweepOrphans` | internal/cache/orphan.go:54-103 | claimed bytes are never touched; with nothing failing or cut short only claimed bytes remain |
| `GroupResolution.RefusedIff` | internal/repo/group.go:325-354 | a list is refused exactly when a name is illegal, a kind cannot be a member, or a name or position repeats |
| `GroupResolution.OrderMembers` | internal/repo/group.go:325-360 | the members in position order, or the first fault in list order |
| `GroupResolution.Resolve` | internal/repo/group.go:262-317 | the verdict of the first member not passed over, with those skipped before it |
| `GroupResolution.ResolutionMeaning` | internal/repo/group.go:262-317 | served, unavailable or never-asked exactly by the member that is not passed over with every earlier position passed over; not found exactly when all are |
| `GroupResolution.ListOrderIrrelevant` | internal/repo/group.go:319-360 | permuting the list changes nothing; an unusable list stays unusable |
| `GroupResolution.With` | internal/repo/group_filter.go:99-107 | outcomes filled in by name, nobody added |
| `GroupServing.VisibleMembers` | internal/repo/group_filter.go:68-81 | the members whose content the subject may read, in place |
| `GroupServing.SortByPosition` | internal/groupserve/groupserve.go:404-410 | the in-place insertion sort: a permutation, in position order |
| `GroupServing.AskMembers` | internal/groupserve/groupserve.go:303-322 | asks in position order up to the first member that serves, and captures what that one served; for an acceptable list that order is the only one |
| `GroupServing.LazyIsEager` | internal/groupserve/groupserve.go:296-322 | stopping there gives the resolution that asking everybody would, for every list |
| `GroupServing.CapturedIsNamed` | internal/groupserve/groupserve.go:127-140 | when the group serves, what was captured came from the member the resolution names |
| `GroupServing.Serve` | internal/groupserve/groupserve.go:178-229 | the reply the resolution calls for, with the content of the member it names |
| `GroupServing.HiddenMembersChangeNothing` | internal/repo/group_filter.go:68-81 | inserting a member the subject cannot read anywhere leaves the members asked and resolved as they were |
| `GroupServing.HiddenMemberMustHaveRow` | internal/groupserve/groupserve.go:256-294 | but a hidden member's row is read all the same: the group still answers exactly when that row is there |
| `Ulids.Increment` | internal/event/id.go:107-115 | one more in place, false exactly when it wrapped |
| `Ulids.IncrementedMeaning` | internal/event/id.go:107-115 | unless all ones, the value grows by one and the bytes grow in order |
| `Ulids.EncodeCrockford` | internal/event/id.go:120-140 | twenty-six digits, five bits each, most significant first |
| `Ulids.EncodingKeepsOrder` | internal/event/id.go:117-131 | strictly order-preserving on 128-bit values |
| `Ulids.EncodingOrderIff` | internal/event/id.go:117-131 | and so exactly: strings compare as the values do |
| `Ulids.IdOrderIff` | internal/event/id.go:59-96 | one identifier sorts before another exactly when its 48-bit stamp does, or its entropy under the same stamp; for every pair of instants |
| `Ulids.IDSource.Draw` | internal/event/id.go:100-104 | a full read replaces the entropy; a short one leaves what it wrote and steps it |
| `Ulids.IDSource.New` | internal/event/id.go:59-96 | the state after a call is the reference step's: the clock never goes back, the entropy is stepped within a millisecond and drawn otherwise, and the identifier encodes both |
| `Ulids.StepsUpIff` | internal/event/id.go:59-96 | the next identifier is greater exactly when, before the call, an instant already reached finds entropy that is not all ones, or a new one has a later stamp or greater entropy |
| `Ulids.MintAll` | internal/event/id.go:35-140 | every identifier of any sequence of calls is the one the entropy and the instants determine |
| `Ulids.IncreasingIff` | internal/event/id.go:20-96 | for every entropy and every clock: strictly increasing exactly when every call after the first steps up |
| `Ulids.InRangeIncreasingIff` | internal/event/id.go:20-96 | for instants that fit 48 bits: strictly increasing exactly when no call at an instant already reached finds the entropy all ones |
| `Ulids.LatestSoFar` | internal/event/id.go:65-84 | the instant held is the latest one given |
| `Ulids.RoomyIncreases` | internal/event/id.go:65-80 | draws that leave room for as many steps as there are calls keep the order |
| `Ulids.WrapRepeats` | internal/event/id.go:65-80 | entropy of all ones, twice in one millisecond: the same identifier twice |
| `PhcStrings.NumberOfDecimal` | internal/authn/password.go:357-362 | a decimal rendering reads back as its number |
| `PhcStrings.PackRoundTrip` | internal/authn/password.go:249-250 | unpadded base64 reads back, over any alphabet |
| `PhcStrings.ParseCosts` | internal/authn/password.go:293-321 | the three cost fields in order, each within its width |
| `PhcStrings.Decode` | internal/authn/password.go:267-352 | what was read, exactly when it validates and prints as what was given |
| `PhcStrings.RoundTrip` | internal/authn/password.go:252-352 | whatever is printed parses back to itself |
| `PhcStrings.DecodesIff` | internal/authn/password.go:259-352 | a string parses to a verifier exactly when it is that verifier's printing and the verifier is valid with matching lengths |
| `PhcStrings.EncodeInjective` | internal/authn/password.go:252-257 | two valid verifiers never print alike |
| `EventBus.AlwaysFlows` | internal/event/bus.go:248-333 | over every interleaving each consumer has been handed a prefix of what was accepted for it, in order, with the rest queued within its bound, and whoever is still offered events has not been told to stop |
| `EventBus.StoppedIsLeftAlone` | internal/event/bus.go:216-229 | once told to stop, a consumer is offered nothing more |
| `EventBus.FinishedMeansDelivered` | internal/event/bus.go:292-314 | a consumer that has finished was handed everything ever accepted for it, and nothing is accepted afterwards |
| `EventBus.DrainFinishes` | internal/event/bus.go:302-311 | a stopped consumer left to itself finishes within as many deliveries as it has queued, panicking or not |
| `EventBus.DrainAlwaysProgresses` | internal/event/bus.go:292-333 | over every interleaving from the stop on, what a consumer has left to do shrinks by exactly its own steps and by nobody else's, one of its own is possible until it is done, and delivered and queued together stay what had been accepted |
| `EventBus.OffersAddUp` | internal/event/bus.go:248-290 | over every interleaving, what a subscriber was handed or queued plus what was dropped for it plus the publishers yet to offer it something is the number of wanted publications begun while it was listed |
| `EventBus.DropsAddUp` | internal/event/bus.go:278-285 | the drops the bus counts are the sum of its subscribers' |

## Left out

- HTTP handlers, authentication flows, routing, configuration, logging, event payloads and
  the renderers: plumbing around the decisions modelled here.
- Metadata and blob drivers: modelled as the contracts in internal/meta/store.go and
  internal/blob/store.go, with the in-memory driver where an order or a condition has to be
  read off; transactions are single steps.
- Hashes, Argon2id, random sources and regular expressions: arbitrary functions or inputs.
- Integer widths: sizes, counters, durations and positions are unbounded, except the 64-bit
  wrap of the backoff exponential, the 48 and 80 bits of an identifier and the widths of
  the PHC fields, which are written out.
- Copies: snapshots, rules and member lists are values, so defensive copying is not modelled.
- Error texts: errors carry what they are about and not their wording; `PhcStrings.Decode`
  says that a string is refused and not at which field.
- VerifiedReads.VerifiedReader.constructor: the digest's syntax is not checked, and
  `Close` and `Copy` of internal/blob/verify.go are not modelled.
- RateLimits.Evict: instants start at Go's zero time, which the source uses to mark that no
  key has been picked yet.
- AttemptLimits.AttemptLimiter.Allow: one call at a time; the overshoot by attempts in
  flight that the source accepts is not modelled.
- GcCollector.Registry.Run: the run's clock readings, identifiers of past runs and the
  completion event are not modelled; one collector runs at a time, as the scheduler has it.
- ImportGraphs.FindTransitive: which of several shortest chains is reported.
- TagLeases.Filler.ResolveTag: resolutions of one process one after the other, without the
  coalescing of concurrent callers; store writes do not fail; only the error classes that
  decide something are told apart.
- CacheEviction.Evictor.Sweep: no fills run during a sweep; the headroom is any part up to
  half of a budget in place of the source's floating-point product; per-scope reports and
  the bytes of the orphan result are not modelled.
- GroupServing.Serve: the subject's bindings are an arbitrary predicate on content names,
  and closing a stream that lost is not modelled.
- EventBus.AlwaysFlows: contexts, drop reports and waiting for a closed bus with a deadline
  are not modelled.
- internal/policy `RuleSet`, `Plan` and `Entry` accessors that return a field.
