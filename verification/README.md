# Verification models of the package gateway

These modules model the decision logic of a gateway that checks software packages before they are
served, and prove properties of it. They cover six components of the repository.

* **Policy engine** (`PolicyData`, `Expression`, `Effective`, `Resolution`, `Decision`, `Softening`,
  `Audit`, `Recording`, `ViolationTable`, `Meaning`, `Provisioning`, `CopyDecisions`, `FieldResolver`,
  `CheckFlow`).
  Tenant and project policies are resolved with their bindings into a sorted rule list; conditions
  are evaluated over a flat field map; matches are folded into allow or block; audit rows and a
  deduplicated violation table record the outcome; new tenants get copies of the platform's
  policies.
* **Typosquat detection** (`EditDistance`, `Triangle`, `PackageNames`, `Ranking`). An edit distance by dynamic
  programming, the similarity score and the typo test on it, and the merging and re-ranking of
  candidates.
* **Corpus loading and caches** (`SeedLoader`, `IncrementalLoad`, `DuplicateKeys`, `SeedPipeline`,
  `JudgeCache`, `ConnectorCache`). Hash-guarded skips and memo tables, compared with the full work they save.
* **Queue and limiter** (`IngestQueue`, `RateLimiter`). State machines over every run.
* **Event streams** (`SubscriptionHub`, `SubscriptionManagers`). The fan-out hub, with the set
  objects that its unsubscribe functions capture.
* **Signature decoding** (`DerSignature`, `DerEncoding`). The DER decoder in its own terms and against
  ITU-T X.690, sections 8.1.3, 8.3, 8.9 and 10.1, and the raw form of section 3.4 of RFC 7518.

`Common` and `Sorting` hold the list operations and the stable sort that the others share.

Code that changes things step by step is a method or a class here, and its contract ties it to a
function of the old state; the lemmas are about those functions. Tables are sequences or maps of
rows, and a transaction is one step. Hashes, embedders, the base judge, JavaScript's conversions and
message rendering are functions given as parameters; where a proof needs hashes to be free of
collisions, it says so (`CollisionFree`).

Where a promise is false of the code, the code is kept and the exact condition is proved: see
`Triangle.TriangleIff`, `Audit.MatchedFlagIff`, `Audit.MatchedRowsIff`, `ViolationTable.SeenInOrderIff`,
`CopyDecisions.CopyDecidesAlikeIff`, `DerEncoding.BeginsWithEncodingIff`, `DerEncoding.AcceptedValuesIff`,
`RateLimiter.LimitHoldsIff`, `RateLimiter.RoomDecidesIff`, `Softening.SoftensIff`,
`CheckFlow.OnlyNoPolicyHardens`, `Expression.FormsAgreeIff`, `Expression.OutcomesAgreeIff`,
`IncrementalLoad.IncrementalEqualsRebuildIff`, `DuplicateKeys.LoadEqualsRebuildIff`,
`JudgeCache.CacheTransparentIff`, `IngestQueue.KeyIsUniqueIff`, `Provisioning.CopyPreservesMeaningIff`,
`SubscriptionHub.RepeatHarmlessIff`, `SubscriptionHub.LeavesWithItsStreamIff` and
`DerSignature.TruncatedRejectedIff`.

Code and documentation disagree in four places, and the model follows the code. The comment at
`services/api/src/policy/effective.ts:398` says that an assignment never hardens; a merged action
can. The description at `services/api/src/bootstrap/tenant-provisioning.ts:74` speaks of time-outs;
the condition lists `background_pending`, `unavailable` and `error`. The header of
`services/api/src/connectors/cache.ts` says that a TTL is never stored; the row has one, and it wins.
The reason string calls a missing code `policy_violation`, while the violation row calls it
`RULE_MATCHED`.

`dafny verify dfyconfig.toml` checks the project.

## Model

| member | source | states |
|---|---|---|
| `EditDistance.DamerauLevenshteinDistance` | services/intelligence/app/domain/package_names.py:10-46 | the table-filling loop, with its borders and early returns, returns the least cost over all scripts of inserts, deletes, substitutions and swaps of neighbours in which no character is moved twice |
| `EditDistance.Attained` | services/intelligence/app/domain/package_names.py:27-44 | some script costs exactly what the recurrence says, also where a swap of two equal characters is charged nothing |
| `EditDistance.NoScriptCheaper` | services/intelligence/app/domain/package_names.py:27-44 | no script that rewrites one name into the other costs less |
| `EditDistance.DistanceIsLeastCost` | services/intelligence/app/domain/package_names.py:10-46 | the recurrence is the least cost of a script, for all pairs of strings |
| `EditDistance.DistanceBounds` | services/intelligence/app/domain/package_names.py:10-46 | the distance lies between the difference of the lengths and the longer length |
| `EditDistance.DistanceSymmetric` | services/intelligence/app/domain/package_names.py:10-46 | the distance is symmetric |
| `EditDistance.DistanceZeroIffEqual` | services/intelligence/app/domain/package_names.py:10-46 | the distance is zero exactly on equal strings |
| `EditDistance.TriangleInequalityFails` | services/intelligence/app/domain/package_names.py:35-44 | the restricted distance is no metric: for any three different characters a detour over a swap is shorter |
| `Triangle.TriangleIff` | services/intelligence/app/domain/package_names.py:27-44 | over the strings of some letters the distance obeys the triangle inequality exactly if no three of the letters are different |
| `PackageNames.NormalizeIdempotent` | services/intelligence/app/domain/package_names.py:6-7 | a normalised name holds only name characters and normalises to itself |
| `PackageNames.SimilarityIsScore` | services/intelligence/app/domain/package_names.py:49-59 | similarity lies in [0, 1], is symmetric, and is 1 exactly when the normalised names are equal |
| `PackageNames.TypoVariantMeans` | services/intelligence/app/domain/package_names.py:62-73 | the typo test in whole numbers: different names, same first character, at most one edit for every four characters |
| `PackageNames.TypoVariantSymmetric` | services/intelligence/app/domain/package_names.py:62-73 | the typo test does not depend on which of the two names is asked about |
| `PackageNames.HasAdjacentName` | services/intelligence/app/repositories/package_embeddings.py:175-212 | the scan answers whether a fetched row is an adjacent name, whatever the order of the rows |
| `PackageNames.WindowHidesNothing` | services/intelligence/app/repositories/package_embeddings.py:189-201 | the length window of the query lets every typo variant with a lower-case stored name through |
| `PackageNames.WindowNeedsStoredNames` | services/intelligence/app/repositories/package_embeddings.py:189-201 | a stored name in capitals would be outside the window although it is adjacent |
| `PackageNames.FetchLosesNothing` | services/intelligence/app/repositories/package_embeddings.py:175-212 | over stored names the scan answers for the whole corpus |
| `Ranking.NamesakeOutscores` | services/intelligence/app/checks/heuristics.py:33-46 | a candidate that normalises like the requested name outscores every other one, whatever their trust and semantic similarity |
| `Ranking.RerankPutsNamesakesFirst` | services/intelligence/app/checks/heuristics.py:49-58 | re-ranking is a permutation, is ordered by the three-part key, and places all namesakes ahead of all others |
| `Ranking.RerankKeepsTies` | services/intelligence/app/checks/heuristics.py:49-58 | candidates with equal keys keep their order, although the sort is reversed |
| `Ranking.MergeCandidateSets` | services/intelligence/app/checks/heuristics.py:61-68 | one candidate a name, the earliest of the best, in the order in which names first appear |
| `Expression.TraceRefinesShortCircuit` | services/api/src/policy/expression.ts:169-228 | traced evaluation returns exactly on well-shaped trees, and there it agrees with short-circuit evaluation |
| `Expression.FormsAgreeIff` | services/api/src/policy/expression.ts:169-228 | on every tree, malformed ones too: both forms return, and the same boolean, exactly when the tree is well shaped |
| `Expression.ThrowsIff` | services/api/src/policy/expression.ts:169-187 | short-circuit evaluation throws exactly if it comes to a malformed node: each earlier sibling is true under `all`, false under `any` |
| `Expression.OutcomesAgreeIff` | services/api/src/policy/expression.ts:169-228 | the two forms have the same outcome, a boolean or an exception, exactly when the tree is well shaped or short-circuit evaluation comes to a malformed node |
| `Expression.ShortCircuitHidesMalformedSibling` | services/api/src/policy/expression.ts:54-56 | a group that is decided early hides a malformed sibling on which the traced form throws |
| `Expression.TraceMirrorsTree` | services/api/src/policy/expression.ts:189-228 | the trace has the shape of the tree, and each group's result is determined by its children's |
| `Expression.OnlyNamedFieldsMatter` | services/api/src/policy/expression.ts:169-228 | both forms depend only on the fields named in the tree |
| `Effective.ModeOnlySoftens` | services/api/src/policy/effective.ts:401-415 | the resolved mode enforces exactly when the base does and the override does not soften it |
| `Effective.GroupByPolicy` | services/api/src/policy/effective.ts:211-216 | the grouping loop gives each policy its rows, in query order, and holds no other key |
| `Effective.ResolveAll` | services/api/src/policy/effective.ts:218-291 | the resolving loop yields each entry's policy and the concatenation of their rules |
| `Effective.LoadEffectivePolicy` | services/api/src/policy/effective.ts:100-307 | the loops and the sort together compute the snapshot that the lemmas below are about, also without any policy |
| `Resolution.EntryMember` | services/api/src/policy/effective.ts:104-178 | which policies are effective, and under which binding: global ones unless opted out, and the project's own |
| `Resolution.EntriesDistinct` | services/api/src/policy/effective.ts:156-178 | no policy is effective twice |
| `Resolution.SnapshotHolds` | services/api/src/policy/effective.ts:191-291 | a rule is in the flat list exactly when it is resolved from a live row of an effective policy that no override switches off |
| `Resolution.OneRulePerBinding` | services/api/src/policy/effective.ts:191-291 | every live rule binding yields exactly one resolved rule, unless an override disables it, and then none |
| `Resolution.BindingIdsDistinct` | services/api/src/policy/effective.ts:230-267 | the resolved rules have distinct rule bindings |
| `Resolution.FlatListSorted` | services/api/src/policy/effective.ts:290-298 | the flat list is a permutation of the per-policy lists, sorted by priority and order index, and keeps ties in their order |
| `Resolution.RulesBelongToPolicies` | services/api/src/policy/effective.ts:246-291 | every rule of the flat list belongs to a policy of the snapshot |
| `Decision.EvaluatePolicyDecision` | services/api/src/connect/check-service.ts:1210-1302 | the fold, with its mutable decision, detail, TTL, serve mode and lists, computes the declarative decision, or throws on the first malformed condition it evaluates |
| `Decision.FoldMatch` | services/api/src/connect/check-service.ts:1243-1279 | one matched rule: what is reported, and what a first and a later blocker change |
| `Decision.BlockIff` | services/api/src/connect/check-service.ts:1271-1290 | block exactly when some rule matches and is an enforcing violation; then nothing is cached or served, and otherwise the defaults are |
| `Decision.BlockIffViolation` | services/api/src/connect/check-service.ts:1256-1268 | the decision is block exactly when some collected violation is marked as blocking |
| `Decision.DetailIsFirstBlocker` | services/api/src/connect/check-service.ts:1271-1276 | the detail is the message of the first blocking rule |
| `Decision.OrderIrrelevant` | services/api/src/connect/check-service.ts:1238-1302 | permuting the rules changes neither verdict, TTL, serve mode, counts nor the multiset of violations |
| `Softening.BindingsOnlySoften` | services/api/src/policy/effective.ts:156-291 | if a rule list resolved with harmless bindings blocks, the list resolved without any chosen part of them blocks too, or throws where a condition is malformed |
| `Softening.BlockerSurvives` | services/api/src/policy/effective.ts:221-267 | each blocking rule has a blocking counterpart without the harmless bindings |
| `Softening.PlainBindingIsSoft` | services/api/src/policy/effective.ts:230-244 | a binding without condition replacement and action merge is soft on every row |
| `Softening.SofteningModeIsSoft` | services/api/src/policy/effective.ts:259-262 | a binding that sets the mode to advisory or disabled is soft whatever else it overrides |
| `Softening.SoftensIff` | services/api/src/policy/effective.ts:230-262 | any binding softens, under all conditions of the rules and all fields, exactly when on each row it makes the rule no stricter or replaces its condition by one that matches on no fields |
| `Softening.PlainBindingsAreHarmless` | services/api/src/policy/effective.ts:230-262 | bindings that replace no condition and merge no action, and those that set a softening mode, are harmless in that sense |
| `Softening.MergeCanHarden` | services/api/src/policy/effective.ts:238-262 | merging an enforcing mode into the action of an advisory rule blocks where nothing blocked without the binding, against what the comment on the mode resolution promises |
| `Softening.ReplaceCanHarden` | services/api/src/policy/effective.ts:234-237 | replacing a condition can turn allow into block |
| `Audit.AuditRows` | services/api/src/connect/check-service.ts:1586-1644 | the loops over violations, policies and rules produce the audit rows |
| `Audit.RuleRowFaithful` | services/api/src/connect/check-service.ts:1621-1643 | a rule row is marked as matched exactly if its rule was reported, as block exactly if it blocked, and as pass exactly if it was not reported |
| `Audit.MatchedFlagIff` | services/api/src/connect/check-service.ts:1621-1643 | the matched flag tells whether the rule matched exactly if, should it match, its action type is violation, warning or info |
| `Audit.MatchedRowsIff` | services/api/src/connect/check-service.ts:1613-1645 | the rows marked as matched are as many as the violations, and as many as `rules_matched` exactly if every matched rule has one of those types |
| `Audit.OtherTypeMatchesInSilence` | services/api/src/policy/effective.ts:238-262 | a binding that merges another type into the action of a matched rule: the rule counts as matched, and its row says unmatched and pass |
| `Audit.AuditAgreesWithDecision` | services/api/src/connect/check-service.ts:1586-1644 | one rule row a rule with distinct bindings; a policy row blocks exactly when one of its rule rows does; the decision blocks exactly when a policy row does |
| `Recording.DecisionsHaveDistinctKeys` | services/api/src/connect/check-service.ts:486-496 | no two violations of one decision have the same key |
| `Recording.DecisionsAreRecorded` | services/api/src/connect/check-service.ts:1713-1829 | any decision can be recorded in any consistent tables, and each of its violations gets one occurrence on the row with its key and status |
| `ViolationTable.RecordOneWrites` | services/api/src/connect/check-service.ts:1713-1810 | one violation touches one row, the active one with its key or a new one, leaves every key alone, and adds one occurrence that points there with the row's status |
| `ViolationTable.OccurrencesPointHome` | services/api/src/connect/check-service.ts:1713-1810 | after the loop the i-th violation has the i-th occurrence, on the row with its key and with that row's status |
| `ViolationTable.RecordedIffDistinct` | services/api/src/connect/check-service.ts:1799-1810 | an evaluation is recorded, all of it, exactly if no two of its violations share a key; otherwise the index on occurrences rolls it back |
| `ViolationTable.RunsStayConsistent` | services/api/src/connect/check-service.ts:1567-1829 | over every serialised run of evaluations, suppression changes and status changes: at most one active row a key, occurrences on existing rows, and one for each recorded violation, whatever the clock |
| `ViolationTable.SeenAtOccurrences` | services/api/src/connect/check-service.ts:1748-1810 | over every run, whatever the clock, a row was first seen at the reading of its first occurrence and last seen at that of its last |
| `ViolationTable.SeenInOrderIff` | services/api/src/connect/check-service.ts:1748-1810 | so it was first seen no later than last seen exactly if those two readings are in order |
| `ViolationTable.OrderedReadingsOrderRows` | services/api/src/connect/check-service.ts:1748-1810 | which is so for every row if the readings of recorded violations are written in order |
| `ViolationTable.LateWriterDisorders` | services/api/src/connect/check-service.ts:486-496 | readings are taken before the transactions: two evaluations written in the other order leave a row last seen before it was first seen |
| `ViolationTable.OccurrencesKeepKeys` | services/api/src/connect/check-service.ts:1748-1765 | over every run, whatever the clock, the row of each occurrence keeps the key of the violation that made it |
| `ViolationTable.ResolvedRowsStay` | services/api/src/connect/check-service.ts:1737-1746 | an evaluation never touches a resolved row |
| `ViolationTable.StatusChangeConsistent` | services/api/src/features/violations/project-shared.ts:95-104 | a status change from outside keeps the table consistent |
| `ViolationTable.ViolationStore.Record` | services/api/src/connect/check-service.ts:1713-1829 | the transaction's loop computes the specified tables, or leaves them as they were |
| `Provisioning.PolicyTables.CopyPlatformPolicyTemplatesToTenant` | services/api/src/bootstrap/tenant-provisioning.ts:293-403 | the loop copies each template whose name is not taken, and counts the copies |
| `Provisioning.PolicyTables.CopyTemplate` | services/api/src/bootstrap/tenant-provisioning.ts:337-397 | the inserts for one template: its policy, its rules and their bindings |
| `Provisioning.CopyMeansTemplate` | services/api/src/bootstrap/tenant-provisioning.ts:353-397 | a copy, once made, means the template's enabled rules at every later time, whatever their effective windows were |
| `Provisioning.CopyExtendsTenant` | services/api/src/bootstrap/tenant-provisioning.ts:337-397 | a copy adds exactly the template's enabled rules to what the tenant's policies mean |
| `Provisioning.CopyPreservesMeaningIff` | services/api/src/bootstrap/tenant-provisioning.ts:293-403 | for a tenant without policies and templates with distinct names, the copies mean what the templates mean exactly when every enabled bound rule is in force |
| `Provisioning.CopyDecidesAlike` | services/api/src/bootstrap/tenant-provisioning.ts:293-403 | then copies and templates give the same verdict, and the same codes and modes, on every field map |
| `CopyDecisions.CopyDecidesAlikeIff` | services/api/src/bootstrap/tenant-provisioning.ts:353-397 | whether or not they are in force: on a field map, copies and templates give the same error or the same verdict, codes and modes exactly if some template rule throws, or no enabled rule outside its window throws or reports |
| `CopyDecisions.CopyMeansExpiredToo` | services/api/src/bootstrap/tenant-provisioning.ts:353-397 | the copies mean what the templates mean, and the enabled rules outside their windows besides |
| `CopyDecisions.ExpiredRuleBlocksInCopy` | services/api/src/bootstrap/tenant-provisioning.ts:372-389 | a store in which a rule that the platform has let expire blocks the new tenant and not the platform |
| `Meaning.SnapshotMeansTenant` | services/api/src/policy/effective.ts:100-307 | without bindings and project policies, the resolved rules are the tenant's live rules |
| `Meaning.SameMeaningsSameDecision` | services/api/src/connect/check-service.ts:1210-1302 | rule lists with the same conditions, actions and modes give the same verdict and report the same codes and modes |
| `FieldResolver.ResolveFields` | services/api/src/policy/resolver.ts:33-72 | the nested loops write the built-ins, then each snapshot's metadata and data, later writes winning |
| `FieldResolver.CompletedCovers` | services/api/src/connect/check-service.ts:732-741 | after completion every supported connector has a snapshot, made up as unavailable only where none was stored |
| `FieldResolver.StatusAlwaysPresent` | services/api/src/policy/resolver.ts:52-69 | every snapshot's connector has a status field |
| `FieldResolver.StatusIsLastSnapshots` | services/api/src/policy/resolver.ts:52-69 | that field holds the status of the connector's last snapshot, duplicates allowed, if no data field has the name of a status field |
| `FieldResolver.StatusIsSnapshots` | services/api/src/policy/resolver.ts:52-69 | with one snapshot a connector it holds the snapshot's status, if no data field has the name of a status field |
| `CheckFlow.AllowIff` | services/api/src/connect/check-service.ts:285-515 | a versioned request is allowed exactly when the token is authorised, the ecosystem entitled, the rule list not empty, and no rule throws or blocks |
| `CheckFlow.AllowMeansOsvAnswered` | services/api/src/bootstrap/tenant-provisioning.ts:72-89 | with the starter rule enforced, an allowed version has a stored OSV snapshot whose status is none of the three that the rule lists |
| `CheckFlow.OnlyNoPolicyHardens` | services/api/src/connect/check-service.ts:389-434 | where a versioned request is allowed without some harmless bindings, it is blocked under them exactly if they leave no rule, and then with `no_policy` |
| `CheckFlow.OptOutHardens` | services/api/src/policy/effective.ts:156-178 | such bindings exist: a project that opts out of its only policy, with an empty override map, is blocked where it was allowed |
| `SeedLoader.TextDeterminesDescription` | services/intelligence/app/checks/embeddings.py:14-25 | for one package, the embedding text determines the normalised description |
| `SeedLoader.SeedLoaderService.BuildEmbeddings` | services/intelligence/app/services/seed_loader.py:97-117 | the batches together embed exactly the records given |
| `SeedLoader.SeedLoaderService.UpsertSeedRecords` | services/intelligence/app/repositories/package_embeddings.py:244-368 | the loop skips, updates metadata or writes in full, and a missing embedding leaves the table alone |
| `SeedLoader.SeedLoaderService.LoadRecords` | services/intelligence/app/services/seed_loader.py:27-95 | with errors of the embedder and of either completion of the run anywhere: which table is left, what is raised, and how the run is recorded |
| `IncrementalLoad.LoadSucceeds` | services/intelligence/app/repositories/package_embeddings.py:244-368 | with distinct keys the load never lacks an embedding, its counts add up, each record's row is as specified and other rows are untouched |
| `IncrementalLoad.RecordEqualsRebuildIff` | services/intelligence/app/repositories/package_embeddings.py:264-312 | one record: the load leaves what a rebuild would, exactly when it reuses no stale column |
| `IncrementalLoad.IncrementalEqualsRebuildIff` | services/intelligence/app/repositories/package_embeddings.py:244-368 | the whole table has the content of a rebuild exactly when no record reuses a stale column: another model's embedding under the same text, or an inactive row that is skipped |
| `IncrementalLoad.DuplicateKeysDiverge` | services/intelligence/app/repositories/package_embeddings.py:255-285 | without distinct keys the load can differ from a rebuild |
| `DuplicateKeys.LoadEqualsRebuildIff` | services/intelligence/app/repositories/package_embeddings.py:244-368 | for any records, repeated keys included, the load leaves the content of a rebuild exactly when each key's last record is written in full, or all its records have the stored text, embedded by the same model, and the last is written or all are skipped and the row is active |
| `DuplicateKeys.RebuildKeepsLast` | services/intelligence/app/repositories/package_embeddings.py:323-366 | a rebuild leaves each key the content of its last record, and other keys alone |
| `IncrementalLoad.RecordedErrorTells` | services/intelligence/app/services/seed_loader.py:62-84 | a run recorded as failed has loaded its records exactly if its recorded error is that success could not be recorded; other failures leave the table alone |
| `IncrementalLoad.RetryRepairs` | services/intelligence/app/services/seed_loader.py:62-84 | after any failure, a load without faults and with the same model leaves the content that an undisturbed load would have left |
| `IncrementalLoad.RepeatSkipsAll` | services/intelligence/app/repositories/package_embeddings.py:283-285 | repeating a load skips every record and changes nothing |
| `IncrementalLoad.LoadKeepsConsistent` | services/intelligence/app/repositories/package_embeddings.py:323-366 | a load keeps every row's hashes those of its own contents |
| `IncrementalLoad.RunsStayConsistent` | services/intelligence/app/repositories/package_embeddings.py:244-368 | and so does every run of loads |
| `SeedPipeline.DedupeRecords` | services/intelligence/sources/npm/parsing.py:74-91 | one record a name, none with a better score, sorted by name |
| `SeedPipeline.ValidatorsKeepParsed` | services/intelligence/app/models/seed_records.py:34-48 | the validators leave parsed names and descriptions as they are |
| `SeedPipeline.PipelineFeedsLoader` | services/intelligence/sources/npm/normalize.py:100-127 | what normalisation hands over has distinct keys and hashes of its own embedding text, as the loader needs |
| `JudgeCache.KeyDeterminesAnswer` | services/intelligence/app/checks/judge.py:155-191 | equal hashes mean the same prompt, rounded scores included, and the same answer after the candidate check |
| `JudgeCache.RunsHoldAnswers` | services/intelligence/app/checks/judge.py:200-257 | in every reachable cache, a row holds the base judge's answer to each query with its key |
| `JudgeCache.CacheTransparentIff` | services/intelligence/app/checks/judge.py:200-257 | whatever the language model answers and whatever was asked before, the cached judge decides a query like the base judge exactly if every neighbour of the query has a name |
| `JudgeCache.DiffersOnEmptyName` | services/intelligence/app/checks/judge.py:200-257 | in one state the two differ exactly on a hit whose decision selected the empty name |
| `JudgeCache.SecondAnswerLosesMatch` | services/intelligence/app/repositories/check_judge_results.py:17-46 | with an unnamed neighbour, some model's second answer loses the match of the first |
| `JudgeCache.CacheTransparent` | services/intelligence/app/checks/judge.py:200-257 | with named candidates it always does, apart from the cached flag |
| `JudgeCache.HitsCountAnsweredCalls` | services/intelligence/app/repositories/check_judge_results.py:48-117 | a row's hit count is the number of answered calls with its key |
| `JudgeCache.CheckJudgeResults.FetchDecision` | services/intelligence/app/repositories/check_judge_results.py:17-46 | a lookup returns the row's decision, with an empty selected name read as none |
| `JudgeCache.CheckJudgeResults.RecordDecision` | services/intelligence/app/repositories/check_judge_results.py:48-96 | an upsert writes the decision and starts or raises the count, and leaves other rows alone |
| `JudgeCache.CheckJudgeResults.BumpHitCount` | services/intelligence/app/repositories/check_judge_results.py:98-117 | a bump raises one row's count |
| `JudgeCache.CachedJudge.Judge` | services/intelligence/app/checks/judge.py:200-257 | lookup, base judge and table updates together are one step of the specification |
| `ConnectorCache.HighestFindingSeverity` | services/api/src/connectors/cache.ts:93-101 | the loop returns the severest severity among the findings, or NONE |
| `ConnectorCache.RunHoldsLast` | services/api/src/connectors/cache.ts:360-427 | after any upserts there is one row a key, and it holds the last write to that key |
| `ConnectorCache.LookupIsFreshLastWrite` | services/api/src/connectors/cache.ts:165-199 | a lookup hits exactly when the last write to its key is younger than its own TTL, or else the connector's |
| `ConnectorCache.ReadsBackWhatWasWritten` | services/api/src/connectors/cache.ts:201-275 | a hit returns the findings and the summary that were written |
| `ConnectorCache.SnapshotReads` | services/api/src/connectors/cache.ts:284-316 | a snapshot read misses, besides, exactly when reads are off or the count is positive without findings |
| `ConnectorCache.ColumnsCarrySummary` | services/api/src/connectors/cache.ts:232-253 | for such a result the aggregate columns give back risk, count and remediation of the stored summary, and its vulnerability count exactly if an old count is the number of findings |
| `ConnectorCache.ConnectorCacheTable.UpsertCachedResult` | services/api/src/connectors/cache.ts:360-427 | the upsert replaces the row of its key and no other, or inserts one |
| `IngestQueue.RunsKeepInvariant` | services/api/src/connect/record-package-contributor-metadata-service.ts:97-149 | after every event, for any bound: the counter is the number of keys in flight and within the bound, queued and in-flight keys are disjoint, spare capacity means an empty queue, waiters mean work |
| `IngestQueue.StartsInOrder` | services/api/src/connect/record-package-contributor-metadata-service.ts:127-138 | jobs start once each, in the order in which they were accepted; when idle, all have been completed |
| `IngestQueue.EnqueueKeepsInvariant` | services/api/src/connect/record-package-contributor-metadata-service.ts:97-125 | a job whose key is queued or in flight changes nothing; any other is accepted at the end of the line |
| `IngestQueue.CompleteKeepsInvariant` | services/api/src/connect/record-package-contributor-metadata-service.ts:140-145 | a completion takes one job off the books |
| `IngestQueue.IdleAfterExactly` | services/api/src/connect/record-package-contributor-metadata-service.ts:140-145 | without arrivals the queue is idle after exactly as many completions as there were jobs |
| `IngestQueue.NeverStalls` | services/api/src/connect/record-package-contributor-metadata-service.ts:127-149 | while there is work some job is in flight, if any concurrency is allowed |
| `IngestQueue.WaitersServedInOrder` | services/api/src/connect/record-package-contributor-metadata-service.ts:193-215 | no waiter is lost or served twice, they are served in order, and all have been when the queue is idle |
| `IngestQueue.KeyNamesManifest` | services/api/src/connect/record-package-contributor-metadata-service.ts:178-191 | two manifests share a key only if they are equal, names being free of the separator |
| `IngestQueue.KeyIsUniqueIff` | services/api/src/connect/record-package-contributor-metadata-service.ts:178-191 | among all manifests, names with the separator included, one has a key of its own exactly if none of its parts contains the separator |
| `IngestQueue.ContributorIngest.DrainQueue` | services/api/src/connect/record-package-contributor-metadata-service.ts:127-149 | the draining loop starts what the bound allows and then wakes the waiters |
| `IngestQueue.ContributorIngest.EnqueueJob` | services/api/src/connect/record-package-contributor-metadata-service.ts:97-125 | the specified step |
| `IngestQueue.ContributorIngest.JobFinished` | services/api/src/connect/record-package-contributor-metadata-service.ts:140-145 | the specified step |
| `RateLimiter.AdmitsIffRoom` | services/intelligence/app/core/limits.py:22-32 | where the clock readings of a key reach the lock in order, a call is admitted exactly when fewer than max_requests of its key were admitted in the window that ends with it |
| `RateLimiter.RoomDecidesIff` | services/intelligence/app/core/limits.py:22-32 | for readings in any order that holds of all runs exactly when the limit is zero or negative and admits nothing |
| `RateLimiter.RefusedOnEmptyWindow` | services/intelligence/app/core/limits.py:22-32 | for every positive limit: after a full burst, a call with an older reading is refused although no call was admitted in its window |
| `RateLimiter.NeverMoreThanMax` | services/intelligence/app/core/limits.py:22-32 | for a key whose readings reach the lock in order, and every instant, at most max_requests calls were admitted in the window that ends there |
| `RateLimiter.LimitHoldsIff` | services/intelligence/app/core/limits.py:22-32 | the clock is read before the lock: for readings in any order, the bound holds for all runs, keys and instants exactly when the limit is at most one |
| `RateLimiter.OverrunUnbounded` | services/intelligence/app/core/limits.py:22-32 | from a limit of two on, some run admits any given number of calls within one window |
| `RateLimiter.RefusedOnlyWhenFull` | services/intelligence/app/core/limits.py:28-30 | a refusal means exactly max_requests admitted calls in the window, readings of the key in order |
| `RateLimiter.SlidingWindowRateLimiter.AllowRequest` | services/intelligence/app/core/limits.py:22-32 | the popping loop and the append are one step of the specification |
| `SubscriptionHub.HubIsGrouping` | services/api/src/sse/subscription-manager.ts:32-46 | over every run the map is exactly the grouping by tenant of the registered clients, without empty sets, and each of them captured the set still registered |
| `SubscriptionHub.PublishSendsOnce` | services/api/src/sse/subscription-manager.ts:51-78 | a publication sends once to each registered eligible client of the tenant whose stream takes it, in order, and to nobody else |
| `SubscriptionHub.PublishKeepsGrouping` | services/api/src/sse/subscription-manager.ts:51-64 | a publication removes exactly the open, eligible clients whose stream breaks, and keeps the grouping |
| `SubscriptionHub.RepeatHarmlessIff` | services/api/src/sse/subscription-manager.ts:40-45 | a second call of an unsubscribe function is harmless exactly if the set it captured still has members or the tenant has none registered, and then it changes nothing |
| `SubscriptionHub.SecondCallDropsNewerSet` | services/api/src/sse/subscription-manager.ts:40-45 | otherwise it drops the set that replaced the captured one |
| `SubscriptionHub.CleanupUnsubscribesOnce` | services/api/src/features/sse/stream-service.ts:35-42 | the stream's flag keeps that second call from happening |
| `SubscriptionHub.LeavesWithItsStreamIff` | services/api/src/features/sse/stream-service.ts:58-85 | a client leaves with its stream exactly if the stream was still open when it was subscribed |
| `SubscriptionHub.ClosedDuringReplayStays` | services/api/src/features/sse/stream-service.ts:58-85 | a stream closed while it replays missed events stays registered |
| `SubscriptionManagers.SubscriptionManager.SubscribeClient` | services/api/src/sse/subscription-manager.ts:32-38 | registering adds to the tenant's set object, made if there is none, and captures that object |
| `SubscriptionManagers.SubscriptionManager.UnsubscribeClient` | services/api/src/sse/subscription-manager.ts:40-45 | the closure removes from the captured object and drops the tenant when that is empty |
| `SubscriptionManagers.SubscriptionManager.PublishEvent` | services/api/src/sse/subscription-manager.ts:51-64 | the loop over the set object, with cleanups inside it, is the specified publication |
| `SubscriptionManagers.SubscriptionManager.CloseStream` | services/api/src/features/sse/stream-service.ts:35-42 | closing twice is closing once |
| `SubscriptionManagers.SubscriptionManager.ClientCount` | services/api/src/sse/subscription-manager.ts:81-83 | the count is the number of registered clients of the tenant |
| `DerSignature.DecodeDssSignature` | deploy/docker/all-in-one/generate_auth_keys.py:89-108 | the decoder, with its moving offset, truncating slices and errors, computes the specification |
| `DerSignature.DerReadLength` | deploy/docker/all-in-one/generate_auth_keys.py:79-86 | short and long lengths, and an index past the end |
| `DerEncoding.DecodesEncodingsIff` | deploy/docker/all-in-one/generate_auth_keys.py:89-108 | an X.690 encoding, whatever follows it, is decoded; its two values come out exactly if neither is negative |
| `DerEncoding.BeginsWithEncodingIff` | deploy/docker/all-in-one/generate_auth_keys.py:79-108 | input begins with an X.690 encoding exactly if it is accepted, holds all of its second integer, and passes the checks that the decoder leaves out: no indefinite or reserved length octet, the right sequence length, contents that are there and minimal |
| `DerEncoding.AcceptedValuesIff` | deploy/docker/all-in-one/generate_auth_keys.py:103-107 | for any accepted input that holds its contents, the result is what the contents are worth exactly if both begin below 0x80 |
| `DerEncoding.FramingIsRead` | deploy/docker/all-in-one/generate_auth_keys.py:89-108 | there is one way to read it: the parts of a framing are those at the decoder's offsets |
| `DerEncoding.IndefiniteFormAccepted` | deploy/docker/all-in-one/generate_auth_keys.py:82-86 | the indefinite form is read as length zero |
| `DerEncoding.NegativeReadUnsigned` | deploy/docker/all-in-one/generate_auth_keys.py:100 | an encoding of (-1, 1) is decoded as (255, 1) |
| `DerEncoding.WrongSequenceLengthAccepted` | deploy/docker/all-in-one/generate_auth_keys.py:94 | a sequence length that fits nothing is accepted |
| `DerEncoding.EncodeIsEncoding` | deploy/docker/all-in-one/generate_auth_keys.py:89-108 | the reference encoder yields X.690 encodings, which decode to its numbers whatever follows |
| `DerEncoding.LengthIsShortest` | deploy/docker/all-in-one/generate_auth_keys.py:79-86 | and its lengths have the fewest octets of all that X.690 allows for them |
| `DerSignature.DecodesFramings` | deploy/docker/all-in-one/generate_auth_keys.py:89-108 | wherever tags and lengths can be followed, the decoder returns the unsigned values of the contents, whatever follows |
| `DerSignature.AcceptedIsFraming` | deploy/docker/all-in-one/generate_auth_keys.py:89-108 | accepted input that holds all of its second integer begins with such tags, lengths and contents |
| `DerSignature.ContentsAreDer` | deploy/docker/all-in-one/generate_auth_keys.py:100-107 | the reference encoder's contents are non-negative, minimal and worth the number |
| `DerSignature.DerRoundTrip` | deploy/docker/all-in-one/generate_auth_keys.py:89-108 | decoding the DER encoding of two naturals of any length returns them |
| `DerSignature.TruncatedRejectedIff` | deploy/docker/all-in-one/generate_auth_keys.py:103-107 | input that is cut short is rejected exactly if the cut comes before the first length byte of the second integer |
| `DerSignature.TruncatedContents` | deploy/docker/all-in-one/generate_auth_keys.py:107 | cut within its contents, the second number is what its first bytes make |
| `DerSignature.RawSignatureDetermines` | deploy/docker/all-in-one/generate_auth_keys.py:128-129 | the 64 bytes exist exactly for numbers below 2^256, and both numbers can be read back from them |
| `DerSignature.RawFormIsInjective` | deploy/docker/all-in-one/generate_auth_keys.py:128-129 | two signatures share their raw form only if they are equal |

## Left out

- RateLimiter.NeverMoreThanMax: asks for the readings of the one key to reach the lock in order; for readings in any order `RateLimiter.LimitHoldsIff` has the exact condition.
- RateLimiter.AdmitsIffRoom: the same order of one key's readings; for any order, `RateLimiter.RoomDecidesIff`.
- RateLimiter.RefusedOnlyWhenFull: the same; `RateLimiter.RefusedOnEmptyWindow` shows a refusal without it.
- DerSignature.DerRoundTrip: covers the numbers that DER has an encoding for, those whose length fits 126 length bytes.
- SubscriptionHub.HubIsGrouping: each client object is subscribed once, as its one caller does; subscribing one object twice is not covered.
- SubscriptionManagers.SubscriptionManager.PublishEvent: the cleanup inside the loop concerns the client being served; a send that closes some other stream is not modelled.
- Provisioning.CopyPreservesMeaningIff: compares with the templates as a platform project without bindings and policies of its own sees them.
- CheckFlow.AllowMeansOsvAnswered: assumes that no connector's data field is named like the OSV status field.
- IngestQueue.KeyNamesManifest: ecosystem and package names are free of the separator; `IngestQueue.KeyIsUniqueIff` covers all names. What stands in for a missing fingerprint is one string.
- SeedPipeline.DedupeRecords: `math.isclose` is equality.
- Interleaved database transactions: transactions are serialised, and an `ORDER BY` keeps storage order among ties.
- Foreign keys that set references to null, and so leave rows without a policy or rule.
- UUIDs are numbers and instants are integers; a window without an end is `Forever`.
- Unicode case mapping and white space: characters are lower-cased one by one in the ASCII range, and white space is blank, tab, line feed and carriage return.
- Floating point: scores and seconds are reals, rounding to six digits is a function given as a parameter, and there is no NaN.
- JavaScript's loose equality and ordering across types are functions given as parameters.
- Timing, logging, event publication and the other side effects of a check; override state kept for display.
- The inserts into `violation_findings`, and the project findings they copy.
- `provisionCustomerTenantDefaults` and `ensureStarterPolicies`, apart from the OSV starter rule's condition.
- `CheckRequestLimiter.acquire`: a semaphore that is taken and given back.
- `route_after_search`, `build_verdict`, `match_quality` and `recommended_action`: case distinctions over flags.
- `search_neighbors` and the vector index.
- HTTP, RPC, OpenAI, GoTrue and key generation around the modelled functions.
- The Go proxy, the dashboard, role and capability tables, and configuration loading.
