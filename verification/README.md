# BNK Forge: verified models

A Dafny 4.11 project that models seven components of BNK Forge whose correctness rests on reasoning
over graphs, whole runs or exact arithmetic, and proves what they guarantee. Verify it with
`dafny verify dfyconfig.toml`.

| files | component |
|---|---|
| `RevisionGraph.dfy`, `MigrationCheck.dfy`, `StagingUnion.dfy` | the migration-chain checker: local checks on parsed `revision` / `down_revision` pairs, and the overlay with the staging branch |
| `KeyStore.dfy`, `KeyProvenance.dfy`, `KeyInForce.dfy` | the two key files with their `.operator` markers, one boot of the backend, and runs of boots and operator edits |
| `Histogram.dfy` | the p95 of a Prometheus histogram, over reals with a `+Inf` bound |
| `TextLines.dfy`, `PromText.dfy`, `PromGrammar.dfy`, `PromRoundTrip.dfy`, `OperatorMetrics.dfy` | the Prometheus text parser, its grammar, the exposition text it must invert, and the operator's own `/metrics` page |
| `ModuleFreeze.dfy` | the guard that freezes content-hashed module versions |
| `CacheKey.dfy`, `ReadThroughCache.dfy` | cache keys, pattern invalidation, and the freshness of cached results |
| `HealthReporting.dfy`, `ControlPlane.dfy`, `Backoff.dfy` | delta health reports; missed heartbeats, reconnect backoff, recent durations |
| `RunQueue.dfy` | the benchmark agent's run queue as an interleaved step system |
| `Text.dfy` | string operations of the host language used above |

Code that updates state is written as methods and classes proved against specification functions;
the theorems are about those functions and about runs of them. The concurrent agent is a state
machine whose steps are the stretches of code between two suspension points.

## What turned out not to hold unconditionally

Each of these has a lemma with a concrete run or input, and a lemma that says exactly when the
property does hold.

- The chain checker accepts a detached cycle and an empty parent tuple
  (`DetachedCycleIsAccepted`, `EmptyTupleIsAccepted`); without them an accepted directory is one
  history with one head, and only then (`AcceptedIsOneHistoryIff`). Its success message speaks of a
  single linear chain, which is true of an accepted directory exactly when it also has no merge
  revision (`AcceptedIsLinearIff`).
- `get_encryption_key` persists a generated key without looking at the marker. A development boot
  after the key file was removed, or a production boot whose key write fails and then works, leaves
  an app-generated key beside an operator marker (`DevelopmentBootLaundersKey`,
  `UnsteadyVolumeLaundersKey`, exactly in `EncStepIff`; over runs, in `VouchedThroughoutIff`). The
  comments describe one generator and one provenance signal; in the remaining case of
  `JudgedKeyIsUsedIff` two generators run.
- The gate judges a key that need not be the one in use: a production boot that cannot read the
  operator's key file serves on a generated key (`UnreadableKeyIsReplaced`, exactly in
  `AppCipherIff` and `JudgedIsUsedIff`), and data encrypted before cannot be read in that boot
  (`SurvivesIffReadable`).
- The module guard treats a missing old value as NULL: an update that assigns the hash unloaded, or
  writes NULL over an unloaded field, passes (`BlindHashUnfreezes`, `BlindNullErases`, exactly in
  `AcceptedIff`; over runs, in `StaysFrozenIff`).
- A cached call whose result is overtaken by an invalidation writes it back
  (`OverlappedInvalidationServesStale`), one that writes while an invalidation scans may be missed by
  it (`WriteBehindScanServesStale`), and one that takes any time at all is later served older than its
  lifetime (`SlowCallServesOld`). Entries stay sound exactly without such steps
  (`SoundThroughoutIff`), and what they spoil reaches a reader (`SpoiledIsServed`).
- A ':' inside arguments or prefixes makes different calls share a key and patterns reach other
  wrappers (`SeparatorCollides`, `ShorterPrefixSelects`, exactly in `KeysCollideIff` and
  `PatternSelectsIff`).
- A heartbeat loop outlives a connection that failed and counts against the next one, so a healthy
  link can be closed before its first heartbeat (`HealthyLinkIsClosed`, exactly in `ClosesIff`; which
  servers are safe, in `NeverClosesIff`).
- After a failure report, recovery to the health reported before it stays unreported until the
  interval is over (`RecoveryIsNotReported`, exactly in `LastReportIsCurrentIff`).
- A read error, or a cancel still waiting when its run ends, leaves a benchmark process running
  unattended (`ReadErrorLeavesTwoProcesses`, `CancelFailsTheNextRun`, exactly in `TidyThroughoutIff`).
- The operator's `/metrics` page survives its own parser exactly when version and cluster name
  contain no quote, closing brace or line break (`PageSurvivesIff`).

## Assumptions about the environment

- Acyclicity is "no walk of at least one edge returns to its start"; nothing bounds the graphs.
- A key file that cannot be read cannot be written either; a Fernet key is anything an abstract
  validity test accepts, provided the test rejects blank text; the cipher satisfies
  decrypt(k, encrypt(k, v)) = v. Writes may be refused, torn, or cut short by a crash.
- `float` is a parameter of the parser and of the bucket reader, known to accept digits with at most
  one point between them; real arithmetic replaces floats.
- A change history's old value, when present, is the persisted value.
- SCAN reports every key present throughout the iteration. JSON-stable results and distinct keys for
  distinct calls are assumed by `CachedValuesAreFresh` alone.
- `asyncio.Lock` hands over to waiters in order, and tasks first run in creation order.
- Any heartbeat timer that sleeps may fire next; a heartbeat loop whose connection has ended finds
  that out at its next turn.
- A health report counts as handed over when the client call returns; the client itself swallows
  transport errors.

## Model

| member | source | states |
|---|---|---|
| MigrationCheck.CheckChain | scripts/check-migrations.py:53-147 | the report contains exactly the violations; it is empty if and only if ids are distinct, one file has no parent, every named parent is declared, and each revision named more than once is rejoined by a file with several parents, in any order |
| MigrationCheck.IndexMigrations | scripts/check-migrations.py:73-92 | the declared ids, every parent's children in file order with repetitions, and one error for exactly the duplicated ids |
| MigrationCheck.AddLinks | scripts/check-migrations.py:86-92 | each target's child list grows by the revision once per occurrence, all other lists stay |
| MigrationCheck.CheckBases | scripts/check-migrations.py:94-101 | an error exactly when the number of parentless files is not one |
| MigrationCheck.CheckOrphans | scripts/check-migrations.py:103-115 | an error for exactly the pairs of a file and a parent that no file declares |
| MigrationCheck.CheckBranches | scripts/check-migrations.py:117-147 | an error for exactly the revisions that are named more than once and that no file with several parents rejoins |
| MigrationCheck.AcceptedIff | scripts/check-migrations.py:76-147 | the verdict in terms of the files alone: acceptance is equivalent to those four conditions |
| MigrationCheck.BranchReportedIff | scripts/check-migrations.py:129-140 | a branch is reported if and only if a revision is named twice and its children are nowhere rejoined, and the report lists exactly its children |
| MigrationCheck.OrphanReportedIff | scripts/check-migrations.py:103-115 | an orphan is reported for exactly a file and a parent it names that no file declares |
| MigrationCheck.DiamondIsAcceptedIff | scripts/check-migrations.py:129-140 | a base, two files on it and a merge are accepted if and only if the tuple names both, in either order |
| MigrationCheck.AcceptedDiamond | scripts/check-migrations.py:117-147 | the branch rule gives two different children of a revision a common child; without merges it forbids branching |
| MigrationCheck.AcceptedHeadsCoincide | scripts/check-migrations.py:76-147 | any two heads reachable from the base of an accepted directory are one, cycles or not |
| MigrationCheck.AcceptedIsOneHistoryIff | scripts/check-migrations.py:76-147 | an accepted directory has every revision reachable and exactly one head if and only if it has no cycle and no empty tuple |
| MigrationCheck.AcceptedIsLinearIff | scripts/check-migrations.py:347-348 | an accepted directory is one list, each revision naming exactly its predecessor, if and only if it has no merge, no empty tuple and no cycle |
| MigrationCheck.AcceptedIsListPlusCycles | scripts/check-migrations.py:94-147 | without merges and empty tuples, one list runs from the base to a head and all other revisions lie on cycles that meet neither the list nor each other |
| MigrationCheck.AcceptedIsGraded | scripts/check-migrations.py:117-147 | once a head is reachable, all routes between two revisions have the same length |
| MigrationCheck.DetachedCycleIsAccepted | scripts/check-migrations.py:94-115 | a base and two files naming each other are accepted though cyclic and cut off |
| MigrationCheck.EmptyTupleIsAccepted | scripts/check-migrations.py:95-109 | a base and a file with an empty tuple are accepted with two heads |
| RevisionGraph.RandomDescent | scripts/check-migrations.py:117-147 | under the diamond property every walk from a revision that reaches a head extends to that head with the same total length |
| RevisionGraph.SingleHistoryIff | scripts/check-migrations.py:94-147 | the graph form of the one-history equivalence |
| RevisionGraph.LinearChainIff | scripts/check-migrations.py:94-147 | the graph form of the linear-chain equivalence |
| RevisionGraph.OneListPlusCycles | scripts/check-migrations.py:94-147 | a merge-free locally valid graph is one list plus disjoint cycles |
| StagingUnion.CheckStagingCollision | scripts/check-migrations.py:274-322 | the report contains exactly the shared ids whose last declarations differ and, when more than one, the heads of the merged declarations, the branch's winning; an empty staging side reports nothing |
| StagingUnion.CollidesIff | scripts/check-migrations.py:274-312 | the collisions of the two dictionaries are those read off the two lists of files |
| StagingUnion.FindHeads | scripts/check-migrations.py:304-312 | the revisions that no declared revision names as a parent |
| StagingUnion.UnionAcceptedIff | scripts/check-migrations.py:284-320 | two complete histories overlay without error if and only if they agree on shared ids and one contains the other |
| StagingUnion.UnionIsAcyclic | scripts/check-migrations.py:298-303 | overlaying agreeing acyclic orphan-free graphs creates no cycle and no orphan |
| StagingUnion.VerdictIsSymmetric | scripts/check-migrations.py:284-320 | the verdict does not depend on which side overrides the other |
| StagingUnion.DivergedHasTwoHeads | scripts/check-migrations.py:304-320 | two histories each with a revision of its own leave at least two heads |
| StagingUnion.SilentMergeIsOneHistory | scripts/check-migrations.py:325-349 | two accepted complete directories without a collision merge into one of the two graphs, with one base and head and everything reachable |
| KeyStore.KeyPath.WriteKeyFile0600 | backend/core/config.py:65-84 | what a write leaves in the file, complete, refused, torn or cut short, and what it reports |
| KeyStore.KeyPath.PersistOrLoadKey | backend/core/config.py:87-156 | the new slot, key and provenance flag as specified, the marker untouched |
| KeyStore.KeyPath.SeedEncryptionKeyIfAbsent | backend/core/config.py:159-207 | the new slot, key and flag as specified, an existing key left alone |
| KeyStore.KeyPath.GetEncryptionKey | backend/core/encryption.py:34-100 | the cipher key and new slot as specified, exit on an unusable file |
| KeyStore.Settings.Initialise | backend/core/config.py:333-395 | both slots, the settings and the early exits agree with the specification of set-up |
| KeyStore.Settings.ValidateProduction | backend/core/config.py:397-465 | outside staging and production no issue; inside, exactly the failed requirements; it passes if and only if there is none |
| KeyStore.RunBoot | backend/core/config.py:475-479 | a whole boot ends in the slots and outcome of the specification |
| KeyProvenance.JwtStaysVouched | backend/core/config.py:87-156 | over every run, in every environment, a marker beside a non-empty JWT key means operator bytes |
| KeyProvenance.GateNeverPassesAppJwt | backend/core/config.py:407-411 | after any run, a guarded boot that serves signs with an operator's key |
| KeyProvenance.EncStepIff | backend/core/encryption.py:84-91 | a boot keeps the encryption key's provenance if and only if it does not persist a generated key beside a marker |
| KeyProvenance.GuardedSteadyBootIsSafe | backend/core/config.py:397-416 | a staging or production boot on a volume that stays writable or not is never that hazard |
| KeyProvenance.VouchedThroughoutIff | backend/core/encryption.py:84-91 | over every run of boots and operator edits, a marker beside a non-empty encryption key means operator bytes all along if and only if no boot is a hazard |
| KeyProvenance.EncStaysVouched | backend/core/config.py:159-207 | provenance of the encryption key over every run without hazards |
| KeyProvenance.GateNeverPassesAppEncryptionKey | backend/core/config.py:413-416 | over runs of guarded boots on a steady volume, the gate passes only on an operator's encryption key |
| KeyProvenance.AppCipherIff | backend/core/config.py:199-207 | a guarded serving boot encrypts with an app key if and only if the key file cannot be read, or is blank and the provided key could not be put into it |
| KeyProvenance.AppCipherAfterRunIff | backend/core/encryption.py:49-100 | after any run of guarded boots on a steady volume, a guarded serving boot encrypts with an operator's key if and only if the file could be read and held or received one |
| KeyProvenance.UnreadableKeyIsReplaced | backend/core/encryption.py:53-57 | a production boot that cannot read the operator's key file passes the gate and serves on a generated key, leaving the file alone |
| KeyProvenance.SeededKeyTakesHold | backend/core/config.py:363-371 | a seeded key is the cipher key of that boot and of a later guarded boot without the variable |
| KeyProvenance.DevelopmentBootLaundersKey | backend/core/encryption.py:83-91 | a development boot beside a stale marker lets production serve on an app key |
| KeyProvenance.UnsteadyVolumeLaundersKey | backend/core/encryption.py:83-91 | a production boot whose first write fails and second works does the same |
| KeyProvenance.BootKeepsExistingKey | backend/core/config.py:163-170 | no boot changes a non-empty encryption key file |
| KeyProvenance.RunKeepsExistingKey | backend/core/encryption.py:45-49 | no run without operator edits does |
| KeyProvenance.KeyIsHeldIff | backend/core/encryption.py:83-100 | after a serving boot the file holds the cipher's key if and only if a readable key was there before the cipher was set up or the last write landed whole, a repeated generated key aside |
| KeyProvenance.PersistedValuesSurvive | backend/core/encryption.py:108-132 | a value encrypted under a held key decrypts to itself in every later serving boot that can read the file |
| KeyProvenance.SurvivesIffReadable | backend/core/encryption.py:49-57 | when foreign keys are rejected, a later serving boot recovers the value if and only if it can read the file |
| KeyProvenance.JudgedIsUsedIff | backend/core/config.py:353-395 | whatever the writes do, the judged key is the cipher's key if and only if the file can be read and held a key or received the judged one whole |
| KeyProvenance.JudgedKeyIsUsedIff | backend/core/config.py:353-363 | with working writes the judged key is the cipher's key if and only if the boot is not one with stale marker, blank file and unset variable, which only an unguarded boot survives |
| KeyInForce.ProvidedJwtIsUsed | backend/core/config.py:342-352 | a provided JWT key is in force as it is and its file is left alone |
| KeyInForce.StoredJwtIsLoaded | backend/core/config.py:121-131 | without a variable the stored JWT key is loaded and never replaced, and counts as provided if and only if a marker file stands beside it |
| KeyInForce.GeneratedJwtIsSaved | backend/core/config.py:133-156 | without either, a generated key that never counts as provided is in force; a working write saves it, except beside a marker |
| KeyInForce.JwtSurvivesIff | backend/core/config.py:338-347 | a later serving boot signs with the key an earlier one left in the file if and only if it can read the file, over any run without edits of it |
| KeyInForce.JwtIsLeftInFile | backend/core/config.py:121-156 | a serving boot leaves its JWT key in the file if it came from there or a working write saved it |
| KeyInForce.StoredEncryptionKeyWins | backend/core/config.py:178-198 | a stored encryption key is judged and used whatever the variable says, and counts as provided if and only if a marker file stands beside it |
| KeyInForce.ProvidedEncryptionKeySeeds | backend/core/config.py:199-207 | without a stored key a valid variable is judged as provided; working writes store it with a marker and it encrypts |
| KeyInForce.GeneratedEncryptionKeyIsAuto | backend/core/config.py:364-370 | without either, the judged key is generated and never counts as provided |
| KeyInForce.ServesIff | backend/core/config.py:397-465 | without torn or fatal writes a boot serves if and only if the variable and the stored key are usable and, in staging and production, both keys are provided, the password is no known default, and no origin is a wildcard or, in production, local |
| KeyInForce.OriginsAreEntries | backend/core/config.py:224-226 | the gate sees every entry of the origin list without surrounding white space |
| Histogram.HistogramP95 | bnk-operator/vllm_metrics.py:59-98 | None exactly without observations; on well-formed buckets the least point where the cumulative curve reaches 0.95 of the last count, else the last finite bound, else +Inf; in general the interpolated answer of the first sorted bucket that reaches the target |
| Histogram.Scan | bnk-operator/vllm_metrics.py:87-98 | for a positive total the loop always returns from inside, at the first bucket with 0.95 of the last count, never dividing by zero |
| Histogram.CollectBuckets | bnk-operator/vllm_metrics.py:68-80 | the buckets of the named series with a readable bound, in order |
| Histogram.BucketsAre | bnk-operator/vllm_metrics.py:69-80 | a bucket is collected if and only if a sample of that series has its count and its bound, `+Inf` or a readable float |
| Histogram.CurveAtBounds | bnk-operator/vllm_metrics.py:62-65 | the curve shows each count at its bound, rises straight from zero and stays level after the last bound |
| Histogram.CurveBetweenBounds | bnk-operator/vllm_metrics.py:94-95 | between two bounds it is the straight line through their counts |
| Histogram.SortIsStable | bnk-operator/vllm_metrics.py:83 | the sort orders by bound, keeps all buckets and the order of equal bounds |
| Histogram.SomeBucketReaches | bnk-operator/vllm_metrics.py:84-98 | on any buckets with positive total one reaches the target with a count above the previous, so the equality test and the fallback never decide |
| Histogram.AnswerIsQuantile | bnk-operator/vllm_metrics.py:87-95 | on well-formed buckets the answer is the smallest point where the piecewise-linear cumulative curve reaches 0.95 of the last count, else the largest finite bound, else +Inf |
| Histogram.QuantileIsUnique | bnk-operator/vllm_metrics.py:62-65 | that description determines the answer |
| Histogram.P95RespectsOrder | bnk-operator/vllm_metrics.py:83-98 | with equal bounds and totals, pointwise smaller counts never give a smaller p95 |
| Histogram.P95IgnoresScale | bnk-operator/vllm_metrics.py:83-98 | multiplying all counts by a positive factor leaves the answer unchanged |
| PromText.ParsePrometheusText | bnk-operator/vllm_metrics.py:29-48 | the samples of the text as specified line by line |
| PromText.ReadSample | bnk-operator/vllm_metrics.py:32-47 | one line's sample, or none for blanks, comments, mismatches and values float rejects |
| PromText.ReadLabels | bnk-operator/vllm_metrics.py:39-42 | the dictionary of all label matches, later ones winning |
| PromGrammar.SampleMatchIff | bnk-operator/vllm_metrics.py:21-25 | the sample expression accepts a line with these fields if and only if it is a name, optional braced labels, white space and a value of the stated characters |
| PromGrammar.LineIsReadIff | bnk-operator/vllm_metrics.py:32-47 | a raw line contributes a sample if and only if, stripped, it has that form and `float` accepts its value |
| PromGrammar.LabelsAreFound | bnk-operator/vllm_metrics.py:26 | the label search takes a pair where one starts and otherwise moves on by one character |
| PromGrammar.LastPairWins | bnk-operator/vllm_metrics.py:39-42 | the dictionary holds for each key the value of its last pair |
| PromGrammar.ScientificIsRead | bnk-operator/vllm_metrics.py:24 | numbers with sign, fraction and exponent are read as they stand |
| PromGrammar.WholeOrSpecialIsRead | bnk-operator/vllm_metrics.py:24 | so are whole numbers, NaN and the infinities |
| PromGrammar.BreaksAre | bnk-operator/vllm_metrics.py:32 | the ten characters that end a line |
| PromGrammar.BreakEndsLine | bnk-operator/vllm_metrics.py:32 | each of them, and a carriage return with line feed, separates one line's contribution from the rest |
| TextLines.GatherTextIsGather | bnk-operator/vllm_metrics.py:32 | splitting into lines first and consuming the text line by line agree |
| PromRoundTrip.ParseDistributes | bnk-operator/vllm_metrics.py:29-48 | any two texts joined by a line feed parse to the concatenation of their parses |
| PromRoundTrip.CommentsAreIgnored | bnk-operator/vllm_metrics.py:33-35 | comments and blank lines contribute nothing wherever they stand |
| PromRoundTrip.LineRoundTrip | bnk-operator/vllm_metrics.py:21-26 | a rendered well-formed sample is read back exactly |
| PromRoundTrip.TextRoundTrip | bnk-operator/vllm_metrics.py:29-48 | rendered well-formed samples parse to exactly the original list in order |
| PromRoundTrip.ParsedLabelsArePlain | bnk-operator/vllm_metrics.py:21-26 | no parsed label value of any text contains a quote, closing brace or line break |
| OperatorMetrics.PageRoundTrip | bnk-operator/health_server.py:71-117 | a page of good metric families parses to exactly its samples |
| OperatorMetrics.PageSurvivesIff | bnk-operator/health_server.py:71-118 | the operator's page parses back to all its samples if and only if version and cluster name are free of quotes, closing braces and line breaks |
| OperatorMetrics.PageShows | bnk-operator/health_server.py:71-117 | the ten samples of the page, in order, and which field each carries |
| OperatorMetrics.DigitsDenote | bnk-operator/health_server.py:83-110 | a printed count denotes the count |
| OperatorMetrics.DecimalsDenote | bnk-operator/health_server.py:94-97 | a printed duration denotes its milliseconds |
| ModuleFreeze.ModuleVersion.EnforceStructuralImmutability | backend/models/module.py:157-204 | the violations are exactly the reported structural fields; none for a row seen without a hash |
| ModuleFreeze.ModuleVersion.CheckField | backend/models/module.py:175-199 | whether one field is reported |
| ModuleFreeze.ModuleVersion.Flush | backend/models/module.py:156-204 | the row changes to the applied update if accepted, else not at all |
| ModuleFreeze.AcceptedIff | backend/models/module.py:165-204 | a hashed row's update passes if and only if it hides the old hash or every real structural change is a NULL over a missing old value |
| ModuleFreeze.LegacyRowAcceptsAll | backend/models/module.py:160-164 | a row without a hash accepts every update |
| ModuleFreeze.AcceptedUpdateIsApplied | backend/models/module.py:156-204 | an accepted update leaves assigned values where it assigned and the old ones elsewhere |
| ModuleFreeze.AssignmentIsRefusedIff | backend/models/module.py:175-204 | assigning another value to a column of a hashed row is refused if and only if the column is structural |
| ModuleFreeze.StructuralColumnsAreFrozen | backend/models/module.py:120-153 | the structural columns by name |
| ModuleFreeze.LifecycleColumnsStayOpen | backend/models/module.py:117-119 | lifecycle, health and annotation columns are not structural |
| ModuleFreeze.CarefulStepKeepsStructure | backend/models/module.py:171-204 | a careful update of a hashed row never thaws it and is accepted exactly when it changes no structural value |
| ModuleFreeze.KeepsStructureIff | backend/models/module.py:165-204 | an update of a hashed row leaves the structural fields as they were if and only if it does not thaw the row |
| ModuleFreeze.StaysFrozenIff | backend/models/module.py:117-119 | over every run from a hashed row, all structural fields and the hash stay as they were after each update if and only if none thaws the row |
| ModuleFreeze.FrozenForever | backend/models/module.py:117-119 | once hashed, every run without a thaw leaves all structural fields and the hash as they were |
| ModuleFreeze.CarefulRunsThawNothing | backend/models/module.py:171-204 | runs of careful updates thaw nothing |
| ModuleFreeze.FrozenAtFirstHash | backend/models/module.py:81-85 | over a run without a thaw, structure changes only up to the first update that leaves a hash |
| ModuleFreeze.BlindHashUnfreezes | backend/models/module.py:167-172 | assigning the hash unloaded lets a rename through |
| ModuleFreeze.BlindNullErases | backend/models/module.py:184-187 | writing NULL over an unloaded field erases it |
| CacheKey.KeyIgnoresKeywordOrder | backend/core/cache.py:156-159 | the same keywords in any order give the same key |
| CacheKey.KeyShows | backend/core/cache.py:143-161 | what a key looks like: simple arguments in order, other objects and sessions left out, keywords by name, or the custom suffix |
| CacheKey.LessIff | backend/core/cache.py:159 | keywords are sorted by the first character in which their names differ |
| CacheKey.KeysCollideIff | backend/core/cache.py:143-161 | any two calls of any two wrappers share a key if and only if their prefix, function name and printed arguments, or custom suffix, cut at every ':', are the same pieces |
| CacheKey.ArgumentsCollideIff | backend/core/cache.py:151-159 | two calls of one wrapper share a key if and only if their printed arguments are the same pieces |
| CacheKey.OneArgumentCollidesIff | backend/core/cache.py:151-154 | calls with one simple argument share a key only if its text is the same, separators or not |
| CacheKey.CleanCallsCollideIff | backend/core/cache.py:149-161 | without separators in the arguments, calls share a key if and only if positional texts and keywords agree one by one |
| CacheKey.SeparatorCollides | backend/core/cache.py:151-154 | one argument with a separator and the two arguments around it share a key |
| CacheKey.PatternSelectsIff | backend/core/cache.py:149-161 | `prefix:*` selects a key if and only if the pieces of the prefix properly begin the pieces of the key |
| CacheKey.PatternSelectsWrapperIff | backend/core/cache.py:223-234 | every key of a wrapper is selected if and only if the pieces of the pattern's prefix begin those of the wrapper's |
| CacheKey.CleanPatternSelectsIff | backend/core/cache.py:223-234 | among prefixes without ':' a wrapper's key is selected if and only if the prefix is the wrapper's |
| CacheKey.ShorterPrefixSelects | backend/core/cache.py:149 | a wrapper whose prefix continues another one after ':' is selected by the other's pattern |
| CacheKey.InvalidationRemovesExactly | backend/core/cache.py:97-107 | a completed pattern deletion removes a call's entry if and only if the pieces of the prefix begin its key; without ':' in prefixes, if and only if the wrapper has that prefix |
| ReadThroughCache.CacheService.Get | backend/core/cache.py:36-51 | the unexpired value, else nothing |
| ReadThroughCache.CacheService.Set | backend/core/cache.py:53-67 | the entry written with its expiry, and whether success is reported |
| ReadThroughCache.CacheService.DeletePattern | backend/core/cache.py:84-110 | what is removed and counted over the rounds of the scan, also when one raises |
| ReadThroughCache.SweepRemovesReported | backend/core/cache.py:97-107 | the scan loop removes the reported keys and counts each existing one once |
| ReadThroughCache.CompletesIff | backend/core/cache.py:101-110 | a deletion reports a count if and only if some round ends the scan before any exception |
| ReadThroughCache.CompleteScanRemovesPattern | backend/core/cache.py:97-107 | with a complete scan exactly the matching entries go, and the count is theirs |
| ReadThroughCache.CachedCall | backend/core/cache.py:199-211 | a hit returns the stored value and writes nothing; a miss returns the computed value and stores it |
| ReadThroughCache.CallIsBeginThenFinish | backend/core/cache.py:199-211 | an uninterrupted call in a run is one execution of the wrapper |
| ReadThroughCache.StoredIsServedIff | backend/core/cache.py:36-67 | a written result is served to every later call with the same key, by a successful read, if and only if less than ttl has passed, while nobody writes, deletes or loses the key |
| ReadThroughCache.SoundStepIff | backend/core/cache.py:101-106 | a step keeps every entry within ttl of its computation and newer than every matching invalidation if and only if it neither writes an overtaken or late result nor completes a scan that overlooked an entry computed before it |
| ReadThroughCache.SoundThroughoutIff | backend/core/cache.py:186-197 | the same equivalence over every run of calls, failures, expiries and invalidations |
| ReadThroughCache.SoundIffServesFresh | backend/core/cache.py:45-48 | a live entry is sound if and only if every later reader it serves gets a value computed less than ttl ago and after the last matching invalidation |
| ReadThroughCache.SpoiledIsServed | backend/core/cache.py:194-197 | as long as an entry so spoiled is alive, some later reader is served an outdated value; a spoiling write with a positive lifetime leaves a live one |
| ReadThroughCache.UndisturbedScanRemovesAll | backend/core/cache.py:97-107 | a scan with no write in between removes every matching entry |
| ReadThroughCache.ServedValuesAreFresh | backend/core/cache.py:184-211 | after any run in which no step spoils an entry, a caller served from the cache receives the serialised result of a call with the same key, less than ttl old and not from before the last completed matching invalidation began; one that missed receives what the function computed |
| ReadThroughCache.CachedValuesAreFresh | backend/core/cache.py:184-211 | with JSON-stable results and distinct keys, what the function returned for this very call |
| ReadThroughCache.OverlappedInvalidationServesStale | backend/core/cache.py:186-197 | a call overtaken by an invalidation makes the next caller receive an outdated value |
| ReadThroughCache.WriteBehindScanServesStale | backend/core/cache.py:101-106 | so does a call that writes while the scan of an invalidation is running |
| ReadThroughCache.SlowCallServesOld | backend/core/cache.py:63 | the lifetime counts from the write, so a call that took any time is later served older than ttl |
| HealthReporting.HealthWatcher.CheckAndReport | bnk-operator/health_watcher.py:89-136 | the watcher's fields and the reports handed over follow the specified step |
| HealthReporting.ReportsExactlyNews | bnk-operator/health_watcher.py:89-136 | after any run a completed check appends exactly its own report if it failed, is the first success, has another body than the last successful report or finds that one old, and nothing otherwise |
| HealthReporting.ChangedHealthIsReported | bnk-operator/health_watcher.py:108-136 | after a completed successful check the last successful report has the body of the check |
| HealthReporting.LastSuccessIsCurrent | bnk-operator/health_watcher.py:89-120 | after a completed successful check the last successful report equals current health up to its timestamp and is younger than the interval |
| HealthReporting.LastReportIsCurrentIff | bnk-operator/health_watcher.py:89-136 | after a completed successful check the last report of any kind equals current health if and only if the previous report was a success or this check was forced or saw a change |
| HealthReporting.RecoveryIsNotReported | bnk-operator/health_watcher.py:108-116 | healthy, failed and healthy again within the interval leaves the failure as the last report |
| HealthReporting.QuickReportsDiffer | bnk-operator/health_watcher.py:108-116 | successive successful reports closer than the interval differ |
| HealthReporting.FailureRepeats | bnk-operator/health_watcher.py:102-106 | an unchanged failure is reported again at once |
| ControlPlane.ControlPlaneClient.OnConnected | bnk-operator/control_plane_client.py:203-207 | both counters restart on connect |
| ControlPlane.ControlPlaneClient.OnPong | bnk-operator/control_plane_client.py:265-268 | an answer resets the missed counter |
| ControlPlane.ControlPlaneClient.HeartbeatTurn | bnk-operator/control_plane_client.py:284-316 | one turn of a heartbeat loop, the connection's own or one left over, counts and sends, or closes its connection at the threshold |
| ControlPlane.ControlPlaneClient.OnFailure | bnk-operator/control_plane_client.py:152-158 | a failure counts one reconnect, leaves a sleeping heartbeat loop behind and waits within the jittered bounds of the exponent before it |
| ControlPlane.ControlPlaneClient.BackoffWithJitter | bnk-operator/control_plane_client.py:417-424 | the delay is the capped power of two spread by the draw between 0.7 and 1.3 times it, never below one second |
| Backoff.DelayFollowsDraw | bnk-operator/control_plane_client.py:421-422 | a smaller draw never waits longer, and from the second failure on it waits less |
| ControlPlane.ControlPlaneClient.RecordDuration | bnk-operator/control_plane_client.py:357-360 | the window is the last hundred of all durations |
| ControlPlane.RecentIsSuffix | bnk-operator/control_plane_client.py:357-360 | the window is a suffix of all durations, a hundred of them once there are that many |
| Backoff.BaseDelayIsCapped | bnk-operator/control_plane_client.py:37-39 | the base delay doubles up to the sixth failure and is sixty seconds from then on |
| ControlPlane.MissedCountsTicks | bnk-operator/control_plane_client.py:278-299 | over every run the counter is the number of ticks, own and left over, since the last answer or connect, stopping at three; the exponent counts failures since the last connect |
| ControlPlane.ClosesIff | bnk-operator/control_plane_client.py:290-297 | the client closes if and only if an own tick finds three ticks, own or left over, since the last answer or connect |
| ControlPlane.ClosesAtFourthTick | bnk-operator/control_plane_client.py:290-297 | when no left-over loop wakes, that is exactly the fourth tick |
| ControlPlane.NeverClosesIff | bnk-operator/control_plane_client.py:234-237 | a server answering at least once in any m heartbeats of its connection is never closed, in any order of timers, if and only if the loops left over at the connect and m together are at most three |
| ControlPlane.LoopsPileUp | bnk-operator/control_plane_client.py:203-237 | any number of loops can be left over when a connection begins |
| ControlPlane.HealthyLinkIsClosed | bnk-operator/control_plane_client.py:290-297 | after three quick reconnects the first own tick closes a link on which no heartbeat was sent |
| ControlPlane.SilenceIsDetected | bnk-operator/control_plane_client.py:290-297 | a silent server on an open link is closed within four own ticks |
| RunQueue.OneAtATimeInOrder | scripts/forge_agent.py:327-334 | in every interleaving at most one run body is active and bodies start in order of arrival |
| RunQueue.NeverStuck | scripts/forge_agent.py:331-334 | no wake-up is lost: until all received runs have finished the queue can make progress |
| RunQueue.OneTerminalMessage | scripts/forge_agent.py:435-455 | every finished body attempted a terminal message, and at most one per run is delivered, never completed and failed |
| RunQueue.MessagesTellTheTruth | scripts/forge_agent.py:434-455 | run_completed is delivered if and only if the result was sent, and then the command was prepared, the process spawned, its output drained and its exit good; run_failed if and only if a failure was sent, and then something went wrong before |
| RunQueue.GoodExitComesFirst | scripts/forge_agent.py:418-442 | a result is sent only after a good exit |
| RunQueue.GoodRunIsCompleted | scripts/forge_agent.py:434-442 | a finished run with a good exit whose result could be sent is reported completed and not failed |
| RunQueue.PlainRunIsReported | scripts/forge_agent.py:435-455 | without cancels and read errors a run is reported failed only after its own preparation, spawn, exit or result message failed, and completed if it finished without |
| RunQueue.EveryCommandArrives | scripts/forge_agent.py:300-303 | every received command becomes exactly one task |
| RunQueue.TidyStepIff | scripts/forge_agent.py:445-447 | a step keeps running processes to the body that follows them if and only if it does not orphan one |
| RunQueue.TidyThroughoutIff | scripts/forge_agent.py:445-447 | over every run, cancels and errors included, processes stay with the bodies that follow them if and only if no step orphans one |
| RunQueue.OneProcessUnlessOrphaned | scripts/forge_agent.py:383-418 | in every run that orphans nothing at most one benchmark process runs, the active run's |
| RunQueue.OneProcess | scripts/forge_agent.py:383-418 | runs without cancels and read errors orphan nothing |
| RunQueue.ReadErrorLeavesTwoProcesses | scripts/forge_agent.py:445-447 | a read error leads to two running processes |
| RunQueue.CancelFailsTheNextRun | scripts/forge_agent.py:661-683 | a cancel that outlives its run makes the next run fail with its process still running |

## Left out

- CheckChain: does not model the filename and sequence checks (5 and 6), which concern names only, nor parsing, directories and git; it starts from parsed string ids.
- WriteKeyFile0600: does not model file modes, parent directories or a directory at the key path.
- GetEncryptionKey: strips white space like the settings do; the code strips ASCII white space from bytes.
- BuildKey: takes the suffix of an explicit key function as given, and each argument by its kind and printed text.
- DeletePattern: covers patterns made of a prefix without glob characters and a star; services also pass literal patterns, which select one key.
- HeartbeatTurn: does not model shutdown, and treats a turn's check, count and send as one step.
- CheckAndReport: takes a health result by its canonical JSON without the timestamp; equality of reports is equality of that JSON.
- Histogram.HistogramP95: does not model NaN, negative infinity or floating-point rounding.
- RunQueue: is a state machine on values, not a class, because its methods suspend in the middle; trace download, command construction and result lookup are one success or failure.
- Password-wrapped key export, `decrypt_value_or_none` and the real ciphers.
- The rest of the vLLM row builder, the other `CacheService` commands, the polling client, heartbeat of the benchmark agent, registration and token refresh.
- ORM mechanics that produce change histories, and other listeners.
- Message contents, HTTP, WebSocket, TLS and Kubernetes calls: only success, failure and the state they leave.
