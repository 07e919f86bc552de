# Verified core of the StellarSplit SDK

The project models the self-contained algorithms and state machines of the SDK in Dafny and proves
what each of them promises. The text codec, the caches, the lazy loader, the circuit breaker, the
streaming exporter and the workflows are modelled as they are written: classes whose methods
update fields, loops with invariants, records changed in place. Beside each such class stands a
pure step function; every method is proved to do exactly that step, and the whole-run theorems are
proved about sequences of steps.

| file | what it models |
|---|---|
| `Basics.dfy` | the option type, minimum and maximum |
| `JsText.dfy` | UTF-16 text, decimal numerals, `split` and `join` |
| `OrderedMap.dfy` | a JavaScript `Map`: distinct keys in insertion order |
| `CacheCompressor.dfy` | the text codec: ten token substitutions and run-length encoding |
| `SimpleCache.dfy` | the cache with lifetimes and least-recently-used eviction |
| `NonceWindow.dfy` | both nonce deduplicators, the one of the cache and the one of the broadcaster |
| `AbiStorage.dfy` | the in-memory ABI storage with byte accounting |
| `LazyModules.dfy` | the asynchronous lazy module loader, as a protocol of atomic steps |
| `FloorDivision.dfy`, `AmmCalculator.dfy` | pool arithmetic, decimal printing and parsing, routing |
| `CircuitBreaker.dfy` | the timed circuit breaker under arbitrary interleavings |
| `CsvPrinter.dfy`, `StreamExport.dfy` | the CSV printer and the chunked export with retries and checkpoints |
| `InvoiceWalks.dfy` | forward and clone chains, cursor paging |
| `MergeByKey.dfy`, `PaymentBatches.dfy`, `BatchPipeline.dfy` | payment merging, batching, and the deduplicate–prioritize–execute pipeline |
| `ApprovalSession.dfy`, `WithdrawalWorkflow.dfy` | the two approval workflows |
| `BreadcrumbRing.dfy` | the breadcrumb ring buffer |

Conventions: every operation that reads the clock takes the time as a parameter, read once per
call; results about time assume that it does not go back. Amounts declared as `number` are reals,
weights, counts and times are integers. Promises, consumers, loaders, executors and fetches are
arbitrary functions or events. `dafny verify dfyconfig.toml` checks everything.

Where the code does something its comments or names do not suggest, the code is modelled:

- A swap floors the new reserve, so the output is rounded up, and swapping back never loses
  (`AmmCalculator.OutputMeans`, `AmmCalculator.SwapBackNeverLoses`); the quotient that
  src/ammCalculator.ts:97 gives first would round it down.
- `recordFailure` while the circuit is open still updates the count and the time, `recordSuccess`
  while open forgets the time of the last failure, and a half-open circuit admits every caller.
- An approval session that completed and was then rejected can still be executed
  (`ApprovalSession.RejectedCanExecute`; `ApprovalSession.ExecutesExactly` says exactly when).
- A `set` that overwrites an entry its own eviction loop picks takes that entry's bytes off the
  total twice (`AbiStorage.SelfEvictionHappens` is such a run, `AbiStorage.SetDeficit` says exactly
  when, `AbiStorage.RunAccounts` by how much).
- A CSV table of one column whose last cell is empty ends in a line break, which RFC 4180 lets a
  reader take for the end of the record before (`CsvPrinter.CsvRoundTrip`).

## Model

| member | source | states |
|---|---|---|
| `CacheCompressor.RoundTripExactly` | src/cache.ts:66-144 | for every text, decompressing the compressed text gives it back if and only if it contains none of U+0001–U+000A, no four consecutive equal decimal digits and no run of U+000B shorter than four |
| `CacheCompressor.CompressedLength` | src/cache.ts:66-100 | compression adds at most one code unit to any text |
| `CacheCompressor.Compress` | src/cache.ts:66-100 | the loop form: ten split/join substitutions and the run loop produce exactly the specified encoding |
| `CacheCompressor.Decompress` | src/cache.ts:102-144 | the loop form of decoding, header check included, computes the specified decoding on every input, also on texts no compression produced |
| `CacheCompressor.EncodeRunsLoop` | src/cache.ts:85-97 | the index loop over runs yields the run-length encoding of its input |
| `CacheCompressor.ExpandRunsLoop` | src/cache.ts:106-123 | the index loop over markers, with an unfinished marker at the end, yields the specified expansion |
| `CacheCompressor.SubstituteIsTokens` | src/cache.ts:67-83 | on texts without codes, the sequential substitutions are one pass from left to right |
| `CacheCompressor.SubstituteUndone` | src/cache.ts:67-83 | after the k-th sequential substitution, understanding the codes 1..k gives back the original text |
| `CacheCompressor.UnsubstituteIsGlyphs` | src/cache.ts:125-141 | the ten sequential decoding replacements are one unit-by-unit translation |
| `CacheCompressor.JoinOfSplit` | src/cache.ts:80-83 | `split(needle).join(glue)` is leftmost non-overlapping replacement |
| `CacheCompressor.ExpandUndoesEncode` | src/cache.ts:85-123 | run expansion inverts run encoding on texts without a long digit run or a short run of U+000B |
| `CacheCompressor.ExpandCost` | src/cache.ts:106-123 | whatever is expanded and decoded, storing the result again costs at most the length of the input: no input yields a text for less |
| `CacheCompressor.EncodeWithinCost` | src/cache.ts:85-97 | the run encoding of a text is no longer than that cost |
| `CacheCompressor.SurvivesOnlyRegular` | src/cache.ts:66-144 | a text that survives has no long digit run and no short run of U+000B |
| `CacheCompressor.HasDigitRunMeaning` | src/cache.ts:91-92 | the recursive test used above means: some four consecutive positions hold the same digit |
| `CacheCompressor.HasLoneMarkMeaning` | src/cache.ts:91-95 | and this one: some maximal run of U+000B has length one to three |
| `CacheCompressor.CountRun` | src/cache.ts:88-90 | the inner loop finds the full length of the run of equal units at a position |
| `CacheCompressor.TokensKeepDigitRuns` | src/cache.ts:80-83 | substitution neither makes nor breaks a long digit run |
| `CacheCompressor.TokensKeepMarks` | src/cache.ts:80-83 | nor a short run of U+000B |
| `CacheCompressor.TokenTexts` | src/cache.ts:67-78 | the ten dictionary texts and their codes |
| `CacheCompressor.HeaderTells` | src/cache.ts:99-105 | what does not start with the header is given back as it is; compressed text always starts with it |
| `JsText.ValueOfNumeral` | src/cache.ts:92-118 | reading back the printed decimal count gives the count |
| `SimpleCache.GetAnswersLastSet` | src/cache.ts:287-372 | over every run, a get answers exactly the last value set under the key, not since removed and not past its lifetime, unless at least maxEntries distinct other keys were hit or freshly inserted since its own last hit or fresh insertion; the size never exceeds maxEntries |
| `SimpleCache.RunTracks` | src/cache.ts:287-372 | the invariant behind it: the store agrees with a plain map that never evicts, in order of last use |
| `SimpleCache.OldestPushedOut` | src/cache.ts:312-329 | the key chosen for eviction has seen maxEntries distinct other keys used since its own last use |
| `SimpleCache.CountersAccount` | src/cache.ts:287-310 | hits and misses add up to the number of gets while enabled, and hits are exactly the answered ones |
| `SimpleCache.NamedByMethod` | src/cache.ts:312-315 | for a colon-free name, invalidation by that name hits exactly the keys whose lifetime the name decides |
| `SimpleCache.RunFromIsRun` | src/cache.ts:403-408 | replacing everything is one more stretch of the run, so the run results cover it |
| `SimpleCache.Cache.Get` | src/cache.ts:287-310 | new state and answer of a get: miss, expiry, or hit moved to the end |
| `SimpleCache.Cache.Set` | src/cache.ts:312-329 | new state of a set: disabled, no lifetime, eviction of the oldest, overwrite in place |
| `SimpleCache.Cache.Invalidate` | src/cache.ts:331-363 | new state of an invalidation by nothing, by key, or by method prefix |
| `SimpleCache.Cache.InvalidatePrefix` | src/cache.ts:354-361 | the loop deletes exactly the keys under the prefix |
| `SimpleCache.Cache.InvalidateExact` | src/cache.ts:341-347 | deleting one key and nothing else |
| `SimpleCache.Cache.Clear` | src/cache.ts:369-372 | nothing is left, counters stay |
| `SimpleCache.Cache.GetStats` | src/cache.ts:374-392 | the expiry sweep and the keys and size it reports |
| `SimpleCache.Cache.ReplaceAll` | src/cache.ts:403-408 | the state after a clear followed by each set in turn |
| `SimpleCache.Cache.constructor` | src/cache.ts:287-290 | a new cache is the empty run |
| `SimpleCache.Cache.SweepExpired` | src/cache.ts:374-392 | deleting in the loop removes exactly the expired entries |
| `SimpleCache.AnswersUntilExpiry` | src/cache.ts:287-329 | a get after a set of a value answers it until the set time plus the lifetime of the method that names the key, the default lifetime when the method has none, and never without a positive one, unless the key was pushed out |
| `SimpleCache.AnswersOnlyLastSet` | src/cache.ts:287-329 | whatever is answered was the last change of its key, made while enabled and with a positive lifetime |
| `SimpleCache.PlainHoldsLastSet` | src/cache.ts:312-329 | the plain map that never evicts holds exactly what was set last, with its time plus its lifetime |
| `SimpleCache.MethodOfNamed` | src/cache.ts:314 | the method of a key is the one colon-free name it equals or that is followed by a colon in it |
| `SimpleCache.StatsAreLive` | src/cache.ts:374-392 | asking for the statistics leaves exactly the entries that have not expired |
| `NonceWindow.RefusedExactly` | src/cache.ts:663-684 | over every run, a nonce is refused if and only if an accepted call carried it, is younger than the lifetime (as old is still refused here, but no longer in the broadcaster) and has fewer than maxEntries accepted calls after it |
| `NonceWindow.AcceptedAgain` | src/broadcaster.ts:105-113 | a nonce is accepted twice only after expiry or after maxEntries distinct other nonces were accepted |
| `NonceWindow.SortedAndBounded` | src/broadcaster.ts:160-175 | tracked nonces stay sorted by time and at most maxEntries in number |
| `NonceWindow.RunTracks` | src/cache.ts:663-718 | the tracked nonces are always a suffix of the log of accepted calls, and all before it expired or were crowded out |
| `NonceWindow.NonceDeduplicator.CheckNonce` | src/cache.ts:663-684 | outcome and new window of a check |
| `NonceWindow.NonceDeduplicator.PurgeExpired` | src/cache.ts:713-718 | deleting in the loop removes exactly the expired nonces |
| `NonceWindow.Broadcaster.Broadcast` | src/broadcaster.ts:105-130 | whether a broadcast is delivered, and the new window |
| `NonceWindow.Broadcaster.IsDuplicate` | src/broadcaster.ts:145-155 | a live nonce is a duplicate; an expired one is deleted, which the purge would do anyway |
| `NonceWindow.Broadcaster.RecordNonce` | src/broadcaster.ts:160-175 | purging, inserting and the trimming loop |
| `NonceWindow.Broadcaster.PurgeLate` | src/broadcaster.ts:161-166 | deleting in the loop removes exactly the expired nonces |
| `NonceWindow.CheckTracks` | src/cache.ts:663-718 | one check keeps the invariant, for both deduplicators and also without any room |
| `NonceWindow.ExpiredIsPastTtl` | src/cache.ts:713-718 | a stamp has expired exactly if the lifetime has passed since, strictly or inclusively |
| `NonceWindow.DisabledAcceptsAll` | src/cache.ts:663-667 | disabled, everything is accepted and nothing remembered |
| `LazyModules.SafetyOfRuns` | src/abiCache.ts:206-263 | in every state of every interleaving: at most one resolve per module in flight, loaders run only with all dependencies resolved, the resolved set is closed under dependencies, loads = successes + failures + in flight |
| `LazyModules.RunsExtend` | src/abiCache.ts:206-263 | a run extended by any enabled event is a run: no interleaving is excluded |
| `LazyModules.LoadedOnce` | src/abiCache.ts:206-263 | once resolved, a module keeps its value and is never loaded again |
| `LazyModules.RunsAreBounded` | src/abiCache.ts:206-263 | however steps interleave, calls of load cause only a bounded number of further steps |
| `LazyModules.SomethingCanHappen` | src/abiCache.ts:239-263 | no deadlock: while a load is unfinished some awaited thing has settled or a loader is running |
| `LazyModules.NoWorkMeansSettled` | src/abiCache.ts:206-228 | when no work is left every load has settled and no pending entry remains |
| `LazyModules.StepInv` | src/abiCache.ts:206-263 | every step keeps the protocol invariant |
| `LazyModules.LoadInv` | src/abiCache.ts:206-228 | a load up to its suspension keeps it, disturbs no other task, and hands out a promise for the named module |
| `LazyModules.StepKeepsResolved` | src/abiCache.ts:239-263 | no step changes a resolved module or its metrics |
| `LazyModules.StepWork` | src/abiCache.ts:239-263 | every step but a new call takes work off; a call adds at most its cost |
| `LazyModules.LazyModuleRegistry.LoadModule` | src/abiCache.ts:206-228 | load up to its first suspension, with recursive loads of dependencies |
| `LazyModules.LazyModuleRegistry.ContinueResolve` | src/abiCache.ts:245-251 | the dependency loop up to its next suspension |
| `LazyModules.LazyModuleRegistry.DependencySettled` | src/abiCache.ts:247-251 | what a settled dependency makes of the waiting resolve |
| `LazyModules.LazyModuleRegistry.LoaderReturned` | src/abiCache.ts:251-255 | success is recorded |
| `LazyModules.LazyModuleRegistry.LoaderThrew` | src/abiCache.ts:256-262 | failure is recorded |
| `LazyModules.LazyModuleRegistry.DeletePending` | src/abiCache.ts:223-227 | the pending entry is deleted in the end |
| `LazyModules.LazyModuleRegistry.RecordFailure` | src/abiCache.ts:256-262 | the failed task and its metrics |
| `LazyModules.RunInv` | src/abiCache.ts:206-263 | every state of every run meets the protocol invariant |
| `LazyModules.LoadWork` | src/abiCache.ts:206-251 | a load, with all loads it triggers before its first suspension, adds at most its cost to the work ahead |
| `LazyModules.ResolvedByLoader` | src/abiCache.ts:251-255 | over every interleaving, a module is resolved if and only if the loader of a task for it has returned, and to exactly the module that loader returned |
| `LazyModules.TaskEnds` | src/abiCache.ts:245-262 | a task succeeds exactly if its loader returns, with the module returned, and fails exactly if its loader throws or it resumes on a dependency that failed |
| `LazyModules.PromiseYields` | src/abiCache.ts:206-228 | a promise handed out for a module yields, once it has settled well, what the module resolved to |
| `LazyModules.CallStarts` | src/abiCache.ts:206-227 | a call starts a task, with a pending entry, exactly for a known module that is neither resolved nor pending; a failed one is loaded anew |
| `AbiStorage.RunAccounts` | src/abiCache.ts:288-361 | over every run, totalBytes is the sum of the entry sizes minus what self-evicting overwrites took off twice, and the storage stays within its limits unless one entry is left |
| `AbiStorage.ExactWithoutSelfEviction` | src/abiCache.ts:296-314 | without such overwrites totalBytes is the exact sum and the bytes really held are within maxBytes unless one entry is left |
| `AbiStorage.SetDeficit` | src/abiCache.ts:296-314 | a set makes the total fall short by exactly the old entry's bytes if its own loop evicts the entry it overwrites, and otherwise not at all |
| `AbiStorage.SelfEvictionHappens` | src/abiCache.ts:296-314 | a run of two sets in which that happens: 11 bytes held, a total of 6 |
| `AbiStorage.StepDeficit` | src/abiCache.ts:288-361 | how each operation moves the shortfall |
| `AbiStorage.EvictedExactly` | src/abiCache.ts:302-311 | the loop evicts a live key exactly if the rest, without all less recently used entries, is still too full |
| `AbiStorage.EvictsJustEnough` | src/abiCache.ts:302-311 | the loop terminates, evicts only less recently used entries, makes room or empties the store, and does not evict one too many |
| `AbiStorage.EvictsUniqueOldest` | src/abiCache.ts:379-394 | an eviction removes the one least recently used entry |
| `AbiStorage.RunStamped` | src/abiCache.ts:288-314 | access stamps of live entries are distinct in every run |
| `AbiStorage.StepWithinBudget` | src/abiCache.ts:296-314 | every operation keeps the storage within its limits unless one entry is left |
| `AbiStorage.CollectMeans` | src/abiCache.ts:350-361 | garbage collection removes exactly the entries whose positive expiry has been reached |
| `AbiStorage.MemoryAbiStorage.Get` | src/abiCache.ts:288-294 | a hit stamps and counts the entry object in place |
| `AbiStorage.MemoryAbiStorage.Set` | src/abiCache.ts:296-314 | new state of a set, eviction loop included |
| `AbiStorage.MemoryAbiStorage.MakeRoom` | src/abiCache.ts:302-311 | the eviction loop |
| `AbiStorage.MemoryAbiStorage.Delete` | src/abiCache.ts:316-323 | the entry leaves with its bytes |
| `AbiStorage.MemoryAbiStorage.Clear` | src/abiCache.ts:325-328 | nothing is left |
| `AbiStorage.MemoryAbiStorage.CollectGarbage` | src/abiCache.ts:350-361 | the sweep and the number of removed entries |
| `AbiStorage.MemoryAbiStorage.EvictLruEntry` | src/abiCache.ts:379-394 | the scan for the smallest stamp and the deletion |
| `AbiStorage.MemoryAbiStorage.OldestKey` | src/abiCache.ts:379-389 | the scan returns the first key with the smallest stamp |
| `AbiStorage.MemoryAbiStorage.Begin` | src/abiCache.ts:296-302 | the overwritten entry leaves the total and the new one is stamped in place |
| `AbiStorage.MemoryAbiStorage.Insert` | src/abiCache.ts:312-313 | the entry is stored and its bytes are added |
| `AbiStorage.HoldsLastRecord` | src/abiCache.ts:288-314 | over every run, a live entry is the one last set under its key, with every hit since counted |
| `AbiStorage.UsedLaterStampedLater` | src/abiCache.ts:288-302 | over every run, of two live entries the one hit or set later has the larger stamp, and conversely |
| `AbiStorage.EvictsLeastRecentlyUsed` | src/abiCache.ts:302-311 | over every run, whatever a set evicts was last used before everything that stays |
| `AbiStorage.StepLiveness` | src/abiCache.ts:288-361 | which entries each operation leaves |
| `AbiStorage.StepRecord` | src/abiCache.ts:288-314 | what each operation makes of an entry it leaves |
| `AbiStorage.EvictionsCounted` | src/abiCache.ts:379-394 | the eviction counter grows by the number of evicted entries |
| `AmmCalculator.SplitSwap` | src/ammCalculator.ts:86-103 | splitting a swap that passes the ratio guard into n consecutive swaps always passes it, never lowers the total output and raises it by at most n - 1; a chain can fail only by draining the output reserve |
| `AmmCalculator.SplitSwapSucceeds` | src/ammCalculator.ts:86-103 | draining is impossible when the unsplit swap leaves at least n in the output reserve |
| `AmmCalculator.ChainBounds` | src/ammCalculator.ts:86-103 | after n swaps the product is at most the original one and at least it minus n times the new input reserve less one |
| `AmmCalculator.OutputMeans` | src/ammCalculator.ts:86-103 | the reserve left is the largest whose product with the new input reserve does not exceed the old product, so the output is the difference rounded up |
| `AmmCalculator.SwapOfPair` | src/ammCalculator.ts:33-122 | on a two-reserve pool, in either order, exactly when the estimate fails and with which error, and otherwise its output, prices and impact |
| `AmmCalculator.SwapBackNeverLoses` | src/ammCalculator.ts:86-103 | swapping the output back never returns less than was paid in |
| `AmmCalculator.DepositThenWithdraw` | src/ammCalculator.ts:268-270 | minting shares and burning them on the updated pool returns exactly the deposit, for both assets |
| `AmmCalculator.BurnInParts` | src/ammCalculator.ts:327-329 | burning in parts, at most all shares, never pays more than burning at once, never more than the reserve, and never lowers the reserve per share |
| `AmmCalculator.ChainOfBurns` | src/ammCalculator.ts:289-338 | the bound kept by every burn of a chain |
| `AmmCalculator.ParseOfFormat` | src/ammCalculator.ts:584-602 | parsing a printed scaled integer gives the integer, negative ones included, for every number of decimals |
| `AmmCalculator.ImpactThroughText` | src/ammCalculator.ts:535-565 | the price impact computed through decimal strings is the one on scaled integers |
| `AmmCalculator.ImpactRange` | src/ammCalculator.ts:552-565 | it lies between 0.00 and 100.00 |
| `AmmCalculator.PartWithinLimit` | src/ammCalculator.ts:575-582 | a part of an input that passes the guard passes it on any larger input reserve |
| `AmmCalculator.FindBestRoute` | src/ammCalculator.ts:421-474 | no route exactly when the assets coincide or no pool pays; otherwise one hop through the first of the best-paying pools, with its output and impact |
| `AmmCalculator.MintThenBurn` | src/ammCalculator.ts:268-270 | the arithmetic of minting and burning: floors cancel exactly |
| `AmmCalculator.DepositMeans` | src/ammCalculator.ts:230-279 | for any shares minted, the deposit of each asset is its reserve times those shares over all shares, rounded down; the errors for too few reserves or no shares |
| `AmmCalculator.WithdrawMeans` | src/ammCalculator.ts:289-338 | for any shares burned, the payment of each asset is its reserve times those shares over all shares, rounded down; the same errors |
| `AmmCalculator.FormatMeans` | src/ammCalculator.ts:584-593 | the printed text is a sign if negative, the whole part without leading zeros, and exactly so many digits of fraction, together denoting the value |
| `AmmCalculator.ImpactMeans` | src/ammCalculator.ts:552-565 | the impact is the share of the spot price that is lost, in ten-thousandths, rounded down |
| `AmmCalculator.RatioMeans` | src/ammCalculator.ts:575-582 | the guard trips exactly if the input is more than the given millionths of the reserve |
| `AmmCalculator.DefaultLimit` | src/ammCalculator.ts:572-582 | by default that is thirty percent |
| `AmmCalculator.SwapErrors` | src/ammCalculator.ts:33-62 | on any number of reserves, exactly when a swap fails for want of reserves or of an asset |
| `CircuitBreaker.ClosedAndOpenStates` | src/circuitBreaker.ts:102-159 | in every reachable state: closed means fewer failures than the threshold and no timer; open means a timer due at the opening plus the timeout, whose firing half-opens the circuit |
| `CircuitBreaker.NoEarlyAdmission` | src/circuitBreaker.ts:144-159 | without reset, nothing is let through before the opening plus the timeout |
| `CircuitBreaker.OpenOrElapsed` | src/circuitBreaker.ts:120-159 | between an opening and that moment the circuit stays open from that very opening |
| `CircuitBreaker.EmissionsFormWalk` | src/circuitBreaker.ts:216-254 | emitted state changes form one walk from closed to the present state, without closed to half-open, and with open to closed only at a reset |
| `CircuitBreaker.CountsTrailingFailures` | src/circuitBreaker.ts:102-136 | the failure count is the number of failures since the last success or reset, in whatever state they were recorded |
| `CircuitBreaker.OpensExactlyAtThreshold` | src/circuitBreaker.ts:120-136 | a closed circuit opens exactly at the failure that reaches the threshold |
| `CircuitBreaker.RunInv` | src/circuitBreaker.ts:102-243 | the invariant tying state, timer and last opening |
| `CircuitBreaker.Breaker.RecordSuccess` | src/circuitBreaker.ts:102-112 | new state and emitted change |
| `CircuitBreaker.Breaker.RecordFailure` | src/circuitBreaker.ts:120-136 | new state and emitted change, also while open |
| `CircuitBreaker.Breaker.CanExecute` | src/circuitBreaker.ts:144-159 | answer, new state and emitted change |
| `CircuitBreaker.Breaker.Reset` | src/circuitBreaker.ts:216-225 | new state and emitted change |
| `CircuitBreaker.Breaker.TimerFires` | src/circuitBreaker.ts:227-236 | what the reset timer does when it fires |
| `CircuitBreaker.AdmitsExactly` | src/circuitBreaker.ts:144-159 | over every run, a caller is let through if and only if the circuit is not open or a failure came after the last success or reset and the latest one is at least the timeout old |
| `CircuitBreaker.CircuitFollowsEvents` | src/circuitBreaker.ts:102-159 | the circuit after every event of every run: half-open closes exactly at a success or reset and opens exactly at a failure; open closes exactly at a reset and half-opens exactly when its timer fires or a caller comes after the cooling down; closed opens exactly at the failure that makes the trailing ones reach the threshold |
| `CircuitBreaker.TimerFollowsCircuit` | src/circuitBreaker.ts:216-243 | an opening sets the timer to its time plus the timeout; closing or its own firing clears it; nothing else touches it |
| `CircuitBreaker.KeepsLatestFailure` | src/circuitBreaker.ts:102-136 | the time kept is that of the latest failure after the last success or reset |
| `CsvPrinter.CsvRoundTrip` | src/analyticsDashboardExporter.ts:233-250 | a reader for RFC 4180 section 2, ending line break optional, recovers the header and every field text of a printed table exactly, if and only if there is a column and the last line is not empty; with an empty last line it recovers all but the last row |
| `CsvPrinter.SeparatedRoundTrip` | src/analyticsDashboardExporter.ts:244-250 | a reader to which every line feed separates two records recovers the table if and only if there is a column |
| `CsvPrinter.ReadersDiffer` | src/analyticsDashboardExporter.ts:249 | the two readers differ on a final line feed only, which is one empty record more to the second |
| `CsvPrinter.CsvInjective` | src/analyticsDashboardExporter.ts:244-250 | tables that print alike have the same texts, whatever their last lines are |
| `CsvPrinter.ReadEscaped` | src/analyticsDashboardExporter.ts:233-242 | one printed field reads back as its text, whatever commas, quotes or line breaks it holds |
| `CsvPrinter.ReadLine` | src/analyticsDashboardExporter.ts:244-250 | one printed record reads back as its fields |
| `CsvPrinter.ResolveColumns` | src/analyticsDashboardExporter.ts:217-231 | given columns win when there are any; otherwise all keys in order of first appearance |
| `CsvPrinter.AddNewKeys` | src/analyticsDashboardExporter.ts:224-230 | adding to the set keeps first appearances in order |
| `CsvPrinter.QuotedExactly` | src/analyticsDashboardExporter.ts:233-242 | a field is quoted exactly if it holds a comma, a quote, a line feed or a carriage return |
| `StreamExport.Stream` | src/analyticsDashboardExporter.ts:371-444 | for any consumer: delivered chunks are numbered 0, 1, 2, … and concatenate to the rows from the start row to the end, or to the reported checkpoint after maxRetries + 1 refusals; no chunk is sent more often; the statistics match the log |
| `StreamExport.StreamResuming` | src/analyticsDashboardExporter.ts:371-444 | resuming at the reported checkpoint, whatever the consumers do: each pass is a legal stream for its consumer that starts where the one before left off, all passes together have delivered every row up to the one reached exactly once and in order, and only a pass that has sent everything, or the last consumer, ends it |
| `StreamExport.StreamFrom` | src/analyticsDashboardExporter.ts:371-444 | one pass from a given row, as what its log shows |
| `StreamExport.OneMorePass` | src/analyticsDashboardExporter.ts:430-436 | another pass from where the others got to keeps the chain and adds its rows |
| `StreamExport.SendChunk` | src/analyticsDashboardExporter.ts:412-438 | the retry loop of one chunk |
| `StreamExport.Producer.Deliver` | src/analyticsDashboardExporter.ts:396-408 | one delivery: the call is logged and the backpressure counter kept below the high-water mark |
| `StreamExport.OptionsMean` | src/analyticsDashboardExporter.ts:378-381 | chunk size, retries and start row are taken as given where they make sense, else the nearest that do |
| `InvoiceWalks.GetForwardChain` | src/client.ts:4196-4219 | on any link graph: at most ten fetches; the chain, in order, if and only if the path ends within ten; a circular chain reported exactly when one of the first ten steps revisits, at the first that does; else too deep |
| `InvoiceWalks.ResolveCloneChain` | src/client.ts:8502-8526 | at most ten fetches; the ancestry, root first, if and only if the parent path ends within ten; an id is named exactly when a revisit occurs within ten steps after the leaf |
| `InvoiceWalks.RevisitNeverEnds` | src/client.ts:4196-4219 | a path that returns to an id never ends |
| `InvoiceWalks.PagingExactly` | src/client.ts:4630-4642 | following cursors from the start ends with exactly the whole list if and only if every page but the last ends with a non-empty id that does not occur earlier |
| `InvoiceWalks.DistinctIdsAreGood` | src/client.ts:4630-4642 | distinct non-empty ids always meet that condition |
| `InvoiceWalks.AllIds` | src/client.ts:4743-4752 | the paging loop, cut off after a number of pages, collects what following cursors yields; with good cursors and enough pages, the whole list |
| `InvoiceWalks.CursorLeadsTo` | src/client.ts:4635-4637 | a cursor leads to its page boundary exactly if it is non-empty and occurs first there |
| `PaymentBatches.MergePreservesRoutes` | src/batchPaymentOptimizer.ts:107-130 | where equal keys mean equal routes, merging preserves the sum of amounts of every source, destination and currency |
| `PaymentBatches.RoutesPreservedExactly` | src/batchPaymentOptimizer.ts:107-130 | for positive amounts it does so if and only if equal keys mean equal routes |
| `PaymentBatches.SeparatorFreeIsFaithful` | src/batchPaymentOptimizer.ts:110-111 | sources and destinations without the separator suffice for that |
| `PaymentBatches.MergedMeans` | src/batchPaymentOptimizer.ts:107-130 | one operation per key in order of first appearance; merging again changes nothing; every key keeps its sum |
| `PaymentBatches.MergeOperations` | src/batchPaymentOptimizer.ts:107-130 | the loop over a Map computes that list |
| `PaymentBatches.BatchesPartition` | src/batchPaymentOptimizer.ts:135-163 | one batch per currency with enough operations, holding all of them and their total; with a minimum of at most one the batches partition the operations |
| `PaymentBatches.BatchOrder` | src/batchPaymentOptimizer.ts:146-160 | the batches follow the first appearances of their currencies, without those that are too small |
| `PaymentBatches.GroupIntoBatches` | src/batchPaymentOptimizer.ts:135-163 | the two loops compute those batches |
| `PaymentBatches.GroupByCurrency` | src/batchPaymentOptimizer.ts:136-142 | the grouping loop keeps, for each currency, all its operations in order |
| `PaymentBatches.OptimizeConserves` | src/batchPaymentOptimizer.ts:107-163 | where equal keys mean equal currencies, every batch of the merged operations carries the total of its currency over the original ones |
| `PaymentBatches.EveryCurrencyBatched` | src/batchPaymentOptimizer.ts:107-163 | with a minimum of at most one, every currency of the original operations has its batch |
| `PaymentBatches.MergeKeepsCurrency` | src/batchPaymentOptimizer.ts:107-130 | where equal keys mean equal currencies, merging keeps the total of every currency |
| `PaymentBatches.MergedIsFirst` | src/batchPaymentOptimizer.ts:110-122 | a merged operation is the first with its key, with the amounts of all of them |
| `BatchPipeline.Optimize` | src/batchOptimizationEnhancements.ts:131-138 | the pipeline returns exactly one result per merged operation, in the order of priority, ties in order of first appearance, for any concurrency of at least one |
| `BatchPipeline.ExecuteInParallel` | src/batchOptimizationEnhancements.ts:34-61 | exactly one result per operation, in order; the waves partition the operations, each full but the last |
| `BatchPipeline.DeduplicatedMeans` | src/batchOptimizationEnhancements.ts:79-92 | one operation per key in order of first appearance, idempotent, sums kept key by key and altogether |
| `BatchPipeline.DedupePreservesRoutes` | src/batchOptimizationEnhancements.ts:79-92 | where equal keys mean equal routes, every destination, currency and source keeps its sum |
| `BatchPipeline.RoutesPreservedExactly` | src/batchOptimizationEnhancements.ts:79-92 | for positive amounts all of them do if and only if equal keys mean equal routes |
| `BatchPipeline.SeparatorFreeIsFaithful` | src/batchOptimizationEnhancements.ts:82 | destinations and sources without the separator suffice for that, an absent source counting as an empty one |
| `BatchPipeline.MergedMetadata` | src/batchOptimizationEnhancements.ts:84-89 | a merged operation keeps the first one's identity and, per metadata entry, the last value given |
| `BatchPipeline.DeduplicatedFolds` | src/batchOptimizationEnhancements.ts:79-92 | every result is its group's operations combined in order |
| `BatchPipeline.DeduplicateOps` | src/batchOptimizationEnhancements.ts:79-92 | the loop computes that list |
| `BatchPipeline.PrioritizedMeans` | src/batchOptimizationEnhancements.ts:97-99 | sorting by amount: sorted, the same operations, equal amounts in their old order |
| `BatchPipeline.SortIsUnique` | src/batchOptimizationEnhancements.ts:97-99 | any sorted and stable arrangement is that very list, so it does not matter how the runtime sorts |
| `MergeByKey.MergeKeepsTotal` | src/batchOptimizationEnhancements.ts:79-92 | combining by key keeps the grand total, whatever the keys |
| `MergeByKey.MergeKeepsSums` | src/batchPaymentOptimizer.ts:107-130 | combining by key keeps the sums by anything that equal keys share |
| `MergeByKey.MergeSumsExactly` | src/batchPaymentOptimizer.ts:107-130 | for positive figures, and for anything that determines the key, only then |
| `MergeByKey.MergeMeans` | src/batchPaymentOptimizer.ts:107-130 | combining through a Map: keys in order of first appearance, each with its items folded in order |
| `MergeByKey.MergeIdempotent` | src/batchOptimizationEnhancements.ts:79-92 | combining the combined items changes nothing |
| `OrderedMap.FirstSeenOrder` | src/batchPaymentOptimizer.ts:108-129 | values of a Map come out in order of first appearance |
| `ApprovalSession.CompletedExactly` | src/approvalWorkflowSequencer.ts:129-146 | in every run, the session is complete if and only if some admitted signature brought the weight to the threshold; later refusals do not take it back |
| `ApprovalSession.ExecutedAtMostOnce` | src/approvalWorkflowSequencer.ts:163-176 | execution succeeds at most once and only after completion |
| `ApprovalSession.ExecutesExactly` | src/approvalWorkflowSequencer.ts:163-176 | exactly when an execute call returns the signed transaction |
| `ApprovalSession.LastDecisionCounts` | src/approvalWorkflowSequencer.ts:129-161 | each signer's signature or refusal is held exactly according to its last admitted decision, with that signature |
| `ApprovalSession.WeightOfRun` | src/approvalWorkflowSequencer.ts:204-210 | the weight is the sum over the policy's signers who have signed, in whatever order they did |
| `ApprovalSession.RunInv` | src/approvalWorkflowSequencer.ts:129-176 | signers and refusers are disjoint sets of policy signers; executed implies completed |
| `ApprovalSession.ExpiryIsPermanent` | src/approvalWorkflowSequencer.ts:212-218 | an expired session stays expired: every later call times out and changes nothing |
| `ApprovalSession.NeverTimesOutOtherwise` | src/approvalWorkflowSequencer.ts:212-218 | a call times out exactly when the reported status is expired |
| `ApprovalSession.RejectedCanExecute` | src/approvalWorkflowSequencer.ts:163-176 | a rejection after completion does not prevent execution: a run in which one signer completes the session and another refuses |
| `ApprovalSession.ExecutedForGood` | src/approvalWorkflowSequencer.ts:196-202 | an executed session is reported as executed ever after |
| `ApprovalSession.WeightsMean` | src/approvalWorkflowSequencer.ts:122-124 | exactly the listed signers carry weight, the one they are listed with last |
| `ApprovalSession.Session.SubmitSignature` | src/approvalWorkflowSequencer.ts:129-146 | new state, answer and errors of a signature |
| `ApprovalSession.Session.RejectBy` | src/approvalWorkflowSequencer.ts:148-161 | new state, answer and errors of a refusal |
| `ApprovalSession.Session.ExecuteNow` | src/approvalWorkflowSequencer.ts:163-176 | new state, answer and errors of an execution |
| `ApprovalSession.Session.GetSigned` | src/approvalWorkflowSequencer.ts:178-184 | answer and errors of asking for the signed transaction |
| `ApprovalSession.Session.GetStatus` | src/approvalWorkflowSequencer.ts:186-202 | the report |
| `ApprovalSession.Session.CurrentWeight` | src/approvalWorkflowSequencer.ts:204-210 | the loop over the signatures computes the weight |
| `ApprovalSession.Session.constructor` | src/approvalWorkflowSequencer.ts:117-127 | the weights loop, the expiry time and the empty state |
| `ApprovalSession.Session.AssertActive` | src/approvalWorkflowSequencer.ts:212-218 | exactly when a call times out |
| `ApprovalSession.WeightIsSum` | src/approvalWorkflowSequencer.ts:204-210 | the loop total does not depend on the order of the signatures |
| `ApprovalSession.StatusExactly` | src/approvalWorkflowSequencer.ts:196-202 | over every run, the status: executed, else rejected, else approved, else expired, else pending, each told by the calls |
| `ApprovalSession.RejectedExactly` | src/approvalWorkflowSequencer.ts:148-161 | a session is rejected exactly if some refusal was admitted |
| `ApprovalSession.AdmittedExactly` | src/approvalWorkflowSequencer.ts:212-218 | a call is admitted exactly unless the session is reported as expired, for signing and refusing by a signer only |
| `ApprovalSession.ReportMeans` | src/approvalWorkflowSequencer.ts:186-194 | the reported counts are the numbers of signers whose last admitted decision was to sign, or to refuse |
| `ApprovalSession.SubmitAnswers` | src/approvalWorkflowSequencer.ts:129-146 | an admitted signature is answered with completion and weight as they are with it |
| `WithdrawalWorkflow.RunGood` | src/accessControl.ts:367-454 | in every run, approvals are distinct and without the requester; pending means fewer than required, approved or executed exactly as many, rejected fewer |
| `WithdrawalWorkflow.RunTells` | src/accessControl.ts:367-454 | every request is what its accepted calls make it: executed means submitted, approved by exactly the required number of different people, executed once and never rejected; rejected means rejected once and never executed |
| `WithdrawalWorkflow.ExecutesExactly` | src/accessControl.ts:445-454 | an execute call goes through if and only if as many approvals as required and no rejection or execution were accepted before |
| `WithdrawalWorkflow.SettledForGood` | src/accessControl.ts:396-454 | a rejected or executed request never changes again |
| `WithdrawalWorkflow.StepTells` | src/accessControl.ts:396-454 | every accepted call keeps request and history in step |
| `WithdrawalWorkflow.Workflow.SubmitRequest` | src/accessControl.ts:367-391 | new state, record and error of a submission |
| `WithdrawalWorkflow.Workflow.ApproveRequest` | src/accessControl.ts:396-418 | the record is changed in place; errors in the order of the checks |
| `WithdrawalWorkflow.Workflow.RejectRequest` | src/accessControl.ts:423-440 | the record is changed in place; errors in the order of the checks |
| `WithdrawalWorkflow.Workflow.ExecuteRequest` | src/accessControl.ts:445-454 | the record is changed in place; errors in the order of the checks |
| `WithdrawalWorkflow.Create` | src/accessControl.ts:346-351 | one approval by default; fewer than one is an error |
| `WithdrawalWorkflow.WithdrawalRequest.constructor` | src/accessControl.ts:375-386 | a new request is pending and empty |
| `WithdrawalWorkflow.StepGood` | src/accessControl.ts:367-454 | every call keeps all records well-formed |
| `WithdrawalWorkflow.AcceptedExactly` | src/accessControl.ts:367-440 | exactly when a submission, approval or rejection is accepted, and otherwise its error, told by the calls accepted before |
| `WithdrawalWorkflow.StatusOfHistory` | src/accessControl.ts:396-454 | requester, approvals and status are told by the accepted calls |
| `BreadcrumbRing.Replay` | src/breadcrumbTracker.ts:57-101 | after any sequence of additions and clears, the list returned is the last min(n, capacity) items added since the last clear, oldest first, and the size is its length |
| `BreadcrumbRing.RingBuffer.GetAll` | src/breadcrumbTracker.ts:75-90 | both read loops, wrapped or not, return the last items, oldest first |
| `BreadcrumbRing.RingBuffer.Add` | src/breadcrumbTracker.ts:67-73 | one more item is remembered, through any number of turns |
| `BreadcrumbRing.RingBuffer.Clear` | src/breadcrumbTracker.ts:92-96 | nothing is remembered |
| `BreadcrumbRing.RingBuffer.Size` | src/breadcrumbTracker.ts:98-100 | how many items are remembered |
| `BreadcrumbRing.RingBuffer.constructor` | src/breadcrumbTracker.ts:62-65 | a capacity below one becomes one |
| `BreadcrumbRing.HoldsOneMore` | src/breadcrumbTracker.ts:67-73 | writing at the insertion pointer overwrites only the item that no longer fits |
| `BreadcrumbRing.WalkedSlot` | src/breadcrumbTracker.ts:80-88 | stepping the pointer modulo the capacity follows the numbering of the slots |
| `BreadcrumbRing.AddedSinceClear` | src/breadcrumbTracker.ts:67-96 | after a clear, exactly the additions since then are remembered, in order |
| `BreadcrumbRing.LastOfIsEnd` | src/breadcrumbTracker.ts:75-90 | the items remembered are the end of all added since the clear |

## Left out

- Codec counts are exact integers; the runtime's `parseInt` and `repeat` lose precision or throw on counts no text in memory can produce. The size threshold and the `encode`/`decode` wrappers, which `set` and `get` never call, are not modelled.
- SimpleCache: lifetimes under names every object inherits, listeners, debug output, the eviction and compression counters, `entries()` and `has()`, and the defaults of the constructor.
- NonceWindow: `clear`, calls without a nonce, subscribers and emitted events.
- AbiStorage.MemoryAbiStorage.Set: the empty key and an entry object that the store already holds, under this or another key, are outside the precondition; stamping such an object would change a stored entry before the eviction loop runs.
- AbiStorage.MemoryAbiStorage.Begin: the same objects are outside, being a part of `Set`.
- AbiStorage.MemoryAbiStorage.Insert: the same objects are outside, being a part of `Set`.
- AbiStorage: the storage adapter and `ContractAbiCache` are not modelled (the file ends inside the latter), nor is the memory statistics report.
- LazyModules: the registry is fixed when a run starts and its dependency graph acyclic; loaders do not call back into the registry; durations are not measured.
- AmmCalculator: amounts arrive as integers, so errors of `BigInt` on malformed amount strings are not modelled; the maximal ratio arrives scaled and rounded; pools with more than two reserves are computed by the same function, but the swap theorems are about two; asset names in the estimates of deposits and withdrawals, pool shares, minimum output and the health snapshot.
- CircuitBreaker: the health check, timeouts outside the range `setTimeout` accepts, and listeners that call back into the breaker.
- CsvPrinter: JSON output, and columns that name properties inherited by every object; the reader takes LF alone for a line break, as the printer writes it.
- StreamExport: export without a consumer, the defaults of absent options, byte counts, durations and rendering of the chunk text (modelled by its rows).
- InvoiceWalks: failing fetches, the response cache around the page request, and `getInvoicesByRecipient`, which repeats the same code.
- PaymentBatches and BatchPipeline: floating-point rounding of sums, progress events, the groups by recipient (the same loop as the groups by currency), durations of calls beyond being passed through, and a concurrency below one, for which the loop does not advance.
- ApprovalSession: the timer, which only ends, events, signer notification, and the payment forwarding rules.
- WithdrawalWorkflow: access checks (an `await` then separates check and update), listeners, and changes a caller makes to a returned record.
- BreadcrumbRing: the tracker around the storage, its filters and its formatting; fractional capacities.
- Everything that talks to the network, wallets, contracts or other programs, and event, telemetry and logging code.
