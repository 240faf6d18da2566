# Verified model of the proxy's core algorithms

This project models eight algorithms of an LLM gateway (rate limiting, prompt compression, cache
breakpoints, sandboxing and audio probing) and proves what they promise, for every input and every
run. `dafny verify dfyconfig.toml` checks everything.

| component | modules |
|---|---|
| per-key request limiter and in-flight cap | `RateLimit`, `LimiterSteps`, `Eviction`, `Forgetting`, `InFlight` |
| git diff compressor | `DiffContext`, `DiffParser`, `DiffRender`, `DiffCompressor`, `DiffChanges`, `DiffText`, `DiffReference` |
| whitespace and JSON passes of the lite compressor | `Whitespace`, `JsonMinifier`, `JsonRestore`, `JsonOutcome` |
| cache breakpoints in request payloads | `PayloadShape`, `CacheMarkers`, `CacheRule`, `CacheInjector`, `CacheTargets` |
| seccomp filter of the inference worker | `SyscallFilter` |
| log compressor | `LogSelector`, `DedupKey`, `DedupPieces` |
| WAV and MP4 header walkers | `Wav`, `BoxFinder`, `BoxTree` |
| lossless CSV route of the JSON crusher | `Csv`, `CsvMeaning` |

`Common`, `Indices`, `TextLines`, `Bytes` and `JsonValue` hold the small shared vocabulary.

Code that updates state in place is a class or a method with loops, proved against a specification
function or predicate; the main theorems are lemmas about that specification. Two patterns recur:
a state machine whose runs are a datatype, with invariants proved over all runs (`RateLimit`,
`InFlight`), and a scan proved equal to a declarative meaning that has its own inverse or
uniqueness theorem (the parser, the minifier, the CSV writer, the box search).

The specification functions that methods are tied to are in turn tied to descriptions that do not
use them: sets and their sizes, arithmetic, characters and field names, with the limits written out. `LimiterSteps`, `DiffReference`, `JsonOutcome`, `PayloadShape`, `CacheTargets`,
`DedupPieces` and `CsvMeaning` hold these descriptions.

## Where code and promise differ

The model follows the code. Eight promises turn out not to hold as written. Each has an input that
shows it and the exact condition under which it does hold:

| promise | failing input | exact condition |
|---|---|---|
| at most M requests in any window length | `SlidingBoundIsTight`: a run with 2M - 1 grants | `BudgetKeptExactly`; the bounds that always hold are `SlidingBound` and, with evictions, `ForgettingBound` |
| the last-resort eviction drops the oldest windows | `OldestSurvives`: the oldest stays, the youngest goes | `OldestFirstExactly` |
| a throttled key stays refused until its window ends | `LastResortUnblocks`: a run that lets it in again | `ThrottleKeptExactly`; over whole runs `ThrottleSurvivesFlood` |
| the whitespace pass leaves nothing for a second pass | `NotIdempotent`: a family of texts | `IdempotentExactly` |
| the JSON pass compacts JSON | `NumbersRunTogether`, `FormFeedIsDropped`: text that is no JSON becomes JSON | `JsonExactly`, `CompactedExactly` |
| ensuring cache breakpoints twice is ensuring them once | `SecondCallMarksAgain` | `EnsuredTwiceExactly` |
| the box search finds the movie header | `LargeMovieIsMissed`: a `moov` box with a 64-bit size is entered eight bytes too early | `FindMeetsStandardExactly` |
| the CSV form is lossless | `NamesRunTogether`, `RowsRunTogether`: two tables with the same output, since names are not escaped | `OutputDecodesExactly`; the cell texts alone always decode (`BodyDecodes`), and `CellsAgreeExactly` says which values share one text |

## Model

| member | source | states |
|---|---|---|
| `RateLimit.SlidingWindowRateLimiter.Check` | crates/openproxy-core/src/rate_limit.rs:108-148 | the verdict and the new map are those of the relation `Checks`: reset, count, refuse, or make room by cleanup and two evictions and insert |
| `RateLimit.SlidingWindowRateLimiter.Cleanup` | crates/openproxy-core/src/rate_limit.rs:150-155 | the entries with now < start + window stay, unchanged, and no others |
| `LimiterSteps.StepsExactly` | crates/openproxy-core/src/rate_limit.rs:72-155 | from every reachable state, a step leads to exactly these states: a cleanup keeps the live entries; a check of a known key resets, counts or refuses; a check of a new key is granted and makes room, if the map is full, by dropping the expired entries, else up to 10,000 live unthrottled ones by lowest count, else up to 1,000 of the youngest |
| `LimiterSteps.RoomExactly` | crates/openproxy-core/src/rate_limit.rs:126-144 | making room by cleanup and two evictions is that rule on the live entries, in both directions |
| `LimiterSteps.CleanupKeepsExactly` | crates/openproxy-core/src/rate_limit.rs:150-155 | in every run, after a cleanup an entry is present, unchanged, if and only if it was present and the time is before start + window |
| `LimiterSteps.ForgettingNeedsPressure` | crates/openproxy-core/src/rate_limit.rs:126-144 | in every run, an entry is lost inside its window only by a check of a new key when at least max_capacity entries are still inside theirs |
| `RateLimit.SlidingWindowRateLimiter.EvictLowestCountWindows` | crates/openproxy-core/src/rate_limit.rs:72-84 | removes n unthrottled entries (all if fewer), none with a higher count than a kept unthrottled one, and no other entry |
| `RateLimit.SlidingWindowRateLimiter.EvictOldestThrottledWindows` | crates/openproxy-core/src/rate_limit.rs:93-104 | removes n entries (all if fewer), none with a greater age than a kept one, and no other entry |
| `RateLimit.SortByRank` | crates/openproxy-core/src/rate_limit.rs:80-83 | every key once, in ascending rank, ties in any order |
| `RateLimit.PrefixIsLowest` | crates/openproxy-core/src/rate_limit.rs:80-83 | removing the first n of a rank order is the eviction of the n lowest |
| `RateLimit.ReachableIsSound` | crates/openproxy-core/src/rate_limit.rs:108-148 | in every run the map holds at most max(1, capacity) entries, every window started in the past, every count lies between 1 and the budget |
| `RateLimit.RefinesReference` | crates/openproxy-core/src/rate_limit.rs:108-155 | every verdict on a key equals that of a limiter serving this key alone, whatever other keys and cleanups do, as long as the key's entry is not evicted inside its window |
| `RateLimit.GrantsAreSpread` | crates/openproxy-core/src/rate_limit.rs:113-124 | any 2M consecutive grants of a key span at least one window length |
| `RateLimit.SlidingBound` | crates/openproxy-core/src/rate_limit.rs:108-155 | in every run, any half-open interval of one window length holds at most 2M - 1 grants of a key |
| `RateLimit.SlidingBoundIsTight` | crates/openproxy-core/src/rate_limit.rs:113-124 | for every configuration with a limit and a window of two ticks there is a run that reaches 2M - 1 |
| `RateLimit.BudgetKeptExactly` | crates/openproxy-core/src/rate_limit.rs:113-124 | every run keeps to M grants in any window length if and only if the limit is at most one or the window at most one tick |
| `Forgetting.ForgettingBound` | crates/openproxy-core/src/rate_limit.rs:72-155 | in every run, evictions included, any interval of one window length holds at most 2M - 1 grants of a key and M more for every time its entry was evicted inside its window |
| `Forgetting.PreservedIsNeverForgotten` | crates/openproxy-core/src/rate_limit.rs:72-155 | the runs of `SlidingBound` are exactly those in which the key was never evicted inside its window |
| `RateLimit.FewKeysArePreserved` | crates/openproxy-core/src/rate_limit.rs:128-148 | a run that names no more keys than the capacity never evicts an entry inside its window |
| `RateLimit.LowCountsFreeASlot` | crates/openproxy-core/src/rate_limit.rs:136-144 | the first eviction frees a slot if and only if some surviving entry is not throttled |
| `RateLimit.ThrottleSurvivesFlood` | crates/openproxy-core/src/rate_limit.rs:72-148 | a throttled key keeps its entry and is refused until its window ends under any flood, unless some check finds the map full with every surviving entry throttled |
| `RateLimit.LastResortUnblocks` | crates/openproxy-core/src/rate_limit.rs:138-143 | the exception is real: a run in which a throttled key is granted inside its window |
| `Eviction.OldestFirstExactly` | crates/openproxy-core/src/rate_limit.rs:86-104 | the last resort removes windows oldest first, as its description says, if and only if it removes all of them or all started at the same time |
| `Eviction.OldestSurvives` | crates/openproxy-core/src/rate_limit.rs:93-104 | for every capacity above 1000, a run of throttled keys in which the last resort keeps the oldest window and removes the youngest |
| `Eviction.DroppedAlways` | crates/openproxy-core/src/rate_limit.rs:93-104 | a window is removed however ties are broken if and only if fewer than 1000 others are as young |
| `Eviction.KeptAlways` | crates/openproxy-core/src/rate_limit.rs:93-104 | a window is kept however ties are broken if and only if at least 1000 are strictly younger |
| `Eviction.LastResortDecides` | crates/openproxy-core/src/rate_limit.rs:126-148 | the same for whole checks that find the map full of throttled keys: when such a check drops a key in every outcome, and when it keeps it in every outcome |
| `Eviction.ThrottleKeptExactly` | crates/openproxy-core/src/rate_limit.rs:72-148 | a check of another key inside the window keeps a throttled key in every outcome if and only if, when the map is full of throttled keys, at least 1000 of the survivors are younger |
| `InFlight.InFlightLimiter.TryAcquire` | crates/openproxy-core/src/rate_limit.rs:216-248 | a guard for this key and limiter exactly if the key is absent, below the cap, or zero in a map of 100,000 keys; its counter is then one higher; other keys lose only zero counters, and only from 100,000 keys on |
| `InFlight.InFlightGuard.Drop` | crates/openproxy-core/src/rate_limit.rs:185-197 | counts down, removes the entry at one, ignores a missing entry |
| `InFlight.CountersAreAccurate` | crates/openproxy-core/src/rate_limit.rs:174-248 | in every interleaving of key-wise sweeps, acquires and drops, each counter is the number of live guards, is present exactly when positive and never exceeds the cap; no sweep step changes anything |
| `InFlight.RefusedExactlyAtCap` | crates/openproxy-core/src/rate_limit.rs:216-248 | an acquire is refused if and only if the key already has the maximal number of live guards |
| `InFlight.SweepIsIdentity` | crates/openproxy-core/src/rate_limit.rs:218-226 | a whole sweep is the identity on every reachable map |
| `SyscallFilter.DenyBlockDecides` | crates/openproxy-adapters/c_src/worker_sandbox.c:76-78 | a deny block of any length refuses exactly its numbers and otherwise falls through with the accumulator intact |
| `SyscallFilter.ArchCheckDecides` | crates/openproxy-adapters/c_src/worker_sandbox.c:89-97 | kills on a foreign architecture or the x32 bit, else continues with the call number loaded |
| `SyscallFilter.TgkillBlockDecides` | crates/openproxy-adapters/c_src/worker_sandbox.c:105-109 | tgkill is allowed exactly for the own process, other calls fall through |
| `SyscallFilter.CloneBlockDecides` | crates/openproxy-adapters/c_src/worker_sandbox.c:131-138 | ENOSYS for clone3, clone only with CLONE_THREAD, everything else allowed |
| `SyscallFilter.FilterComputesPolicy` | crates/openproxy-adapters/c_src/worker_sandbox.c:88-139 | for every table, deny lists of any length, and every call data, the machine never faults and returns exactly the policy's verdict |
| `SyscallFilter.NamedVerdict` | crates/openproxy-adapters/c_src/worker_sandbox.c:98-138 | whatever distinct numbers the headers assign, a native call is refused exactly when its name is listed, apart from the three calls with own rules |
| `SyscallFilter.ShippedVerdict` | crates/openproxy-adapters/c_src/worker_sandbox.c:98-138 | the same for the shipped lists |
| `SyscallFilter.ShippedDecision` | crates/openproxy-adapters/c_src/worker_sandbox.c:76-138 | every call the table names: tgkill goes through for the own process and fails with EPERM (1) otherwise, clone goes through with CLONE_THREAD (0x10000) and fails with EPERM otherwise, clone3 fails with ENOSYS (38), fork and vfork fail with EPERM where defined, all others fail with EPERM |
| `SyscallFilter.UnnamedDecision` | crates/openproxy-adapters/c_src/worker_sandbox.c:88-138 | a call that the table does not name goes through, unless the architecture is foreign or the x32 bit set: then the process dies |
| `SyscallFilter.ForeignDecision` | crates/openproxy-adapters/c_src/worker_sandbox.c:89-97 | on a foreign architecture, or with the x32 bit, every call is fatal |
| `DiffContext.MarkChangeBlock` | crates/openproxy-compression/src/diff_compressor.rs:368-375 | marks exactly the maximal run of non-context lines from the start |
| `DiffContext.MarkContextBefore` | crates/openproxy-compression/src/diff_compressor.rs:377-388 | marks exactly the at most two context lines directly before the block |
| `DiffContext.MarkContextAfter` | crates/openproxy-compression/src/diff_compressor.rs:390-401 | marks exactly the at most two context lines after the block and stops there |
| `DiffContext.MarkContextLines` | crates/openproxy-compression/src/diff_compressor.rs:403-419 | line i is kept if and only if some non-context line lies within two lines of it, for hunks of any length |
| `DiffParser.Parser.AttachHunk` | crates/openproxy-compression/src/diff_compressor.rs:269-274 | what the parser would return is unchanged; no hunk is open afterwards |
| `DiffParser.Parser.HandleDiffGitHeader` | crates/openproxy-compression/src/diff_compressor.rs:200-211 | the structure stays well-formed and its flattened text grows by this line |
| `DiffParser.Parser.HandleHunkHeader` | crates/openproxy-compression/src/diff_compressor.rs:213-223 | the same, opening a file without a header if there is none |
| `DiffParser.Parser.HandleDiffBodyLine` | crates/openproxy-compression/src/diff_compressor.rs:225-241 | the same, except that lines before the first header are dropped |
| `DiffParser.ParseDiff` | crates/openproxy-compression/src/diff_compressor.rs:243-267 | the result is well-formed, only its first file can be synthetic, and flattening it gives back the input from the first file or hunk header on |
| `DiffParser.ParseIsUnique` | crates/openproxy-compression/src/diff_compressor.rs:243-286 | a well-formed structure is determined by its lines, so the parse is the only one |
| `DiffRender.CollectHunkIndices` | crates/openproxy-compression/src/diff_compressor.rs:337-355 | ascending, exactly the first ten changing hunks and then unchanged hunks as far as room is left, min(10, n) in all |
| `DiffRender.CapHunks` | crates/openproxy-compression/src/diff_compressor.rs:357-365 | the kept positions on both paths, and the number of dropped hunks |
| `DiffRender.RenderReducedContext` | crates/openproxy-compression/src/diff_compressor.rs:421-445 | appends exactly the lines near a change, on the 128-slot path and on the heap path |
| `DiffRender.RenderFileHunks` | crates/openproxy-compression/src/diff_compressor.rs:288-303 | appends the kept hunks in input order, leaving out headers of hunks without kept lines, and the note on dropped hunks |
| `DiffRender.RenderDiffFile` | crates/openproxy-compression/src/diff_compressor.rs:305-316 | appends header, metadata and hunks of a file |
| `DiffRender.CompressFiles` | crates/openproxy-compression/src/diff_compressor.rs:318-335 | appends all files, or the first nineteen of more than twenty and the note |
| `DiffCompressor.CompressedFollowsInput` | crates/openproxy-compression/src/diff_compressor.rs:171-189 | notes aside, the output lines are a subsequence of the input lines |
| `DiffCompressor.ReductionKeepsChanges` | crates/openproxy-compression/src/diff_compressor.rs:403-445 | context reduction keeps all lines of a hunk that begin with a plus or a minus sign, in order |
| `DiffChanges.OutputShows` | crates/openproxy-compression/src/diff_compressor.rs:288-445 | end to end, the lines of the output that begin with a plus or a minus sign are, in order, those of the metadata and of the first ten hunks with such lines of each file, of the first nineteen files if there are more than twenty |
| `DiffChanges.NothingLostExactly` | crates/openproxy-compression/src/diff_compressor.rs:288-445 | the output shows all such lines of the parsed input if and only if no shown file has more than ten hunks with such lines and the other files have none; otherwise it shows fewer |
| `DiffChanges.ParsedIsPlain` | crates/openproxy-compression/src/diff_compressor.rs:243-286 | what the parser returns meets the assumption of these two whenever no line that reads as a change matches the hunk-header pattern |
| `DiffText.WrittenIsRead` | crates/openproxy-compression/src/diff_compressor.rs:288-327 | reading back written lines gives the lines, but for one carriage return each |
| `DiffText.ReturnedTextShows` | crates/openproxy-compression/src/diff_compressor.rs:171-189 | the same of the returned text itself, read back line by line |
| `DiffText.TextLosesNothingExactly` | crates/openproxy-compression/src/diff_compressor.rs:171-189 | the returned text shows all lines of the parsed input that begin with a plus or a minus sign if and only if no shown file has more than ten hunks with such lines and the other files have none |
| `DiffCompressor.CompressDiffContent` | crates/openproxy-compression/src/diff_compressor.rs:171-189 | there is a well-formed parse of the input, and for the parse the outcome is its report: banner and compressed files, given exactly for diffs of at least 30 lines whose report is not empty and strictly shorter; notes aside its lines are a subsequence of the input lines |
| `DiffReference.ReportExactly` | crates/openproxy-compression/src/diff_compressor.rs:171-189 | the outcome is, exactly for texts of 30 lines or more with a header among the first ten, the banner and the reference diff as text, if that diff is not empty and the text is shorter; the reference speaks of first characters, sets of hunks and the limits 2, 10, 20 and 19 alone |
| `DiffReference.ReturnedLines` | crates/openproxy-compression/src/diff_compressor.rs:171-189 | the lines of the returned text are the banner and the reference diff, each as it is read back |
| `DiffReference.CompressedTexts` | crates/openproxy-compression/src/diff_compressor.rs:288-445 | for every parse and every hunk pattern, what is written is the reference diff, notes included |
| `DiffReference.NearByText` | crates/openproxy-compression/src/diff_compressor.rs:276-286 | a line survives if and only if some line of the hunk within two lines of it does not begin with a blank |
| `DiffReference.KeptIsChosen` | crates/openproxy-compression/src/diff_compressor.rs:337-365 | a hunk survives if and only if, with a line beginning with a plus or a minus sign, fewer than ten such hunks precede it, or, without, all such hunks and the other hunks before it are fewer than ten |
| `DiffReference.OneFilePerHeader` | crates/openproxy-compression/src/diff_compressor.rs:243-267 | the file headers of the parse are exactly the lines that begin with `diff --git `, in order |
| `DiffReference.OrphansAreDropped` | crates/openproxy-compression/src/diff_compressor.rs:225-267 | the parse drops exactly the lines before the first file or hunk header |
| `DiffReference.DecimalDenotes` | crates/openproxy-compression/src/diff_compressor.rs:301-325 | the number in a note denotes the count, without leading zeros |
| `Whitespace.TrimTrailing` | crates/openproxy-compression/src/lite.rs:105-116 | the text from a position on loses exactly its trailing blanks |
| `Whitespace.ProcessChar` | crates/openproxy-compression/src/lite.rs:29-52 | one step keeps the scan state equal to what the two-stage specification gives for the prefix |
| `Whitespace.NeedsNormalization` | crates/openproxy-compression/src/lite.rs:71-103 | true if and only if the two-stage result differs from the input |
| `Whitespace.NormalizeMessageWhitespace` | crates/openproxy-compression/src/lite.rs:54-69 | the one-pass scan computes: cut original newline runs to two, then strip every line; borrowed exactly when nothing changes |
| `Whitespace.NormalizedIdentity` | crates/openproxy-compression/src/lite.rs:71-103 | the result equals the input if and only if there is no triple newline and no blank before a newline or the end |
| `Whitespace.ResultLines` | crates/openproxy-compression/src/lite.rs:54-69 | the lines of the result are the trimmed lines of the cut text; none ends in a blank |
| `Whitespace.RunIsCut` | crates/openproxy-compression/src/lite.rs:35-43 | a run of n newlines between other characters is cut to min(n, 2), wherever it stands |
| `Whitespace.BlanksAreTrimmed` | crates/openproxy-compression/src/lite.rs:105-116 | a line loses exactly the spaces and tabs at its end |
| `Whitespace.IdempotentExactly` | crates/openproxy-compression/src/lite.rs:29-69 | a second pass changes nothing if and only if the cut text has no two all-blank inner lines in a row |
| `Whitespace.NotIdempotent` | crates/openproxy-compression/src/lite.rs:29-69 | a family of inputs that a second pass changes |
| `JsonMinifier.MinifyJson` | crates/openproxy-compression/src/lite.rs:354-378 | the flag-driven loop equals the three-state scan |
| `JsonMinifier.SlotPasses` | crates/openproxy-compression/src/lite.rs:354-378 | every rendering of a JSON value, with any whitespace, scans to its whitespace-free rendering, literals and escapes unchanged |
| `JsonMinifier.MinifyIsCompact` | crates/openproxy-compression/src/lite.rs:354-378 | minifying a document gives the compact rendering of its value |
| `JsonMinifier.TextUnique` | crates/openproxy-compression/src/lite.rs:354-378 | two whitespace-free values with the same text and any following text are equal, so the compact text determines the value |
| `JsonMinifier.MinifySeparatesValues` | crates/openproxy-compression/src/lite.rs:354-378 | two documents minify alike if and only if they denote the same value |
| `JsonMinifier.MinifyPreservesMeaning` | crates/openproxy-compression/src/lite.rs:354-399 | any document that reads as the minified text denotes the original value |
| `JsonMinifier.TryCompactJsonText` | crates/openproxy-compression/src/lite.rs:380-399 | states exactly when there is a result; it is strictly shorter and, if the trimmed text is a document, the compact rendering of its value |
| `JsonOutcome.DocumentOutcome` | crates/openproxy-compression/src/lite.rs:380-399 | a JSON document between white characters gives a result if and only if it is an object or an array with a line feed or two blanks in a row, its compact form is shorter than the text and the validator accepts it; that form is the result |
| `JsonOutcome.TrimExactly` | crates/openproxy-compression/src/lite.rs:386-387 | trimming removes the white characters at both ends and nothing else |
| `JsonOutcome.DroppedExactly` | crates/openproxy-compression/src/lite.rs:354-378 | outside literals exactly blank, tab, line feed, form feed and carriage return disappear |
| `JsonRestore.JsonExactly` | crates/openproxy-compression/src/lite.rs:386-399 | if the minified text is JSON, which is all the pass checks, the text was JSON if and only if outside literals it holds no form feed and no whitespace between two atom characters |
| `JsonRestore.CompactedExactly` | crates/openproxy-compression/src/lite.rs:386-399 | for every validator that accepts only JSON: a result is the compact rendering of the value of the trimmed text if that text meets the condition, else the text was no JSON |
| `JsonRestore.AtomsRunTogether` | crates/openproxy-compression/src/lite.rs:386-399 | whitespace inside an atom, or between two that make one, is no JSON and minifies to JSON, for all atoms |
| `JsonRestore.NumbersRunTogether` | crates/openproxy-compression/src/lite.rs:380-399 | the pass turns `[1  2]`, which is no JSON, into `[12]`, which is |
| `JsonRestore.FormFeedIsDropped` | crates/openproxy-compression/src/lite.rs:380-399 | the pass turns an array with a form feed, which is no JSON, into `[1,2]` |
| `CacheMarkers.StripFirstAt` | crates/openproxy-adapters/src/anthropic_cache.rs:255-367 | removing the first n markers of a list changes exactly the blocks that hold one of them |
| `CacheMarkers.StripMessagesAt` | crates/openproxy-adapters/src/anthropic_cache.rs:314-335 | over messages, each message loses what is left of the n after the messages before it |
| `CacheMarkers.StripPhase` | crates/openproxy-adapters/src/anthropic_cache.rs:267-312 | one phase removes the first min(excess, available) markers, sparing the last one if asked, and lowers the excess by as many |
| `CacheMarkers.StripMessagePhase` | crates/openproxy-adapters/src/anthropic_cache.rs:314-335 | the message phase removes the first min(excess, markers) markers across all messages |
| `CacheMarkers.SharesFollowOrder` | crates/openproxy-adapters/src/anthropic_cache.rs:255-367 | what the five phases take is exactly the first `excess` markers of the order: system except last, tools except last, messages, last system, last tool |
| `CacheMarkers.PhasesSacrifice` | crates/openproxy-adapters/src/anthropic_cache.rs:268-367 | five phases in sequence remove what the simple rule removes at once |
| `CacheMarkers.EnforcedTotal` | crates/openproxy-adapters/src/anthropic_cache.rs:255-367 | exactly min(total, effective limit) markers remain |
| `CacheRule.EnforcedObeys` | crates/openproxy-adapters/src/anthropic_cache.rs:255-367 | block by block: a block loses its `cache_control` field and nothing else if and only if that marker is among the first excess ones of the order of sacrifice; every other block, message and field is unchanged |
| `CacheRule.CheaperGoFirst` | crates/openproxy-adapters/src/anthropic_cache.rs:248-254 | every marker that goes is cheaper than every marker that stays: system except last, tools except last, messages, last system, last tool, and among equals the earlier one |
| `CacheRule.EnforcedSpots` | crates/openproxy-adapters/src/anthropic_cache.rs:255-264 | as many places hold a marker afterwards as may, or as did before; a thread that is present and not null costs one |
| `CacheRule.TotalIsSpots` | crates/openproxy-adapters/src/anthropic_cache.rs:12-49 | the count is the number of places in tools, system and message content that hold a `cache_control` field |
| `CacheMarkers.Payload.CountCacheControls` | crates/openproxy-adapters/src/anthropic_cache.rs:12-49 | the number of markers in tools, system and message content |
| `CacheMarkers.Payload.EnforceCacheControlLimit` | crates/openproxy-adapters/src/anthropic_cache.rs:255-367 | the new payload is the old one without its first excess markers in the order of sacrifice and otherwise unchanged |
| `CacheInjector.InjectToolsCacheControl` | crates/openproxy-adapters/src/anthropic_cache.rs:63-99 | a marker on the last tool that is not deferred, unless some tool has one |
| `CacheInjector.InjectSystemCacheControl` | crates/openproxy-adapters/src/anthropic_cache.rs:101-132 | a marker on the last block unless there is one; non-blank text becomes a marked block |
| `CacheInjector.FindLastEligible` | crates/openproxy-adapters/src/anthropic_cache.rs:134-158 | the last user or assistant message with a text or with blocks, of which the last is not the assistant's `thinking` or `redacted_thinking`; None exactly if there is none |
| `CacheInjector.InjectMessagesCacheControl` | crates/openproxy-adapters/src/anthropic_cache.rs:160-238 | the marker goes to a trailing system text if there is one and some message is eligible, else to the latest eligible message |
| `CacheInjector.EnsureAnthropicCacheControl` | crates/openproxy-adapters/src/anthropic_cache.rs:240-246 | the new payload is the injected form of the old one; tools only without a cacheable system prompt |
| `CacheTargets.EnsuredIsRuled` | crates/openproxy-adapters/src/anthropic_cache.rs:52-246 | the new payload is the only one that follows the rule, said in field names, roles and block types: the system prompt, else the last tool without `defer_loading` true, gains; of the messages, if any can carry the rolling marker, the closing non-blank system text gains, else the last message that can; lists with a marker gain none; nothing else changes |
| `CacheInjector.EligibleExactly` | crates/openproxy-adapters/src/anthropic_cache.rs:134-158 | which messages can carry the rolling marker, by role and by the type of the last block |
| `CacheInjector.EnsuredBlocks` | crates/openproxy-adapters/src/anthropic_cache.rs:52-246 | block by block: at most one block changes across tools and system and at most one in messages; it had no marker and gets one, or is the marked text block of a former string; no other block, marker, message or field changes |
| `CacheInjector.EnsuredGain` | crates/openproxy-adapters/src/anthropic_cache.rs:52-246 | in numbers: at most one marker is added across tools and system and at most one in messages |
| `CacheInjector.EnsuredKeepsContent` | crates/openproxy-adapters/src/anthropic_cache.rs:52-246 | markers and the string form of a text aside, the payload is unchanged |
| `CacheInjector.EnsuredTwiceExactly` | crates/openproxy-adapters/src/anthropic_cache.rs:170-246 | a second call is a no-op if and only if it is not the case that the messages end with non-blank system text and the latest eligible message can still take a marker |
| `CacheInjector.SecondCallMarksAgain` | crates/openproxy-adapters/src/anthropic_cache.rs:170-246 | the failing case, for all texts: after a user message and a non-blank system message, two calls add two markers to the messages |
| `LogSelector.CollectErrorIndices` | crates/openproxy-compression/src/log_compressor.rs:287-304 | adds exactly the first ten error lines with up to three following lines each |
| `LogSelector.CollectStackTraceIndices` | crates/openproxy-compression/src/log_compressor.rs:306-328 | adds exactly the first twenty lines of each of the first three maximal stack-trace runs |
| `LogSelector.CollectWarningIndices` | crates/openproxy-compression/src/log_compressor.rs:330-347 | adds exactly the first line of each of the first five distinct key hashes |
| `LogSelector.CollectSummaryAndHeaderIndices` | crates/openproxy-compression/src/log_compressor.rs:349-362 | adds exactly the summary and header lines |
| `LogSelector.SelectLines` | crates/openproxy-compression/src/log_compressor.rs:364-375 | strictly ascending, exactly the hundred smallest listed positions |
| `LogSelector.WantedIsListed` | crates/openproxy-compression/src/log_compressor.rs:287-362 | a position is wanted if and only if it is one of the first ten errors or of the three lines after it, of the first twenty lines of the first three stack traces, the first warning of one of the first five hashes, a summary or a header, counted by sets |
| `DedupKey.ScanHexRun` | crates/openproxy-compression/src/log_compressor.rs:395-406 | the end of a 0x literal at a position, if there is one |
| `DedupKey.ScanDigitRun` | crates/openproxy-compression/src/log_compressor.rs:408-417 | the end of a digit run at a position, if there is one |
| `DedupKey.ScanPathRun` | crates/openproxy-compression/src/log_compressor.rs:419-438 | the end of a path of at least two characters at a position, if there is one |
| `DedupKey.NormalizeTrailing` | crates/openproxy-compression/src/log_compressor.rs:440-465 | the scan computes the normal form, hex before digits before paths |
| `DedupKey.NormalizedIsIdempotent` | crates/openproxy-compression/src/log_compressor.rs:395-465 | normalising twice is normalising once, and no digit is left |
| `DedupKey.KeyIsIdempotent` | crates/openproxy-compression/src/log_compressor.rs:382-465 | the key of a key is the key, for every line, despite the verbatim prefix |
| `DedupKey.NormalizedSplits` | crates/openproxy-compression/src/log_compressor.rs:440-465 | a character no run contains splits a text into two that are normalised apart |
| `DedupPieces.NumbersAreMerged` | crates/openproxy-compression/src/log_compressor.rs:440-465 | texts that differ only in a number between such characters are normalised alike |
| `DedupPieces.LiteralsAreMerged` | crates/openproxy-compression/src/log_compressor.rs:395-406 | the same for hex literals: `0x` and any non-empty strings over 0-9, a-f, A-F |
| `DedupPieces.PathsAreMerged` | crates/openproxy-compression/src/log_compressor.rs:419-438 | the same for paths: a slash and at least one more of letters, digits, `/`, `.`, `_`, `-` |
| `DedupPieces.ReplaceablesAreMerged` | crates/openproxy-compression/src/log_compressor.rs:440-465 | any literal, number or path between such characters becomes one star |
| `DedupPieces.NormalizedByReading` | crates/openproxy-compression/src/log_compressor.rs:395-465 | t is the normal form of s if and only if s can be read, each piece as long as possible, as literals, numbers, paths and single characters whose stars and characters spell t; all ranges are spelled out |
| `DedupPieces.KeyAtSeparator` | crates/openproxy-compression/src/log_compressor.rs:382-393 | the prefix up to the first colon or equals sign stays and the rest is normalised; without one all of the line is |
| `DedupPieces.WarningsAreMerged` | crates/openproxy-compression/src/log_compressor.rs:377-393 | warnings that differ only in a literal, number or path at their end have the same key |
| `DedupKey.DedupKeyOf` | crates/openproxy-compression/src/log_compressor.rs:382-393 | verbatim up to the first colon or equals sign, normal form after it; all normalised if there is none |
| `Bytes.BeReadsBack` | crates/openproxy-core/src/audio_duration.rs:40-43 | reading four big-endian bytes written for n gives n |
| `Bytes.BeIsBig` | crates/openproxy-core/src/audio_duration.rs:40-43 | the four bytes are read as a number, most significant first |
| `Bytes.LeReadsBack` | crates/openproxy-core/src/audio_duration.rs:45-48 | reading four little-endian bytes written for n gives n |
| `Bytes.LeIsLittle` | crates/openproxy-core/src/audio_duration.rs:45-48 | the four bytes are read as a number, least significant first |
| `Wav.WalkChunks` | crates/openproxy-core/src/audio_duration.rs:60-91 | the loop knows byte rate and data length exactly as the recursive walk does |
| `Wav.WavDurationMs` | crates/openproxy-core/src/audio_duration.rs:59-100 | with rate R and length L found, the result is ms if and only if R > 0, ms * R <= 1000 * L < (ms + 1) * R and 0 < ms < 2^32; None otherwise |
| `Wav.WavDurationOfBytes` | crates/openproxy-core/src/audio_duration.rs:59-100 | on every byte string, malformed ones included: the duration is that of the rate in bytes 8 to 11 after the header of the last `fmt ` chunk and of the length of the last `data` chunk (all that follows if it declares 0 or too much), among the chunks from byte 12 on, word-padded, up to where both are known or the file ends |
| `Wav.SomeVisit` | crates/openproxy-core/src/audio_duration.rs:64-91 | every byte string has such a list of chunks |
| `Wav.WalkIsFold` | crates/openproxy-core/src/audio_duration.rs:64-91 | on serialised word-padded chunks the byte walk is the fold over the chunks |
| `Wav.FoldFindsBoth` | crates/openproxy-core/src/audio_duration.rs:64-91 | the fold stops where both a format and a data chunk were seen and knows the last of each up to there, in any order and with any repeats |
| `Wav.WavDurationOfChunks` | crates/openproxy-core/src/audio_duration.rs:59-100 | for every list of word-padded chunks, the result is the whole milliseconds that the data lasts at the byte rate stated in bytes 8 to 11 of the format chunk, for the last `fmt ` and `data` chunks up to where both were seen; None without one of them, at rate 0, below 1 ms and from 2^32 ms on |
| `Wav.StopsSomewhere` | crates/openproxy-core/src/audio_duration.rs:64-91 | every list of chunks has such a place |
| `Wav.StreamedDuration` | crates/openproxy-core/src/audio_duration.rs:70-81 | when the last chunk is a data chunk that declares 0 or more bytes than are there, the duration is the whole milliseconds of the bytes present, whatever chunks precede it |
| `BoxFinder.FindBox` | crates/openproxy-core/src/audio_duration.rs:201-233 | the loop with its recursion terminates and returns what the recursive search finds |
| `BoxFinder.HitIsInside` | crates/openproxy-core/src/audio_duration.rs:201-233 | on every byte string, a hit lies wholly inside the range and has the requested type |
| `BoxFinder.HeadersAreFew` | crates/openproxy-core/src/audio_duration.rs:201-233 | at most (end - start) / 8 headers are examined, nested ones included |
| `BoxFinder.ContainersByName` | crates/openproxy-core/src/audio_duration.rs:209-210 | the containers are the boxes named `moov`, `trak` and `mdia` |
| `BoxFinder.BadSizeEndsSearch` | crates/openproxy-core/src/audio_duration.rs:211-230 | a size from 2 to 7, a 64-bit size that is cut off or below 8, and one whose end exceeds 64 bits end the search without a hit, on every byte string |
| `BoxTree.SameForest` | crates/openproxy-core/src/audio_duration.rs:201-233 | a well-formed box tree is determined by its bytes and its size, so a file has only one |
| `BoxTree.FindSearchesForest` | crates/openproxy-core/src/audio_duration.rs:201-233 | on every well-formed box tree, for every range end inside it, the hit is the first match in pre-order through moov, trak and mdia, containers with a 64-bit size excepted |
| `BoxTree.LargeHides` | crates/openproxy-core/src/audio_duration.rs:213-230 | inside a container with a 64-bit size the search takes the size for a box and finds nothing |
| `BoxTree.SizeSpellsType` | crates/openproxy-core/src/audio_duration.rs:213-230 | a 64-bit size that spells the wanted type is taken for a box of that type |
| `BoxTree.FindMeetsStandardExactly` | crates/openproxy-core/src/audio_duration.rs:201-233 | for every range end inside a well-formed tree, the search returns the first match of the standard's layout if and only if that match is not inside a container with a 64-bit size |
| `BoxTree.SmallFileMeetsStandardExactly` | crates/openproxy-core/src/audio_duration.rs:180-233 | the same for files below 16 MiB without any assumption on sizes, for every range end, the caller's one MiB included |
| `BoxTree.LargeMovieIsMissed` | crates/openproxy-core/src/audio_duration.rs:213-230 | the failing case, for every brand and header body: behind a file type box, a movie header inside a moov box with a 64-bit size is not found |
| `Csv.WriteCsvCellEscaped` | crates/openproxy-compression/src/smart_crusher.rs:163-177 | appends the cell, quoted with quotes doubled exactly if it holds a comma, quote, CR or LF |
| `Csv.WriteJsonValueToCsvCell` | crates/openproxy-compression/src/smart_crusher.rs:179-192 | appends the escaped text of the value; null is an empty cell |
| `Csv.WriteCsvRow` | crates/openproxy-compression/src/smart_crusher.rs:194-205 | appends one cell per field, separated by commas, a missing field as an empty cell |
| `Csv.RowAt` | crates/openproxy-compression/src/smart_crusher.rs:194-205 | cell j of a row is the text of field j of the item |
| `CsvMeaning.TableShows` | crates/openproxy-compression/src/smart_crusher.rs:179-205 | what a reader finds in row i and column j: nothing for a missing field or null, `true` or `false`, the digits of a number, the text itself, or the printed nested value |
| `CsvMeaning.CellsAgreeExactly` | crates/openproxy-compression/src/smart_crusher.rs:179-192 | two fields without nested values look alike if and only if they are equal, both empty, or one is a text that spells the other |
| `CsvMeaning.QuotedExactly` | crates/openproxy-compression/src/smart_crusher.rs:163-177 | a text is written as it is if and only if it holds no comma, quote, line feed or carriage return, and is quoted otherwise |
| `Csv.CellDecodes` | crates/openproxy-compression/src/smart_crusher.rs:163-177 | every cell text decodes from its escaped form, whatever cell or row follows |
| `Csv.RowDecodes` | crates/openproxy-compression/src/smart_crusher.rs:194-205 | every non-empty row decodes from its text, whatever row follows |
| `Csv.BodyDecodes` | crates/openproxy-compression/src/smart_crusher.rs:163-226 | the whole table of cell texts decodes from the rows, for all cell contents |
| `Csv.OutputDecodesExactly` | crates/openproxy-compression/src/smart_crusher.rs:207-226 | one decoder of the whole output returns the names and the table if and only if no name contains a comma or a newline |
| `Csv.NamesRunTogether` | crates/openproxy-compression/src/smart_crusher.rs:207-226 | the failing case, for all cell texts: the tables with columns `a,b` and `c` and with columns `a` and `b,c` give the same output |
| `Csv.RowsRunTogether` | crates/openproxy-compression/src/smart_crusher.rs:207-226 | the same for newlines, for all names and cell texts: two rows under one column, and one row under a column whose name contains the first row, give the same output |
| `Csv.OrderedIsUnique` | crates/openproxy-compression/src/smart_crusher.rs:132-142 | an ordered list of names is determined by its elements, so an array has only one list of columns |
| `Csv.AllFields` | crates/openproxy-compression/src/smart_crusher.rs:132-142 | strictly ascending, exactly the names that occur in some object |
| `Csv.TryLosslessCsv` | crates/openproxy-compression/src/smart_crusher.rs:207-226 | the outcome for the array's only list of columns; names and cell texts decode from a result if and only if no name contains a comma or a newline, and the cell texts in any case once the names are known |
| `CsvMeaning.WrittenExactly` | crates/openproxy-compression/src/smart_crusher.rs:117-161 | the form is written if and only if all items are objects, there is a field name, and at least four fifths of the items have at least four fifths of all field names, counted by sets |
| `CsvMeaning.KeysOfItems` | crates/openproxy-compression/src/smart_crusher.rs:132-142 | a name is a column exactly if some object has it |
| `CsvMeaning.SchemaComesFirst` | crates/openproxy-compression/src/smart_crusher.rs:212-219 | the output begins with `#schema:` and the names |

## Left out

- Overlapping checks of the same key: a check is one atomic step, although the map lookup and the
  insertion are separate operations. Acquires, drops and sweeps are interleaved entry by entry.
- Clock readings are inputs; runs assume that they never decrease.
- Foreign functions are parameters: the hunk-header regular expressions, the hash of a warning key,
  the JSON validator and printer, the whitespace test behind `trim` in the JSON pass. Every result
  holds for any of them, with two exceptions. `DiffChanges.OutputShows` and what builds on it need
  that no addition or deletion matches the hunk-header pattern, which begins with `@@`
  (`DiffChanges.ParsedIsPlain`), and `JsonRestore.CompactedExactly` needs a validator that accepts
  only JSON.
- Sorting and removing duplicates of positions is a function on ascending lists, not a library
  algorithm.
- Text is a sequence of characters: bytes in the diff compressor and the log scanners, Unicode
  scalars elsewhere. UTF-8 itself is not part of this model.
- Machine integers: sizes are unbounded, except that the 64-bit addition that ends a box search and
  the u32 results of the probes are explicit.
- BoxTree.FindSearchesForest: assumes of a container with a 64-bit size whose header lies in the
  range that this size fits 32 bits and does not spell a box type the search reacts to
  (`BoxTree.SizeSpellsType` shows what happens otherwise); the range ends inside the tree.
- BoxTree.FindMeetsStandardExactly: makes the same assumption; files below 16 MiB need none
  (`BoxTree.SmallFileMeetsStandardExactly`).
- BoxTree.LargeHides: makes the same assumption on the size.
- Wav.WavDurationOfChunks: takes format chunks of at least twelve bytes and data chunks that are not
  empty; `Wav.WavDurationOfBytes` covers every byte string.
- JSON texts are modelled by the grammar of RFC 8259 over Unicode scalars; values are compared as
  written, so `1.0` and `1` or two spellings of one character are different values here.
- Payloads are modelled by the fields the breakpoint rules look at; the others are carried along.
- The lossy route of the JSON crusher, log format detection and line classification, the other
  passes of the lite compressor, the MP3, Ogg, Speex and FLAC probes and the reading of the movie
  header: heuristics and table lookups about which the repository promises nothing further.
- The rest of the sandbox (landlock, resource limits, capabilities) consists of system calls.
- Routing, storage, quota and network code is not part of this model.
