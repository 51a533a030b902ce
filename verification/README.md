# A verified model of the probe and hub analysis engines

The probe sits beside an application and the hub asks it questions. Between them they hold a handful
of small stateful engines that read input nobody controls: thread dumps, browser beacons, access
logs, socket tables, traces. This project models those engines in Dafny and proves what each of them
promises, for every input, every run or every interleaving.

| file | what it models |
|---|---|
| `ThreadDump`, `FunctionalGraph` | the search for deadlocks along "blocked thread -> lock owner" |
| `ThreadCounters` | the pool, state and lock counters of a thread dump |
| `RollingWindow`, `RumAggregator`, `RumFiling`, `RumRuns` | the window of samples, the aggregator object, where it files the events of a beacon, and all runs of it |
| `Percentiles`, `Sorting` | nearest-rank percentiles, their weighted merge, the sort-then-cut of every report |
| `Routes`, `Text` | route and path normalisation, by scanning and by segments |
| `RumClient` | the browser client's buffer and its latest-value table |
| `ProbeCache` | the negative cache of unreachable probes, with overlapping calls |
| `TraceForest` | children, self time and depth of a trace's spans; the slowest traces |
| `Crc32`, `CrcPolynomial`, `ShiftRegisters`, `PngChunks` | table-driven CRC-32, as polynomial division too, and PNG chunk framing (RFC 2083, sections 3.2, 3.4 and 15) |
| `Raster` | the picture generator's noise source and the loop that fills its scan lines |
| `Luhn`, `SensitiveScan` | the check-digit test (ISO/IEC 7812-1, Annex B) and the scan over records |
| `AccessLog` | the one-pass access-log summary |
| `Numerals`, `ProcNet`, `Connections` | `/proc/net` address decoding (RFC 4291, sections 2.2 and 2.5.5.2) and the count of peers |
| `MergeSummaries` | the merge of several replicas' summaries |
| `Grouping`, `Collections` | the "look up, update, store back" loop in general, folds and sums |

Numbers of the original are exact reals or integers here; for the percentiles 50, 75 and 95 the
integer ceiling used in `Percentiles` is the one the program computes. Clocks, fetch outcomes,
consent answers, pattern matchers and redacted texts are inputs of the model. A JavaScript `Map`
whose order shows in the output is a `Table`, a map together with the order of its keys.

Where the program does not do what one would first claim, the claim is replaced by an exact
condition, and an input shows why:

- a deadlock is reported again for outside threads that wait into it (`ReportedTwice`); how often is
  counted from the wait graph, and `ExactlyOnceIff` says when it is once;
- route normalisation is idempotent exactly when its result fits the cap of 200 characters
  (`IdempotentIff`), because `/1` grows to `/:id` after the cut (`NormalizedCanExceedCap`);
- the first segment of a route is never rewritten, so a stored route is free of numbers and UUIDs
  throughout exactly when the first segment of the cut route is neither (`CleanThroughoutIff`;
  `123/x` shows it, `FirstNumberKept`);
- normalising keeps the number of segments exactly when the cut leaves something
  (`NormalizedSegments`; `?q` shows it, `QueryOnlyGainsSegment`);
- the depth of a span is defined for all spans of a trace exactly when the parent links have no cycle
  (`SpanDepthsIff`; two spans that name each other as parent show it, `MutualParentsHaveNoDepth`);
- pruning never reaches view durations, at any clock (`ViewDurationsNeverPruned`; a view and a later beacon
  show it, `OldDurationStays`), so under a nondecreasing clock they are all recent exactly when the oldest
  that the cap has left is (`ViewsFreshIff`);
- everything else is younger than the retention, counted from the last prune, after every call exactly
  when no beacon from before that cutoff leaves a stamp without pruning (`AlwaysFreshIff`; a clock that
  steps back shows it, `SteppedBackIsStale`); a nondecreasing clock is sufficient (`TimelyNoneStale`);
- a window equals its filtered history after every step exactly when no push is stamped before a
  cutoff in force and no prune straddles the samples that the cap has pushed out
  (`RefinedThroughoutIff`); a nondecreasing clock is sufficient (`WellTimedUndisturbed`), a clock that
  never steps behind a cutoff in force is necessary (`ClockStepsBack`) and not sufficient
  (`CapNeedsOrder`);
- a merge in which no replica has samples reports one sample (`MergedCount`). The probes send no such
  figures today, because `summary` leaves out windows without samples (src/probe/rum.ts:207 and 213);
- a merge keeps p95 <= max exactly when the weighted mean of the p95 figures does not round past the
  greatest maximum (`MergeOrderedIff`; `UnroundedCanExceedMax` is the input). Figures rounded to three
  decimals, which is all that the probes send (src/probe/rum.ts:35), always keep it (`MergeKeepsOrder`);
- a vital drained while the consent gate is closed is not sent, and not drained again until a callback
  carries another value (`ClosedGateLosesValue`, `NotDrainedAgain`); after a flush the batch with the
  latest value was sent exactly if the gate was open at the flush that last drained the metric
  (`LatestValueSentIff`), and the last value sent is the latest one in that case or when the metric is
  back at the value it had at its last open drain (`LastSentIsLatestIff`, `ReturnedValueWasSent`);
- the scan of a record ends exactly when it never meets an empty match that its validator rejects
  (`LoopEndsIff`). No detector of the program can meet one today, because the only one with a validator
  matches at least 13 digits; the condition concerns detectors to come (`RejectedEmptyMatchSpins`).

## Model

| member | source | states |
|---|---|---|
| ThreadDump.WaitMapMeaning | src/hub/tools/java.ts:135-136 | a waits for b in the wait map exactly when the last entry named a that is BLOCKED and has an owner that is not empty names b |
| ThreadDump.BuildWaits | src/hub/tools/java.ts:135-136 | the loop builds that map and the order of its keys |
| ThreadDump.OrderedNames | src/hub/tools/java.ts:136 | the keys are exactly the names that have such an entry |
| ThreadDump.KeysInFirstOrder | src/hub/tools/java.ts:136-139 | and they come in the order of the first such entries |
| ThreadDump.ReportIff | src/hub/tools/java.ts:141-148 | following the chain from a start reports c exactly when the start leads, over a duplicate-free tail, into the cycle c and tail and cycle together have at most 20 threads |
| ThreadDump.DeadlocksSound | src/hub/tools/java.ts:137-152 | every reported deadlock is a genuine cycle of distinct threads, at most 20 long |
| ThreadDump.CycleReportedIff | src/hub/tools/java.ts:137-152 | a cycle of waiting threads is reported if and only if it has at most 20 threads |
| ThreadDump.RunsIntoIff | src/hub/tools/java.ts:139-151 | the outside starts at which the search reports a cycle are exactly the outside threads whose waits lead into it along a way that fits the cap |
| ThreadDump.ReportCount | src/hub/tools/java.ts:138-152 | a cycle is reported once for each outside thread that runs into it within the cap, plus once if one of its own threads comes before all of those |
| ThreadDump.ExactlyOnceIff | src/hub/tools/java.ts:138-152 | a cycle is reported once iff no outside thread of the wait graph runs into it within the cap, or just one does and comes before the cycle's own threads |
| ThreadDump.UndisturbedCycleOnce | src/hub/tools/java.ts:138-152 | a cycle that no outside thread waits into is reported exactly once |
| ThreadDump.ReportedTwice | src/hub/tools/java.ts:139-151 | with A and B blocked on each other and C waiting for A, the pair is reported twice |
| ThreadDump.FindDeadlocks | src/hub/tools/java.ts:137-152 | the double loop computes the reports of the specification |
| ThreadDump.FindThreadDeadlocks | src/hub/tools/java.ts:132-152 | from the entries of the dump on: every report is a ring of distinct names, each of whose last blocked entries names the next, of at most 20 names; and a ring is reported iff it has at most 20 names |
| ThreadDump.MutuallyBlockedReported | src/hub/tools/java.ts:132-152 | two threads blocked on each other are reported as one pair, a waiting third is not |
| ThreadCounters.NumberedWorkersShare | src/hub/tools/java.ts:112 | threads whose names differ only in a separated number at the end fall into one pool |
| ThreadCounters.NumberDropped | src/hub/tools/java.ts:112 | exactly the number at the end of a name is dropped, and one dash, underscore or space before it |
| ThreadCounters.BracketDropped | src/hub/tools/java.ts:112 | and then everything from the first bracket after which the line does not end |
| ThreadCounters.CountersMeaning | src/hub/tools/java.ts:110-121 | each state, pool and lock counter equals an independent filter over the fields of the threads; a lock shows the owner named by the first of its blocked threads |
| ThreadCounters.CountersTotal | src/hub/tools/java.ts:110-116 | states and pools each account for every thread; the pools' busy threads are the runnable and the blocked ones |
| ThreadCounters.CountThreads | src/hub/tools/java.ts:104-121 | the counting loop computes those tables |
| RollingWindow.RollingSamples.Push | src/probe/rum.ts:26-29 | push appends and keeps the last 2000 samples |
| RollingWindow.LastExact | src/probe/rum.ts:28 | what stays is the end of the samples, cut to 2000 |
| RollingWindow.RollingSamples.Prune | src/probe/rum.ts:30-32 | the filtering loop computes the specified filter, which `KeepFromMembers` and `KeepFromConcat` characterise |
| RollingWindow.KeepFromMembers | src/probe/rum.ts:30-32 | pruning keeps exactly the samples not older than the cutoff |
| RollingWindow.KeepFromConcat | src/probe/rum.ts:30-32 | and keeps them in their order: it acts on each part of the samples alone |
| RollingWindow.RollingSamples.Percentiles | src/probe/rum.ts:33-43 | p50, p75 and p95 are each the rounded nearest rank of that percentage among the samples held, count is their number, and the figures are ordered |
| RollingWindow.WindowRefines | src/probe/rum.ts:24-32 | under a nondecreasing clock, after any pushes and prunes, the window is the last 2000 of all samples ever pushed that are not older than the largest cutoff so far |
| RollingWindow.ClockStepsBack | src/probe/rum.ts:24-32 | after any run, a push stamped before a cutoff in force stays in the window although the history filter excludes it |
| RollingWindow.RefinedThroughoutIff | src/probe/rum.ts:24-32 | for any operations, the window equals its filtered history after every one of them iff no push is late and no prune spares a sample the cap has pushed out while dropping one it holds |
| RollingWindow.WellTimedUndisturbed | src/probe/rum.ts:24-32 | a nondecreasing clock meets that condition |
| RollingWindow.CapNeedsOrder | src/probe/rum.ts:24-32 | a run without any late push on which a prune breaks the equation |
| RumAggregator.UncountedChangesNothing | src/probe/rum.ts:103-168 | an event that is not counted leaves the whole state unchanged |
| RumAggregator.RumAggregator.Ingest | src/probe/rum.ts:93-171 | the method takes the object's fields to the state of the step function, which `RumFiling` reads off the beacon's fields, and returns the number of counted events; input that is no beacon changes nothing |
| RumAggregator.RumAggregator.IngestEvents | src/probe/rum.ts:102-168 | the event loop applies the first 200 events in order and counts the accepted ones |
| RumFiling.ViewsFiled | src/probe/rum.ts:102-124 | an ingest adds to a route's views and entries exactly those of the first 200 events that are views whose own route, or the beacon's if they have none, normalises to it; none is left out unless the table is full at 200 |
| RumFiling.VitalsFiled | src/probe/rum.ts:102-115 | to a route's window of a vital it sends exactly the values from 0 to 600000 of that vital for that route, in order |
| RumFiling.PhasesFiled | src/probe/rum.ts:157-164 | to a known route's window of a navigation phase exactly the values from 0 to under 600000 of that phase for that route |
| RumFiling.RequestsFiled | src/probe/rum.ts:127-142 | to a resource's counters exactly the requests of it, and those with a status of 400 or more |
| RumFiling.ErrorsFiled | src/probe/rum.ts:143-156 | to an error's entry exactly the errors of its signature; the first sighting and the sample stay, the last sighting moves on |
| RumFiling.DeviceFiled | src/probe/rum.ts:97-98 | it counts the beacon's device once |
| RumFiling.SessionFiled | src/probe/rum.ts:99 | and stamps the session if its name has 4 to 64 letters, digits, underscores and dashes |
| RumFiling.AcceptedMeaning | src/probe/rum.ts:101-170 | the number returned is the number of the events looked at that left something |
| RumFiling.FiledUnderOwnRoute | src/probe/rum.ts:107 | a vital of "cart" in a beacon of "home" is filed under "cart" only |
| RumAggregator.RumAggregator.Prune | src/probe/rum.ts:192-199 | the loops over the tables compute the pruned state that `PruneMeaning` and `PrunedWindow` characterise |
| RumAggregator.PruneMeaning | src/probe/rum.ts:192-199 | sessions and errors go exactly when they are older than the cutoff, what stays is as it was, and views and devices are untouched |
| RumRuns.PrunedWindow | src/probe/rum.ts:192-199 | every window but those of the views keeps exactly its samples not older than the cutoff |
| RumRuns.VitalLands | src/probe/rum.ts:108-115 | an accepted vital lands in exactly one window: its route's, or the overflow bucket's for a new route past the cap |
| RumRuns.AlwaysBounded | src/probe/rum.ts:14-17 | in every reachable state vitals and nav hold at most 201 routes (201 only with the overflow bucket), views 200, resources 300, errors 200, windows 2000; entries <= views and errors <= count |
| RumRuns.TotalSamplesBounded | src/probe/rum.ts:79-88 | all windows of a reachable state together hold at most 6226000 samples |
| RumRuns.AlwaysFreshIff | src/probe/rum.ts:93-199 | after every call of a run nothing is older than the retention counted from the last prune, iff no call is a beacon from before that cutoff that leaves a stamp and does not prune |
| RumRuns.TimelyNoneStale | src/probe/rum.ts:93-199 | a nondecreasing clock meets that condition |
| RumRuns.SteppedBackIsStale | src/probe/rum.ts:99-100 | a beacon that names a session at a time to which the clock has stepped back leaves it stale |
| RumRuns.NothingStaleAfterIngest | src/probe/rum.ts:169-170 | in such a run, after a well-formed ingest at `now`, no vital, nav or resource sample, session or error is older than now - retention - 60000, although pruning is lazy |
| RumRuns.CountsConserved | src/probe/rum.ts:116-142 | over any run the stored view and resource counts total exactly the accepted view and resource events |
| RumRuns.PhasesWindow | src/probe/rum.ts:158-161 | the phase loop sends each accepted phase value once, all of them to the route (or overflow bucket) of the first |
| RumRuns.EventWindow | src/probe/rum.ts:103-168 | an event pushes to the one window it is meant for, and every other window of the aggregator stays as it is |
| RumRuns.WindowsRefine | src/probe/rum.ts:93-199 | inside the running aggregator every vital, navigation, resource and view window whose history is undisturbed is the last 2000 of the part of its own push history that the largest cutoff keeps |
| RumRuns.TimelyUndisturbed | src/probe/rum.ts:93-199 | a nondecreasing clock disturbs no window's history |
| RumRuns.ViewDurationsNeverPruned | src/probe/rum.ts:192-199 | at any clock and retention, a route's view durations are the last 2000 ever sent to it, however old |
| RumRuns.ViewsFreshIff | src/probe/rum.ts:192-199 | under a nondecreasing clock none of them is older than a given time iff the oldest that the cap has left is not |
| RumRuns.OldDurationStays | src/probe/rum.ts:192-199 | an input on which a prune takes place and an older duration stays |
| Percentiles.PercentileIsNearestRank | src/hub/model.ts:64-68 | on any nonempty sample the percentile is the least value with at least p percent of the values at or below it |
| Percentiles.SummaryFigures | src/probe/rum.ts:33-43 | the p50, p75 and p95 of a summary are each the nearest rank of that percentage, rounded to thousandths |
| Percentiles.EmptySummary | src/probe/rum.ts:33-43 | without samples every figure is zero |
| Percentiles.SummaryOrdered | src/probe/rum.ts:33-43 | the summary counts every value, p50 <= p75 <= p95 <= max after rounding, and max is the rounded largest value |
| Percentiles.SummaryThousandths | src/probe/rum.ts:35-42 | every figure of a summary has at most three decimals, which is what the merge relies on |
| Percentiles.MergedFigures | src/hub/tools/rum.ts:28-32 | with a positive total each merged percentile is the count-weighted mean of the replicas' figures of its own kind, to the nearest thousandth, and the merged maximum is the greatest |
| Percentiles.MergedBetween | src/hub/tools/rum.ts:28-32 | a merged figure lies between any bounds, of at most three decimals, on the figures of the replicas that have samples |
| Percentiles.MergeKeepsOrder | src/hub/tools/rum.ts:28-32 | with a positive total, merging rounded summaries keeps p50 <= p75 <= p95 <= max |
| Percentiles.MergeOrderedIff | src/hub/tools/rum.ts:28-32 | for any ordered summaries the merged figures are ordered iff the weighted mean of p95 does not round past the greatest maximum |
| Percentiles.UnroundedCanExceedMax | src/hub/tools/rum.ts:30-31 | on a figure that is not rounded to three decimals the merged p95 exceeds the merged maximum; no replica sends such figures, because src/probe/rum.ts:35 rounds them |
| Percentiles.MergePermuted | src/hub/tools/rum.ts:28-32 | the order of the replicas does not matter to the merged figures |
| Percentiles.MergedCount | src/hub/tools/rum.ts:28-32 | the merged count is the sum of the counts iff some replica has samples; otherwise it is 1 |
| Routes.LookaheadIsSegment | src/probe/rum.ts:55-56 | a run of characters up to the pattern's lookahead is a whole segment |
| Routes.RewriteIsSegmentwise | src/probe/rum.ts:54-56 | the left-to-right replacement scan acts on each segment after the first slash, independently |
| Routes.NormalizedRoute | src/probe/rum.ts:49-58 | a stored route, of any input or none, is nonempty, has no query or fragment and no number or UUID after the first slash; no route and the empty one are stored as (unknown) |
| Routes.CutExact | src/probe/rum.ts:51-52 | the cut route ends before the first question mark or hash, or after 200 characters, whichever comes first |
| Routes.NormalizedSegments | src/probe/rum.ts:49-58 | it has as many segments as the cut route iff that is not empty, and then they are the same ones with the ids after the first masked |
| Routes.QueryOnlyGainsSegment | src/probe/rum.ts:51-57 | `?q` is cut to nothing and stored as a slash, which has one segment more |
| Routes.CleanThroughoutIff | src/probe/rum.ts:49-58 | no segment at all is a number or UUID iff the first segment of the cut route is neither |
| Routes.FirstNumberKept | src/probe/rum.ts:54-56 | `123/x` is stored as it is |
| Routes.IdempotentIff | src/probe/rum.ts:49-58 | normalising twice is normalising once if and only if the result has at most 200 characters |
| Routes.NormalizedCanExceedCap | src/probe/rum.ts:52-56 | a route of 200 characters whose normal form is longer |
| Routes.UuidGroups | src/probe/rum.ts:55 | a UUID is five groups of 8, 4, 4, 4 and 12 hexadecimal digits between dashes |
| Routes.ClientSegments | rum-client/src/index.ts:48-50 | the client keeps the segments before the first question mark or hash and masks the ids after the first |
| Routes.ClientRouteSurvives | rum-client/src/index.ts:45-50 | a route resolved by the client is clean, and the server leaves it unchanged iff it has at most 200 characters |
| Routes.FirstSegmentKept | src/probe/rum.ts:54-56 | for every nonempty route the first segment of the cut route is the first segment of the stored one |
| Routes.NormalizePathIsSegmentwise | src/probe/accesslog.ts:81-86 | access-log paths are normalised segment by segment, and normalising is idempotent |
| RumClient.EventsConserved | rum-client/src/index.ts:97-118 | for every interleaving in a sampled session, flushed batches followed by the buffer, minus vital items, are exactly the pushed events in order |
| RumClient.UnsampledSilent | rum-client/src/index.ts:97-118 | outside a sampled session nothing is ever buffered or flushed |
| RumClient.BufferBounded | rum-client/src/index.ts:114-118 | between steps the buffer is shorter than a positive batch size, and empty otherwise |
| RumClient.BatchMeaning | rum-client/src/index.ts:97-118 | a step hands over nothing or one nonempty batch, only if it flushes, under the route the page is on and with the gate's answer |
| RumClient.AllDelivered | rum-client/src/index.ts:97-113 | without a closing consent gate every flushed batch is delivered and none is empty |
| RumClient.EntryMeaning | rum-client/src/index.ts:123-128 | a metric's entry holds the value of its last callback and the route of its first |
| RumClient.NameOfKey | rum-client/src/index.ts:138 | the key of a metric gives its name back |
| RumClient.MetricHistory | rum-client/src/index.ts:97-141 | a metric's drained values never repeat consecutively, keep the route of the first callback and end, after any flush, explicit or caused by a full batch, at the latest value |
| RumClient.LatestValueSentIff | rum-client/src/index.ts:97-141 | after any flush of any run, the last batch carrying a metric holds its latest value and was sent iff the gate was open at the flush that last drained the metric |
| RumClient.LastSentIsLatestIff | rum-client/src/index.ts:97-141 | the last value sent is the latest one iff that gate was not closed or the metric is back at the value of its last open drain |
| RumClient.ReturnedValueWasSent | rum-client/src/index.ts:97-141 | an input for the second case |
| RumClient.DrainAddsOne | rum-client/src/index.ts:135-141 | a step adds an item for a metric iff it flushes and the latest value is not the last drained one, and then exactly that value |
| RumClient.NotDrainedAgain | rum-client/src/index.ts:97-141 | a drained value, at whatever gate, adds no further item and keeps the gate's verdict until a callback carries another value |
| RumClient.ClosedGateLosesValue | rum-client/src/index.ts:99-104 | an input on which a value drained at a closed gate is never sent |
| RumClient.RumClient.FlushNow | rum-client/src/index.ts:97-113 | flush drains the vitals and hands over the whole buffer, in the order of the step function |
| RumClient.RumClient.PushEvent | rum-client/src/index.ts:114-118 | push appends and flushes when the batch is full |
| RumClient.RumClient.DrainVitals | rum-client/src/index.ts:135-141 | the loop over the table buffers each unsent latest value and marks it sent |
| ProbeCache.CacheMeaning | src/probe/client.ts:62-66 | the cache holds exactly the bases with a failure not followed by a success, until 20 s after the latest such failure |
| ProbeCache.BlockedIff | src/probe/client.ts:44-46 | a call fails fast iff some standing failure of its base finished less than 20 s ago |
| ProbeCache.NoFetchDuringBackOff | src/probe/client.ts:43-71 | over any interleaving of overlapping calls, no fetch to a base starts within 20 s after a failure of it finished unless a success finished in between |
| ProbeCache.BasesIndependent | src/probe/client.ts:43-71 | only a base's own events decide whether it is blocked |
| ProbeCache.ProbeClient.Begin | src/probe/client.ts:44-46 | the first half of a call fetches iff the base is not blocked |
| ProbeCache.ProbeClient.Complete | src/probe/client.ts:55-70 | the second half forgets the base on success, remembers it on a network failure and leaves it on an HTTP error |
| TraceForest.BuildChildren | src/providers/datadog/index.ts:295-297 | the loop lists, for every id, the spans with that parent in order |
| TraceForest.ChildrenMeaning | src/providers/datadog/index.ts:297 | they are the spans that name the id as parent, in order, if the trace has a span of that id |
| TraceForest.SelfTimeMeaning | src/providers/datadog/index.ts:301 | a span that outlasts its children makes up its duration with them, any other has self time zero |
| TraceForest.SelfTimesAccountForRoots | src/providers/datadog/index.ts:297-301 | for unique ids the self times add up to the roots' durations and what children outlast their parents by; so they never undercount, and are exact iff no span is outlasted by its children |
| TraceForest.DepthIsDistance | src/providers/datadog/index.ts:298 | depth is the number of links up to the root |
| TraceForest.DepthTerminatesIff | src/providers/datadog/index.ts:298 | for any parent links, every way up ends at a root iff there is no cycle |
| TraceForest.SpanDepthsIff | src/providers/datadog/index.ts:298 | the depth recursion ends on every span of a trace iff the trace's parent links have no cycle |
| TraceForest.MutualParentsHaveNoDepth | src/providers/datadog/index.ts:298 | an input with unique ids on which it ends on no span |
| TraceForest.DepthBelowSpanCount | src/providers/datadog/index.ts:298 | on acyclic links every span, even one whose id comes again, has a depth: its distance to a root, below the number of spans |
| TraceForest.TraceRowIsSlowest | src/providers/datadog/index.ts:264-273 | a trace's row carries the first of its slowest spans and that span's rounded duration |
| TraceForest.OneRowPerTrace | src/providers/datadog/index.ts:264-278 | every trace among the spans has exactly one row |
| TraceForest.SlowTraces | src/providers/datadog/index.ts:260-281 | the method reports the first rows by descending duration up to the limit |
| TraceForest.SlowTracesCut | src/providers/datadog/index.ts:260-281 | they are in descending order of their shown durations, as many as the limit allows, and no dropped one is slower |
| Sorting.TopIsBest | src/providers/datadog/index.ts:279-280 | "sort, then slice" keeps as many rows as allowed, in descending order, and drops none that beats a kept one |
| Sorting.SortByStable | src/probe/accesslog.ts:150 | rows with equal keys keep their order |
| Crc32.BuildTable | faultlab/angular-app/scripts/gen-hero.mjs:10-14 | the loops build the 256 entries of eight register turns each |
| CrcPolynomial.Entry128 | faultlab/angular-app/scripts/gen-hero.mjs:10-14 | its entry 128 is 0xEDB88320 |
| Crc32.TableStep | faultlab/angular-app/scripts/gen-hero.mjs:17 | one table look-up does the work of eight bit turns |
| Crc32.Crc | faultlab/angular-app/scripts/gen-hero.mjs:15-19 | the table-driven loop equals the bit-at-a-time CRC-32 for every byte sequence |
| CrcPolynomial.CrcIsRemainder | faultlab/angular-app/scripts/gen-hero.mjs:10-19 | bit by bit, the CRC of any bytes is the negated remainder of dividing them by the generator polynomial with the terms x^32, x^26, x^23, x^22, x^16, x^12, x^11, x^10, x^8, x^7, x^5, x^4, x^2, x, 1 |
| Crc32.BurstDetected | faultlab/angular-app/scripts/gen-hero.mjs:15-19 | two texts that differ only within four consecutive bytes have the same CRC iff they are equal |
| PngChunks.WriteUInt32BE | faultlab/angular-app/scripts/gen-hero.mjs:21-23 | the four bytes of the buffer become the big-endian digits |
| PngChunks.EmitChunk | faultlab/angular-app/scripts/gen-hero.mjs:20-25 | a chunk is emitted as length, type, data and CRC, and fails only on a length that does not fit |
| CrcPolynomial.EndChunk | faultlab/angular-app/scripts/gen-hero.mjs:20-25 | the last chunk of every picture, byte for byte, with its CRC 0xAE426082 |
| PngChunks.ParseIff | faultlab/angular-app/scripts/gen-hero.mjs:20-25 | an independent reader accepts exactly the concatenations of emitted chunks and gives back the very same chunks |
| PngChunks.DamageCaught | faultlab/angular-app/scripts/gen-hero.mjs:20-25 | a change of at most four consecutive bytes of a chunk's type or data is reported as a CRC mismatch |
| Raster.ScrambleInjective | faultlab/angular-app/scripts/gen-hero.mjs:29 | the xorshift step maps different states to different states |
| Raster.NeverZero | faultlab/angular-app/scripts/gen-hero.mjs:28-29 | over any number of steps the noise source reaches zero iff it starts there |
| Raster.NoiseMeaning | faultlab/angular-app/scripts/gen-hero.mjs:29 | a noise value is the last six bits of the state |
| Raster.KnownSteps | faultlab/angular-app/scripts/gen-hero.mjs:28-29 | the steps of the noise source from one and from the program's seed |
| Raster.PictureMeaning | faultlab/angular-app/scripts/gen-hero.mjs:32-39 | in the filled buffer each line starts with a zero filter byte; red runs from 40 to 200 and blue from 200 to 120 across, green from 30 to 150 down, and every channel of every pixel has its own noise value added, numbered without gaps, cut to a byte |
| Raster.Fill | faultlab/angular-app/scripts/gen-hero.mjs:30-39 | the loops write every byte of the buffer once, in that order, and stop exactly at its end |
| Luhn.LuhnValid | src/security/sensitive.ts:47-62 | the right-to-left doubling loop accepts exactly the texts of 13 to 19 digits, separators aside, whose Luhn sum is a multiple of ten |
| Luhn.DoubledDigits | src/security/sensitive.ts:54-57 | a doubled digit contributes the sum of the digits of its double |
| Luhn.StripKeeps | src/security/sensitive.ts:48 | white space and dashes are dropped, and nothing else |
| Luhn.TestCard | src/security/sensitive.ts:47-62 | the test card of a four and fifteen ones is accepted, and rejected with another last digit |
| Luhn.SingleDigitDetected | src/security/sensitive.ts:50-60 | changing any one digit of a valid number makes it invalid |
| Luhn.TranspositionDetected | src/security/sensitive.ts:50-60 | swapping two neighbours goes unnoticed iff they are equal or are 0 and 9 |
| Luhn.UniqueCheckDigit | src/security/sensitive.ts:50-61 | every prefix is completed by exactly one digit |
| Luhn.TypoRejected | src/security/sensitive.ts:47-62 | in an accepted text, separators included, no digit can be replaced by another |
| Luhn.SwapRejectedIff | src/security/sensitive.ts:47-62 | in an accepted text, swapping two digits with only separators between them is noticed unless they are equal or 0 and 9 |
| SensitiveScan.LoopEndsIff | src/security/sensitive.ts:166-181 | the matching loop over one record ends iff it never meets an empty match that is rejected |
| SensitiveScan.ProductiveIffEnds | src/security/sensitive.ts:166-181 | the records on which the findings below are stated are exactly those whose scan ends |
| SensitiveScan.RejectedEmptyMatchSpins | src/security/sensitive.ts:168-170 | a left-to-right matcher and a record on which the loop never ends |
| SensitiveScan.RecordHitsMeaning | src/security/sensitive.ts:167-180 | the hits of a record are the validated ones among all its matches, each sought where the one before ends, or one place further after an empty one |
| SensitiveScan.FindingMeaning | src/security/sensitive.ts:171-179 | a finding's count is the number of validated matches over all records, its locations the first `maxLocations` of the records with one, its sample the first match of the first of them, its confidence the detector's |
| SensitiveScan.HitRecordsMeaning | src/security/sensitive.ts:177-179 | those record numbers increase strictly and are exactly the records with a validated match |
| SensitiveScan.ScanForSensitiveData | src/security/sensitive.ts:158-187 | the report holds for every kind the finding it would get alone, none for an excluded kind, and nothing else, by confidence, then by count, and where both agree in the order of discovery |
| SensitiveScan.RankCompares | src/security/sensitive.ts:185-186 | comparator and sort key both put the more confident finding first, high before medium before low, and at equal confidence the one with more matches |
| SensitiveScan.ReportUnique | src/security/sensitive.ts:158-187 | only one sequence of rows meets that contract |
| AccessLog.OnePassIsFilterAndCount | src/probe/accesslog.ts:99-126 | each line, status, class, path, upstream and 499 counter of the one pass equals an independent filter over the records' fields, and the times of a path or upstream are those of its records |
| AccessLog.PresentMeaning | src/probe/accesslog.ts:113-121 | a list of times has one time of each record that has it, in their order |
| AccessLog.GapsMeaning | src/probe/accesslog.ts:127 | there is one gap for each record with both times: how much longer the request took, or zero |
| Text.TrimMeaning | src/probe/accesslog.ts:118 | trimming takes away space at both ends, all of it and nothing else |
| AccessLog.ClassIsSumOfStatuses | src/probe/accesslog.ts:104-107 | a class counts what its statuses count together, and all statuses together count every line |
| AccessLog.PathTotals | src/probe/accesslog.ts:110-115 | the uncut paths total every line, and their errors every response of 500 and above |
| AccessLog.CountersNest | src/probe/accesslog.ts:108-125 | timeouts504 <= errors5xx <= count for each upstream, errors <= count for each path, and the abandoned count is the 499 count |
| AccessLog.SuspectMeaning | src/probe/accesslog.ts:129-136 | a path is suspicious iff a record of it matches; it counts those records, no more than the path has, and keeps the first reason |
| AccessLog.WindowStart | src/probe/accesslog.ts:100-103 | the window starts at the first record that carries a time |
| AccessLog.WindowEnd | src/probe/accesslog.ts:100-103 | and ends at the last one |
| AccessLog.NoTimes | src/probe/accesslog.ts:100-103 | without any time the window is empty |
| AccessLog.PctMeaning | src/probe/accesslog.ts:139 | a figure is shown iff there is a value; it is the rounded nearest-rank percentile, and figures of higher percentages are no smaller |
| AccessLog.TopPathsCut | src/probe/accesslog.ts:148-151 | the report keeps at most 30 paths, busiest first, each with its count, errors and rounded nearest-rank p50 and p95; no dropped path beats a kept one, and kept and dropped together total every line |
| AccessLog.Summarize | src/probe/accesslog.ts:88-137 | the one loop computes all tables of the summary |
| ProcNet.ParseHexAddr6 | src/probe/procnet.ts:30-48 | the word loop computes the endpoint of the specification |
| ProcNet.LooksMappedIff | src/probe/procnet.ts:40-42 | the pattern matches exactly the v4-mapped addresses |
| ProcNet.AddressRoundTrip | src/probe/procnet.ts:30-48 | any 16 address bytes, printed as the kernel does and decoded, give a text that reads back as the same bytes, dotted iff v4-mapped |
| ProcNet.AddressTextInjective | src/probe/procnet.ts:30-48 | different addresses never share a text |
| ProcNet.Endpoint6RoundTrip | src/probe/procnet.ts:30-48 | a whole tcp6 endpoint decodes to its address text and its port |
| ProcNet.Endpoint4RoundTrip | src/probe/procnet.ts:23-28 | a tcp endpoint is shown exactly as the tcp6 endpoint of its v4-mapped address |
| ProcNet.UnreadableEndpoint4 | src/probe/procnet.ts:25-26 | an address that is no number is shown as 0.0.0.0 |
| ProcNet.ShortAddressNotDotted | src/probe/procnet.ts:39-46 | an address text cut before its seventh group is never shown dotted |
| Numerals.ParseHexIff | src/probe/procnet.ts:25-27 | a text reads as a number exactly when it is spaces, an optional sign, an optional 0x, a longest run of hex digits with that value, and anything after it |
| Connections.ParseTable | src/probe/procnet.ts:56-66 | the header and lines of fewer than four words are skipped, every other line gives a row |
| Connections.StateNames | src/probe/procnet.ts:9-21 | state 1 to 11, printed in two hexadecimal digits, is named as the kernel numbers its TCP states |
| Connections.UnknownState | src/probe/procnet.ts:63 | a code of two digits that is no such state stands for itself |
| Connections.RowOfSocket | src/probe/procnet.ts:56-66 | a printed socket is parsed to its two ends and the name of its state |
| Connections.KeyInjective | src/probe/procnet.ts:95 | two endpoints with the same grouping key are the same endpoint |
| Connections.SameKeyIff | src/probe/procnet.ts:95 | two tcp6 peers share a group iff address bytes and port agree |
| Connections.GroupingIsExact | src/probe/procnet.ts:94-99 | each endpoint's entry counts exactly the established rows with that address and port |
| Connections.PeersCountSockets | src/probe/procnet.ts:56-100 | printed by the kernel, parsed and grouped, the tcp and tcp6 tables together count every remote address and port as often as it is connected, an IPv4 peer and its v4-mapped form as one |
| Connections.StatesMeaning | src/probe/procnet.ts:88-91 | each state counts the rows in that state |
| Connections.CountsTotal | src/probe/procnet.ts:90-100 | the uncut peers total the established rows, the states total all rows |
| Connections.TopPeersCut | src/probe/procnet.ts:108 | at most 100 peers are kept, busiest first, each with the number of established rows of its own address and port; none is beaten by a dropped one, and together they total the established rows |
| Connections.SummarizeConnections | src/probe/procnet.ts:76-113 | the loops compute states, peers and listeners by port; only two unreadable tables make it unavailable |
| Connections.ListeningMeaning | src/probe/procnet.ts:91-110 | the report lists exactly the listening rows of both kinds and, if all ports are numbers, by port and at one port in the order of the tables |
| MergeSummaries.MergeAll | src/hub/tools/rum.ts:34-91 | the nested loops compute the merged tables |
| MergeSummaries.ViewsConserved | src/hub/tools/rum.ts:49-56 | each route's views and entries are the sums over the replicas |
| MergeSummaries.ResourcesConserved | src/hub/tools/rum.ts:57-66 | each resource's counts and errors are summed and its routes united |
| MergeSummaries.ErrorsConserved | src/hub/tools/rum.ts:67-77 | each error sums its counts, takes the least first and greatest last sighting and unites its routes |
| MergeSummaries.DevicesConserved | src/hub/tools/rum.ts:78-89 | device counts and sessions are summed |
| MergeSummaries.FiguresCollected | src/hub/tools/rum.ts:35-48 | the figures merged for a route and metric are exactly the replicas' figures for it |
| MergeSummaries.WholeMeaning | src/hub/tools/rum.ts:81-82 | the merge is available iff a replica is, and starts at the least of their starts |
| MergeSummaries.AverageMeaning | src/hub/tools/rum.ts:85 | the average duration of a route is the mean of the replicas' averages, to the nearest integer |
| MergeSummaries.TotalsConserved | src/hub/tools/rum.ts:49-79 | over all keys, nothing is lost or counted twice |
| MergeSummaries.OrderOfReplicas | src/hub/tools/rum.ts:34-91 | any permutation of the replicas gives the same per-key views, resources, errors (the sample aside), devices, sessions and start |
| MergeSummaries.FiguresPermuted | src/hub/tools/rum.ts:35-48 | and the same merged percentiles |
| Grouping.GroupByMeaning | src/probe/accesslog.ts:110-115 | the "look up, update, store back" loop is an independent filter-and-fold for each key |
| Grouping.FilterCounts | src/probe/accesslog.ts:110-115 | a filter keeps exactly the elements that satisfy its condition, as often as they occur |
| Grouping.FilterConcat | src/probe/accesslog.ts:110-115 | and in their order |
| Grouping.GroupTotal | src/probe/accesslog.ts:110-115 | what the groups hold together is what the rows that have a key bring in |

## Left out

- Kubernetes, HTTP, sockets, files, timers and browser interfaces: their outcomes are inputs of the steps.
- Redaction, the error signature, URL normalisation, the detectors' patterns and masks and the suspicious-path patterns: heuristics without a specification, taken as given functions or as given results.
- `parseAccessLine` and the nginx formats: a record arrives parsed, and its status is an integer.
- The splitting of `/proc/net` lines into words, and a state word of another length than the kernel's two digits.
- Connections.SummarizeConnections: when some port is not a number the standard leaves the result of the sort by port open (ECMA-262, `Array.prototype.sort`), and the model keeps the order of the tables.
- Floating-point rounding, NaN and infinities beyond "not a finite number"; an address text of more than 53 bits; non-ASCII lower-casing.
- Characters are Dafny characters, not UTF-16 code units, so the cut at 200 differs on texts outside the basic plane.
- The aggregator's windows are values inside its maps; the window as an object with identity is modelled once, in `RollingWindow`, and aliasing of windows is not captured.
- The number of sessions: the program does not bound it.
- The critical-path filter of a trace (2% of the root, 60 spans) and the order by start time.
- The stack signatures and the text of the findings in a thread dump, and the cut of its pools and locks.
- `ownerOf` in the thread dump, which is built and never read.
- The deflate stream inside the picture's data chunk and the bytes of its header.
- The nested record of merged vitals is keyed here by the pair of route and metric; ISO timestamps are instants; the final sorts of the merged lists are those of `Sorting`.
- `summary` of the aggregator (filtering, the top-50 cut, dates) and its Prometheus text.
- A fetch that never finishes leaves the negative cache as it is; time-outs are one of the failures.
- The clock of `ProbeCache` starts at zero or later.
