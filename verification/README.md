# A verified model of the S3 Transfer Manager benchmark

The benchmark moves S3 objects through a pool of goroutines and measures them while they run. Around
the SDK calls it has a handful of concurrent and stateful kernels on which every reported number
depends. This project models those kernels in Dafny 4.11 and proves what their results mean.
`dafny verify dfyconfig.toml` checks all of it.

How the source is rendered:

- **Concurrent code is a state machine.** `ObjectPool`, `Iteration`, `ProgressListener`, `FileTransfers`
  and `SourceDialer` have one step per atomic action of the source (a load, store, compare-and-swap or
  add, a channel rendezvous, a look at the context), an `Enabled` predicate and an `Apply` function.
  A run is any sequence of enabled steps, so every theorem about `IsRun`/`After` holds for every
  interleaving. The SDK, the scheduler, the caller's context and the moment at which a call ends are the
  environment's choice. Fields documented as history record what happened and guard nothing.
- **Code that changes objects is a class or a loop.** `SizedReader.Reader`, `Watchdog.Watchdog`,
  `Sampler.Sampler`, `DestPicker.Picker` and `Stats.Recorder` keep the source's fields; their methods
  are proved equal to a specification function, and the theorems are about that function. The other loops
  are `Timeline.Concatenate`, `Plot.PlotSVG`, `HumanBytes.Humanize`, `Keys.KeysFor`, `Keys.Sanitize`.
- **Time, ticks, DNS answers and counter readings are inputs.** float64 is `real`; converting a float to a
  `time.Duration` truncates toward zero; `uint64` and `int64` limits are written out where they matter.

How the parts build on each other:

1. `Arithmetic`, `Sums`, `Rotation`: quotients; finite sums; going round m slots, with the exact floor/ceil
   fairness of k steps.
2. `ObjectPool` -> `PoolSafety` (invariant) -> `PoolOutcome`, `PoolLiveness`, `PoolCancellation`,
   `PoolExamples`.
3. `Iteration` puts the closures of the four Run functions and the counters `InFlight`, `Bytes` and
   `bytes` on top of the pool (`RefinesPool`), `IterationCounters` is its invariant and
   `IterationOutcome` the agreement of the counters. `IterationAnswers` reads the answers of the SDK and the
   file system off the steps of a run and compares fn's results and credits with them.
4. `ProgressListener` -> `ListenerOutcome`; `FileTransfers` runs the real listeners under the pool and
   shows by simulation that this is an iteration. `SizedReader` -> `UploadBodies` does the same for the
   upload bodies.
5. `Watchdog`, `Sampler` -> `Timeline` -> `Plot`, `DestPicker`, `SourceDialer`, `Stats`,
   `HumanBytes`, `Keys`.

Where the code does not do what its comments suggest, the model follows the code and a theorem gives the
exact condition:

- `runObjectsParallel` with a context that is already cancelled never calls fn and returns nil
  (`CancelledPoolMayReturnNil`); "nil means fn succeeded on all indices" holds exactly for a live context
  or an empty pool (`NilMeansAllExactlyIfContextAlive`).
- The pool stops "early on the first error", but firstErr is tested and set in two steps: the error
  returned is the last one stored. It is the first one in all interleavings exactly for at most one worker
  or one index (`FirstErrorReturnedExactlyIfOneWorker`); every larger pool can overwrite it
  (`FirstErrorMayBeOverwritten`).
- The watchdog warns "whenever no bytes move for longer than timeout"; a freeze is certain to be
  reported, by a ticker that comes at most one check period apart and possibly earlier, exactly from
  timeout + 2 * check - 2 nanoseconds on (`CertainToBeReported`). A ticker that keeps its period exactly is
  certain to report from timeout + check - 1 nanoseconds on if the timeout is even
  (`CertainForRegularTicker`, which also has the odd case).

Where the code's limits are not spoken of in its comments, theorems state them as exactly:

- A worker that has just found the context alive calls fn even if the context ends in between
  (`ClearedAndCancelled`), once each (`CancelStopsCalls`). That no call begins after a cancellation holds of
  all interleavings only for n < 1 (`CancelIsImmediateExactlyIfNothingToDo`), and from a given state on
  exactly if no worker stands there (`CancelIsImmediateExactlyIfNoneCleared`).
- RunUpload makes a sample of a cancelled pool's nil return; it credits only the objects that were sent
  (`UploadCreditsWholeObjects`).
- For arbitrary ticks, as the model has them, throughput samples lose the bytes of intervals of no length
  and nothing else (`ThroughputIntegrates`, with an input in `SeriesMayLoseBytes`); a growing counter is
  accounted for completely exactly if no such interval moved a byte (`SeriesIsExactExactlyIf`). A ticker
  with a period of a millisecond or more on a monotonic clock has no such interval (`SeriesIsExact`).
- The rotation of source addresses is fair from all counter values, across the 64-bit wrap too, exactly if
  the number of addresses divides 2^64 (`FairExactlyIfDivides`).
- `humanBytes` may print 1024.0 of a unit instead of 1.0 of the next, exactly from 1023.95 units on
  (`PrintedValue`).

## Model

| member | source | states |
|---|---|---|
| ObjectPool.PoolSize | internal/tmbench/tmbench.go:516-521 | the two clamps give as many workers as asked for, at least one, unless n is less; at most n when there is work, and none (or a negative count, hence none) when there is not |
| PoolSafety.StepKeepsInv | internal/tmbench/tmbench.go:515-551 | every atomic step of dispatcher, workers and context keeps the pool invariant: each dispatched index is held by exactly one worker, skipped for a reason, or finished with a known result; firstErr is the last store; the ending phases are justified |
| PoolOutcome.CallsAtMostOnce | internal/tmbench/tmbench.go:529-544 | in every reachable state fn was entered at most once on each dispatched index of 0..n-1, and these are all the calls of the run |
| PoolOutcome.NilMeansComplete | internal/tmbench/tmbench.go:529-550 | a nil return means all n indices were dispatched and on each fn ran once and returned nil or was left out under a cancelled context; without cancellation fn succeeded on all |
| PoolOutcome.ErrorMeansFailure | internal/tmbench/tmbench.go:533-549 | the pool returns an error if and only if some call of fn returned one, and then it is the error of such a call |
| PoolOutcome.StoresAtMostOncePerWorker | internal/tmbench/tmbench.go:533-535 | no worker stores into firstErr twice, so there are at most pool-size stores, and the last is what is returned |
| PoolOutcome.ErrorStopsThePool | internal/tmbench/tmbench.go:530-544 | once firstErr is set it stays set, at most the index being sent is still dispatched, and at most pool size - 1 further calls of fn begin |
| PoolOutcome.LateErrorsAreDropped | internal/tmbench/tmbench.go:533-535 | once firstErr is set only workers already past their second look at it can overwrite it, each once; without any, the stored error is final |
| PoolOutcome.CancelStopsCalls | internal/tmbench/tmbench.go:530-533 | after a cancellation fn is called only by the workers that had already found the context alive, once each, so at most pool-size times |
| PoolOutcome.CancelIsImmediateExactlyIfNoneCleared | internal/tmbench/tmbench.go:530-533 | a cancellation stops the calls of fn at once in every continuation if and only if no worker stands between its look at the context and fn |
| PoolLiveness.NeverStuck | internal/tmbench/tmbench.go:525-546 | in every reachable unreturned state the pool can take a step of its own or a worker is inside fn: no deadlock on channel or join |
| PoolLiveness.RunsAreBounded | internal/tmbench/tmbench.go:525-551 | every run, with any interleaving and cancellations, has at most 8n + pool size + 5 steps |
| PoolLiveness.FinalMeansReturned | internal/tmbench/tmbench.go:545-550 | nothing but a cancellation can still happen exactly when the pool has returned |
| PoolCancellation.CanFinish | internal/tmbench/tmbench.go:525-551 | from every reachable state the pool can be driven to its return without any cancellation |
| PoolCancellation.CancelledBeforehand | internal/tmbench/tmbench.go:530-532 | with a context cancelled before the call, fn is never called and the return value is nil |
| PoolCancellation.NilMeansAllExactlyIfContextAlive | internal/tmbench/tmbench.go:513-551 | barring cancellation during the call, "nil means fn succeeded on all of 0..n-1" holds of all interleavings if and only if the context was alive at the call or n < 1 |
| PoolExamples.CancelledPoolMayReturnNil | internal/tmbench/tmbench.go:530-532 | a run in which the pool returns nil although fn was never called |
| PoolExamples.ClearedAndCancelled | internal/tmbench/tmbench.go:530-533 | for every n >= 1 a run in which the context ends between a worker's look at it and its call of fn |
| PoolExamples.CancelIsImmediateExactlyIfNothingToDo | internal/tmbench/tmbench.go:515-551 | "no call of fn begins after a cancellation" holds of all interleavings if and only if n < 1 |
| PoolExamples.FirstErrorMayBeOverwritten | internal/tmbench/tmbench.go:533-535 | every pool of at least two workers has a run in which a later store replaces the first stored error and is returned |
| PoolExamples.FirstErrorReturnedExactlyIfOneWorker | internal/tmbench/tmbench.go:513-551 | "the error returned is the first one stored" holds of all interleavings if and only if workers <= 1 or n <= 1 |
| Iteration.RefinesPool | internal/tmbench/tmbench.go:164-192 | every run of an iteration, with all its counter updates, is a run of the object pool on the same pool state |
| IterationCounters.StepKeepsInv | internal/tmbench/tmbench.go:167-186 | every step of the closures, of a byte-counting sink or of the pool keeps the counter invariant for all four Run functions |
| IterationOutcome.InFlightBalance | internal/tmbench/tmbench.go:227-228 | InFlight is its old value plus the workers between +1 and -1, at most pool size above it, and back at the old value once the workers joined, on success, error and cancellation |
| IterationOutcome.ByteConservation | internal/tmbench/tmbench.go:88-118 | in every state prog.Bytes plus the amounts between a sink's two adds grew by what the sinks counted; nothing is under way at the return, except late events of a listener |
| IterationOutcome.ThreeCountersAgree | internal/tmbench/tmbench.go:313-364 | for RunDownload and RunDownloadObject the iteration's bytes, the sinks' totals and the growth of prog.Bytes agree at the return exactly if no failed index had moved bytes, in particular after nil |
| IterationOutcome.UploadCreditsWholeObjects | internal/tmbench/tmbench.go:165-189 | an upload that returns nil, cancelled or not, credits size for each index on which fn ran and nothing for the others; prog.Bytes grew by at most that, and by that exactly if every body sent was read to its end; uncancelled, fn ran on all n |
| IterationOutcome.BytesNeverFall | internal/metrics/progress.go:5-11 | prog.Bytes, as sampler and watchdog read it at any moment, never decreases during an iteration |
| IterationOutcome.NeverStuck | internal/tmbench/tmbench.go:313-357 | the closures never block the pool: until it has returned some step that is no cancellation and no new byte is possible |
| IterationOutcome.RunsAreBounded | internal/tmbench/tmbench.go:313-357 | a run of an iteration has at most two steps for each amount the SDK moves and 9 * (8n + pool size + 5) others |
| IterationAnswers.ResultsAreTruthful | internal/tmbench/tmbench.go:318-360 | for all four Run functions and any interleaving: fn's result is the first error among the answers it got to creating, transferring and closing, nil exactly if all were nil; it asks in this order, once each; it adds to bytes size, sink total or reported length, and nothing after an error |
| IterationAnswers.NilExactlyIfNoErrorReported | internal/tmbench/tmbench.go:181-192 | the pool of an iteration returns nil if and only if no answer was an error, and otherwise an error some answer gave; bytes are what the answers make due; uncancelled nil means every index got all its answers |
| UploadBodies.Simulated | internal/tmbench/tmbench.go:36-66 | every run of RunUpload with its sizedReaders is step by step a run of the iteration; that a body yields at most its size is kept by the readers' positions |
| UploadBodies.UploadCounts | internal/tmbench/tmbench.go:165-189 | when RunUpload's pool returns nil, prog.Bytes grew by the bytes handed to the SDK, for each object a prefix of its own stream; bytes are size for each index that ran, never less, and equal exactly if each of these bodies was read to its end |
| ProgressListener.StepKeepsInv | internal/tmbench/tmbench.go:500-511 | every load, compare-and-swap and add keeps the listener invariant: last is the latest winner's value, winners' values strictly grow, and the total is conserved |
| ListenerOutcome.Conservation | internal/tmbench/tmbench.go:491-511 | in every state prog.Bytes plus the deltas won but not added is the initial value plus all listeners' last, so the total never runs ahead |
| ListenerOutcome.QuietTotals | internal/tmbench/tmbench.go:491-511 | with no invocation under way each listener has contributed exactly the largest count reported to it (0 if none is positive) |
| ListenerOutcome.NeverBackwards | internal/tmbench/tmbench.go:500-511 | last and prog.Bytes never decrease over any run |
| ListenerOutcome.SwapFailsExactlyIfOvertaken | internal/tmbench/tmbench.go:502-509 | a compare-and-swap fails if and only if another invocation's swap succeeded on this listener since the load: no ABA |
| ListenerOutcome.BoundedWork | internal/tmbench/tmbench.go:501-510 | reporting v takes at most max(0, v) retries and 2 max(0, v) + 3 atomic actions, and an unfinished invocation can always move |
| FileTransfers.Simulated | internal/tmbench/tmbench.go:440-511 | every run of RunDownloadFile with its compare-and-swap listeners is matched step by step by a run of the iteration with the same pool and counters |
| FileTransfers.FileDownloadCounts | internal/tmbench/tmbench.go:440-511 | when the pool has returned and the listeners are quiet, prog.Bytes grew by the sum over the objects of the largest count reported, and InFlight is back |
| SizedReader.CopyBlock | internal/tmbench/tmbench.go:57 | one round of the copy loop extends the filled part of the buffer by bytes of the stream and touches nothing else |
| SizedReader.Fill | internal/tmbench/tmbench.go:55-60 | the copy loop ends with exactly the wanted bytes of the cyclic stream in the buffer and the offset after them |
| SizedReader.Reader.Read | internal/tmbench/tmbench.go:48-66 | Read yields min(len, remaining) bytes of the cyclic stream, leaves the rest of the buffer alone, moves remaining and off accordingly, adds the count to prog.Bytes, and reports EOF exactly when nothing remained |
| SizedReader.ReadMany | internal/tmbench/tmbench.go:48-66 | any sequence of Read calls on the object delivers and leaves behind what the sequence specification says |
| SizedReader.ChunkingIsInvisible | internal/tmbench/tmbench.go:36-66 | any sequence of reads delivers one prefix of the stream, of length min(asked, size) |
| SizedReader.SameTotalSameBytes | internal/tmbench/tmbench.go:36-66 | two ways of cutting a body into reads deliver the same bytes |
| SizedReader.EndExactlyAfterTheWholeBody | internal/tmbench/tmbench.go:49-51 | EOF comes exactly once the whole size was asked for, after exactly that many bytes, and then forever |
| Watchdog.Watchdog.Run | internal/metrics/watchdog.go:36-66 | the tick loop counts exactly the stalls of the specification, none for a timeout of 0 or less |
| Watchdog.CheckPeriod | internal/metrics/watchdog.go:39-42 | the ticker period is positive, at most the timeout, and half of it from 2 ns on |
| Watchdog.StallsAreReal | internal/metrics/watchdog.go:46-65 | each counted stall has requests in flight, and from an observation at least a timeout before it on every observation saw the same value; stalls are pairwise a timeout apart; stalls * timeout is at most the elapsed time |
| Watchdog.CountedExactlyIf | internal/metrics/watchdog.go:54-63 | for ordered ticks not before the start, a tick is counted if and only if it is a real stall and no tick counted before it is less than a timeout old; ticks with nothing in flight restart nothing |
| Watchdog.LongStallsAreCounted | internal/metrics/watchdog.go:46-65 | while ticks see a frozen counter and requests in flight, over a window that opens at lastMove (or a gap before its first tick, if that came later) more than (window - timeout) / (timeout + gap) and so at least window / (timeout + gap) stalls are counted |
| Watchdog.LongFreezeIsReported | internal/metrics/watchdog.go:39-65 | a real freeze of the counter of at least timeout + 2 * check - 2 is reported, one from the very start and one still going on at the stop included |
| Watchdog.CertainToBeReported | internal/metrics/watchdog.go:11-65 | reporting is certain for all sampled histories with ticks at most a check period apart, and all freezes while the watchdog runs, if and only if the freeze is at least that long |
| Watchdog.CertainForRegularTicker | internal/metrics/watchdog.go:39-65 | with ticks exactly a check period apart reporting is certain if and only if the freeze lasts the periods that cover the timeout and one more, less 1 ns; for even timeouts timeout + check - 1 |
| Sampler.Sampler.Loop | internal/metrics/sampler.go:45-88 | the tick loop appends exactly one specified sample per tick |
| Sampler.SampleIsExact | internal/metrics/sampler.go:63-85 | in nanoseconds and bytes: gbps times the interval is 8 bits per byte moved, cpuPct times interval and cores is 100 times the CPU time used, tMillis the whole milliseconds since the start, and the readings are those of the sample's own tick |
| Sampler.ThroughputIntegrates | internal/metrics/sampler.go:63-85 | the throughput series integrates to the growth of BytesCum except what moved in intervals of no length |
| Sampler.SeriesIsExact | internal/metrics/sampler.go:63-85 | with ticks at distinct times it integrates to the last BytesCum minus the start value |
| Sampler.SeriesIsExactExactlyIf | internal/metrics/sampler.go:63-85 | for a growing counter the series never accounts for more, and for the whole growth if and only if no interval of no length moved a byte |
| Sampler.SeriesMayLoseBytes | internal/metrics/sampler.go:69-75 | two ticks with one time stamp whose bytes no rate accounts for |
| Sampler.LoadIntegrates | internal/metrics/sampler.go:63-85 | with ticks at distinct times the load series, times intervals and cores, adds up to the CPU time used since the start |
| Sampler.SamplesAreWellFormed | internal/metrics/sampler.go:63-85 | ordered ticks give sample times in order from 0 on, and growing counters give rates that are not negative |
| Timeline.Concatenate | cmd/tmbench/main.go:192-208 | the accumulation loop with tOffset computes the joint time axis of all phases |
| Timeline.JoinedInOrder | cmd/tmbench/main.go:200-206 | phases with times in order stay in order on the joint axis |
| Timeline.JoinedKeepsEverySample | cmd/tmbench/main.go:190-206 | every sample of every phase is on the axis, readings unchanged, spacing kept, phases one interval apart, the first at its own time |
| Plot.DrawPanel | internal/metrics/plot.go:63-96 | the polyline maps each sample with the axis scale, which is the maximum value or 1 |
| Plot.PlotSVG | internal/metrics/plot.go:27-94 | four panels (none for no samples); every sample is drawn at its time and value on the panel's scales; a point lies in its panel's box if and only if its time is on the axis and its value is not negative, and is then in no other panel's box and within the picture |
| Plot.AxesAreFaithful | internal/metrics/plot.go:90-94 | time grows to the right from edge to edge, values grow upwards from the base line, and the largest value touches the top |
| Plot.PictureReadsBack | internal/metrics/plot.go:33-94 | from the point of a sample one reads back its time and, panel by panel, its throughput, memory in MiB, requests in flight and load, on axes of 872 by 144 at the coordinates of the picture |
| Plot.WholeRunIsPlottable | internal/metrics/plot.go:33-58 | sampler, concatenation and plot together: from ordered ticks and growing counters every sample is drawn inside its panel |
| Plot.EscapingRoundTrips | internal/metrics/plot.go:106-109 | an XML reader that refuses a bare & or < gets the escaped title back, and it contains no tag or quote character |
| DestPicker.Picker.Pick | internal/s3client/client.go:113-132 | a pick serves the cursor's slot of the fresh or newly resolved list and advances that host's cursor by one; a failed lookup and other hosts' entries are unchanged |
| DestPicker.CursorNeverSkips | internal/s3client/client.go:116-131 | over any history the j-th successful pick for a host uses the j-th cursor position, across refreshes, failures and other hosts |
| DestPicker.DestinationsAreFair | internal/s3client/client.go:102-133 | any k consecutive successful picks over lists of length m choose each slot floor(k/m) or ceil(k/m) times |
| DestPicker.HostsAreIsolated | internal/s3client/client.go:112-132 | what a host is served does not depend on calls for other hosts |
| DestPicker.PicksAreFresh | internal/s3client/client.go:117-128 | every successful pick chooses from the answer to a lookup really made for its own host, at most the TTL old |
| DestPicker.CacheServesItsSecond | internal/s3client/client.go:104-128 | a host is looked up exactly if its last answer is more than a second old or missing; until then every pick succeeds, whatever DNS would answer, and chooses from that answer |
| DestPicker.PicksStartAtTheFirst | internal/s3client/client.go:122-130 | from an empty cache the j-th successful pick for a host, counted from 0, chooses entry j modulo the length of its list |
| SourceDialer.SourcesAreFair | internal/s3client/client.go:79-87 | under any interleaving of dials each local address is used floor(k/m) or ceil(k/m) times by k tickets, indices are in range, and tickets are distinct short of the wrap-around |
| SourceDialer.TicketsCountUp | internal/s3client/client.go:85 | whatever the interleaving, the dial that draws after k others gets ticket li + k + 1 modulo 2^64 and binds the address with that number modulo m |
| SourceDialer.WrapContinuesExactlyIfDivides | internal/s3client/client.go:85 | at the wrap of the 64-bit counter the rotation continues if and only if m divides 2^64 |
| SourceDialer.FairExactlyIfDivides | internal/s3client/client.go:79-87 | floor/ceil fairness holds of all interleavings from all counter values if and only if m divides 2^64 |
| Rotation.FairShare | internal/s3client/client.go:129-130 | k consecutive positions fall on each of m slots floor(k/m) or ceil(k/m) times |
| Stats.SortIsDetermined | internal/metrics/stats.go:49 | the sorted durations depend only on the multiset, whatever the sorting algorithm |
| Stats.QuantileBetweenRanks | internal/metrics/stats.go:67-84 | a quantile lies between the two closest ranks |
| Stats.QuantileMonotone | internal/metrics/stats.go:67-84 | quantiles grow with q within and across rank intervals |
| Stats.QuantileInterpolates | internal/metrics/stats.go:77-83 | a quantile is the straight line between the neighbouring ranks at q * (n - 1), without its fraction of a nanosecond |
| Stats.ComputePercentiles | internal/metrics/stats.go:45-65 | the slice is sorted in place and the summary is that of its values |
| Stats.Recorder.Add | internal/metrics/stats.go:18-22 | one observation is appended |
| Stats.Recorder.Snapshot | internal/metrics/stats.go:25-31 | the summary is computed from a copy; the recorder is unchanged |
| Stats.SummaryIgnoresOrder | internal/metrics/stats.go:25-65 | the summary depends only on the multiset of durations recorded |
| Stats.SummaryIsExact | internal/metrics/stats.go:54-64 | in milliseconds Min and Max are the least and greatest duration and Mean times Count is the sum of the durations recorded |
| Stats.PercentilesAreQuantiles | internal/metrics/stats.go:59-62 | P50, P90, P99 and P999 are the interpolated values at 50, 90, 99 and 99.9 percent of the ranks, in milliseconds |
| Stats.SummaryInOrder | internal/metrics/stats.go:55-64 | Min <= P50 <= P90 <= P99 <= P999 <= Max and Min <= Mean <= Max |
| HumanBytes.Humanize | cmd/tmbench/main.go:346-357 | for every int64 of at least 1024 the loop ends with div = 1024^(exp+1) <= n < 1024 * div, exp in the suffix range, div an int64, and a value (before rounding for print) in [1, 1024) |
| HumanBytes.NestedDivision | cmd/tmbench/main.go:352-355 | repeated division by the unit is division by the product |
| HumanBytes.ScaleUnique | cmd/tmbench/main.go:351-356 | the scale of a number is unique |
| HumanBytes.LetterOfScale | cmd/tmbench/main.go:356 | the letter is K, M, G, T, P or E according to the power of 1024 that n reaches |
| HumanBytes.PrintedValue | cmd/tmbench/main.go:356 | rounded to one digit the value is between 1.0 and 1024.0, and 1024.0 exactly from 1023.95 on, as for 1048575 |
| Keys.KeysFor | internal/config/config.go:223-234 | exactly max(1, count) keys, the i-th one with suffix -i unless there is only one |
| Keys.CleanIsBytewise | internal/config/config.go:224 | cleaning a label works character by character: blanks vanish, capitals become small, the rest stays |
| Keys.Sanitize | internal/tmbench/tmbench.go:617-628 | the loop computes the file name byte by byte |
| Keys.SanitizedConcat | internal/tmbench/tmbench.go:617-628 | sanitizing distributes over concatenation |
| Keys.SanitizedOfOne | internal/tmbench/tmbench.go:619-625 | a small letter, digit, hyphen or dot stays, a capital becomes small, any other byte vanishes |
| Keys.FileNamesAreClean | internal/tmbench/tmbench.go:617-628 | file names consist of a-z, 0-9, '-' and '.', sanitizing again changes nothing, and a text is its own file name exactly if it is clean |
| Keys.DecimalReadsBack | internal/config/config.go:231 | decimal printing can be read back, so it is injective |
| Keys.KeysAndFilesAreDistinct | internal/config/config.go:223-234 | different objects of a size group have different keys and different file names, for any prefix and label |

## Left out

- The AWS SDK, the Transfer Manager fork and its O_DIRECT sink are not part of this model; a transfer is an environment that moves bytes and returns success or any error.
- File system, network, DNS, /proc, signals, stdout capture, JSON and CSV output, tables, scripts and recorded results.
- int64 wrap-around of prog.Bytes, of bytes and of the summed durations (8 EiB and 292 years), and of the destination cursor.
- atomic.Value's rule that all stored errors have one concrete type: all errors of a pool are of one type here, as the wrapped errors of the source are; panics of fn are not modelled.
- Bit-level float64 behaviour, and the one-digit rounding of plot coordinates and table entries.
- The random content of makePattern (any nonempty block is taken) and the empty block, for which Read would divide by zero.
- The algorithm behind sort.Slice: SortedOf stands for its result, which SortIsDetermined shows to be the only one.
- Unicode lower-casing of size labels: a character stands for a byte and only A to Z change; the distinctness theorems do not depend on it.
- Collisions of file names between different size groups, which the source does not rule out.
- FileTransfers.FileDownloadCounts: does not relate prog.Bytes to the iteration's own bytes, which are the reported ContentLengths (IterationAnswers.NilExactlyIfNoErrorReported), because the source takes the two from different places.
- ParseSize, the defaults, the concurrency and buffer resolution, the loop over warmup and measured iterations, group, sample3, medianSample, bestSample, the progress printer, memory limit and resource summaries: they would only add easy members.
- The axes, labels and colours of the plot, and the text of the SVG other than the escaping of its title.
- The mutexes of Recorder and of the destination picker: a locked section is one step.
