# kv8-metrics: verified model

This project models the algorithmic core of the kv8 telemetry tools (the `kv8scope` oscilloscope and
the `kv8zoom` map) in Dafny and proves what those parts are for.

* **Running median** (`P2Median`). The five-marker P-square estimator, its in-place insertion sort and
  its adjustment loop. Desired positions are multiples of 1/4 and are kept four times too large, as
  integers. The drift bound, the ordering of the markers and the exactness of the outer markers are
  proved for every reachable state.
* **Lock-free rings** (`SpscDynamicRing`, `SpscFixedRing`, with `BoundedFifo` and `Bits`). Every atomic
  load, slot access and atomic store of `Push`, `Pop`, `PopBatch`, `push` and `pop` is one step of a
  machine in which the two threads interleave freely. A load of the other thread's index may return any
  value from the last one seen to the current one, so stale reads are part of the model. Both rings are
  shown to be the same bounded queue. The objects, used from one thread at a time, are classes over
  arrays.
* **Waveform data path** (`WaveformDrain`, `Samples`, `Decimation`, `DecimationSweep`,
  `WaveformQueries`). Draining the rings into traces relative to a session origin; the one-pass
  decimation sweeps against the plain per-column filter; the window statistics and the nearest-sample
  search against a scan of everything.
* **Annotations** (`JsonEscape`, `JsonLookup`, `AnnotationCodec`, `AnnotationReplicas`,
  `AnnotationStore`, with `Numerals`). The hand-written JSON printer and the `strstr`-based reader, and
  the store as a replica of one ordered log.
* **Trail simplifier** (`PathSimplifier`). Douglas-Peucker over shared keep marks, the stride subsample
  and the bounded buffer.
* **Session discovery** (`SessionEvents`, `MetaDebounce`, `SessionManager`, `SessionListPanel`). The poll
  cycle as a diff of scans, the debounced metadata updates over whole runs of cycles, failures and
  restarts, and the list and connection display that are rebuilt from events.
* **Log and counters** (`LogStore`, `LogCsv`, `CounterTree`). The lazily sorted log with late symbol
  resolution, its CSV export and a reader following section 2 of RFC 4180, and the path tree of a
  counter group. `Options` and `Sequences` hold what several modules share.

Reals stand for doubles. Inputs from Kafka, the clock and the user are parameters. Strings are byte
strings. `dafny verify dfyconfig.toml` checks the project.

## What the proofs say about the code

* Text survives `JsonEscape` followed by `JsonUnescape` exactly when it holds no control character other
  than newline, return and tab (`JsonEscape.RoundTripIffFaithful`): `\u0001` reads back as `u0001`. What is
  written is right, as a conforming JSON reader gets every text back
  (`JsonEscape.ConformingReaderRecovers`); what the store's reader misses are backspaces, form feeds and
  character codes (`JsonEscape.ReaderConformsIff`).
* `Simplify` is documented to return at most `maxOut` points (kv8zoom/PathSimplifier.h:41) and can return
  one more, as for a trail of five points in general position, a tolerance of zero and a limit of two
  (`PathSimplifier.FivePointTrailOverruns`). `PathSimplifier.OverrunIff` gives the exact condition. A limit
  of 0 divides by zero, and a negative tolerance can make the recursion endless: it ends exactly when the
  simplification with tolerance zero drops no point (`PathSimplifier.EndsIff`). The model returns both as
  outcomes of their own.
* The P-square guards find room for every wanted move but one: marker 2 at the seventh sample, exactly when
  neither the sixth nor the seventh sample lay below the fourth marker (`P2Median.WholeStepBehindIff`).
* Ids are unique as long as no two stores annotate in the same second with the same sequence number, which
  every store counts from 1 (`AnnotationReplicas.IdsStayUnique`). When that happens, the later record
  replaces the earlier annotation in every store that lists no id twice (`AnnotationReplicas.ClashLosesOne`).
  A store that had drained the other's record already lists the id twice, and never less than twice whatever
  it does later, while a store that only drains lists it once at most (`AnnotationStore.ClashNeverHeals`).
* Replicas agree after draining as long as the log never marks an id before its first record, and whatever
  a store lists has been recorded. Without that guard stores can part for good:
  `AnnotationReplicas.EarlyMarkDiverges` is an example, and `AnnotationStore.ListAddConvergesIff` the exact
  condition, id clashes included, for any local Add to converge.
* A MetaUpdated event is meant for a session that gained virtual fields (kv8scope/SessionManager.h:66). The
  count of a session is not recorded by the scan that finds it unknown, which is its first and the first
  after each restart. An announced session therefore gained fields exactly when the announced metadata exceed
  those unrecorded scans (`SessionManager.EmittedIsGainIff`). One that lost fields can be announced
  (`MetaDebounce.LossIsAnnounced`), and one whose metadata never change is, exactly when it has virtual fields
  and is polled late enough (`MetaDebounce.UnchangedSessionFiresIff`). `Restart` leaves the debounce maps as
  they are, so metadata pending at that moment can be announced for a session found again with other metadata;
  the exact condition is `MetaDebounce.StaleUpdateIff`.
* A successful cycle reports the connection only the first time after a restart, but every failed one reports
  an error. The status bar therefore goes on showing an error after a single failed cycle, however many
  cycles succeed later, until the user reconnects (`SessionManager.ErrorSticks`, `SessionManager.UpIff`).
* A channel whose discovery fails makes the sessions that only it lists disappear until the next cycle
  (`SessionManager.FailedChannelHides`).
* `NextPow2` wraps to 0 above 2^63, and a ring asked for that much has no slot.
* Decimation never shows the samples at the last timestamp (`Decimation.EachSampleOnce`), and `Decimate`
  leaves the minimum and maximum vectors of an earlier `DecimateRange` in place.

## Model

| member | source | states |
|---|---|---|
| P2Median.DriftStaysNear | kv8scope/StatsEngine.h:65-99 | from the fifth sample on, one more sample keeps every inner marker's desired minus actual position above -1 and at most 1, and below 1 from the eighth sample on |
| P2Median.MarkerFindsRoom | kv8scope/StatsEngine.h:83-98 | in the order 1, 2, 3 a marker that is a whole position behind moves up if and only if it is not marker 2 at n = 7 right below marker 3; one that is a whole position ahead always moves down |
| P2Median.BlockedIffTopTwice | kv8scope/StatsEngine.h:65-99 | the blocked move happens if and only if the sixth and the seventh sample both fall into the top cell |
| P2Median.WholeStepBehindIff | kv8scope/StatsEngine.h:46-100 | after any run of five samples or more a marker is a whole position behind if and only if it is the median marker after seven samples and neither the sixth nor the seventh lay below the fourth marker they met |
| P2Median.RunIsSane | kv8scope/StatsEngine.h:46-100 | in every reachable state with five samples or more the heights are ordered, positions strictly increase from 1 to n, the drift bound holds, and q[0] and q[4] are the exact minimum and maximum fed |
| P2Median.MedianRank | kv8scope/StatsEngine.h:65-99 | the median marker's position is within one of (n + 1) / 2, the bound being reached at seven samples only |
| P2Median.AdjustKeepsOrder | kv8scope/StatsEngine.h:83-98 | one turn of the adjustment loop keeps the heights ordered and the outer markers unchanged |
| P2Median.HeightStaysBetween | kv8scope/StatsEngine.h:90-95 | the height of a moving marker, parabolic or by the fallback, lies between its neighbours |
| P2Median.WidenTracksExtremes | kv8scope/StatsEngine.h:70-77 | the outer markers follow the running minimum and maximum |
| P2Median.PushCountsSamplesBelow | kv8scope/StatsEngine.h:70-80 | a sample raises the position of exactly those inner markers it lies strictly below |
| P2Median.ParabolaInterpolates | kv8scope/StatsEngine.h:132-144 | on three markers whose heights lie on a quadratic the parabolic formula returns that quadratic |
| P2Median.LinearInterpolates | kv8scope/StatsEngine.h:93-95 | the fallback reads the straight line towards the neighbour |
| P2Median.MovesOnParabola | kv8scope/StatsEngine.h:83-98 | a marker that moves goes to the point, one position further, of the quadratic through itself and its two neighbours when that lies strictly between their heights, and otherwise to the point of the straight line towards the neighbour it moves to; the other heights stay |
| P2Median.SomeQuadratic | kv8scope/StatsEngine.h:132-144 | there always is such a quadratic |
| P2Median.RunSorts | kv8scope/StatsEngine.h:48-63 | the fifth sample leaves the five samples sorted in the markers |
| P2Median.EstimateIsExact | kv8scope/StatsEngine.h:103-120 | up to five samples the estimate is the exact upper median |
| P2Median.EstimateIsBetween | kv8scope/StatsEngine.h:103-120 | the estimate lies between the smallest and the largest sample fed |
| P2Median.SortIsSorted | kv8scope/StatsEngine.h:54-60 | the insertion sort yields an ordered permutation |
| P2Median.InsertionSort | kv8scope/StatsEngine.h:111-116 | the in-place loops sort the first elements and touch nothing else |
| P2Median.Estimator.Reset | kv8scope/StatsEngine.h:34-43 | returns to the state with nothing fed |
| P2Median.Estimator.AdjustMarker | kv8scope/StatsEngine.h:83-98 | one turn of the loop over the arrays is the adjustment step that MovesOnParabola and the order and drift lemmas are about |
| P2Median.Estimator.Feed | kv8scope/StatsEngine.h:46-100 | the object always is the state reached by the samples fed since the last reset |
| P2Median.Estimator.Get | kv8scope/StatsEngine.h:103-120 | 0 when nothing was fed, otherwise the estimate, between minimum and maximum; the height of the middle marker from the fifth sample on |
| Bits.BitwiseMeaning | kv8scope/SpscDynamicRing.h:151-162 | the model's And and Or are the bitwise operations, bit by bit |
| Bits.MaskIsMod | kv8scope/SpscDynamicRing.h:103 | masking with 2^k - 1 is reduction modulo 2^k |
| Bits.ResiduesDistinct | kv8scope/SpscDynamicRing.h:103-133 | counters less than a capacity apart fall into distinct slots |
| Bits.Smear | kv8scope/SpscDynamicRing.h:155-160 | one shift-and-or doubles the run of ones below the top bit |
| Bits.NextPow2 | kv8scope/SpscDynamicRing.h:151-162 | 1 for 0, the least power of two not below v up to 2^63, and 0 above |
| SpscDynamicRing.StepKeepsInv | kv8scope/SpscDynamicRing.h:97-136 | every step of either thread keeps the ring invariant: counters, local copies and stored items |
| SpscDynamicRing.EveryInterleavingIsSafe | kv8scope/SpscDynamicRing.h:97-136 | in every interleaving 0 <= head - tail <= capacity, the items taken are a prefix of those accepted, and accepted + dropped (+ one in flight) = attempted |
| SpscDynamicRing.WriteMissesUnread | kv8scope/SpscDynamicRing.h:103 | the slot about to be written holds no unread item |
| SpscDynamicRing.NoSlotIsShared | kv8scope/SpscDynamicRing.h:103-133 | while one thread writes and the other reads they are on different slots |
| SpscDynamicRing.RefinesFifo | kv8scope/SpscDynamicRing.h:97-136 | every step is a step of the bounded queue; the two releasing stores are its enqueue and dequeue |
| SpscDynamicRing.PushFailsOnlyWhenFull | kv8scope/SpscDynamicRing.h:99-102 | a push is refused, and counted as dropped, exactly when the tail it loaded showed a full ring |
| SpscDynamicRing.PopFailsOnlyWhenEmpty | kv8scope/SpscDynamicRing.h:111-131 | a pop gives up exactly when the head it loaded showed an empty ring, and otherwise takes what was asked for and shown |
| SpscDynamicRing.SizeNeverOverstates | kv8scope/SpscDynamicRing.h:141-146 | the size read on the reader thread never exceeds the queue length |
| SpscDynamicRing.SpscDynamicRing.Push | kv8scope/SpscDynamicRing.h:97-106 | appends to the contents, or refuses exactly when they fill the capacity |
| SpscDynamicRing.SpscDynamicRing.Pop | kv8scope/SpscDynamicRing.h:111-120 | removes the first item, or refuses exactly when there is none |
| SpscDynamicRing.SpscDynamicRing.PopBatch | kv8scope/SpscDynamicRing.h:124-136 | moves the first min(length, limit) items to the front of the output array |
| SpscDynamicRing.SpscDynamicRing.constructor | kv8scope/SpscDynamicRing.h:58-73 | an empty ring for any 64-bit request: capacity 1 for 0, the least power of two not below the request up to 2^63, and no slot at all above |
| SpscFixedRing.EveryInterleavingIsSafe | kv8zoom/SpscFixedRing.h:41-75 | in every interleaving items come out in the order they went in, at most N - 1 are inside, and the masked difference of the indices is the queue length |
| SpscFixedRing.RefinesFifo | kv8zoom/SpscFixedRing.h:41-89 | every step is a step of the bounded queue of capacity N - 1 |
| SpscFixedRing.PushFailsOnlyWhenFull | kv8zoom/SpscFixedRing.h:43-48 | push is refused exactly when the head it loaded showed N - 1 items inside |
| SpscFixedRing.PopFailsOnlyWhenEmpty | kv8zoom/SpscFixedRing.h:59-62 | pop is refused exactly when the tail it loaded showed none |
| SpscFixedRing.ResiduesTell | kv8zoom/SpscFixedRing.h:44-62 | with one slot always empty, equal masked indices mean empty and a successor equal to head means full |
| SpscFixedRing.SizeIsQueueLength | kv8zoom/SpscFixedRing.h:70-75 | (tail - head) & mask in unsigned arithmetic is the queue length |
| SpscFixedRing.NoSlotIsShared | kv8zoom/SpscFixedRing.h:49-63 | the slot being written and the slot being read differ |
| SpscFixedRing.SpscFixedRing.Push | kv8zoom/SpscFixedRing.h:41-53 | appends, or refuses exactly when N - 1 items are inside |
| SpscFixedRing.SpscFixedRing.Pop | kv8zoom/SpscFixedRing.h:57-67 | removes the first item, or refuses exactly when there is none |
| SpscFixedRing.SpscFixedRing.SizeNow | kv8zoom/SpscFixedRing.h:70-75 | the number of items inside |
| SpscFixedRing.SpscFixedRing.Clear | kv8zoom/SpscFixedRing.h:85-89 | empties the ring |
| WaveformDrain.DrainKeepsEverySample | kv8scope/WaveformRenderer.cpp:181-230 | whatever batches arrive for whatever counters, each trace with the origin added back is exactly what was popped for it, in order |
| WaveformDrain.TraceIsPrefixOfAccepted | kv8scope/WaveformRenderer.cpp:195-229 | through any interleaving on the ring, a trace is a prefix of the samples the ring accepted |
| WaveformDrain.LimitsEncloseAll | kv8scope/WaveformRenderer.cpp:221-227 | the earliest and latest limits enclose every stored timestamp |
| WaveformDrain.LimitsAreReached | kv8scope/WaveformRenderer.cpp:221-227 | and are no wider: the earliest is the time of a stored sample, the latest too unless it still has its start value |
| WaveformDrain.OriginIsFirst | kv8scope/WaveformRenderer.cpp:201-213 | the origin is the earliest time of the first batch that arrives for a known counter, unless a positive one was set before, and nothing later moves it |
| WaveformDrain.Renderer.SetOrigin | kv8scope/WaveformRenderer.cpp:205-213 | the first data ever seen fixes the origin at its earliest timestamp unless one was set |
| WaveformDrain.Renderer.Append | kv8scope/WaveformRenderer.cpp:217-227 | one sample is appended relative to the origin and widens the limits |
| WaveformDrain.Renderer.DrainRingBuffer | kv8scope/WaveformRenderer.cpp:181-230 | empties the ring into the counter's trace in batches that make up its contents; without a ring or a known counter nothing changes |
| Samples.WithinJoins | kv8scope/WaveformRenderer.cpp:1478-1503 | neighbouring time intervals hold together, in order, what the whole interval holds |
| Samples.MeanIsBetween | kv8scope/WaveformRenderer.cpp:1546-1564 | a column's mean lies between its smallest and largest value |
| Samples.MeanWeighs | kv8scope/WaveformRenderer.cpp:1546-1564 | the mean of one sample is its value, and the mean of two parts weighs theirs by their sizes |
| Samples.WithinIsSlice | kv8scope/WaveformRenderer.cpp:579-610 | on a sorted trace the samples of an interval are one contiguous run, closed or half-open as the interval is |
| Decimation.EachSampleOnce | kv8scope/WaveformRenderer.cpp:1478-1503 | the columns from left to right hold every sample before the last timestamp once and in order, and none at the last timestamp |
| Decimation.DecimationShape | kv8scope/WaveformRenderer.cpp:1457-1566 | at most W points at strictly increasing x; each column with samples has a point and each point a column: its midpoint, mean, minimum and maximum, with min <= mean <= max |
| Decimation.ColumnIsSlice | kv8scope/WaveformRenderer.cpp:1478-1496 | a column holds the samples from its left edge up to, but not at, its right edge; edges are equal steps from the first timestamp |
| Decimation.NoSpan | kv8scope/WaveformRenderer.cpp:1460-1475 | no samples or no columns give no point, and a trace at a single time its first sample |
| DecimationSweep.Sweeper.SumColumn | kv8scope/WaveformRenderer.cpp:1483-1496 | the inner loop, starting where the previous column stopped, sums and counts exactly the samples of its column |
| DecimationSweep.Sweeper.RangeColumn | kv8scope/WaveformRenderer.cpp:1539-1556 | the same with the column's exact extremes despite the sentinel start values |
| DecimationSweep.Sweeper.Decimate | kv8scope/WaveformRenderer.cpp:1457-1504 | on sorted input one sweep gives x and average of the per-column filter; one point for a zero span; nothing for no samples or W <= 0 |
| DecimationSweep.Sweeper.DecimateRange | kv8scope/WaveformRenderer.cpp:1510-1566 | the same x and averages as Decimate, with the extremes |
| WaveformQueries.LowerBound | kv8scope/WaveformRenderer.cpp:579-583 | halving finds the position that separates the samples before a time from the others |
| WaveformQueries.ScanWindow | kv8scope/WaveformRenderer.cpp:585-610 | the scan from the found position feeds the estimator exactly the samples of the window and tallies them |
| WaveformQueries.QueryStats | kv8scope/WaveformRenderer.cpp:565-622 | count, minimum, maximum, mean and median estimate are those of the contiguous run of samples with xMin <= time <= xMax; defaults when the counter is unknown or the window empty |
| WaveformQueries.StatsAreSane | kv8scope/WaveformRenderer.cpp:612-620 | the extremes are attained in the window, mean and median lie between them |
| WaveformQueries.AverageTimesCount | kv8scope/WaveformRenderer.cpp:612-620 | the average times the count is the sum of the window |
| WaveformQueries.NeighboursAreNearest | kv8scope/WaveformRenderer.cpp:665-678 | on a sorted trace the two neighbours of the search position decide which sample is nearest |
| WaveformQueries.Consider | kv8scope/WaveformRenderer.cpp:680-690 | a candidate replaces the best exactly when nearer, or as near and earlier |
| WaveformQueries.SnapToNearestSample | kv8scope/WaveformRenderer.cpp:655-695 | a sample of a visible counter with no other nearer, and none as near and earlier; the query time when there is none |
| WaveformQueries.TimesAreVisible | kv8scope/WaveformRenderer.cpp:655-665 | the candidates are the samples of the visible counters and no others |
| JsonEscape.RoundTripIffFaithful | kv8scope/AnnotationStore.cpp:39-90 | unescaping an escaped text gives it back if and only if it has no control character other than newline, return and tab |
| JsonEscape.LossyExample | kv8scope/AnnotationStore.cpp:50-81 | character 1 comes back as five characters |
| JsonEscape.UnescapeEscape | kv8scope/AnnotationStore.cpp:39-90 | what any text reads back as, lossy characters included |
| JsonEscape.EscapeIsWellEscaped | kv8scope/AnnotationStore.cpp:39-59 | escaped text has no bare quote and no stray backslash |
| JsonEscape.ConformingReaderRecovers | kv8scope/AnnotationStore.cpp:39-59 | a reader that follows section 7 of RFC 8259 gets every escaped text back, control characters included |
| JsonEscape.ReaderConformsIff | kv8scope/AnnotationStore.cpp:65-90 | on well formed JSON text the store's own reader agrees with that reader if and only if no backspace, form feed or character code is written with a backslash |
| JsonEscape.EscapeText | kv8scope/AnnotationStore.cpp:39-59 | the loop appends the escape of every character |
| JsonEscape.UnescapeText | kv8scope/AnnotationStore.cpp:65-90 | the loop with its moving index reads backslash pairs |
| JsonLookup.FirstMatchIsStructural | kv8scope/AnnotationStore.cpp:98-103 | in a printed record the first match of the quoted key with its colon is the structural key, never text inside a value |
| JsonLookup.NoMatchInField | kv8scope/AnnotationStore.cpp:98-101 | a field with another key, whatever its escaped value, holds no match |
| AnnotationCodec.RecordRoundTrip | kv8scope/AnnotationStore.cpp:207-225 | a record that fits its buffer decodes to the same id and creation fields, the same type or 0 for an unknown one, and its timestamp to under a microsecond; title and description survive if and only if they hold no lossy character |
| AnnotationCodec.MicrosClose | kv8scope/AnnotationStore.cpp:210 | microseconds lose less than one microsecond, towards zero, and nothing the second time |
| AnnotationCodec.RecordText | kv8scope/AnnotationStore.cpp:213-224 | the text of a printed record, piece by piece |
| AnnotationCodec.MarkerText | kv8scope/AnnotationStore.cpp:233-234 | the text of a delete marker |
| AnnotationCodec.CutOff | kv8scope/AnnotationStore.cpp:212-234 | what is published is the text up to the size of the buffer |
| AnnotationCodec.OddItems | kv8scope/AnnotationStore.cpp:385-428 | an item without a payload deletes what its key names, a payload without an id is ignored |
| AnnotationCodec.BlanksSkipped | kv8scope/AnnotationStore.cpp:96-156 | before a value exactly the blanks and tabs are skipped |
| Numerals.DecimalPlaces | kv8scope/AnnotationStore.cpp:213-224 | a printed number has the decimal digits of its value, without leading zeros |
| Numerals.HexPlaces | kv8scope/AnnotationStore.cpp:284-291 | and a hexadecimal one its hexadecimal digits |
| AnnotationCodec.CutRecordKeepsId | kv8scope/AnnotationStore.cpp:212-224 | a record cut off by the buffer is still read as an update of its own annotation |
| AnnotationCodec.RecordStaysPrintable | kv8scope/AnnotationStore.cpp:402-451 | what is read back from a printed record, cut or not, can be printed again |
| AnnotationCodec.MarkerRoundTrip | kv8scope/AnnotationStore.cpp:230-235 | a delete marker that fits its buffer decodes to the deletion of its id |
| AnnotationCodec.JsonExtractString | kv8scope/AnnotationStore.cpp:96-123 | the cursor loops return the unescaped text of the value the round trips are about |
| AnnotationCodec.JsonExtractInt64 | kv8scope/AnnotationStore.cpp:128-142 | the digit loop returns the signed number |
| AnnotationCodec.JsonExtractBool | kv8scope/AnnotationStore.cpp:147-156 | true exactly when the value starts with the word true |
| AnnotationReplicas.StoresConverge | kv8scope/AnnotationStore.cpp:241-469 | after any run of local changes and partial drains by any number of stores, a store that has drained the whole log holds what the log alone says, so drained stores agree; ids come from the clock and each store's own counter |
| AnnotationReplicas.IdsStayUnique | kv8scope/AnnotationStore.cpp:272-311 | after any run different creations have different ids and every listed id was handed out, provided no two stores annotate in the same second with the same number |
| AnnotationReplicas.NewIdIsFresh | kv8scope/AnnotationStore.cpp:279-306 | in every reachable state the id of a new annotation is in no record of the log and in no store |
| AnnotationReplicas.ListedMayBeDeleted | kv8scope/AnnotationStore.cpp:333-350 | whatever a store lists was published before, so deleting it is always among the modelled moves |
| AnnotationReplicas.ClashLosesOne | kv8scope/AnnotationStore.cpp:437-452 | if two stores do annotate in the same second with the same number, the later record replaces the earlier annotation in every store that drains both and lists no id twice |
| AnnotationReplicas.MoveKeepsInv | kv8scope/AnnotationStore.cpp:272-350 | every Add, Edit, Delete and drain keeps each store on its way to the common outcome, and ids handed out once |
| AnnotationReplicas.AddConvergesIff | kv8scope/AnnotationStore.cpp:306-310 | a local Add of an id not listed yet converges if and only if the undrained log does not mark the new id before its first record, or marks it again |
| AnnotationReplicas.EarlyMarkDiverges | kv8scope/AnnotationStore.cpp:403-418 | a marker logged before the record leaves two stores different |
| AnnotationReplicas.ReplayAppend | kv8scope/AnnotationStore.cpp:370-469 | how arrivals are split into drain batches does not matter |
| AnnotationReplicas.DeletionNeverReverts | kv8scope/AnnotationStore.cpp:333-466 | in every reachable state no move of any store takes back a deletion |
| AnnotationReplicas.IdsUnique | kv8scope/AnnotationStore.cpp:279-292 | two ids are equal if and only if the sequence numbers and the low 32 bits of the creation seconds are |
| AnnotationReplicas.NewIdText | kv8scope/AnnotationStore.cpp:279-292 | an id is eight hexadecimal digits of the clock, a dash and the decimal sequence number |
| AnnotationReplicas.NewIdIsGood | kv8scope/AnnotationStore.cpp:284-292 | new ids need no escaping and fit the marker buffer |
| AnnotationReplicas.EqualButHeals | kv8scope/AnnotationStore.cpp:313-331 | an Edit applied early is made good by the record it published |
| AnnotationReplicas.MarkHeals | kv8scope/AnnotationStore.cpp:333-350 | a Delete applied early is made good by its marker |
| AnnotationStore.AnnotationStore.Add | kv8scope/AnnotationStore.cpp:272-311 | lists the new annotation in timestamp order and publishes its record, whatever the list holds; with a fresh id this is the Add move of the replica model, and an id listed already is listed once more |
| AnnotationStore.AnnotationStore.Edit | kv8scope/AnnotationStore.cpp:313-331 | changes title, description and type of the first entry with the id and publishes it, or does nothing; without repeated ids this is the Edit move |
| AnnotationStore.AnnotationStore.Delete | kv8scope/AnnotationStore.cpp:333-350 | marks the first entry with the id and publishes the marker, also for an unknown id; without repeated ids this is the Delete move |
| AnnotationStore.AnnotationStore.DrainPending | kv8scope/AnnotationStore.cpp:370-469 | the list becomes the sorted replay of the pending items, each applied to the first entry with its id; without repeated ids it is the replay of the view and ids stay distinct |
| AnnotationStore.AnnotationStore.SortByTimestamp | kv8scope/AnnotationStore.cpp:475-480 | a sorted permutation, with the same number of entries for each id |
| AnnotationStore.ListReplaysView | kv8scope/AnnotationStore.cpp:370-469 | as long as no id is repeated the list does what the view of the replica model does |
| AnnotationStore.ListAddConvergesIff | kv8scope/AnnotationStore.cpp:306-310 | on the lists: any local Add converges, to lists with the same entries and no repeated id, if and only if the id was not listed yet and the undrained log does not mark it before its first record, or marks it again |
| AnnotationStore.ClashNeverHeals | kv8scope/AnnotationStore.cpp:306-469 | a store that adds an annotation whose id it lists already lists it twice, and at least twice after any later adds, edits, deletes and drains, while a store that only drains lists it once at most |
| AnnotationStore.ClashIsListedTwice | kv8scope/AnnotationStore.cpp:306-310 | right after such an Add the id is listed exactly twice |
| AnnotationStore.CountNeverFalls | kv8scope/AnnotationStore.cpp:272-469 | over any history of calls nothing ever takes an entry off the list |
| AnnotationStore.ReplayCount | kv8scope/AnnotationStore.cpp:402-466 | draining lists an id not listed before once if it is recorded, and never changes how often a listed id is listed |
| AnnotationStore.LastRecordIsListed | kv8scope/AnnotationStore.cpp:437-466 | after a drain the record drained last is listed by any store, and alone under its id unless the store listed the id more than once before |
| PathSimplifier.CrossTrackIsDistance | kv8zoom/PathSimplifier.cpp:29-56 | the squared distance is to a point of the segment: to the closest one, or to the start of a degenerate segment |
| PathSimplifier.FootIsClosest | kv8zoom/PathSimplifier.cpp:47-55 | the clamped projection minimises the distance over the whole segment |
| PathSimplifier.BesideNorthbound | kv8zoom/PathSimplifier.cpp:18-56 | beside a level track due north the squared distance is that of the way east, on the parallel of the track's start, and the way up |
| PathSimplifier.BesideEastbound | kv8zoom/PathSimplifier.cpp:18-56 | beside a level track due east it is that of the way north and the way up |
| PathSimplifier.Farthest | kv8zoom/PathSimplifier.cpp:66-75 | the scan finds the first of the farthest points, or none when all lie on the segment |
| PathSimplifier.OverMeans | kv8zoom/PathSimplifier.cpp:77 | the comparison of squares is the comparison of the distance with the tolerance, for any tolerance |
| PathSimplifier.DouglasPeucker | kv8zoom/PathSimplifier.cpp:59-82 | for any tolerance it ends exactly when no range is reached that would be split at its own first point, which EndsIff turns into a condition on the trail, and then leaves exactly the marks of the split; marks outside the range are untouched |
| PathSimplifier.SplitCovers | kv8zoom/PathSimplifier.cpp:64-81 | every point dropped is within the tolerance of the segment joining the nearest kept points before and after it |
| PathSimplifier.DroppedIsNear | kv8zoom/PathSimplifier.cpp:64-81 | in distances: a dropped point lies at most the tolerance away from the segment that joins the kept points around it |
| PathSimplifier.KeptIsFar | kv8zoom/PathSimplifier.cpp:77-81 | a point is kept only for being the first farthest, and farther than the tolerance, from the segment of a range that was split there |
| PathSimplifier.KeptIsFarOff | kv8zoom/PathSimplifier.cpp:66-81 | in distances: a kept point lies more than the tolerance away from the segment of a range that was split there, and is the first of the farthest of that range |
| PathSimplifier.OnlyEndsKeptIff | kv8zoom/PathSimplifier.cpp:69-81 | nothing between the ends of a range is kept if and only if everything between is within the tolerance of their segment |
| PathSimplifier.OnlyEndsKeptIffNear | kv8zoom/PathSimplifier.cpp:69-81 | in distances: nothing between the ends is kept if and only if no distance exceeds the tolerance |
| PathSimplifier.SplitIsUnique | kv8zoom/PathSimplifier.cpp:64-81 | the marks of the split are determined by the trail and the tolerance |
| PathSimplifier.EndsForTolerance | kv8zoom/PathSimplifier.cpp:77-81 | with a tolerance of zero or more the recursion always ends |
| PathSimplifier.NegativeKeepsAll | kv8zoom/PathSimplifier.cpp:77-81 | with a negative tolerance it ends, if at all, with every point kept |
| PathSimplifier.NegativeEndsIffAllSplit | kv8zoom/PathSimplifier.cpp:66-81 | with a negative tolerance the recursion ends if and only if keeping every point is the split for tolerance zero |
| PathSimplifier.EndsIff | kv8zoom/PathSimplifier.cpp:66-81 | the recursion ends if and only if the tolerance is not negative or the simplification with tolerance zero drops nothing |
| PathSimplifier.SubsampleLength | kv8zoom/PathSimplifier.cpp:113-122 | the subsample has at most maxOut + 1 points, and more than maxOut exactly when the stride walk uses all maxOut points and stops short of the newest timestamp |
| PathSimplifier.SubsampleEnds | kv8zoom/PathSimplifier.cpp:113-122 | it is a subsequence from the first kept point to the newest timestamp, to the newest point when timestamps are distinct |
| PathSimplifier.OverrunIff | kv8zoom/PathSimplifier.cpp:105-122 | the result of the whole simplification exceeds maxOut if and only if more points are kept and the stride walk over them uses all maxOut points before the newest timestamp |
| PathSimplifier.FivePointTrailOverruns | kv8zoom/PathSimplifier.cpp:95-125 | a concrete trail of five points, a tolerance of zero and a limit of two give three points |
| PathSimplifier.KeptIsSubsequence | kv8zoom/PathSimplifier.cpp:107-110 | the kept points are a subsequence of the trail |
| PathSimplifier.KeptAreTheMarked | kv8zoom/PathSimplifier.cpp:107-110 | they are the points at exactly the marked indices |
| PathSimplifier.SimplifyLong | kv8zoom/PathSimplifier.cpp:100-124 | for any tolerance and limit: endless exactly when the recursion is, for which EndsIff gives the condition, a division by zero exactly for a limit of zero, and otherwise the split thinned out to a subsequence of at most maxOut + 1 points with its ends |
| PathSimplifier.Trail.Append | kv8zoom/PathSimplifier.cpp:84-93 | the buffer stays below its limit and is a suffix of the history, at least half the limit long once it has dropped points |
| PathSimplifier.Trail.Size | kv8zoom/PathSimplifier.h:45 | below the limit, and the whole history or at least half the limit |
| PathSimplifier.Trail.Clear | kv8zoom/PathSimplifier.h:46 | empties buffer and history |
| PathSimplifier.Trail.Simplify | kv8zoom/PathSimplifier.cpp:95-125 | short trails come back unchanged, longer ones simplified, with the same two exceptions |
| SessionEvents.ProbeSessionLiveness | kv8scope/SessionManager.cpp:41-135 | with a heartbeat: historical if and only if shut down, otherwise live, going offline or offline as it is less than the live or dead threshold in seconds old; without one the same for the data of some topic, offline when there are none |
| SessionEvents.SessionsOnlyAge | kv8scope/SessionManager.cpp:79-128 | as time passes a session only gets older; newer data only fresher |
| SessionEvents.NewestIsMax | kv8scope/SessionManager.cpp:103-109 | the loop takes the newest topic timestamp |
| SessionEvents.DeliveryTimingIsIrrelevant | kv8scope/SessionManager.cpp:198-217 | when the main thread drains, in relation to single pushes, does not change what the list ends up as |
| SessionEvents.LastTold | kv8scope/SessionListPanel.cpp:94-132 | the metadata shown for a session are those of the last event that carried any |
| MetaDebounce.FireFollowsLastRise | kv8scope/SessionManager.cpp:400-431 | over any run of cycles, failures and restarts an update fires no sooner than the delay after the last rise and carries the metadata of that rise |
| MetaDebounce.RiseBetweenFires | kv8scope/SessionManager.cpp:400-431 | between two updates of a session that no scan missed the highest virtual-field count strictly rose |
| MetaDebounce.QuietSessionFires | kv8scope/SessionManager.cpp:418-430 | once a count stays put past the deadline of its last rise, the update has fired |
| MetaDebounce.CountNeverFalls | kv8scope/SessionManager.cpp:404-416 | the recorded count never falls while no scan misses the session |
| MetaDebounce.CountCovers | kv8scope/SessionManager.cpp:400-416 | the recorded count is at least what any poll since the last recorded absence counted |
| MetaDebounce.CountAttained | kv8scope/SessionManager.cpp:400-416 | and one of those polls counted it, unless it is zero |
| MetaDebounce.TrackerIsPolls | kv8scope/SessionManager.cpp:393-454 | through failed cycles and restarts a tracker is what the polls since the last recorded absence make of an empty one |
| MetaDebounce.AbsenceForgets | kv8scope/SessionManager.cpp:436-454 | a scan that misses the session makes everything before it irrelevant |
| MetaDebounce.GainIffRiseAboveUnrecorded | kv8scope/SessionManager.cpp:387-416 | in any run a poll gains virtual fields over every scan that listed the session since it was last missed if and only if it is a rise and also exceeds the scans that found the session unknown, whose count is not recorded |
| MetaDebounce.AnnouncementIsGainIff | kv8scope/SessionManager.cpp:387-431 | every announcement stems from the last rise, and that was a gain if and only if it exceeds those unrecorded scans |
| MetaDebounce.LossIsAnnounced | kv8scope/SessionManager.cpp:387-431 | a session found with five virtual fields and then with three is announced though it gained none |
| MetaDebounce.UnchangedNeverGains | kv8scope/SessionManager.cpp:387-416 | no announcement of a session with unchanging metadata is a gain |
| MetaDebounce.UnchangedSessionFiresIff | kv8scope/SessionManager.cpp:387-430 | a session whose metadata never change is still announced as updated if and only if it has virtual fields and is polled once the delay since its first poll has passed |
| MetaDebounce.UnchangedSessionFiresOnce | kv8scope/SessionManager.cpp:400-430 | and then only once |
| MetaDebounce.StaleUpdateIff | kv8scope/SessionManager.cpp:177-192 | metadata pending at a restart are announced for the session found again if and only if a poll meets their deadline before any poll counts more virtual fields than were recorded |
| MetaDebounce.StaleExample | kv8scope/SessionManager.cpp:177-192 | for instance a session found again with other metadata of as many virtual fields is announced with the old ones |
| MetaDebounce.CountVirtual | kv8scope/SessionManager.cpp:393-398 | the nested loops count the virtual fields: the number of pairs of bucket and counter whose flag is set |
| SessionManager.SessionManager.RunOnePollCycle | kv8scope/SessionManager.cpp:258-500 | folding the events of a cycle into the old view gives the new view: after success exactly the scanned sessions with their probed liveness, after failure no change; which sessions are announced as new, with channel and metadata, as gone or as changed, and when a connection or an error is reported; the debounce maps and all events so far are those of the whole run |
| SessionManager.CycleGoesOn | kv8scope/SessionManager.cpp:377-454 | a successful cycle takes every session's tracker one moment further and emits exactly the updates that fire |
| SessionManager.OtherGoesOn | kv8scope/SessionManager.cpp:177-192 | failed cycles and restarts leave the trackers as they are; a restart only makes the sessions unknown |
| SessionManager.EmittedFollowsLastRise | kv8scope/SessionManager.cpp:258-500 | over a whole run of cycles, failures and restarts every emitted update carries the metadata of the last rise, in a scan at least the delay earlier, and no scan in between missed the session |
| SessionManager.EmittedIsGainIff | kv8scope/SessionManager.cpp:258-500 | every emitted update carries the metadata of its last rise, and the session gained virtual fields there if and only if they exceed its first listing since it was last missed and the first after each restart |
| SessionManager.RiseBetweenEmitted | kv8scope/SessionManager.cpp:258-500 | between two emitted updates of a session that no scan missed its highest count strictly rose |
| SessionManager.QuietRiseIsEmitted | kv8scope/SessionManager.cpp:258-500 | a rise that stays the last one is emitted, with its metadata, no later than by the first cycle that polls the session at or after the deadline |
| SessionManager.MergedIffReported | kv8scope/SessionManager.cpp:310-331 | a scan finds a session if and only if some channel whose discovery succeeded lists it |
| SessionManager.MergedIsLast | kv8scope/SessionManager.cpp:310-331 | where several channels list a session the metadata of the last one count |
| SessionManager.FailedChannelHides | kv8scope/SessionManager.cpp:310-331 | a session that at most one channel lists is known after a cycle if and only if that channel's discovery succeeded and lists it |
| SessionManager.ChannelOfSession | kv8scope/SessionManager.cpp:344-358 | a session whose prefix is channel, dot and id is grouped under that channel |
| SessionManager.ChannelOfStranger | kv8scope/SessionManager.cpp:344-358 | a prefix that does not hold the session id is its own channel |
| SessionManager.ToldIsKnown | kv8scope/SessionManager.cpp:335-375 | over whole runs, the events since the last restart leave exactly the known sessions on display |
| SessionManager.ToldIsScanned | kv8scope/SessionManager.cpp:335-433 | and the metadata on display are those of a scan: the one that made the session known, or the last rise announced since, whichever was announced last |
| SessionManager.UpIff | kv8scope/SessionManager.cpp:263-308 | after any run the events say connected if and only if some cycle succeeded since the last restart and none failed after the first that did |
| SessionManager.ErrorSticks | kv8scope/SessionManager.cpp:301-308 | a cycle that fails after the first success leaves the error on display however many cycles succeed later, until discovery is restarted |
| SessionManager.SessionManager.Sweep | kv8scope/SessionManager.cpp:301-499 | the same for a cycle whose listing succeeded |
| SessionManager.SessionManager.AnnounceAppeared | kv8scope/SessionManager.cpp:335-362 | exactly the sessions not known before are announced, each with its scanned metadata and under the channel its prefix gives |
| SessionManager.SessionManager.AnnounceDisappeared | kv8scope/SessionManager.cpp:365-375 | exactly the known sessions that are gone are announced |
| SessionManager.SessionManager.DebounceOne | kv8scope/SessionManager.cpp:393-431 | one session's maps move one poll further, other sessions' stay, and an update is queued exactly when it fires |
| SessionManager.SessionManager.DebounceMeta | kv8scope/SessionManager.cpp:382-433 | all sessions known before and still present are polled once, the others left alone |
| SessionManager.SessionManager.ForgetTrackers | kv8scope/SessionManager.cpp:436-454 | exactly the trackers of sessions that are gone are removed, with deadlines and metadata kept together |
| SessionManager.SessionManager.ProbeAll | kv8scope/SessionManager.cpp:457-486 | a change is announced for every transition, the first from Unknown, and for nothing else |
| SessionManager.SessionManager.Restart | kv8scope/SessionManager.cpp:177-192 | forgets sessions, liveness and queued events, and keeps the debounce maps |
| SessionManager.SessionManager.DrainEvents | kv8scope/SessionManager.cpp:198-205 | hands over the queue in order and empties it |
| SessionListPanel.SessionListPanel.AddSession | kv8scope/SessionListPanel.cpp:94-112 | inserts one entry of unknown liveness and keeps the list in order of channel and prefix |
| SessionListPanel.InsertedInOrder | kv8scope/SessionListPanel.cpp:105-111 | at its place the new entry keeps the list in order |
| SessionListPanel.PrecedesChains | kv8scope/SessionListPanel.cpp:106-111 | the order by channel and prefix is transitive on entries that do not precede one another |
| SessionListPanel.BelowIsDictionary | kv8scope/SessionListPanel.cpp:106-111 | strings are compared at the first place they differ, a shorter one first |
| SessionListPanel.ChannelsStandTogether | kv8scope/SessionListPanel.cpp:105-111 | the sessions of one channel stand together, in order of their prefixes |
| SessionListPanel.SessionListPanel.RemoveSession | kv8scope/SessionListPanel.cpp:114-119 | removes every entry with the prefix and no other; the list stays in order |
| SessionListPanel.SessionListPanel.SetSessionLiveness | kv8scope/SessionListPanel.cpp:134-145 | overwrites the liveness of the first entry with the prefix |
| SessionListPanel.SessionListPanel.UpdateSessionMeta | kv8scope/SessionListPanel.cpp:121-132 | overwrites the metadata of the first entry with the prefix |
| SessionListPanel.InsertedLists | kv8scope/SessionListPanel.cpp:94-112 | an added session is listed once and disturbs no other |
| SessionListPanel.WithoutLists | kv8scope/SessionListPanel.cpp:114-119 | after a removal exactly the other sessions are listed |
| SessionListPanel.App.Dispatch | kv8scope/App.cpp:388-445 | handling one event takes a list showing a view and labels to one showing them after the event, changes exactly the entry it concerns, and follows the connection |
| SessionListPanel.App.PollSessionEvents | kv8scope/App.cpp:380-445 | after draining, the list shows exactly the known sessions, each once, with the last probed liveness, and the channel and metadata told last, in order of channel and prefix; the connection shown is the one the run gives |
| SessionListPanel.EntryIsUpToDate | kv8scope/App.cpp:405-425 | an entry shows the metadata of the last announcement of its session, which come from the scan that made it known or from the last announced rise |
| SessionListPanel.App.Poll | kv8scope/SessionManager.cpp:258-500 | a cycle, successful or failed, keeps list and queue consistent with what the worker knows |
| SessionListPanel.App.Reconnect | kv8scope/App.cpp:45-53 | clearing the list and the connection display and restarting discovery keep them consistent |
| LogStore.NeighboursSuffice | kv8scope/LogStore.cpp:119-124 | checking adjacent pairs from the first new entry on is enough for the whole list to be sorted |
| LogStore.RawsPermute | kv8scope/LogStore.cpp:125-129 | sorting loses and invents nothing of what arrived |
| LogStore.LastDescriptorWins | kv8scope/LogStore.cpp:95-104 | what is known for a call site is its last new descriptor, or else the old one |
| LogStore.LogStore.SeedLogSites | kv8scope/LogStore.cpp:11-21 | seeded sites do not replace known ones; afterwards an entry is resolved if and only if its site is known |
| LogStore.LogStore.TakeSites | kv8scope/LogStore.cpp:95-104 | new descriptors replace old ones, the last for a hash winning, and unresolved entries are resolved again |
| LogStore.LogStore.TakeEntries | kv8scope/LogStore.cpp:108-113 | new entries are appended, resolved against the known sites |
| LogStore.LogStore.SortIfNeeded | kv8scope/LogStore.cpp:119-129 | the list ends up sorted, and a permutation |
| LogStore.LogStore.DrainPending | kv8scope/LogStore.cpp:85-131 | in whatever order sites and entries arrive, the list is sorted by time, a permutation of everything drained, and resolved exactly where the site is known |
| LogCsv.ExportReadsBack | kv8scope/LogStore.cpp:154-248 | a reader following RFC 4180 section 2 recovers the header and, in time order, every column of exactly the entries inside the time range, of a selected level and containing the filter text, for any commas, quotes and line ends |
| LogCsv.LineReads | kv8scope/LogStore.cpp:230-241 | one written row reads back as its cells, and the reader stops right behind it |
| LogCsv.QuotedReads | kv8scope/LogStore.cpp:178-194 | a quoted field with doubled quotes reads back as the text |
| LogCsv.SelectedInOrder | kv8scope/LogStore.cpp:197-209 | the selection keeps exactly the passing entries, in order |
| LogCsv.MaskSelects | kv8scope/LogStore.cpp:202-205 | a mask with the bits of some levels below 8 selects those levels and no others |
| LogCsv.ContainsMiddle | kv8scope/LogStore.cpp:207-209 | a text is found wherever it stands |
| LogCsv.ContainedSplits | kv8scope/LogStore.cpp:207-209 | and where it is found the message splits around it |
| LogCsv.WriteQuoted | kv8scope/LogStore.cpp:178-194 | the character loop writes the quoted field |
| LogCsv.Find | kv8scope/LogStore.cpp:207-209 | the filter accepts exactly the messages that contain it |
| LogCsv.WriteLine | kv8scope/LogStore.cpp:230-241 | a row's cells are written with commas between them and a newline behind |
| LogCsv.ExportCSV | kv8scope/LogStore.cpp:154-248 | false without a path or when the file cannot be opened, otherwise the whole file, and the count of rows is the number of selected entries |
| CounterTree.JoinSplit | kv8scope/CounterTree.cpp:553-571 | segments joined by '/' give back the name and hold no '/' |
| CounterTree.SplitJoin | kv8scope/CounterTree.cpp:553-571 | any segments without '/' are what splitting their joined name gives |
| CounterTree.SiblingsDiffer | kv8scope/CounterTree.cpp:560-568 | siblings have distinct segments |
| CounterTree.LeafSpellsName | kv8scope/CounterTree.cpp:547-573 | the segments on the way to a leaf, joined by '/', are the counter's name |
| CounterTree.UnderExact | kv8scope/CounterTree.cpp:577-582 | collecting at a node gives exactly the counters whose split name starts with its path, each once |
| CounterTree.EachCounterOnce | kv8scope/CounterTree.cpp:547-582 | the whole tree holds every counter index exactly once |
| CounterTree.PathIsNew | kv8scope/CounterTree.cpp:560-563 | when no child carries the segment, no node anywhere has that path |
| CounterTree.PathTree.ChildNamed | kv8scope/CounterTree.cpp:560-562 | the search finds a child with the segment if and only if there is one |
| CounterTree.PathTree.Descend | kv8scope/CounterTree.cpp:560-568 | one level down, creating the node when missing, with the tree kept sound |
| CounterTree.PathTree.Walk | kv8scope/CounterTree.cpp:552-572 | walking down along the slashes ends at the node of the split name |
| CounterTree.PathTree.Insert | kv8scope/CounterTree.cpp:551-572 | a counter is listed at the node of its split name and nowhere else |
| CounterTree.PathTree.CollectLeaves | kv8scope/CounterTree.cpp:577-582 | appends the leaves below a node, depth first |
| CounterTree.PathTree.Aggregate | kv8scope/CounterTree.cpp:860-899 | a folder's boxes are ticked if and only if every counter below it has a display state with the flag set |
| CounterTree.BuildTree | kv8scope/CounterTree.cpp:547-573 | the tree of a whole group, counter by counter |

## Left out

- Kafka, librdkafka, threads and mutexes: the topic is one ordered log, a scan is an input, a queue under a lock is a sequence. Compaction of the topic and a producer that drops or reorders are not modelled.
- ImGui and ImPlot rendering, dialogs, themes, fonts, configuration, the websocket server and the command line: user interface and thin code.
- Rounding, infinities and NaN: doubles are reals, and `DBL_MAX` is a parameter that bounds every value and exceeds every distance. With rounding, a column's right edge may differ from the next column's left edge.
- Memory ordering below atomic steps: a load returns some value between the last one seen and the current one, which is what acquire and release give on these rings. Counters never reach 2^64.
- SpscFixedRing.SpscFixedRing.Clear: on one thread only, as the original demands.
- PathSimplifier: cosine and square root. The east scale of the local frame is a function of latitude and distances are compared squared.
- P2Median: how fast the estimate converges to the true median; no bound on the approximation error follows from the algorithm.
- AnnotationStore.AnnotationStore.Add: the sequence number never reaches 2^64.
- AnnotationReplicas.StoresConverge: deletes are of published annotations, no two stores hand out the same number in the same second, and sequence numbers stay below 2^64.
- AnnotationCodec.RecordRoundTrip: ids and creation fields hold no quote, backslash or null character, which the store does not escape. Overflow of the 64-bit microseconds and of numbers in foreign records is not modelled.
- SessionManager.SessionManager.RunOnePollCycle: sessions deleted by the user from the list are not part of the model. Heartbeat details for tooltips and the texts of errors are dropped.
- SessionListPanel.App.Dispatch: hint texts, and the open scope windows, which are handed the same metadata and liveness.
- JsonEscape.ReaderConformsIff: of the characters JSON can write as codes only those up to 127, beyond which the store writes none; bytes above are taken as they are.
- SessionListPanel.SessionListPanel.AddSession: `std::sort` over the whole list is replaced by putting the one new entry into its place, which gives the same list up to entries of equal channel and prefix.
- WaveformQueries.QueryStats: the remembered window bounds beside the estimator, which nothing in the modelled code reads.
- LogStore: decoding of binary log records and site descriptors. `std::sort` is replaced by an insertion sort of which only "sorted permutation" is used, so ties may come in any order.
- LogCsv.ExportCSV: the calendar text of a timestamp is a function parameter whose result holds no comma, quote or line end; levels of 32 and more, where the original shifts too far, count as not selected.
- CounterTree.PathTree: nodes live in one list and pointers are indices into it, where the original nests vectors of nodes and points into them; the memory layout is not modelled, the order of children and leaves is.
- CounterTree.PathTree.Aggregate: what ticking a folder's box does to the counters below it.
- DecimationController, attitude windowing, frame assembly, UDT and registry decoding, trigger logic and statistics beyond the median: easier members of the same kind.
