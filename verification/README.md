# Verified model of the lab's time, event and forecast rules

The repository runs a small OpenADR 3.1 lab: a VTN publishes events, many VENs act on them, a BFF displays
what was asked, and a forecaster feeds the VENs. This project models the rules these programs share and the
stateful protocols around them, and proves what the rules mean.

* **Events in time** (`EventTiming`, `LoopedTime`, `LoopedCopies`, `RandomStart`). An event becomes absolute half-open
  intervals: the cursor rule, then `event.duration` as one window that trims or repeats the sequence, then the
  per-VEN random start. The central result is that looping is modular time: the program's cursor and shift loops
  equal "declared interval k mod n, k div n spans later", and the interval in force at t is the declared one in
  force at (t - start) mod span; an interval that outlasts the last one runs on into the next lap. A contiguous
  sequence tiles the event. `LoopedCopies` says which copies an expansion holds when the sequence is in any order,
  and when a date out of range stops the program.
* **Overlapping events** (`EventPriority`, `SweepMeaning`, `ResolveMeaning`, `ResolveLaws`, `WireContract`). The
  program sorts, collects and sweeps boundaries; the proofs show this equals a rule about single instants: the
  highest-ranked readable bid for a payload type wins. Projection, order independence, canonical segments and
  agreement with the wire audit follow from the pointwise rule.
* **Time series** (`TimeSeries`, `Resampling`, `SignalLaws`). The integral of a step or linear signal is defined
  piece by piece, independently of the program; the mean, the extremes and both resamplings are proved against it.
* **Report upsert** (`VtnReports`). A client with an id cache against a VTN that may refuse, lose answers, delete,
  reset and be used by others between any two steps. Every run keeps each remembered id gone or of exactly its
  name, and a submission sends and answers exactly what the protocol asks, so `FailsOnlyWhen` says when it may fail;
  `PutLeavesOthersIff` and `RenamingWouldOverwrite` say why the cache must be right and why others must not rename
  reports.
* **Forecast intake** (`ForecastIntake`). A message store that equals a fold of its history; the displayed source
  is the planned one.
* **Learner and buckets** (`BaseLoadLearner`, `BaseLoadBuckets`). A weighted-average profile, given by the equations
  it solves, and the windowed bucket map it learns from, over a run and over a restart.
* **Telemetry slot and compliance score** (`FleetTelemetry`, `Compliance`).

Conventions. Instants and durations are integers (milliseconds; seconds in `Compliance`), power and prices are
`real`. Code that loops and updates is a method with invariants, proved equal to a specification function; what
the function means is proved in lemmas, down to the fields, units and constants of what is written and
published. Objects that change are classes (`VtnReports.Client`, `ForecastIntake.ReceivedForecasts`,
`BaseLoadBuckets.BaseLoadModel`); the telemetry slot, whose point is the interleaving of many tasks, is a state
machine over its atomic steps.

## Where the code and its documentation differ

Each of these is a lemma with an exact condition or a concrete input.

* One offset for every period of an event keeps a sequence contiguous (event_timing.rs:211-213): the offsets are
  one only if the periods that anchor intervals declare one window, up to windows too short for an offset, and the
  sequence stays contiguous at every VEN exactly then. `RandomStart.ContiguousEverywhereIff`,
  `RandomStart.StaysContiguousIff`, `RandomStart.DifferentWindowsBreakTheSequence`.
* The intervals repeat to fill a longer `event.duration` (event_timing.rs:98): as far as the cap of 2000 lets them,
  every copy that starts before the event's end is there exactly when, in no repetition, one that does is listed
  behind one that does not. `LoopedCopies.EveryCopyExpandedIff`, `LoopedTime.OutOfOrderLosesCopies`. A repetition
  that copies an interval with an open end stops the program. `LoopedCopies.OpenCopyStops`,
  `LoopedCopies.OpenIntervalStopsTheProgram`.
* The display shows the source in use (received_forecasts.rs:45-46): for the base load only if an asset is named for
  the series or nothing fresh was received. `ForecastIntake.BaseLoadShownIsPlannedIff`,
  `ForecastIntake.ShownButNotPlanned`.
* A received series has no value outside itself (received_pv.rs:28-29): the last second before its start has one.
  `ForecastIntake.AtAnswersExactly`.
* Saved samples land in their buckets like live readings (base_load.rs:87): a restored bucket counts as one
  reading, and saved buckets older than a window are dropped. `BaseLoadBuckets.RestartIsSeamlessIff`,
  `BaseLoadBuckets.RestartMovesTheMean`, `BaseLoadBuckets.LateBucketIsNotRestored`.
* Buckets older than the learner's window are dropped (base_load.rs:56-57): a reading that comes more than one
  window late is itself kept. `BaseLoadBuckets.WindowKeptIff`, `BaseLoadBuckets.LateReadingIsKept`.
* True at most once per configured interval (fleet_telemetry.rs:369): unless a clock went back.
  `FleetTelemetry.ClaimsAreSpacedIff`, `FleetTelemetry.BackwardClockClaimsEarly`.

## Model

| member | source | states |
|---|---|---|
| EventTiming.BaseFollowsCursorRule | lab-core/src/event_timing.rs:242-277 | the whole list, from the end of each interval before: every interval keeps its place and follows the cursor rule of User Guide section 7.3 |
| EventTiming.PlaceIntervals | lab-core/src/event_timing.rs:242-277 | the moving-cursor loop gives the list that `PlacedAsDeclared` describes |
| EventTiming.PlacedAsDeclared | lab-core/src/event_timing.rs:253-269 | on what the event declares: an interval starts at its own start, else where the one before ends, else at the event's start, else open; it ends its own duration later, else the event's, else open, and open past the last date |
| EventTiming.IntervalsAsListed | lab-core/src/event_timing.rs:248-252 | an event without an interval list has no interval |
| EventTiming.AsDeclaredWithoutWindow | lab-core/src/event_timing.rs:105-169 | without a duration, a first interval on a date, or an end on one, the event is exactly as declared |
| EventTiming.WindowEndsDurationAfterStart | lab-core/src/event_timing.rs:155-169 | otherwise it ends its duration after the first interval's start |
| EventTiming.RepeatsIff | lab-core/src/event_timing.rs:124-129 | which sequences repeat: those that begin and end on dates and run forward |
| EventTiming.ExpandIntervals | lab-core/src/event_timing.rs:106-150 | the trim, repeat and break loops compute the expansion, and end; and whether a date out of range stops them first |
| EventTiming.TrimLoop | lab-core/src/event_timing.rs:112-121 | the trim keeps the intervals that start before the event's end, clipped to it |
| EventTiming.PassLoop | lab-core/src/event_timing.rs:133-146 | one repetition, stopped at the cap or at the first start past the end, and whether its dates stay in range |
| EventTiming.PassesLoop | lab-core/src/event_timing.rs:130-148 | repetition after repetition, as far as the cap or the end |
| EventTiming.PassInRangeIff | lab-core/src/event_timing.rs:133-146 | a repetition stays in range iff every start it comes to is a date, and the end of every interval it copies |
| EventTiming.TimedIntervals | lab-core/src/event_timing.rs:84-150 | never more intervals than declared or the cap of 2000, whichever is larger |
| LoopedTime.ExpansionUnrolls | lab-core/src/event_timing.rs:106-150 | closed form, for any sequence listed in order whose expansion stays in the range of dates, gaps and overlaps included: the k-th interval copies declared interval k mod n, k div n spans later, clipped; it stops exactly at the cap or the end |
| LoopedTime.UnrollsForEveryEndIff | lab-core/src/event_timing.rs:112-148 | that closed form, which lists the copies in declared order from the first repetition on, is what every end gives iff the declared starts never go back |
| LoopedTime.LoopingIsByLaps | lab-core/src/event_timing.rs:92-150 | for any sequence listed in order: an expanded interval is in force at t iff the event has not ended and its declared interval was in force its lap's spans earlier |
| LoopedTime.InForceIff | lab-core/src/event_timing.rs:92-150 | the rule about instants: unless the cap stopped it, a declared interval has a copy in force at t iff some lap up to t's own has it in force |
| LoopedTime.LapIsExpanded | lab-core/src/event_timing.rs:92-150 | no copy is missing: whatever a lap has in force at t is in the expansion, in force at t, unless the cap came before |
| LoopedTime.ExpansionTiles | lab-core/src/event_timing.rs:92-150 | a contiguous sequence tiles [start, end): no gap, no overlap, ends at the end unless the cap stopped it |
| LoopedTime.LoopingIsModularTime | lab-core/src/event_timing.rs:92-150 | when the last interval ends last, only t's own lap counts: an expanded interval is in force at t iff it is of t's repetition and its declared interval is in force at (t - start) mod span |
| LoopedTime.OutOfOrderLosesCopies | lab-core/src/event_timing.rs:133-146 | a sequence listed out of order: the break at a late start drops the copy of an earlier one |
| LoopedCopies.ExpansionHoldsCopies | lab-core/src/event_timing.rs:112-150 | for sequences in any order: every expanded interval is the moved, clipped copy its origin says, and starts before the end |
| LoopedCopies.CopyMadeIff | lab-core/src/event_timing.rs:112-150 | which copies are made, unless the cap stopped it: of the declared list all that start before the end, of a later lap those behind which nothing listed earlier starts past it |
| LoopedCopies.EveryCopyExpandedIff | lab-core/src/event_timing.rs:92-150 | the documented filling, at the event's own end: every copy that starts before it is expanded iff no lap has one listed behind one that does not |
| LoopedCopies.OpenCopyStops | lab-core/src/event_timing.rs:141-145 | copying an interval with an open end takes a date out of range, which stops the program |
| LoopedCopies.RoomReturns | lab-core/src/event_timing.rs:130-148 | with one span and one interval of room after the event's end, no date goes out of range |
| LoopedCopies.OpenIntervalStopsTheProgram | lab-core/src/event_timing.rs:141-145 | a concrete event that does |
| LoopedTime.ExpansionCoversOnce | lab-core/src/event_timing.rs:92-150 | for a contiguous sequence, every instant the cap lets the expansion reach is covered by exactly one interval |
| RandomStart.Offset | lab-core/src/event_timing.rs:181-206 | the offset is the whole part of fraction times window, so it lies in [0, window); 0 for an empty window |
| RandomStart.RandomizeStart | lab-core/src/event_timing.rs:218-236 | the loop over the copy shifts every declared period, and only those |
| RandomStart.OnlyStartsMove | lab-core/src/event_timing.rs:208-236 | each start moves by the whole part of fraction times its own window; durations, windows, payloads and the rest of the event stay |
| RandomStart.BaseMovesIffAnchorsAgree | lab-core/src/event_timing.rs:208-277 | every declared interval moves by c iff every period that anchors one is offset by c |
| RandomStart.StaysContiguousIff | lab-core/src/event_timing.rs:211-213 | a contiguous sequence stays contiguous at a VEN iff every anchoring period is offset as much as the first |
| RandomStart.OffsetsAgreeIff | lab-core/src/event_timing.rs:181-206 | two periods have the same offset at every VEN iff their declared windows agree, counting an absent one or one below 2 ms as 1 ms |
| RandomStart.ContiguousEverywhereIff | lab-core/src/event_timing.rs:211-213 | on what the event declares: a contiguous sequence stays contiguous at every VEN iff its anchoring periods declare one such window |
| RandomStart.RandomStartCommutesWithExpansion | lab-core/src/event_timing.rs:208-236 | expanding the randomized event is expanding the declared one with every endpoint moved by c: same count, widths and looping |
| RandomStart.SameWindowMovesTheWholeEvent | lab-core/src/event_timing.rs:208-236 | with one window in every period, the whole event moves by one offset inside that window |
| RandomStart.DifferentWindowsBreakTheSequence | lab-core/src/event_timing.rs:211-213 | two periods with different windows: a contiguous pair comes out overlapping |
| WireContract.ReadFollowsDeclarations | lab-core/src/wire_contract.rs:214-256 | who is listened to, in one statement: a number is refused iff that descriptor differs from the profile, assumed iff nobody is listened to and the type has a unit |
| WireContract.ReadsFirstNumber | lab-core/src/wire_contract.rs:214-220 | a payload is read iff its first value is a number, whole or not, and as that number |
| WireContract.EventDescriptorDecides | lab-core/src/wire_contract.rs:226-250 | the first descriptor of the event for the type, if it names a unit or currency, decides alone |
| WireContract.ProgramDescriptorDecides | lab-core/src/wire_contract.rs:227-250 | else the program's, on the same terms |
| WireContract.NobodyDecides | lab-core/src/wire_contract.rs:222-255 | else the number is read: from the profile default iff the profile gives the type a unit |
| WireContract.ProfileTable | lab-core/src/wire_contract.rs:97-113 | the types the profile defines, each with its unit and currency |
| WireContract.DeclaredWords | lab-core/src/wire_contract.rs:316-341 | what a refusal says was declared |
| WireContract.ExpectedWords | lab-core/src/wire_contract.rs:316-341 | and what it says the profile reads |
| WireContract.RefusalIsPerType | lab-core/src/wire_contract.rs:214-256 | within an event a payload type is refused for every number or for none, and the refusal names both |
| WireContract.AuditListsRefusals | lab-core/src/wire_contract.rs:264-292 | the audit's refusals are strictly sorted, without duplicates, and exactly those of the poll's payloads |
| WireContract.RefusalOrder | lab-core/src/wire_contract.rs:288-289 | the order of the list: by event, type, declared, expected, each as text |
| WireContract.StringOrder | lab-core/src/wire_contract.rs:288-289 | text order: a prefix first, else the first different character |
| WireContract.AuditEvent | lab-core/src/wire_contract.rs:264-292 | the inner loop over one event's payloads adds exactly its own counts and refusals |
| WireContract.AuditEvents | lab-core/src/wire_contract.rs:264-292 | the counting and pushing loops: `assumed` counts, per type, exactly the payloads read from the profile default |
| WireContract.AssumedCountAdds | lab-core/src/wire_contract.rs:274-282 | one count for each payload read from the profile default, under its own type |
| WireContract.EntriesAdd | lab-core/src/wire_contract.rs:266-272 | the audit ranges over the payloads of all events, in list order |
| WireContract.EntriesOfOne | lab-core/src/wire_contract.rs:266-272 | and over those of every interval of an event |
| EventPriority.ReadInterval | lab-core/src/event_priority.rs:94-108 | the payload loop keeps exactly the wanted readable payloads and the wanted refusals, in order |
| EventPriority.CollectEvent | lab-core/src/event_priority.rs:90-120 | one event's candidates and refusals, empty intervals skipped, and whether its expansion returns |
| EventPriority.WinnersOver | lab-core/src/event_priority.rs:138-157 | the winners map of one stretch, where only a higher rank beats |
| EventPriority.ResolveSegments | lab-core/src/event_priority.rs:131-168 | the window loop over the boundaries |
| EventPriority.ResolveEvents | lab-core/src/event_priority.rs:70-127 | the whole resolution as nested loops, and whether every expansion returns |
| SweepMeaning.SweepIsPointwise | lab-core/src/event_priority.rs:129-168 | read at any instant, the sweep gives type p to the covering offer greatest by (rank, candidate, offer), and to nobody iff none covers |
| SweepMeaning.SegmentsAreCanonical | lab-core/src/event_priority.rs:129-168 | segments are ordered, disjoint, non-empty and won, at most 2n - 1 for n candidates |
| SweepMeaning.ApartComeOutUnchanged | lab-core/src/event_priority.rs:129-130 | input without overlaps comes out unchanged, gaps kept |
| ResolveMeaning.RankedIsRanking | lab-core/src/event_priority.rs:64-88 | section 7.1: lower number over higher over absent, then newer, then later in the input; every event once |
| ResolveMeaning.RanksBelowIff | lab-core/src/event_priority.rs:64-88 | that order on what the events declare: no number below any, a larger below a smaller, older below newer, earlier in the input below later |
| ResolveMeaning.EventBidIff | lab-core/src/event_priority.rs:94-108 | what a bid is: a wanted, readable payload of the type in an interval in force |
| ResolveMeaning.AllReturnIff | lab-core/src/event_priority.rs:70-95 | the resolution ends iff the expansion of every input event does |
| ResolveMeaning.ResolveIsPointwise | lab-core/src/event_priority.rs:60-127 | resolution of events equals the pointwise rule over their expanded intervals: p at t goes to the bid no other ranks above, and to nobody iff nothing bids |
| ResolveMeaning.WinnerIsEventWinner | lab-core/src/event_priority.rs:60-127 | every winner shown comes from a payload of a declared event in force at that instant |
| ResolveMeaning.EventWinnerUnique | lab-core/src/event_priority.rs:60-69 | that winner is unique |
| ResolveLaws.SegmentEdgeIsBidEdge | lab-core/src/event_priority.rs:94-135 | no needless cuts: segments begin and end only where an interval with something wanted and readable does |
| ResolveLaws.LimitingTypesIsProjection | lab-core/src/event_priority.rs:60-62 | resolving limited types gives each wanted type the winner it has with no limit, at every instant, and no other type any |
| ResolveLaws.PermutationsResolveAlike | lab-core/src/event_priority.rs:64-67 | without ties on priority and creation time, every permutation of the events gives the identical result |
| ResolveLaws.LowerEventDisturbsNothing | lab-core/src/event_priority.rs:64-67 | adding an event anywhere changes no winner that ranks above it, at any instant |
| ResolveLaws.HigherEventTakesOver | lab-core/src/event_priority.rs:64-67 | an event above every bid takes over where it bids, with the winner it has alone |
| ResolveLaws.ExpansionUsesDeclared | lab-core/src/event_timing.rs:106-150 | expansion invents no interval |
| ResolveLaws.RefusalListedIff | lab-core/src/event_priority.rs:90-108 | resolving lists as refused exactly the wanted payloads of non-empty intervals that reading refuses, over the interval's stretch |
| ResolveLaws.ResolvedRefusalsAreAudited | lab-core/src/event_priority.rs:99-108 | every refusal resolving lists is in the audit |
| ResolveLaws.WinnersAreNotRefused | lab-core/src/wire_contract.rs:214-292 | with unique ids, no segment is won by an event and type the audit lists |
| ResolveLaws.OneRefusalPerEventAndType | lab-core/src/wire_contract.rs:264-292 | with unique ids, the audit lists an event and type at most once |
| TimeSeries.SampleIsValue | lab-core/src/time_series.rs:41-78 | a sample's value is the signal's value at its time, Step and Linear |
| TimeSeries.DefinedIff | lab-core/src/time_series.rs:41-78 | where the signal has a value: from the first sample on, for Linear up to the last |
| SignalLaws.StepCarriesForward | lab-core/src/time_series.rs:41-78 | between two samples a Step signal keeps the earlier value, after the last one the last |
| SignalLaws.LinearDividesRise | lab-core/src/time_series.rs:41-78 | a Linear signal divides the rise between two samples as the time is divided |
| TimeSeries.PlainStretch | lab-core/src/time_series.rs:107-133 | between split points the area is the rectangle or trapezoid the program adds |
| TimeSeries.IntegralSplits | lab-core/src/time_series.rs:80-137 | the integral is additive over any split point |
| Resampling.SplitsAreFine | lab-core/src/time_series.rs:91-106 | between neighbouring split points no sample lies, so each piece is a rectangle or a trapezoid |
| Resampling.CollectSplits | lab-core/src/time_series.rs:91-98 | the split points: start, the samples inside, end |
| Resampling.TimeWeightedMean | lab-core/src/time_series.rs:85-137 | the loop over the split points is the integral over the length, None exactly where an end is undefined |
| Resampling.BucketExtreme | lab-core/src/time_series.rs:153-183 | the loop picks over the start, the samples inside and, for Linear, the end |
| Resampling.ResampleUniform | lab-core/src/time_series.rs:212-247 | the bucket loop emits exactly the buckets that have a value; what the values are is `SignalLaws.MinSampleIsLeast`, `MaxSampleIsGreatest` and `MeanSampleIsIntegral` |
| Resampling.BucketDefined | lab-core/src/time_series.rs:212-247 | a grid bucket has a mean iff it does not reach past the covered end: for Linear the last one is dropped |
| Resampling.ResamplingConserves | lab-core/src/time_series.rs:200-247 | the sum of mean times width is the signal's integral from the first grid point to the covered end |
| Resampling.ResampledOnGrid | lab-core/src/time_series.rs:200-270 | resampled times are epoch-aligned, ascending and inside the data, each sample of its own bucket; with `SignalLaws.EveryGridPointSampled` they are all of them |
| Resampling.FloorToGrid | lab-core/src/time_series.rs:251-257 | the grid point at or before an instant, also before the epoch |
| Resampling.CeilToGrid | lab-core/src/time_series.rs:260-270 | the grid point at or after an instant |
| SignalLaws.ExtremeBoundsSignal | lab-core/src/time_series.rs:139-183 | every defined value of the signal on [start, end) is within the bucket's minimum and maximum |
| SignalLaws.ExtremeIsReached | lab-core/src/time_series.rs:139-183 | the extreme is a value of the signal on the closed bucket |
| SignalLaws.MeanBetweenExtremes | lab-core/src/time_series.rs:85-183 | where a mean is defined, so are both extremes, and it lies between them |
| SignalLaws.MinSampleIsLeast | lab-core/src/time_series.rs:212-247 | a Min bucket: no value of the signal in it is below the sample, which is a value of the signal |
| SignalLaws.MaxSampleIsGreatest | lab-core/src/time_series.rs:212-247 | a Max bucket, from above |
| SignalLaws.MeanSampleIsIntegral | lab-core/src/time_series.rs:212-247 | a Mean bucket: sample times width is the integral over the bucket |
| SignalLaws.EveryGridPointSampled | lab-core/src/time_series.rs:212-247 | every grid point from the first sample to the last has a sample, but for a Linear mean whose bucket reaches past the data |
| SignalLaws.ResampledKeepsInterpolation | lab-core/src/time_series.rs:212-247 | nothing to resample gives nothing, and the interpolation is kept |
| SignalLaws.RefiningPreservesSignal | lab-core/src/time_series.rs:188-198 | resampling onto any ascending grid that keeps the sample times keeps the value at every instant, defined or not |
| VtnReports.WriteIsPut | VEN/src/vtn_reports.rs:25-36 | writing under a new id, or one that bears the name, is a put on the plain name-to-body map |
| VtnReports.AsMapIff | VEN/src/vtn_reports.rs:25-36 | the plain map holds exactly the named reports with their bodies |
| VtnReports.WorldKeepsCacheSound | VEN/src/vtn_reports.rs:13-16 | deletes, resets, new reports and new bodies by others leave every remembered id gone or of exactly its name |
| VtnReports.WorldIsFree | VEN/src/vtn_reports.rs:33-36 | others may reset the database, delete any report, create under a new id, change bodies |
| VtnReports.Client.UpdateReport | VEN/src/vtn_reports.rs:140-147 | a PUT to an id that bears the name puts that name and nothing else; it sends that PUT alone, and its answer is the answer |
| VtnReports.Client.FindReportByName | VEN/src/vtn_reports.rs:162-170 | sends one listing and finds the first listed report of the name, none only when none is listed or the listing failed; the id bears the name, and nothing was written |
| VtnReports.Client.UpdateRemembered | VEN/src/vtn_reports.rs:43-60 | a remembered id gets one PUT that puts that name, without one nothing is sent; a rejected id is forgotten |
| VtnReports.Client.CreateReport | VEN/src/vtn_reports.rs:62-76 | one POST; if it made a report, that is a put of its name, and the id it answers bears that name |
| VtnReports.Client.UpdateByName | VEN/src/vtn_reports.rs:88-104 | the 409 path: a listing, a PUT to the first report of the name, Ok exactly when that is accepted, and then that id remembered |
| VtnReports.Client.UpsertReport | VEN/src/vtn_reports.rs:37-138 | what it sends and whether it answers Ok are exactly what the protocol asks, given the id remembered when it looked and the answers it got; Ok means one of its requests put this name with this body; none of its requests did anything else, on any path; afterwards the cache is as the last wait left it, plus the id learned |
| VtnReports.FailsOnlyWhen | VEN/src/vtn_reports.rs:37-138 | a submission fails iff its POST failed for good, or got 409 and: the report has no name, the listing failed or names none, or the report found rejects the PUT; at most four requests, one when the remembered id is accepted |
| VtnReports.LearnedIff | VEN/src/vtn_reports.rs:62-104 | what it learns: the id the POST answered, or the one found and put |
| VtnReports.Client.CreateOrUpdate | VEN/src/vtn_reports.rs:62-137 | the POST and what follows its answer |
| VtnReports.Client.DeleteReport | VEN/src/vtn_reports.rs:152-159 | sends one DELETE; Ok means the report is gone and no name remembers its id, every other entry kept |
| VtnReports.RunCalls | VEN/src/vtn_reports.rs:37-159 | over any run of calls the cache stays sound and every own request is accounted for by one of the calls |
| VtnReports.PutLeavesOthersIff | VEN/src/vtn_reports.rs:33-36 | what the invariant protects: a PUT under a name leaves all other names alone iff the id bears that name or none |
| VtnReports.RenamingWouldOverwrite | VEN/src/vtn_reports.rs:46-47 | why others must not rename: the PUT to a remembered id whose report was renamed erases the new name |
| ForecastIntake.BuildMeetsIntake | lab-forecast/src/forecast_payload.rs:154-220 | which series can be built, that it holds what it was built from, and that whatever is built is accepted under its own key |
| ForecastIntake.ValidIff | lab-forecast/src/forecast_payload.rs:183-220 | which payloads are valid, and that an unknown version is objected to before anything else |
| ForecastIntake.SpeaksVersionOne | lab-forecast/src/forecast_payload.rs:247-258 | version 1, alone or with a minor part, and no other |
| ForecastIntake.AcceptedIff | lab-forecast/src/received_forecasts.rs:117-172 | a message is taken, unchanged, iff it is readable, valid and of its key's sign; else whose objection is recorded |
| ForecastIntake.SeriesByKey | lab-forecast/src/received_forecasts.rs:120-129 | pv/<id> feeds array id, and nothing else does |
| ForecastIntake.ReceivedForecasts.Apply | lab-forecast/src/received_forecasts.rs:117-141 | after any history, each series holds its last accepted message and each key a rejection iff its newest message was refused |
| ForecastIntake.LastAcceptedIs | lab-forecast/src/received_forecasts.rs:113-130 | the last accepted message: of the series, accepted, and none such after it |
| ForecastIntake.LastOfIs | lab-forecast/src/received_forecasts.rs:113-140 | the newest message of a key, likewise |
| ForecastIntake.StoredIsValid | lab-forecast/src/received_forecasts.rs:120-172 | whatever is stored is valid and of its series' sign; a PV series is never negative |
| ForecastIntake.TakesOwnSeriesIff | lab-forecast/src/received_forecasts.rs:124-129 | a message leaves every other subscribed series alone iff its key is subscribed: any other key lands in the base load |
| ForecastIntake.DisplayEqualsPlan | lab-forecast/src/received_pv.rs:59-112 | an array is planned on the received values, slot by slot, exactly while they are fresh, else on its own computation, each under its own label; the named asset on the received base load as it is; and the display says Forecaster exactly then |
| ForecastIntake.WrongSignIsNotPlanned | lab-forecast/src/received_pv.rs:36-95 | a payload of the other sign is planned on by nobody, stored or not |
| ForecastIntake.BaseLoadShownIsPlannedIff | lab-forecast/src/received_forecasts.rs:61-157 | after any history, the base load is shown as Forecaster exactly when some asset plans on it, iff an asset is named or nothing fresh was received |
| ForecastIntake.ShownButNotPlanned | lab-forecast/src/received_forecasts.rs:145-157 | one valid message and no named asset: shown, and nobody plans on it |
| ForecastIntake.DisplayedRejection | lab-forecast/src/received_forecasts.rs:61-95 | a view shows a reason iff its key's newest message was refused, and that message's |
| ForecastIntake.DisplayedPayload | lab-forecast/src/received_forecasts.rs:61-95 | one view per array and one for the base load, showing the stored payload's model, limit and age in whole seconds as far as 32 bits hold it |
| ForecastIntake.AtHoldsEachStep | lab-forecast/src/received_pv.rs:47-55 | each value covers its whole step |
| ForecastIntake.AtAnswersExactly | lab-forecast/src/received_pv.rs:28-55 | the lookup answers exactly for start - 1 s < t < end, so also during the second before the start, with the first value |
| ForecastIntake.SlotsAreTheGrid | lab-forecast/src/received_pv.rs:71-85 | the PV slots and the step-held lookup of the same grid agree, and snow has nothing to add |
| BaseLoadLearner.FilterWindow | lab-forecast/src/base_load_learner.rs:82-86 | only samples of the window count |
| BaseLoadLearner.Accumulate | lab-forecast/src/base_load_learner.rs:97-111 | one pass fills every cell of both tables with the weighted sums of that weekday and hour |
| BaseLoadLearner.AccumulateSince | lab-forecast/src/base_load_learner.rs:137-143 | the weighted sums of the last thirty days |
| BaseLoadLearner.AccumulateError | lab-forecast/src/base_load_learner.rs:155-167 | the weighted error of the previous profile over the window |
| BaseLoadLearner.Shrink | lab-forecast/src/base_load_learner.rs:121-137 | the 168 cells from the tables |
| BaseLoadLearner.LearnProfile | lab-forecast/src/base_load_learner.rs:76-175 | the whole learner is the profile defined on sums over the window, None below the gate |
| BaseLoadLearner.ProfileBalances | lab-forecast/src/base_load_learner.rs:76-175 | the profile as equations: each cell value * (weight + k * rate) is its load + k * rate * overall mean; factor * overall mean is the mean of the last thirty days; error * weight is the summed error; and exactly when there is none |
| BaseLoadLearner.SumsGrow | lab-forecast/src/base_load_learner.rs:97-167 | what one more sample adds to each of those sums |
| BaseLoadLearner.WindowGrows | lab-forecast/src/base_load_learner.rs:82-86 | and when it is in the window at all |
| BaseLoadLearner.CellIff | lab-forecast/src/base_load_learner.rs:97-104 | the cell of an instant is its hour of the week, from Monday midnight |
| BaseLoadLearner.PredictionIs | lab-forecast/src/base_load_learner.rs:55-66 | a profile predicts that cell's value times the factor, 0 without a cell |
| BaseLoadLearner.CellsBetweenSamples | lab-forecast/src/base_load_learner.rs:119-137 | every one of the 168 cells lies between the least and the greatest sample of the window, also a cell without samples |
| BaseLoadLearner.ConstantLoadIsLearned | lab-forecast/src/base_load_learner.rs:119-154 | a constant load gives every cell that load and seasonal factor 1 |
| BaseLoadLearner.OrderDoesNotMatter | lab-forecast/src/base_load_learner.rs:74-75 | samples in any order give the identical result |
| BaseLoadLearner.GrainDoesNotMatter | lab-forecast/src/base_load_learner.rs:118-124 | the same load sampled r times as often gives the identical profile, once the window clears the gate and has 1e-9 samples per hour |
| BaseLoadLearner.ErrorMeasuresPrevious | lab-forecast/src/base_load_learner.rs:155-167 | the reported error is never negative, and zero iff the previous profile predicted every sample of the window |
| BaseLoadBuckets.BaseLoadModel.Record | forecaster/src/base_load.rs:58-66 | a reading joins its bucket, the newest time never goes back, and buckets before the window are split off |
| BaseLoadBuckets.BucketIff | forecaster/src/base_load.rs:142-144 | a bucket is ten minutes on the clock |
| BaseLoadBuckets.WindowSpans | forecaster/src/base_load.rs:64-65 | and the window its number of days in buckets |
| BaseLoadBuckets.BaseLoadModel.History | forecaster/src/base_load.rs:74-85 | the saved form of the buckets, oldest first |
| BaseLoadBuckets.BaseLoadModel.Restore | forecaster/src/base_load.rs:88-97 | saved samples are added and cut to the window of the newest |
| BaseLoadBuckets.MaxTsIs | forecaster/src/base_load.rs:92-96 | the newest sample decides what is cut |
| BaseLoadBuckets.BaseLoadModel.Series | forecaster/src/base_load.rs:101-133 | the 48 hours published, learned or cold, and the profile kept for the next run |
| BaseLoadBuckets.PublishedSeries | forecaster/src/base_load.rs:101-133 | 48 values, an hour apart from the current hour on: what the learned profile says, never negative, once enough samples are in the window; before, the samples' mean, or 0.4 kW |
| BaseLoadBuckets.TotalGrows | forecaster/src/base_load.rs:121-125 | the sum behind that mean |
| BaseLoadBuckets.RunIsExact | forecaster/src/base_load.rs:56-66 | after any run without a reading more than a window late, exactly the newest reading's window is kept, each bucket with the sum and count of all that ever fell in it |
| BaseLoadBuckets.InOrderIsNeverLate | forecaster/src/base_load.rs:56-66 | readings in time order meet that condition |
| BaseLoadBuckets.WindowKeptIff | forecaster/src/base_load.rs:56-66 | from any model, fresh or restored: the buckets stay in the newest window at every point of a run iff no reading is more than a window late |
| BaseLoadBuckets.LateReadingIsKept | forecaster/src/base_load.rs:56-66 | two readings, the second late: it is kept outside the newest window |
| BaseLoadBuckets.RestoredWindowKeptIff | forecaster/src/base_load.rs:56-97 | so after a restore, the newest saved bucket counting as seen |
| BaseLoadBuckets.HistoryIsAscending | forecaster/src/base_load.rs:73-85 | a history is strictly ascending and holds every bucket once, at its start, with its mean |
| BaseLoadBuckets.SameHistoryIff | forecaster/src/base_load.rs:73-85 | two sets of buckets save alike iff they have the same buckets with the same means |
| BaseLoadBuckets.RunSurvivesRestart | forecaster/src/base_load.rs:73-97 | after any such run, restoring the saved history into a fresh model reproduces it |
| BaseLoadBuckets.RestoreReproduces | forecaster/src/base_load.rs:87-97 | a restore brings back the saved buckets of the newest one's window, each as one reading at its mean; the same history iff nothing saved lay outside that window |
| BaseLoadBuckets.RunOnAdds | forecaster/src/base_load.rs:58-66 | readings on top of what a model holds: every bucket never dropped is what it held joined with what came later; a dropped one starts over |
| BaseLoadBuckets.RestartIsSeamlessIff | forecaster/src/base_load.rs:87-97 | after any run of later readings the restored model gives the history it would have given without the restart iff, for every saved bucket no reading has dropped since: it was restored and held one reading or kept its mean, or the restore dropped it and later readings brought back its mean |
| BaseLoadBuckets.RestartMovesTheMean | forecaster/src/base_load.rs:87-97 | one saved bucket and one later reading for which it does not |
| BaseLoadBuckets.LateBucketIsNotRestored | forecaster/src/base_load.rs:87-97 | a late bucket that is saved and then dropped by the restore |
| BaseLoadBuckets.ConstantLoadIsForecast | forecaster/src/base_load.rs:99-133 | a house that always drew c is forecast to draw c in each of the 48 hours, learned or cold |
| FleetTelemetry.RunIsChained | VEN/src/fleet_telemetry.rs:374-383 | in every schedule each successful claim replaced the value of the one before it, as its cadence check allowed |
| FleetTelemetry.ClaimsAreSpacedIff | VEN/src/fleet_telemetry.rs:369-383 | in every schedule, any two claims are an interval apart if no claim was made on a clock before the value it loaded, and for a positive interval only if |
| FleetTelemetry.LoneTaskClaimsIff | VEN/src/fleet_telemetry.rs:81-89 | after any schedule, a task left alone claims the slot iff nothing was published, its clock stands before the last claim, or the interval is over |
| FleetTelemetry.BackwardClockClaimsEarly | VEN/src/fleet_telemetry.rs:81-89 | a schedule with a clock set back and two claims within one interval |
| Compliance.ScoreRows | experiments/compliance.py:104-107 | exactly the minutes wholly inside the window are scored |
| Compliance.ScoresIff | experiments/compliance.py:101-109 | the scores: of the minutes wholly inside, the power of the window's direction against the limit, or a higher floor of an import window; complying up to 50 W above |
| Compliance.SustainedFrom | experiments/compliance.py:110-116 | the backward scan finds where the longest compliant ending begins |
| Compliance.Extremes | experiments/compliance.py:117-135 | the greatest power and the greatest floor of the scored minutes |
| Compliance.Overshoot | experiments/compliance.py:123-127 | power above target and tolerance, summed after the grace period |
| Compliance.OvershootGrows | experiments/compliance.py:123-127 | what one more minute adds to the overshoot |
| Compliance.OvershootZeroIff | experiments/compliance.py:123-127 | the overshoot is never negative, and zero iff every scored minute from then on complies |
| Compliance.WindowCompliance | experiments/compliance.py:95-140 | the verdict: None without scored minutes, else when compliance begins, engagement, extremes, overshoot |
| Compliance.VerdictIs | experiments/compliance.py:110-140 | the verdict's parts in numbers: 300 s of grace, 50 W of tolerance, four fifths of the limit |
| Compliance.PassIff | experiments/compliance.py:95-140 | on ascending rows, a pass is exactly: some sample by the end of the grace period complies with all after it |
| Compliance.PassLeavesNoOvershoot | experiments/compliance.py:110-140 | a pass is exactly no overshoot after grace together with compliance reached by a sample within grace |
| Compliance.LooserNeverFails | experiments/compliance.py:95-140 | raising the limit or any floor never turns a pass into a fail, lengthens the time to comply or adds overshoot |
| Compliance.UnengagedComplies | experiments/compliance.py:117-127 | a window that did not engage the household has no violating sample and no overshoot |
| Compliance.WindowUtilisation | experiments/compliance.py:156-180 | the ratio and the unused headroom over the paired minutes, and exactly when there is none |
| Compliance.PartsGrow | experiments/compliance.py:167-175 | what one more minute adds to each sum, against the lower of baseline and limit |
| Compliance.EnergyBalances | experiments/compliance.py:156-180 | used plus unused is allowed plus excess |
| Compliance.OverUsedIff | experiments/compliance.py:161-163 | utilisation exceeds 1 iff the excess exceeds the unused headroom |
| Compliance.NothingAllowed | experiments/compliance.py:163-165 | a window whose limit is zero or less never has a utilisation |

## Left out

* Floating point: rounding, infinities and NaN. Power, prices and weights are `real`; the check for non-finite
  values and rounding of displayed figures are not modelled.
* Parts of a millisecond and calendar durations (months, years).
* Dates out of range outside the expansion of an event (random start, sample grids, forecast slots), where the
  program stops; in the expansion, `EventTiming.Returns` says when it does, and the results about resolution are for
  events whose expansion returns.
* The FNV hash behind the random start: any fraction in [0, 1) stands for it.
* JSON, ISO 8601 and topic text: messages arrive parsed, or as unreadable with some error; unit, quantity and
  reading kind of a forecast payload, fixed by its type, are not fields here.
* The library's sort, dedup and binary search: a stable insertion sort and a recursive search with the same
  contract; on a series that is not ascending the binary search's answer is library-specific, so the results
  about means, extremes and resampling are for ascending series.
* Paged listing of reports: one listing, counted as one request, whose items were each true at some moment.
* Report request limits, authentication, tracing and error texts.
* The exponential age weights: any positive function of age. A learner with an empty window setting or no
  shrinkage, where the program divides zero by zero.
* Model version and confidence published with a base-load series.
* Bucket map order and 32-bit counts: a map with its keys listed ascending, and unbounded counts.
* Report quantities, program rows as raw JSON, and the display text of a refusal.
* Floors, comfort, price integrity and fleet peaks in the compliance script; the actions that define its windows.
* MQTT sessions, HTTP, databases, configuration, metrics and the user interfaces.
- ResolveLaws.PermutationsResolveAlike: says nothing about inputs with ties, where the later event wins by `ResolveMeaning.RankedIsRanking`.
- EventPriority.ResolveEvents: sorts by a function on sequences, not in place.
