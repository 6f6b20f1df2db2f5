# Tail Governor, verified

Tail Governor collects the latencies of completed requests, judges tail-latency objectives on
them, and authorises interventions. This project models its core and proves what the core
promises over every input and every run.

The parts, one module per component:

- `Quantiles`, `Windows`, `WindowRuns`, `Schedules`: the nearest-rank quantile, the minimum-sample rule, the
  bounded observation window with four pruning modes and a lazily rebuilt sorted cache, and what
  any interleaving of window operations amounts to.
- `Attribution`, `Selection`: decomposing the slow tail into phases and causes, and choosing an
  intervention.
- `Checksums`, `Codecs`, `Codes`, `StateFiles`, `FileContents`, `StateFileIO`: CRC-32 (section 3.2.9 of
  IEEE 802.3), little-endian fields, enumeration codes, and the state file with its saver and loader.
- `Transitions`: the governor as a state machine. Every public call is one atomic step that takes
  the clock's reading as `now`; `Run` is any sequence of calls.
- `WindowTraces`, `Evidence`, `Revalidation`, `Classes`, `DecisionOrder`, `Hysteresis`, `BindingObjective`, `Interventions`:
  what holds in every run.
- `Restarts`: what lasts when another governor loads what this one saved.
- `Retention`, `Judgement`, `Admission`, `Feasibility`, `Lifecycle`, `Decisions`, `TailCauses`, `Layouts`: what the
  single operations answer, told by clocks, samples, calls, facts, statuses and bytes alone and without
  the functions that compute it: which samples are retained and seen, when evidence is stale or too
  little, which completions are accepted, what the facts rule out, where each call leads, what binds and
  is recorded, which causes are named, and where every byte goes.
- `Governors`, `GovernorRuns`: the governor as an object with mutable tables and window objects,
  each method proved to do what the state machine says, and every run of the object proved to be
  a run of the machine.
- `Frames`, `LatencyMessages`: the framed protocol between processes.
- `Witnesses`: governors, reached by calls from a new one, on which promises that do not always
  hold fail.

Percentiles, fractions and shares are exact reals or ratios; a persisted floating-point number is
carried as its 64-bit pattern and read through the function `Config.read`. Integers are
mathematical; widths and wrap-around are written out where bytes are produced or read.

Where code and documentation disagree, the model follows the code:

- `dominant_phase` is documented to break ties by phase order; it breaks them by report order
  (`TiesFollowReportOrder`). The two agree exactly when the first reported of the longest phases
  is the smallest of them (`PhaseOrderIff`).
- The sample rule is documented as the ceiling of 100/(100-p). The code subtracts a tolerance
  first. The rule says "enough" precisely when a sample lies beyond the rank if and only if
  100/(100-p) does not lie within the tolerance above an integer and the cap is not reached
  (`MinSamplesExactIff`). The double nearest to 99.9 fails this: at 1000 samples its rank is the
  maximum (`StoredP999IsNotExact`).
- Hysteresis is documented as needing a sustained recovery. An evaluation that does not look at
  the value makes one good reading after it enough (`StaleEvaluationSkipsHysteresis`);
  `RecoveryNeedsTwoReadings` gives the state after every sequence of evaluations.
- Each sample is meant to count once; that holds if and only if the policy's enabled objectives
  have distinct ids (`CountedOnceIff`).
- Terminal statuses are meant to be absorbing. A call changes one if and only if it writes over
  that intervention (`TerminalChangesIff`): an authorisation that is given its id, a decision that
  acts when it is the next id, or a load of a file that holds the intervention differently or not at
  all. Each way occurs (`AuthorizeOverwrites`, `DecideOverwrites`, `LoadOverwrites`). The next id
  is behind when a caller had chosen it or a higher one, or after a load that is refused over too many revalidation
  flags: by then the interventions are installed and the next id is not read
  (`RefusedLoadOverwrites`). `SaneStepIff` and `LoadSaneIff` say exactly which calls and which saved
  files keep all ids below the next one and the outcome log in agreement, `TerminalStaysIff` and
  `RestartKeepsTerminalIff` exactly when a terminal status lasts from any state and across any
  restart.
- Decisions are documented as identical on canonical inputs. The order of the policy's objectives
  makes no difference to a decision, up to evaluation ids, if and only if some enabled objective is
  violated, or exactly one is at risk, or none is and at most one is enabled (`DecisionOrderIff`).
  Otherwise it shows: among objectives at risk the first one binds (`OrderDecidesAtRisk`), and when
  nothing binds the first one is reported (`OrderShowsWhenHealthy`). What binds depends on the order
  only in the first of these (`OrderIrrelevantIff`).
- A window's caps and its expiry do not commute, in FIXED_RECENT and at the hard bound of every
  mode that expires samples (`FixedRecentNeedsOrder`, `HardBoundNeedsOrder`). `ScheduleFreeIff`
  says for every configuration and history exactly when earlier prunes make no difference, and
  `BatchIff` exactly when what is shown is the longest suffix that the bounds and the cutoff allow.
- Trailing bytes in a state file are documented as rejected. They are when the length field does
  not announce them (`ResizedDetected`); behind a body whose frame does announce them they are
  ignored, unless the load runs short without them (`SurplusIgnored`). A saved body without them is
  used up (`BodyUsedUp`).
- A refused load can leave its mark, because policy and tables are installed before later counts are
  checked and saving has no such limits. `LoadInstalls` gives the state after every load,
  `ChangesNothingIff` and `SavedChangesNothingIff` the files that change nothing. Fencing and
  revalidation cover refused loads too (`FencedByLoad`, `RestartWithholds`).
- The cooldown does not survive a restart (`CooldownLost`), because the time of the last
  authorisation is not persisted. With nothing asked of the restarted governor before some time, it
  is sure to hold across the restart if and only if that time comes a cooldown after the last
  authorisation before it (`CooldownAcrossRestartIff`).
- Request classes are meant to be isolated. What is ingested is (`HistoryIsolation`), but a count
  bound acts on each window by itself: what the class's window retains is its share of what the
  all-class window retains if and only if the bound pushes no unexpired sample of the class out of
  the latter, or leaves only samples of the class there (`RetainedIsolationIff`, `ClassesCross`).

## Model

| member | source | states |
|---|---|---|
| Quantiles.SortSorts | include/tailgovernor/window.hpp:181 | sorting yields an ascending permutation |
| Quantiles.RankIsLeast | include/tailgovernor/quantile.hpp:75-78 | the clamped rank is the least position r with 100 r >= p N |
| Quantiles.QuantileCounts | include/tailgovernor/quantile.hpp:72-80 | the nearest-rank value is a sample v with 100 count(<= v) >= p N, no smaller sample has that, and no other value is such a sample |
| Quantiles.QuantileTail | include/tailgovernor/quantile.hpp:72-80 | at least N - rank + 1 samples are at or above the quantile |
| Quantiles.QuantileMonotone | include/tailgovernor/quantile.hpp:72-80 | a larger percentile never gives a smaller quantile |
| Quantiles.MinSamplesExactIff | include/tailgovernor/quantile.hpp:82-92 | N >= the minimum iff the rank is strictly below N, for all N, exactly for the percentiles clear of the tolerance and the cap |
| Quantiles.DocumentedMinimums | README.md:92-93 | 20, 100 and 1000 samples for 95, 99 and 99.9 |
| Quantiles.StoredP999IsNotExact | include/tailgovernor/quantile.hpp:72-92 | with the double 99.9, 1000 samples are called enough and the rank is the maximum |
| Quantiles.PercentilesOrdered | src/governor.cpp:54-77 | p50 <= p95 <= p99 <= p999 among those present |
| Windows.PruningDrops | include/tailgovernor/window.hpp:93-132 | pruning invents nothing, and keeps the count only if it keeps everything |
| Windows.PruneIdempotent | include/tailgovernor/window.hpp:93-132 | pruning twice at one time is pruning once |
| Windows.CacheKept | include/tailgovernor/window.hpp:79-146 | every operation keeps: a clean cache is the sorted retained latencies |
| Windows.SortedView | include/tailgovernor/window.hpp:142-146 | what a reader of the sorted values sees is an ascending permutation of the pruned samples' latencies |
| Windows.LatestIsMax | include/tailgovernor/window.hpp:149-154 | the latest capture is a maximum that is attained |
| Windows.ObservationWindow.constructor | include/tailgovernor/window.hpp:68 | a new window is empty and clean |
| Windows.ObservationWindow.Insert | include/tailgovernor/window.hpp:79-90 | appends and trims to the hard bound, or refuses a negative latency and changes nothing |
| Windows.ObservationWindow.Prune | include/tailgovernor/window.hpp:93-132 | in place, leaves exactly what the mode, duration and count allow and marks the cache when something left |
| Windows.ObservationWindow.Sorted | include/tailgovernor/window.hpp:142-146 | prunes, rebuilds when dirty, returns the cache |
| Windows.ObservationWindow.SamplesPruned | include/tailgovernor/window.hpp:139 | prunes and returns the samples |
| Windows.ObservationWindow.RebuildSorted | include/tailgovernor/window.hpp:177-183 | the cache becomes the sorted latencies and clean |
| Windows.ObservationWindow.LatestCapturedNs | include/tailgovernor/window.hpp:149-154 | the loop computes the latest capture, 0 when empty |
| Windows.ObservationWindow.Percentile | include/tailgovernor/window.hpp:165-174 | quantile, maximum with too few samples, or an error on no samples |
| Schedules.ShownBetween | include/tailgovernor/window.hpp:79-132 | whatever the schedule, the window shows at least the history capped first and expired after, and at most the history expired as early as possible |
| Schedules.PoorestOccurs | include/tailgovernor/window.hpp:79-132 | some schedule shows exactly the lower of the two |
| Schedules.RichestOccurs | include/tailgovernor/window.hpp:79-132 | some schedule shows exactly the upper one |
| Schedules.ScheduleFreeIff | include/tailgovernor/window.hpp:79-132 | for every configuration and history, what is shown is independent of earlier prunes iff the samples pushed out by the deciding cap have all expired or none of those it leaves has |
| Schedules.BatchIff | include/tailgovernor/window.hpp:79-132 | every schedule shows the longest suffix allowed by max_samples, fixed_count and the cutoff iff no expired sample follows an unexpired one, or the newest samples fill the smaller bound unexpired, or max_samples is 1 |
| Schedules.FixedRecentNeedsOrder | include/tailgovernor/window.hpp:97-109 | a FIXED_RECENT history that depends on earlier prunes, and the same with room for both samples, which does not |
| Schedules.HardBoundNeedsOrder | include/tailgovernor/window.hpp:83-103 | a ROLLING_TIME history at its hard bound that depends on earlier prunes |
| Schedules.LazyPruningIsBatch | include/tailgovernor/window.hpp:79-132 | with captures in order, or in ROLLING_COUNT, after any interleaving prune(now) leaves the longest suffix of the whole history that respects max_samples, fixed_count and the cutoff |
| Schedules.CappedExpiry | include/tailgovernor/window.hpp:79-132 | where the smaller count bound commutes with expiry on the history, whatever was pruned before, what is retained is the newest unexpired samples, as many as that bound allows |
| Schedules.UncappedTimeIsFilter | include/tailgovernor/window.hpp:79-132 | as long as the history exceeds no count bound, the retained samples are its unexpired ones, in any capture order |
| WindowRuns.CacheAlongRun | include/tailgovernor/window.hpp:142-183 | in every run a clean cache is sorted retained latencies |
| WindowRuns.CachedQuantile | include/tailgovernor/window.hpp:142-183 | the quantile read through the cache is the counting quantile of the samples shown |
| Schedules.QuantileOfHistory | include/tailgovernor/window.hpp:79-183 | whenever the history reads as a batch, the cached quantile is the quantile of its longest admissible suffix |
| Retention.PruningByMode | include/tailgovernor/window.hpp:93-132 | ROLLING_TIME keeps what was captured at most the duration ago, FIXED_RECENT the newest of these, ROLLING_COUNT the newest, TUMBLING what was captured from the multiple of the interval on that bounds the clock's bucket (rounded towards zero, so upwards before the clock's origin), everything without an interval or for an unlisted mode |
| Retention.EvaluationSeesYoung | src/governor.cpp:247-256 | of its window an evaluation sees exactly the samples young enough for the mode, or a full count of the newest where the mode counts |
| Retention.EvaluationUsesOwnWindow | src/governor.cpp:127-136 | under a fixed policy the window forgets by the objective's own settings |
| Retention.HistoryIsAllAccepted | src/governor.cpp:236-245 | what was ingested for an objective since the last advance is the sample of every completion accepted since then, in order and once each |
| Retention.EvaluationSeesAccepted | src/governor.cpp:247-256 | below the count bounds an evaluation in a run sees a completion's sample iff the completion was accepted since the last advance, is of the objective's class and is young enough for the mode |
| Retention.EvaluationSeesNewest | src/governor.cpp:247-256 | beyond them, where the smaller bound commutes with expiry, it sees the newest of the young ones, as many as the bound allows |
| Attribution.LongestIsFirst | include/tailgovernor/window.hpp:52-61 | the dominant phase is the first longest in report order |
| Attribution.TiesFollowReportOrder | include/tailgovernor/window.hpp:52-61 | a concrete tie that is not broken by phase order |
| Attribution.PhaseOrderIff | include/tailgovernor/window.hpp:52-61 | the dominant phase is the smallest in phase order among the longest iff the first reported of them is |
| Attribution.BucketMatchesQuantile | src/governor.cpp:327-340 | the tail bucket holds exactly the samples at or above the observed quantile, at least N - rank + 1 of them |
| Attribution.TailBucketMembers | src/governor.cpp:329-340 | the bucket holds only retained samples and is empty only if there are none |
| Attribution.FallbackTakesSlowest | src/governor.cpp:332-340 | when nothing reaches the cutoff, the bucket is the slowest 64 samples, or all: none left out is slower than one taken |
| Attribution.TotalsAccount | src/governor.cpp:341-350 | each phase's total is its time over the tail, phases in order, totals sum to at most the tail's latency |
| Attribution.DominantIsCanonical | src/governor.cpp:351-356 | the dominant phase has the greatest total and the smallest code among those |
| Attribution.AtMostFourAssociated | src/governor.cpp:388-402 | at most four further phases reach a fifth of the total |
| Attribution.AttributionBounded | src/governor.cpp:324-404 | contributions sum to at most the tail's latency, shares are their ratio, at most five causes, only the first may be dominant |
| Attribution.DominantPhaseOf | include/tailgovernor/window.hpp:53-61 | the loop computes the first longest phase |
| Attribution.PhaseTotals | src/governor.cpp:341-350 | the loops accumulate totals and tail latency |
| Attribution.FindDominant | src/governor.cpp:343-356 | the loop finds the dominant total |
| Attribution.ContributionsOf | src/governor.cpp:357-368 | the loop emits the positive contributions |
| Attribution.CountMatching | src/governor.cpp:377-382 | counts tail samples whose own dominant phase agrees |
| Attribution.AssociatedCauses | src/governor.cpp:390-403 | the loop emits the other phases with at least a fifth |
| Attribution.DecomposeTail | src/governor.cpp:324-404 | prunes the window and decomposes exactly the samples left |
| TailCauses.CauseIff | include/tailgovernor/cause.hpp:56-77 | the phases behind each cause |
| TailCauses.ContributionsNamed | src/governor.cpp:346-371 | the contributions are exactly the phases in which the tail spent time, each with that time and its share; flagged dominant is the one with the most time, of the smallest code among equals |
| TailCauses.CausesNamed | src/governor.cpp:372-401 | the causes are that of the leading phase and then exactly those of the other phases with at least a fifth of the whole; unknown if the tail brings no phase |
| TailCauses.MatchingCounts | src/governor.cpp:374-382 | the confidence counts the tail's samples whose own first longest phase is the leading one |
| Selection.SelectionIsOptimal | src/governor.cpp:511-565 | candidates split exactly into one selected and the rejected, each with its reason; the selected one is the feasible maximum by effect, then smallest type; none iff nothing is feasible |
| Selection.SelectionIgnoresOrder | src/governor.cpp:544-548 | the order of the candidates does not matter |
| Selection.CandidatesAct | src/governor.cpp:475-496 | no cause proposes doing nothing |
| Selection.FindDominantCause | src/governor.cpp:514-515 | the loop finds the first dominant cause |
| Selection.Screen | src/governor.cpp:522-543 | separates feasible from infeasible candidates and finds the first hard constraint |
| Selection.SelectIntervention | src/governor.cpp:511-567 | the whole selection procedure computes the specified choice |
| Feasibility.ReasonIff | src/governor.cpp:407-445 | every kind has exactly the one reason that the facts give against it, or none iff they support it |
| Feasibility.SelectedByPreference | src/governor.cpp:475-565 | above the recovery threshold the first kind that the facts support is selected, in a fixed order against the dominant cause |
| Feasibility.ExpectedShare | src/governor.cpp:447-473 | the tenths of the excess that each kind is expected to remove |
| Feasibility.ExpectedReductionIs | src/governor.cpp:548-553 | the expected reduction is that share of the excess over the recovery threshold, rounded down |
| Feasibility.FirstHardIs | src/governor.cpp:517-543 | the hard constraint is the first rejected alternative's reason of the hard kind |
| Feasibility.AlternativesIff | src/governor.cpp:985-988 | a decision's infeasible list holds exactly the rejected alternatives that the facts do not support, each with its reason, and its rejected list exactly the others |
| Feasibility.AuthorizeIff | src/governor.cpp:788-812 | an authorisation succeeds iff it is in order, under the current authority field by field, the facts support its kind and the cooldown has run out |
| Feasibility.DispatchIff | src/governor.cpp:814-832 | how a dispatch ends, answer and status, for each combination of objective, authority and facts |
| Feasibility.DispatchRefused | src/governor.cpp:814-818 | a dispatch of anything not authorised, or in shutdown, is refused without change |
| Feasibility.NothingRuledOutInRuns | README.md:134-140 | in every run nothing that the facts set last rule out is authorised, decided or dispatched: preempting, warming, pinning, reserving, moving, failing over, changing a batch, shedding and deferring, each also by its budget |
| Feasibility.RuledOutAtFirst | include/tailgovernor/governor.hpp:28-44 | before any facts are set exactly warming and turning away traffic are ruled out |
| Checksums.Crc32 | src/governor.cpp:20-29 | the byte and bit loops compute the checksum |
| Checksums.MixByte | src/governor.cpp:22-26 | one byte's eight bit steps |
| Checksums.BitStepInjective | src/governor.cpp:24-25 | a bit step never merges two states |
| Checksums.AbsorbInjective | src/governor.cpp:21-27 | absorbing the same bytes keeps different states different |
| Checksums.BurstDetected | src/governor.cpp:20-29 | changing up to four consecutive bytes always changes the checksum |
| Checksums.CheckValue | src/governor.cpp:20-29 | the digits one to nine have the published check value 0xCBF43926 |
| Codecs.LittleEndianValue | src/governor.cpp:600-601 | the bytes written for a number give it back, negative ones by two's complement |
| Codecs.ReadField | src/governor.cpp:597-613 | reading a field written first returns it and leaves the rest |
| Codecs.ReadManyBack | src/governor.cpp:719-740 | a loop of reads inverts a loop of writes, record by record |
| Codecs.Writer.Put | src/governor.cpp:599-602 | appends one little-endian field |
| Codecs.Reader.Take | src/governor.cpp:607 | advances, or raises the failure flag and stays |
| Codecs.Reader.Get | src/governor.cpp:608-611 | reads a field, or 0 past the end |
| Codecs.Reader.GetSigned | src/governor.cpp:724 | reads a two's complement field |
| Codes.EveryCode | src/governor.cpp:725-771 | each of the eight persisted or transmitted enumerations and its codes convert both ways without loss, listed or not |
| Layouts.ListedCodes | include/tailgovernor/intervention.hpp:16-40 | every listed enumerator of the eight enumerations has its position as its code |
| Layouts.HeaderLayout | src/governor.cpp:663-672 | a state file starts with the characters VOGT, version 1, the length of the body and its checksum |
| Layouts.PolicyLayout | src/governor.cpp:619-622 | epoch, policy id, generation and number of objectives lead the body |
| Layouts.ObjectiveLayout | src/governor.cpp:623-636 | the bytes of an objective, field by field |
| Layouts.InterventionLayout | src/governor.cpp:637-652 | the bytes of an intervention, field by field |
| Layouts.TablesLayout | src/governor.cpp:637-662 | counts and entries of the tables, and the two counters at the end |
| Layouts.LoadLimits | src/governor.cpp:683-786 | a saved state loads iff it has at most 8192 objectives, 100000 interventions, 100000 outcomes and 8192 flags and its file at most 256 MiB |
| StateFiles.CorruptionRejected | src/governor.cpp:683-710 | a header change, a burst of up to four body bytes or any resizing of an accepted file is refused and changes nothing |
| StateFiles.SingleByteRejected | src/governor.cpp:683-710 | changing any single byte anywhere is refused and changes nothing |
| StateFiles.HeaderDetected | src/governor.cpp:700-710 | any change confined to the header, in any number of bytes, is detected |
| StateFiles.BurstInBodyDetected | src/governor.cpp:708-710 | up to four consecutive changed body bytes are detected |
| StateFiles.ResizedDetected | src/governor.cpp:702-707 | every strict prefix and every extension is detected |
| StateFiles.EntriesAscending | src/governor.cpp:638-661 | the tables are written in ascending order of their keys |
| StateFiles.SavedLoads | src/governor.cpp:616-785 | what loading a saved state leaves behind, at and beyond every limit |
| StateFiles.ObjectiveBack | src/governor.cpp:623-740 | an objective comes back exactly |
| StateFiles.InterventionBack | src/governor.cpp:638-765 | an intervention comes back with every persisted field and no authority |
| StateFiles.RoundTrip | src/governor.cpp:616-785 | load of save succeeds iff the table limits and the file size are met, and then restores everything persisted |
| StateFiles.BodyUsedUp | src/governor.cpp:712-785 | the load of an unaltered saved body leaves nothing of it unread |
| FileContents.SurplusIgnored | src/governor.cpp:712-785 | bytes behind any body that the load does not run short of, announced by a valid frame, stay unread and change nothing |
| FileContents.NotShort | src/governor.cpp:712-785 | no accepted load and no load of a saved state runs short |
| FileContents.ChangesNothingIff | src/governor.cpp:717-765 | a load changes no state iff the file lists no objective and holds no policy to install |
| FileContents.SavedChangesNothingIff | src/governor.cpp:689-775 | the file of a saved state changes nothing iff it is too large or lists too many objectives; every other excess is refused after something was installed |
| FileContents.LoadInstalls | src/governor.cpp:712-785 | a load, accepted or refused, does to any state what the file alone determines, part by part |
| FileContents.StoredBySave | src/governor.cpp:638-765 | a saved file installs the saved interventions, even when a later count makes the load fail |
| StateFiles.RestoredNeedsRevalidation | src/governor.cpp:739-781 | every restored objective and every persisted flag demands revalidation |
| StateFiles.MarkedAll | src/governor.cpp:186 | marking sets the flags of the listed objectives; every other flag is as before and no other appears |
| StateFileIO.SaveState | src/governor.cpp:616-671 | the writer and its loops produce the specified file |
| StateFileIO.LoadState | src/governor.cpp:683-785 | the checks and loops of loading compute the specified result, errors included |
| StateFileIO.LoadFields | src/governor.cpp:712-743 | the policy part, which marks objectives before its last check |
| StateFileIO.LoadTables | src/governor.cpp:744-785 | the tables, each replaced before the final check |
| Domain.FindDistinct | src/governor.cpp:122-125 | with distinct ids the search finds each objective |
| Domain.Same | include/tailgovernor/authority.hpp:32-50 | the field-by-field comparison is equality: no field is left out |
| WindowTraces.StepOps | src/governor.cpp:201-319 | what each call does to each window, as window operations |
| WindowTraces.WindowsFollowTraces | src/governor.cpp:127-136 | in every run each window is what its operations since the last advance make of an empty one |
| WindowTraces.IngestIntoAt | src/governor.cpp:236-242 | ingestion inserts the sample into exactly the matching windows |
| WindowTraces.EvaluateManyAt | src/governor.cpp:924-933 | evaluating everything only sorts the evaluated windows |
| WindowTraces.CallsKeepSettings | src/governor.cpp:201-319 | evidence and lifecycle calls change no settings |
| Evidence.SeenIsAccepted | src/governor.cpp:217-244 | the request log is exactly the ids accepted since the last advance, none twice |
| Admission.SettingsInRuns | src/governor.cpp:167-199 | in every run: epoch, facts, shutdown and each worker's boot, computed from the calls |
| Admission.VerdictIff | src/governor.cpp:201-225 | each answer to a completion exactly, in any state |
| Admission.AcceptedIff | src/governor.cpp:201-225 | in every run of a new governor a completion is accepted iff the governor is not shut down, epoch and generations are current, its boot is the one its worker registered last, it is successful and published at or after completion, its phases are non-negative and fit the time it took, and its request was not accepted since the last advance; stale iff a generation or the boot is not current |
| Admission.RetainedFromRegistered | src/governor.cpp:226-243 | every retained sample carries, field by field, what a sound completion brought whose boot was its worker's registered one when it was accepted, with no advance since |
| Evidence.AcceptedReconciles | src/governor.cpp:219-235 | accepted phases are non-negative and sum to at most the latency |
| Evidence.HistoryIsAccepted | src/governor.cpp:201-245 | everything inserted since the last advance is an accepted completion's sample with the current epoch |
| Evidence.EvidenceIsCurrent | src/governor.cpp:183-245 | in every reachable state each retained sample carries the current epoch, reconciles and was accepted since the last advance |
| Evidence.CountedOnceIff | src/governor.cpp:236-242 | each sample enters each window at most once iff enabled objectives have distinct ids |
| Evidence.RetainedFromHistory | include/tailgovernor/window.hpp:79-132 | a window retains nothing more often than it was inserted |
| Evidence.SufficientMeansDistinctRequests | src/governor.cpp:268-282 | SUFFICIENT implies at least min_required distinct accepted request ids since the last advance |
| Evidence.CacheInRuns | src/governor.cpp:201-319 | every window's cache agrees in every reachable state |
| Evidence.EvaluationObservesQuantile | src/governor.cpp:254-314 | a sufficient evaluation observes the counting quantile of the pruned window and attributes exactly those samples; the bucket is those at or above it |
| Judgement.SufficiencyIff | src/governor.cpp:269-288 | stale iff flagged, or freshness is asked for, some sample seen has a capture time and all were captured longer ago; too few iff not stale and none or fewer than required; sufficient otherwise |
| Judgement.StateIff | src/governor.cpp:291-318 | the state reported, exactly: by the evidence when it is not judged, else by the observed value against target, twice the target and recovery threshold; the choice is selected in SEVERE, VIOLATING and AT_RISK only |
| Judgement.RecoveringIff | src/governor.cpp:297-311 | RECOVERING iff a judged good reading follows a degraded state and no good one before |
| Judgement.ObservedIs | src/governor.cpp:277-282 | the observed value is the counting quantile whenever there are enough samples, stale or not, and 0 otherwise |
| Judgement.ReportedIff | src/governor.cpp:276-289 | median, 95th and 99.9th are reported from 1, 20 and 1000 samples on, each the counting quantile; the 99th never |
| Judgement.ReportIs | src/governor.cpp:257-270 | window bounds, latest capture, authority and decomposition that an evaluation reports |
| Judgement.EvaluateIff | src/governor.cpp:247-322 | an evaluation is refused exactly in shutdown, for an unknown and for a disabled objective, and else reported under the next id and logged |
| Judgement.EvaluationLogInRuns | src/governor.cpp:257-258 | in every run without loads the evaluations are numbered from one on, so no id is given twice |
| Judgement.VerdictInRuns | src/governor.cpp:269-311 | these verdicts in every run |
| Judgement.JudgedIsFresh | src/governor.cpp:271-287 | in every run a judged evaluation with a freshness rests on a completion accepted since the last advance and captured within it, unless no sample seen has a capture time |
| Evidence.AttributionInRuns | src/governor.cpp:314-404 | the attribution bounds hold of every evaluation in every reachable state |
| Evidence.EvaluationSeesWholeHistory | src/governor.cpp:254-256 | an evaluation looks at the longest admissible suffix of everything ingested since the last advance, whenever that history reads as a batch |
| Evidence.NoActionWithoutEvidence | src/governor.cpp:183-189 | from an advance until a completion is accepted, decide authorises nothing, whatever else is called |
| Revalidation.FlagStep | src/governor.cpp:183-242 | an objective's revalidation flag is raised by an advance that names it and by any load of a file that names it, lowered exactly by accepted evidence for it, and left alone by every other call |
| Revalidation.FlagStays | src/governor.cpp:236-242 | without fresh evidence for it a raised flag stays raised in every run |
| Revalidation.FlaggedIsWithheld | src/governor.cpp:279-312 | an evaluation reports REVALIDATION_REQUIRED, stale and no action iff the flag is raised |
| Revalidation.RestartWithholds | src/governor.cpp:739-781 | after a load, accepted or refused, no objective that the file names is judged until fresh evidence for it is accepted, whatever windows remain; if the load succeeds or changes the policy these include every objective in force |
| Revalidation.AdvanceWithholds | src/governor.cpp:183-189 | the same after an advance of the epoch |
| Revalidation.EvidenceReleases | src/governor.cpp:240-241 | an accepted completion releases every enabled objective |
| Classes.HistoryIsolation | src/governor.cpp:236-242 | a class window's history is the class subsequence of the all-class window's |
| Classes.ConfigInRuns | src/governor.cpp:127-136 | under a fixed policy every window has its objective's configuration |
| Classes.RetainedIsolationIff | src/governor.cpp:236-242 | under a fixed policy, where the smaller count bound commutes with expiry on both histories, the class's retained samples are its share of the all-class window's iff that bound pushes no unexpired sample of the class out or leaves only samples of the class |
| Classes.ShareCapReads | include/tailgovernor/window.hpp:93-132 | the bound commutes with expiry on a history and on each class's share of it when it is not exceeded or when no expired sample follows an unexpired one |
| Classes.RetainedIsolation | src/governor.cpp:236-242 | so retained samples are isolated as long as the objective's history exceeds no count bound |
| Witnesses.ClassesCross | src/governor.cpp:236-242 | in ROLLING_COUNT with room for one, a class-1 sample and then a class-2 sample: the class-1 window retains what the all-class window does not |
| Hysteresis.StateFollowsEvents | src/governor.cpp:291-313 | in every run an objective's state and streak are the fold of its evaluations, and nothing else touches them |
| Hysteresis.CoherentInRuns | src/governor.cpp:298-310 | a breach has streak 0, RECOVERING has streak 1, a streak never exceeds 2 |
| Hysteresis.CoherentFromStart | src/governor.cpp:298-310 | this holds in every run of a new governor |
| Hysteresis.RecoveryNeedsTwoReadings | src/governor.cpp:291-310 | after a breach the state is decided by the last two evaluations, whatever they are: a good reading is HEALTHY iff the one before was good too or was not judged, RECOVERING iff it follows a breach |
| Hysteresis.RecoveryInRuns | src/governor.cpp:291-313 | the same from any reachable breach, for every continuation of every governor run |
| Hysteresis.RecoveringNeverRepeats | src/governor.cpp:304-308 | RECOVERING never follows RECOVERING |
| Hysteresis.OneGoodReading | src/governor.cpp:300-309 | one good reading gives HEALTHY iff the previous state is no breach |
| Witnesses.StaleEvaluationSkipsHysteresis | src/governor.cpp:293-309 | from a new governor: after a violation one good reading gives RECOVERING, but HEALTHY with one evaluation in between after the slow sample has expired |
| BindingObjective.BindingIsMaximum | src/governor.cpp:939-953 | the fold finds a binding violation iff there is one, and nothing outranks it by excess, priority, smallest id |
| BindingObjective.BindingIsUnique | src/governor.cpp:939-953 | only one objective can bind |
| BindingObjective.EvaluationsCommute | src/governor.cpp:924-933 | with distinct ids each evaluation reports what it would have reported alone, up to evaluation ids |
| BindingObjective.BindingIgnoresOrder | src/governor.cpp:924-953 | permuting the policy's objectives does not change which violation binds, up to evaluation ids |
| BindingObjective.OrderIrrelevantIff | src/governor.cpp:937-957 | with distinct ids, no permutation of the objectives changes what a decision binds on, at-risk fallback included, iff some enabled objective is violated or at most one is at risk |
| Witnesses.OrderDecidesAtRisk | src/governor.cpp:955-957 | two objectives at risk: the one listed first binds, and swapping them changes it |
| DecisionOrder.DecisionOrderIff | src/governor.cpp:935-986 | with distinct ids, no permutation of the objectives changes anything in the decision but evaluation ids iff some enabled objective is violated, or exactly one is at risk, or none is and at most one is enabled |
| DecisionOrder.DecisionFromAssessments | src/governor.cpp:935-986 | up to evaluation ids a decision is concluded from what each enabled objective is assessed at in the state before |
| Decisions.BindingIff | src/governor.cpp:934-957 | with distinct ids something binds iff some enabled objective is violated or at risk; then the one that holds against all others: violations before risks, larger excess over the recovery threshold, higher priority, smaller id, and among risks the first in the policy |
| Decisions.DecisionActsExactly | src/governor.cpp:963-984 | a decision records something iff something binds, an intervention is selected for it and the cooldown has run out |
| Decisions.DecisionRecords | src/governor.cpp:963-984 | what it records: kind, next id, objective and class, current authority, estimated reduction, cause, proposed now, expiring five seconds later |
| Decisions.RecordedAs | src/governor.cpp:804-811 | an authorisation records the proposal with status, id, generation and time filled in |
| Witnesses.OrderShowsWhenHealthy | src/governor.cpp:958-962 | two healthy objectives: nothing binds, and the decision reports the one listed first |
| BindingObjective.SelectedIsFeasible | src/governor.cpp:511-565 | a selected intervention is feasible under the facts |
| BindingObjective.OnlyCooldownStopsDecision | src/governor.cpp:935-980 | a binding evaluation with an action is acted on iff the cooldown is not active; what is recorded is that action with current authority |
| Interventions.FencedStep | src/governor.cpp:788-885 | a fenced intervention stays fenced through every call that does not authorise it anew |
| Interventions.FencedRun | src/governor.cpp:814-832 | and is never dispatched in any run |
| Interventions.FencedByAdvance | src/governor.cpp:183-189 | an intervention recorded before an advance is never dispatched after it |
| Interventions.FencedByLoad | src/governor.cpp:746-765 | an intervention recovered by a load, successful or refused later, is never dispatched unless authorised anew |
| Interventions.EpochsRun | src/governor.cpp:138-156 | no recorded authority is from a future epoch |
| Interventions.DispatchIsCurrent | src/governor.cpp:814-832 | a dispatch succeeds iff the intervention is authorised, current and feasible and its objective enabled; then only its status changes |
| Interventions.StatusesMoveLegally | src/governor.cpp:814-885 | statuses move only along the lifecycle, other entries and fields stay, as long as no unlisted outcome is recorded for an intervention that goes on |
| Lifecycle.TerminalIff | include/tailgovernor/intervention.hpp:183-196 | the statuses that have not ended |
| Lifecycle.AcknowledgeIff | src/governor.cpp:834-842 | accepted exactly for a dispatched intervention |
| Lifecycle.CancelIff | src/governor.cpp:863-874 | ends a proposed, authorised or dispatched one, accepts an ended one without change, refuses the rest |
| Lifecycle.SupersedeIff | src/governor.cpp:876-885 | ends everything under way |
| Lifecycle.RecordOutcomeIff | src/governor.cpp:844-861 | logs the outcome of an intervention under way and, for a listed one, leads to the status it stands for: EFFECTIVE, INEFFECTIVE, FAILED or unknown |
| Lifecycle.LogInRuns | src/governor.cpp:844-861 | in every run of proper calls, loads included, a logged intervention is EFFECTIVE, INEFFECTIVE, FAILED or unknown exactly as its logged outcome says |
| Lifecycle.LogAcrossRestart | src/governor.cpp:616-786 | and so in a governor that loads what such a run saved, and on from there |
| Interventions.SaneStepIff | src/governor.cpp:744-885 | a call on a state with all ids below the next one and an outcome log that agrees keeps it so iff an id chosen by the caller lies below the next one and has no outcome, an unlisted outcome finds nothing to settle, and a file of a sane governor keeps the ids below the next one |
| Interventions.LoadSaneIff | src/governor.cpp:736-786 | a load of what a sane governor saved keeps it so iff it is refused before the interventions, or the flags are within their limit, or the loading governor's next id is past every saved intervention |
| Interventions.ProperMoves | src/governor.cpp:788-885 | such a call moves every status along the lifecycle, except that of the intervention it authorises |
| Interventions.SaneInRuns | src/governor.cpp:744-885 | all this holds along every run of such calls, loads within and beyond the limits included |
| Interventions.SaneFromStart | src/governor.cpp:744-885 | in particular in every run of such calls on a new governor; no record is from a future epoch in any run |
| Interventions.TerminalAbsorbs | include/tailgovernor/intervention.hpp:183-196 | along such a run a terminal status never changes, as long as no caller asks for that id and every file loaded on the way holds it too or installs no interventions |
| Interventions.TerminalChangesIff | src/governor.cpp:744-811 | with any ids and any files, a call changes a terminal status iff it is an authorisation that passes all checks and gets that id, a decision with an action and no cooldown when that id is next, or a load of a file that installs interventions without that id or with another status |
| Interventions.LoadOfSaveKeepsIff | src/governor.cpp:744-765 | loading a saved state, even one whose load is refused after the interventions, keeps a status iff the saved state holds that intervention in it |
| Witnesses.SettledReached | src/governor.cpp:788-861 | the terminal interventions below are reached by calls on a new governor |
| Witnesses.AuthorizeOverwrites | src/governor.cpp:804-811 | a terminal intervention authorised again by its own id |
| Witnesses.DecideOverwrites | src/governor.cpp:804-811 | a terminal intervention with a caller-chosen id written over by a decision |
| Witnesses.LoadOverwrites | src/governor.cpp:744-765 | save, record an outcome, load: the intervention is authorised again |
| Witnesses.CrowdedReached | src/governor.cpp:180-189 | a governor with a terminal intervention and 8193 flags is reached by calls on a new one |
| Witnesses.RefusedLoadOverwrites | src/governor.cpp:744-811 | a new governor that loads its file is refused with the intervention installed and the next id still 1; the next authorisation without an id of its own writes over it |
| Restarts.TerminalStaysIff | src/governor.cpp:788-885 | in any state, a terminal status survives every sequence of calls that loads nothing and does not ask for its id iff the id is below the next one |
| Restarts.RestartKeepsTerminalIff | src/governor.cpp:736-811 | a terminal intervention of a sane governor is restored by every load that gets as far as the interventions, and lasts there in every such sequence iff the flags were within their limit or the restarted governor's next id had passed it |
| Restarts.TerminalAcrossRestart | src/governor.cpp:616-786 | a run, a save, a load within or beyond the flag limit that keeps the ids below the next one, and another run, with loads of their own: a terminal status stays |
| Interventions.LoadOfSave | src/governor.cpp:616-786 | interventions, statuses, outcomes and counters survive save and load |
| Interventions.AuthorizationsSpaced | src/governor.cpp:799-810 | successful authorisations of an objective are at least the cooldown apart |
| Interventions.AuthorizationRate | src/governor.cpp:799-810 | any interval of length T holds at most T/C + 1 of them |
| Restarts.CooldownAcrossRestartIff | src/governor.cpp:616-671 | after a load into a governor without a record, all further runs with no authorisation or decision asked for before a given time keep the cooldown across the load iff that time comes a cooldown after the last authorisation before it |
| Restarts.RateAcrossRestart | src/governor.cpp:799-810 | under that condition no interval of length T holds more than T/C + 1 authorisations of both governors together |
| Witnesses.WaitingReached | src/governor.cpp:788-812 | the governor that has just used up its cooldown is reached by calls on a new one |
| Witnesses.CooldownLost | src/governor.cpp:799-810 | one unit after an authorisation the governor refuses, and a new governor that loads its file grants |
| Governors.TailGovernor.constructor | src/governor.cpp:160-162 | a new governor is in the initial state |
| Governors.TailGovernor.RegisterWorker | src/governor.cpp:168-173 | records the boot unless shutting down |
| Governors.TailGovernor.UnregisterWorker | src/governor.cpp:175-179 | forgets the worker and nothing else |
| Governors.TailGovernor.SetPolicy | src/governor.cpp:181 | replaces the policy, existing windows keep their configuration |
| Governors.TailGovernor.SetGenerations | src/governor.cpp:191-196 | replaces the generations and nothing else |
| Governors.TailGovernor.SetResourceFacts | src/governor.cpp:198 | replaces the facts and nothing else |
| Governors.TailGovernor.AdvanceEpoch | src/governor.cpp:183-189 | next epoch, all objectives marked, windows and request log cleared |
| Governors.TailGovernor.EnsureWindow | src/governor.cpp:127-136 | finds the window object or adds one with the objective's configuration, sharing none |
| Governors.TailGovernor.Admit | src/governor.cpp:203-226 | the checks in their order give the state machine's verdict and the completion's total |
| Governors.TailGovernor.Ingest | src/governor.cpp:201-245 | an accepted completion enters the windows, flags and log as in the state machine; a refused one changes nothing |
| Governors.TailGovernor.EvaluateActive | src/governor.cpp:252-318 | updates the window object, flags, state, streak and log in place exactly as the state machine's evaluation; the window objects stay unshared |
| Governors.TailGovernor.Classify | src/governor.cpp:289-313 | state and streak move as the hysteresis rule says, and only when the evidence is sufficient does the streak move |
| Governors.TailGovernor.Evaluate | src/governor.cpp:247-319 | the object's state and result are the state machine's, refusals included |
| Governors.TailGovernor.EvaluateAll | src/governor.cpp:924-933 | the loop leaves the state and list that evaluating one objective after the other leaves |
| Governors.TailGovernor.Decide | src/governor.cpp:935-986 | the object's state and decision are the state machine's |
| Governors.TailGovernor.CurrentAuthorityOf | src/governor.cpp:138-156 | the snapshot filled in field by field is the current authority, with every optional generation but the worker's present |
| Governors.TailGovernor.Clear | src/governor.cpp:790-803 | the checks in their order give the state machine's verdict |
| Governors.TailGovernor.Authorize | src/governor.cpp:788-812 | the object's tables and result are the state machine's, whichever refusal applies and whoever assigned the id |
| Governors.TailGovernor.Dispatch | src/governor.cpp:814-832 | the object's status table and result are the state machine's, on success and on each way of failing or superseding |
| Governors.TailGovernor.Acknowledge | src/governor.cpp:834-842 | moves a dispatched intervention on, refuses every other and then changes nothing |
| Governors.TailGovernor.RecordOutcome | src/governor.cpp:844-861 | a listed outcome makes a non-terminal intervention terminal, an unlisted one leaves its status, and both are logged; a terminal or unknown intervention is left alone, with nothing logged |
| Governors.TailGovernor.Cancel | src/governor.cpp:863-874 | cancels before the irreversible boundary, refuses after it, accepts terminal ones without change |
| Governors.TailGovernor.Supersede | src/governor.cpp:876-885 | ends any non-terminal intervention and leaves terminal ones unchanged |
| Governors.TailGovernor.Save | src/governor.cpp:616-671 | the file of the durable state |
| Governors.TailGovernor.Load | src/governor.cpp:683-786 | the durable state a file leads to, also on errors |
| Governors.TailGovernor.BeginShutdown | src/governor.cpp:988 | from then on the governor is shutting down, nothing else changes |
| Governors.Reconcile | src/governor.cpp:221-226 | the loop with early returns accepts exactly phases that fit |
| Governors.Measure | src/governor.cpp:263-282 | the observed value and the sufficiency verdict that the assessment reports |
| Governors.PreparedAssess | src/governor.cpp:254-314 | sorting first does not change what the evaluation reports: the second prune at the same time is idle |
| Governors.WorstViolation | src/governor.cpp:939-953 | the fold and its inner priority loop find the binding violation |
| Governors.EarliestAtRisk | src/governor.cpp:955-957 | the first objective at risk |
| GovernorRuns.Perform | src/governor.cpp:160-988 | one call on the object is one step of the state machine |
| GovernorRuns.PerformAll | src/governor.cpp:160-988 | any sequence of calls on the object is the machine's run, so all run theorems hold of the object |
| Frames.HeaderReads | distributed/tailgov_d.cpp:77-96 | a header announces its payload's length and checksum |
| Frames.ParseOwnFrame | distributed/tailgov_d.cpp:75-101 | a frame parses to its payload and leaves the rest |
| Frames.FramesRoundTrip | distributed/tailgov_d.cpp:75-101 | any list of payloads within the limit comes back in order |
| Frames.AlteredFrameRefused | distributed/tailgov_d.cpp:97-99 | up to four altered consecutive payload bytes are refused |
| Layouts.FrameLayout | distributed/tailgov_d.cpp:75-85 | a frame starts with the characters NVGT, version 1 in two bytes, the length of the payload and its checksum |
| Layouts.FrameLimit | distributed/tailgov_d.cpp:87-101 | a frame is taken iff its payload has at most 524288 bytes |
| Frames.SendAll | distributed/tailgov_d.cpp:55-63 | everything is sent, whatever the partial sends, or the connection fails after some strict part of it |
| Frames.RecvExact | distributed/tailgov_d.cpp:65-73 | exactly n bytes are taken, whatever the partial receives, or the connection fails or runs out first |
| Frames.SendFrame | distributed/tailgov_d.cpp:75-85 | one whole frame goes on its way, or exactly the part that each of the three errors implies |
| Frames.RecvFrame | distributed/tailgov_d.cpp:87-101 | takes exactly the first pending frame; succeeds iff there is an intact one and the connection holds |
| Frames.PrefixOfFrames | distributed/tailgov_d.cpp:87-101 | frames parsed out of any part of a series of frames that has arrived are its first payloads, unaltered and in order |
| Frames.SendFrames | distributed/tailgov_d.cpp:55-85 | what is on its way is always a prefix of the payloads' frames, wherever the connection fails |
| Frames.RecvFrames | distributed/tailgov_d.cpp:65-101 | what is accepted is an initial part of the payloads, whatever part of their frames arrives and wherever the connection fails |
| Frames.Deliver | distributed/tailgov_d.cpp:55-101 | over a connection that may fail at any byte on either side, an initial part of the payloads arrives, and all of them unless it failed |
| LatencyMessages.LatencyRoundTrip | distributed/tailgov_d.cpp:135-160 | deserialising inverts serialising on all transmitted fields iff there are at most 64 phases |
| Layouts.MessageLayout | distributed/tailgov_d.cpp:135-146 | the bytes of a latency message, field by field |
| Layouts.PhaseLayout | distributed/tailgov_d.cpp:145 | the bytes of one phase in it |
| Layouts.MessageLimit | distributed/tailgov_d.cpp:148-160 | a message is taken iff it has at most 64 phases |
| LatencyMessages.SerializeLatency | distributed/tailgov_d.cpp:135-146 | the appends produce the specified message |
| LatencyMessages.DeserializeLatency | distributed/tailgov_d.cpp:148-160 | the reads and the phase loop compute the specified record and verdict, for any bytes |

## Left out

- Rounding of double arithmetic: ranks, thresholds, effects and shares are computed exactly. `StoredP999IsNotExact` shows where the stored percentile itself matters.
- Overflow of 64-bit arithmetic in phase sums and in twice the target: integers are mathematical.
- Counters, epochs and ids of 2^64 and more: they are unbounded in the state machine, and `StateFiles.RoundTrip` asks that persisted numbers fit their fields.
- StateFiles.RoundTrip: the policy's name and an intervention's authority, economics and reason are not persisted by the code; only authority is in the model.
- Frames.RecvFrames: a connection's pending bytes stand for everything that will still arrive, so a receive that waits for the sender is one that finds the bytes there.
- GovernorRuns.PerformAll: several readings of the clock within one call are taken as one, and each call is atomic, so the lock is not part of the model.
- Governors.TailGovernor.SetGenerations: the six setters are one replacement of the record of generations.
- Expiry of interventions: stored and persisted, but no modelled call checks it, as in the code.
- Amplification, freshness age, uncertainty, collateral, what-would-change, evidence and detail texts, the mean, and the superseding reason: single outputs that nothing else reads. Confidence of a proposal is the constant the code's uncertainty leads to.
- inspect_window, window_copy, clear, set_config, latest_arrival_ns, intervention economics and the configuration's max limits: easy members or read by nothing here.
- Opening, renaming and failing of files; sockets, process start-up, the hello message and the scenario drivers.
- std::map's order is modelled by listing keys in ascending order; std::sort and std::stable_sort by insertion sorts.
- Rendering to markdown and JSON, names of enumeration constants, CUDA, benchmarks, tools and examples.
