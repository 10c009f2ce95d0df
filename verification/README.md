# Hardware-control model

A Dafny model of the parts of the repository that decide when hardware may be
touched and that undo changes when something fails, with proofs about every
input, every run and every interleaving of failures. `dafny verify dfyconfig.toml`
checks all of it.

| file | subject |
|---|---|
| `Policy`, `PolicyLog`, `PolicyThreshold`, `PolicyTiming` | the automation policy engine: power-source debouncer and battery hysteresis |
| `Retry` | the bounded retry state of one component |
| `Freshness`, `FreshnessRuns` | the barrier that decides which battery samples may be believed |
| `SuspendGap` | the detector that compares a clock that counts suspended time with one that does not |
| `CpuStore`, `CpuTransaction`, `CpuFrequency` | transactional CPU control writes and the planning of frequency limits |
| `FanCurve`, `FanCurveLaws`, `FanCurveWarnings`, `FanValidate` | the fan-curve sanitizer (in place) and the validator |
| `FanMarker`, `FanHost`, `FanFailSafe` | the privileged helper's crash-safe fan marker, recovery and shutdown gate |
| `HidDescriptor`, `HidLaws` | the HID report-descriptor parser |
| `Lighting`, `AuraWire` | lighting requests from the daemon to the helper to the 64-byte report |
| `Introspection` | the bounded breadth-first walk over D-Bus objects |
| `Common`, `Text` | machine integers, options and results; trimming and decimal numbers |

## How it is built

Objects that the source updates in place are classes. Each method is proved to
have exactly the effect of a step function on the value of all its fields, and the
theorems about whole runs are about that step function. What a run is measured
against is written down without reference to states or answers of the code: a
reading of the log of calls or events for the policy engine, the barrier and the
retry state; the stages of a batch for CPU writes; the largest requested duty at
each temperature for fan curves; a tree of scopes for HID descriptors;
reachability for the walk.

Machine integers are bounded subset types, saturating arithmetic is written out,
and a battery percentage is not-a-number, an infinity or a real. Operations on
the outside world are fallible: every read, write or discovery may fail at will,
a failed file write leaves the old or the requested value, and in the fan model a
driver may take a write without following it and the helper may die at any
operation and be started again. Whether a caller is authorised is a parameter.

## What the proofs turned up

The model follows the code in each case; the exact condition is proved.

* **Legacy marker recovery.** With the legacy entry in the marker, recovery returns
  the *discovered* channels to Auto and then clears the marker. A channel under a
  curve that this discovery misses is left without a marker. Coverage is kept
  exactly when all channels under a curve were discovered
  (`FanFailSafe.RestoreAll`, `FanHost.LegacyRecoveryCovers`, counterexample
  `FanHost.LegacyRecoveryCanMiss`), and over a whole run exactly when nothing is
  under a curve whenever the legacy entry is removed (`FanHost.CoveredExactly`).
  No operation ever writes the legacy entry, so runs that begin without it are
  always covered.
* **Unavailable armed channel.** A failed recovery does not always attempt every armed
  channel: when one armed channel is not listed as available, the check before the
  loop fails and none is asked, also not those that are available
  (`FanFailSafe.UnlistedFanBlocksRecovery`). Without a legacy entry all are asked
  exactly when all are available (`FanFailSafe.RestoreFanSafetyMarker`); the marker
  stays in any case.
* **Reports out of turn.** The retry state cannot tell for which want, or for which
  start, an outcome is reported. At most three starts and the backoffs hold
  whatever is reported; but a failure reported after a confirmation lets the
  episode start again (`Retry.ReopensExactly`), and a late failure of an older want
  refuses the first start of a new one (`Retry.FirstStartRefusedExactly`,
  `Retry.StaleFailureRefuses`). The former needs a second report for one start, the
  latter a report before the first start of its episode.
* **Forgotten request.** The first reading under a changed rule forgets that a preset
  is pending, so that preset can be asked for twice in a row across the change
  (`PolicyTiming.ForgottenRequestRepeats`).
* **Sanitizer warnings.** "No warnings exactly when the points are unchanged" holds
  for a policy if and only if its safety floor does not exceed the highest duty at
  any temperature in range (`FanCurveLaws.WarningsReportEveryChange`). Both
  policies in the repository satisfy this. Idempotence needs no such condition.
* **Repeated CPU path.** A batch that names a path twice can fail although no
  operation failed, because the write that would change the value back is skipped
  (`CpuTransaction.RepeatedPathSpoils`). With trimmed values this happens exactly
  when a path that is asked in the end for its present value is asked for another
  one before (`CpuTransaction.RetainsExactly`); never on distinct paths.
* **Rounded hardware minimum.** Hardware bounds are rounded down to MHz, so an
  accepted limit may lie up to 999 kHz below the hardware minimum
  (`CpuFrequency.RoundedMinimumIsAccepted`; exact condition in
  `CpuFrequency.LimitsReachHardwareMinimum`).
* **Mode labels.** A custom mode whose label normalises to a built-in one passes
  validation (`Lighting.ImitationPasses`) and then has no byte; encoding fails, so
  the wire round trip holds exactly for valid requests with built-in modes.
* **Dead branches.** The barrier's second source-mismatch branch and the parser's
  check on the product of two 32-bit numbers can never be taken
  (`FreshnessRuns.SecondMismatchUnreachable`, `HidLaws.ProductCheckNeverFires`).

## Model

| member | source | states |
|---|---|---|
| `PolicyLog.DebouncerRefinesLog` | crates/rog-core/src/policy.rs:166-305 | after any calls in any order, the settled source is the one that the log says dwelt unbroken for the debounce time and was not unsettled since; the candidate and its start time are those of the unbroken run in the log |
| `PolicyLog.SourceActionsFollowLog` | crates/rog-core/src/policy.rs:253-305 | an observation emits exactly when its source becomes settled in the log: AC asks for the AC profile, battery for the battery profile, and nothing when a battery threshold is configured |
| `PolicyLog.SilentUnlessActive` | crates/rog-core/src/policy.rs:230-343 | no call emits anything while automation is off or paused |
| `PolicyThreshold.ThresholdRefinesLog` | crates/rog-core/src/policy.rs:307-369 | after any calls in any order, the rule, the applied and the pending preset, the battery candidate and its start time are those that the log prescribes |
| `PolicyThreshold.ThresholdActionsFollowLog` | crates/rog-core/src/policy.rs:307-369 | a reading asks for the battery profile if and only if it ends, in the log, an unbroken dwell of at least the debounce time on readings at or below the lower limit; for recovery likewise at or above the upper one; otherwise it emits nothing |
| `PolicyThreshold.EmissionsByReading` | crates/rog-core/src/policy.rs:323-368 | a reading that emits is a percentage: at or below the lower limit it asks for the battery profile; otherwise it is at or above the upper limit, recovery is available, and it asks for recovery |
| `PolicyThreshold.RequestedActionsFollowLog` | crates/rog-core/src/policy.rs:230-243 | an explicit request repeats the action of the preset that the log says was confirmed last and not forgotten, while automation is active, and nothing otherwise |
| `PolicyThreshold.RecordsFollowLog` | crates/rog-core/src/policy.rs:253-369 | the recorded source is the one observed last, the recorded time that of the last settling, threshold emission or answered request |
| `PolicyTiming.EmissionSpacing` | crates/rog-core/src/policy.rs:253-369 | with non-decreasing times, n settlings and n threshold emissions each span at least n debounce times whatever resets occur, so automatic actions number at most 2 * elapsed / debounce |
| `PolicyTiming.HysteresisAlternates` | crates/rog-core/src/policy.rs:225-369 | from any state, with one rule and no reset, source change or foreign confirmation, threshold emissions strictly alternate between the battery and the recovery preset |
| `PolicyTiming.AlternatesAfter` | crates/rog-core/src/policy.rs:225-369 | the same, and the first emission differs from the preset asked for last, unless a new rule forgets that it is pending |
| `PolicyTiming.ForgottenRequestRepeats` | crates/rog-core/src/policy.rs:316-322 | in that case the same preset may be asked for again |
| `PolicyTiming.BandKeepsPresets` | crates/rog-core/src/policy.rs:328-349 | however long readings are missing, invalid or strictly between the limits, nothing is emitted and neither the active preset, the settled source nor (under an unchanged rule) the pending preset changes |
| `Policy.PolicyState.constructor` | crates/rog-core/src/policy.rs:147-164 | the initial value of every field |
| `Policy.PolicyState.SetAutoEnabled` | crates/rog-core/src/policy.rs:166-177 | the whole new state: a change of the switch restarts everything, the current setting changes nothing |
| `Policy.PolicyState.SetPaused` | crates/rog-core/src/policy.rs:179-193 | pausing drops the dwell timers, unpausing restarts everything |
| `Policy.PolicyState.ResumeAutomation` | crates/rog-core/src/policy.rs:195-204 | unpauses and restarts everything even when not paused |
| `Policy.PolicyState.ResetForReconfiguration` | crates/rog-core/src/policy.rs:206-215 | restarts everything and forgets the rule |
| `Policy.PolicyState.ConfirmPresetApplied` | crates/rog-core/src/policy.rs:225-228 | the confirmed preset is active and nothing is pending |
| `Policy.PolicyState.RequestRule` | crates/rog-core/src/policy.rs:230-243 | the whole new state and the actions of a request; what they are in terms of the log is `RequestedActionsFollowLog` |
| `Policy.PolicyState.ObservePowerSource` | crates/rog-core/src/policy.rs:253-305 | the whole new state and the actions of one source observation |
| `Policy.PolicyState.ObserveBatteryThreshold` | crates/rog-core/src/policy.rs:307-369 | the whole new state and the actions of one battery reading; what they are in terms of the log is `ThresholdActionsFollowLog` and `EmissionsByReading` |
| `Policy.PolicyState.HandleEvent` | crates/rog-core/src/policy.rs:371-385 | events have the effect of the corresponding calls |
| `Retry.AnswersFollowLog` | crates/rog-core/src/policy.rs:60-111 | `ready_for` answers exactly what the log of polls, starts, reports and cancellations allows, with backoffs of 5000 and 30000 ms, whatever lies between a poll, a start and its report |
| `Retry.RetriesAreEarned` | crates/rog-core/src/policy.rs:60-101 | a start that is not the first of its episode is the second or third one, the last report since the previous start is a failure, and 5000 or 30000 ms had passed since at the poll that allowed it |
| `Retry.AtMostThreeStarts` | crates/rog-core/src/policy.rs:60-111 | no episode of one key, source and generation ever has more than three starts |
| `Retry.EpisodeEnds` | crates/rog-core/src/policy.rs:91-107 | with one report per start, nothing starts after a confirmation or the third failure until the want changes or is cancelled |
| `Retry.ReopensExactly` | crates/rog-core/src/policy.rs:91-107 | without that discipline, an episode starts again after a confirmation if and only if a failure is reported last, there were at most two starts and the backoff has passed |
| `Retry.FirstStartRefusedExactly` | crates/rog-core/src/policy.rs:91-101 | a want that has not started yet is refused if and only if a failure was the last report since its episode began |
| `Retry.StaleFailureRefuses` | crates/rog-core/src/policy.rs:91-101 | a concrete log in which the late failure of an older want does so |
| `Retry.ComponentRetryState.ReadyFor` | crates/rog-core/src/policy.rs:60-83 | another want forgets everything; ready exactly when not failed and either fresh or past the backoff |
| `Retry.ComponentRetryState.Started` | crates/rog-core/src/policy.rs:85-89 | counts the start, at most three, and clears the backoff |
| `Retry.ComponentRetryState.FailedAt` | crates/rog-core/src/policy.rs:91-101 | schedules the first or second backoff, or fails for good |
| `Retry.ComponentRetryState.Confirmed` | crates/rog-core/src/policy.rs:103-107 | records success |
| `Retry.ComponentRetryState.Cancel` | crates/rog-core/src/policy.rs:109-111 | forgets everything |
| `FreshnessRuns.ReachableAlways` | crates/rog-core/src/power_freshness.rs:45-207 | in every reachable state: suspended implies a barrier, the floor is the later of the open invalidation's clock and the newest update that counted, and the expected source is the known one, all read from the events alone |
| `FreshnessRuns.DecisionsFollowLog` | crates/rog-core/src/power_freshness.rs:45-207 | exactly which samples are eligible and which events invalidate, in terms of the events alone |
| `FreshnessRuns.DecisionExactly` | crates/rog-core/src/power_freshness.rs:45-207 | the whole decision on every event in terms of the events alone, with the number of invalidations, saturated to 64 bits, as its generation |
| `FreshnessRuns.NewerThanInvalidation` | crates/rog-core/src/power_freshness.rs:45-207 | an eligible sample is strictly newer than the clock of the latest invalidation and than every sample that counted before it |
| `FreshnessRuns.NewerThanBadSamples` | crates/rog-core/src/power_freshness.rs:45-186 | an eligible sample is strictly newer than every stale or inconsistent sample seen before |
| `FreshnessRuns.EligibleNotOlder` | crates/rog-core/src/power_freshness.rs:45-122 | an eligible sample is at least as new as every sample that counted before |
| `FreshnessRuns.OneSourcePerGeneration` | crates/rog-core/src/power_freshness.rs:45-207 | below saturation, eligible samples of one generation share one source |
| `FreshnessRuns.NothingEligibleAsleep` | crates/rog-core/src/power_freshness.rs:45-145 | nothing is eligible between going to sleep and waking up or a clock resume |
| `FreshnessRuns.EligibleIsConfirmed` | crates/rog-core/src/power_freshness.rs:117-155 | `is_eligible` holds of every sample just declared eligible |
| `FreshnessRuns.ConfirmedFollowsLog` | crates/rog-core/src/power_freshness.rs:147-155 | after any events `is_eligible` holds exactly of a good sample with the known source and the newest update time that counted, with no open invalidation, awake |
| `FreshnessRuns.ConfirmedIsLastEligible` | crates/rog-core/src/power_freshness.rs:45-155 | it holds exactly of good samples with the source and update time of the last eligible sample, when nothing has invalidated since |
| `FreshnessRuns.TwoSamplesRecover` | crates/rog-core/src/power_freshness.rs:45-122 | awake, two good samples of one source always end eligible when the first does not regress and the second is newer than it, than its clock and than the old floor |
| `FreshnessRuns.SecondMismatchUnreachable` | crates/rog-core/src/power_freshness.rs:86-103 | the branch for a barrier that expects another source than the known one is never taken |
| `Freshness.BatteryFreshnessBarrier.ObserveSample` | crates/rog-core/src/power_freshness.rs:45-122 | the whole new state and the decision for one sample |
| `Freshness.BatteryFreshnessBarrier.OnPrepareForSleep` | crates/rog-core/src/power_freshness.rs:124-138 | the whole new state and the decision for a sleep signal |
| `Freshness.BatteryFreshnessBarrier.InvalidateOn` | crates/rog-core/src/power_freshness.rs:140-145 | the whole new state and the decision for an invalidating event |
| `Freshness.BatteryFreshnessBarrier.IsEligible` | crates/rog-core/src/power_freshness.rs:147-155 | tells whether the fields confirm the sample, which in terms of the events is `ConfirmedFollowsLog` and `ConfirmedIsLastEligible` |
| `Freshness.BatteryFreshnessBarrier.BlockMissing` | crates/rog-core/src/power_freshness.rs:165-186 | raises a barrier, or lifts the floor of the one that stands |
| `Freshness.BatteryFreshnessBarrier.BeginBarrier` | crates/rog-core/src/power_freshness.rs:188-207 | a barrier with the highest floor, in a new generation |
| `SuspendGap.GapsAccountForDrift` | crates/rog-core/src/power_freshness.rs:228-253 | over a run without anomaly the drift of the clocks is the sum of reported gaps, up to 50 ms per steady reading |
| `SuspendGap.GapsCoverDrift` | crates/rog-core/src/power_freshness.rs:228-253 | while no clock goes back, the reported gaps cover all of the drift except 50 ms per reading |
| `SuspendGap.LargeGapIsReported` | crates/rog-core/src/power_freshness.rs:228-253 | a drift above 50 ms per reading is reported as a resume, unless a clock went back in between |
| `SuspendGap.AnswersFollowClocks` | crates/rog-core/src/power_freshness.rs:228-253 | every answer in terms of the readings: a resume exactly when the drift is above 50 ms, with that drift as its gap; an anomaly exactly when a clock went back or the drift is below -50 ms; else steady, and a baseline at the start and after a clock went back |
| `SuspendGap.SuspendGapDetector.Observe` | crates/rog-core/src/power_freshness.rs:228-253 | the remembered clocks and the answer |
| `CpuTransaction.ApplyTransactionalWrites` | crates/rog-providers/src/cpu.rs:1619-1684 | success means every target holds its value and nothing else changed; an error before writing wrote nothing; after any other error every path is back to its trimmed original if no rollback write failed, and otherwise exactly the endpoints whose rollback write failed are named and all others are back; absent failures a batch of trimmed values whose expectations are met succeeds exactly when it asks no path for its present value after another one; on distinct paths everything ever left behind, also while rolling back, is a stage of the batch |
| `CpuTransaction.RollbackCpuWrites` | crates/rog-providers/src/cpu.rs:1686-1714 | exactly the attempted paths are written, the last first and each once, with their trimmed originals; the error names exactly those whose write failed and is the primary one if and only if none did; the others are restored |
| `CpuTransaction.TakeSnapshot` | crates/rog-providers/src/cpu.rs:1628-1649 | reads all originals and checks all expectations without writing |
| `CpuTransaction.WriteAll` | crates/rog-providers/src/cpu.rs:1651-1662 | carries out the batch in order, skipping satisfied writes, or rolls back and names exactly the endpoints whose rollback write failed |
| `CpuTransaction.VerifyAll` | crates/rog-providers/src/cpu.rs:1664-1683 | success means every target holds; failure is rolled back, naming exactly the endpoints whose rollback write failed |
| `CpuTransaction.FindUnheld` | crates/rog-providers/src/cpu.rs:1664-1683 | reads targets back in any order and reports one that is not held, or that all are |
| `CpuTransaction.LastRequestWins` | crates/rog-providers/src/cpu.rs:1628-1684 | the target of a path is its last request |
| `CpuTransaction.RetainsExactly` | crates/rog-providers/src/cpu.rs:1651-1662 | a batch leaves every path with what is asked for last if and only if no path that ends with its present value is asked for another one before |
| `CpuTransaction.DistinctRetains` | crates/rog-providers/src/cpu.rs:1651-1662 | so a batch of distinct paths ends with every target in place |
| `CpuTransaction.RepeatedPathSpoils` | crates/rog-providers/src/cpu.rs:1651-1655 | a repeated path can end without its target although no operation fails |
| `CpuTransaction.UndoneIsStage` | crates/rog-providers/src/cpu.rs:1695-1705 | undoing the last attempted paths in reverse leads back to an earlier stage of the batch |
| `CpuTransaction.RollbackKeepsStages` | crates/rog-providers/src/cpu.rs:1686-1714 | while rollback writes succeed, everything a rollback leaves behind is a stage of the batch |
| `CpuTransaction.RollbackRestores` | crates/rog-providers/src/cpu.rs:1686-1714 | a rollback that names no endpoint leaves every file with its trimmed original contents |
| `CpuStore.ControlFiles.Read` | crates/rog-providers/src/cpu.rs:1608-1614 | a read returns the contents or fails, and changes nothing |
| `CpuStore.ControlFiles.Write` | crates/rog-providers/src/cpu.rs:1569-1602 | a write sets the line; a failed one leaves the old or the requested value |
| `CpuFrequency.SetFreqLimits` | crates/rog-providers/src/cpu.rs:679-758 | success means that every policy's two files read 1000 times the requested MHz, or what they read before where nothing is requested, and that a requested limit is at most each reported hardware maximum; a policy whose limits are unknown or would be inverted is named, the first one; after a failure all files are back to their trimmed contents unless a rollback write failed; absent failures an acceptable request on unchanged files succeeds; and no policy is ever left with its minimum above its maximum while rollback writes succeed |
| `CpuFrequency.PreflightWritable` | crates/rog-providers/src/cpu.rs:718-726 | success means every limit exists; it fails only for a limit that is missing or cannot be written, and changes nothing |
| `CpuFrequency.StagesStayOrdered` | crates/rog-providers/src/cpu.rs:737-756 | at every stage of the plan every policy's minimum is at most its maximum |
| `CpuFrequency.StageLimits` | crates/rog-providers/src/cpu.rs:737-756 | at every stage each limit of a policy is its planned or its current one, and which of them can be new is decided by the chosen order |
| `CpuFrequency.PlanWrites` | crates/rog-providers/src/cpu.rs:727-756 | two writes per policy in the order that is safe for it; refused exactly when, in kHz, a requested or current minimum is above the requested or current maximum or one is unknown, naming the first such policy |
| `CpuFrequency.AcceptedExactly` | crates/rog-providers/src/cpu.rs:698-717 | a request is accepted if and only if it gives a limit, some policy reports a minimum of at least 1 MHz and some policy a maximum, each given limit is within what every policy reports, and the limits are not inverted |
| `CpuFrequency.AcceptedWithinHardware` | crates/rog-providers/src/cpu.rs:698-717 | an accepted limit is at most every reported hardware maximum and less than 1 MHz below every reported hardware minimum |
| `CpuFrequency.LimitsReachHardwareMinimum` | crates/rog-providers/src/cpu.rs:698-717 | every explicit limit accepted in any request reaches a policy's hardware minimum in kHz if and only if the common lower bound does |
| `CpuFrequency.RoundedMinimumIsAccepted` | crates/rog-providers/src/cpu.rs:1309-1311 | a concrete limit below the hardware minimum that is accepted |
| `FanCurveLaws.SanitizedIsClosedForm` | crates/rog-core/src/model.rs:662-756 | output temperatures are the sorted distinct clamped inputs; the duty at each is the largest floored duty asked for at or below it (at it, without monotonicity) |
| `FanCurveLaws.OrderDoesNotMatter` | crates/rog-core/src/model.rs:662-756 | the points depend only on which points the curve has |
| `FanCurveLaws.SanitizeIdempotent` | crates/rog-core/src/model.rs:662-756 | sanitizing twice gives the points of sanitizing once, for every policy |
| `FanCurveLaws.NoWarningsIsClean` | crates/rog-core/src/model.rs:662-756 | there are no warnings exactly for curves that need no correction, and those are unchanged |
| `FanCurveLaws.WarningsReportEveryChange` | crates/rog-core/src/model.rs:662-756 | warnings are empty exactly when points are unchanged, if and only if the floor fits under the highest duty |
| `FanCurveWarnings.WarningsSay` | crates/rog-core/src/model.rs:662-756 | a warning is given if and only if it names a point as its pass found it, with the old and the new value: out of bounds, as hot as the one before, under the floor, or slower than a colder one; or the points were out of order |
| `FanCurveLaws.UnfitFloorWarns` | crates/rog-core/src/model.rs:719-734 | for every policy whose floor does not fit, a curve that is unchanged and yet warned about |
| `FanCurveLaws.LargestIsLargest` | crates/rog-core/src/model.rs:736-753 | the closed form's duty is an upper bound of all requests and is attained |
| `FanCurveLaws.SortSorts` | crates/rog-core/src/model.rs:690-691 | sorting is a stable permutation: no point before a colder one, the same points, and those of one temperature in their order |
| `FanCurve.Curve.ClampPoints` | crates/rog-core/src/model.rs:671-687 | the points after clamping in place and one warning per change |
| `FanCurve.Curve.MergePoints` | crates/rog-core/src/model.rs:700-717 | the points after merging equal temperatures and the warnings |
| `FanCurve.Curve.RaiseToFloor` | crates/rog-core/src/model.rs:719-734 | the points after applying the safety floor in place and the warnings |
| `FanCurve.Curve.RaiseToMonotonic` | crates/rog-core/src/model.rs:736-753 | the points after the running maximum in place and the warnings |
| `FanCurve.Curve.Sanitize` | crates/rog-core/src/model.rs:662-756 | fails exactly for an empty curve; otherwise the points and warnings of all passes in order |
| `FanValidate.ValidateFanCurvePoints` | crates/rog-core/src/model.rs:784-858 | accepts exactly the acceptable curves; otherwise the first fault in the order of the checks |
| `FanValidate.VerifiedMeans` | crates/rog-core/src/model.rs:784-858 | the write policy accepts exactly eight points from 30C to 100C, strictly hotter, never slower, at least 70% from 85C, 90% from 90C and 100% from 95C, the last at 95C or above |
| `FanValidate.EnvelopeMeans` | crates/rog-providers/src/hwmon.rs:262-285 | such a curve is accepted for a device exactly when it keeps to the duty, temperature and terminal limits of its record |
| `FanValidate.AcceptedIsUnchanged` | crates/rog-core/src/model.rs:784-858 | an accepted curve passes the sanitizer unchanged and without warning |
| `FanValidate.SanitizedAccepted` | crates/rog-core/src/model.rs:784-858 | under the default policy a sanitized curve is accepted if and only if it also meets the 90C and 95C rules |
| `FanValidate.StandardPoliciesFit` | crates/rog-core/src/model.rs:625-655 | the default and the verified write policy meet the conditions of the laws |
| `FanFailSafe.RunOperations` | crates/rog-privileged/src/main.rs:246-360 | through any requests, failures, crashes, shutdowns and restarts from a covered start: once the gate is closed it stays closed until a new process starts, and at every moment until then no channel goes under a curve; without a legacy entry at the start, or when discoveries find every channel, each channel under a curve is in the marker or covered by the legacy entry at every moment; in any case exactly when nothing is under a curve any more whenever the legacy entry is removed |
| `FanFailSafe.Execute` | crates/rog-privileged/src/main.rs:246-360 | only a restart opens a closed gate; until then no channel goes under a curve; no operation introduces the legacy entry |
| `FanFailSafe.SetFanCurve` | crates/rog-privileged/src/main.rs:283-325 | nothing is touched unless the id is one of the three, the curve is safe to write and keeps to the device record, the request is permitted and authorised and the gate is open; then, when nothing fails, the channel is always found, the marker is readable and the channel is not in custom mode, it succeeds; success means that every point was staged in order and then custom mode set, on an armed channel |
| `FanFailSafe.ApplyFanCurveLocked` | crates/rog-providers/src/hwmon.rs:230-294 | a found channel with a record is written when the curve keeps to it and is refused untouched otherwise; when nothing fails it succeeds |
| `FanFailSafe.SetFanAutoRequest` | crates/rog-privileged/src/main.rs:246-281 | unauthorised, with the gate closed or for another id nothing is touched; it is refused as shutting down only with the gate closed and as denied only without authorisation; on success Auto was commanded and the channel disarmed, or all fans recovered; when nothing fails, the channels are always found and the marker is readable, it succeeds |
| `FanFailSafe.ResetFansRequest` | crates/rog-privileged/src/main.rs:327-346 | the same for the request to reset all fans |
| `FanFailSafe.RecoverFansIfArmed` | crates/rog-privileged/src/main.rs:353-362 | a session that is not authorised, or under the legacy entry, changes nothing; otherwise armed channels are asked as for an armed recovery, and it succeeds when nothing fails and they are always found, also with the gate closed |
| `FanFailSafe.RestoreFanSafetyMarker` | crates/rog-privileged/src/main.rs:691-723 | success clears the marker with no named channel under a curve; failure keeps the marker; without a legacy entry every armed channel is asked if and only if all of them are available (and the marker could be read), and otherwise nothing is touched; only channels it reports as failed may still be under a curve; when nothing fails and all channels are found it succeeds |
| `FanFailSafe.FirstMissing` | crates/rog-privileged/src/main.rs:856-871 | no armed channel is missing exactly when all are available |
| `FanFailSafe.UnlistedFanBlocksRecovery` | crates/rog-privileged/src/main.rs:709 | with the CPU and GPU fans armed and only the CPU fan available, neither is asked to return to Auto |
| `FanFailSafe.RestoreEach` | crates/rog-privileged/src/main.rs:710-715 | every armed channel is asked to return to Auto whatever fails; one still under a curve is among the failures |
| `FanFailSafe.RestoreAll` | crates/rog-privileged/src/main.rs:705-708 | the legacy entry is cleared after returning exactly the discovered channels, at least one, to Auto; afterwards every channel is covered if and only if all that were under a curve were discovered |
| `FanFailSafe.RestoreFansIfArmed` | crates/rog-privileged/src/main.rs:645-653 | success leaves no marker; failure leaves the marker as it was; without a legacy entry all armed channels are asked if all of them were listed, and none otherwise; it succeeds when nothing fails and the armed channels are always found |
| `FanFailSafe.ResetAllFansToAuto` | crates/rog-privileged/src/main.rs:598-604 | success leaves no marker; without a marker Auto is commanded on all channels that are always found; it succeeds when nothing fails and those that are armed are always found |
| `FanFailSafe.LockFanMutation` | crates/rog-privileged/src/main.rs:625-633 | mutations are refused exactly while the shutdown flag is set |
| `FanFailSafe.ShutdownFans` | crates/rog-privileged/src/main.rs:635-643 | the gate is closed; success leaves no channel under a curve in a run that began without the legacy entry or whose discoveries find every channel; failure keeps the marker; channels are asked, and recovery succeeds, as for an armed recovery |
| `FanFailSafe.Start` | crates/rog-privileged/src/main.rs:1413-1418 | a new process starts with an open gate and recovers; success leaves no marker, failure keeps it; channels are asked, and recovery succeeds, as for an armed recovery |
| `FanFailSafe.DisarmFanChannel` | crates/rog-privileged/src/main.rs:571-579 | only the channel that is back in Auto is forgotten; it fails only when something fails or the marker is not readable |
| `FanFailSafe.ReadFanSafetyMarker` | crates/rog-privileged/src/main.rs:818-850 | the channels the marker names; it fails only when reading fails or the marker names something else |
| `FanFailSafe.WriteFanSafetyMarker` | crates/rog-privileged/src/main.rs:734-745 | arms at most this channel in addition to those already armed, which stay armed whatever fails; for one of the three channels it fails only when something fails or the marker is not readable |
| `FanFailSafe.WriteFanSafetyMarkerIds` | crates/rog-privileged/src/main.rs:747-816 | the marker is unchanged or arms exactly the given channels; for a list of channels it fails only when something fails |
| `FanFailSafe.ClearFanSafetyMarker` | crates/rog-privileged/src/main.rs:681-689 | the marker is unchanged or gone |
| `FanFailSafe.WriteCurveTransaction` | crates/rog-providers/src/hwmon.rs:1026-1122 | a channel, not in custom mode before, is under a curve only after it was armed; success means that all points were staged and then the mode set; a failed write returns it to Auto and disarms it again; only when Auto was commanded and something failed may it stay under a curve, armed; it fails only when something fails, the marker is not readable or custom mode was active |
| `FanFailSafe.WriteOrRestore` | crates/rog-providers/src/hwmon.rs:1062-1122 | the write of an armed channel, undone when it fails |
| `FanFailSafe.WriteStaged` | crates/rog-providers/src/hwmon.rs:1073-1101 | the points in order and then the mode of an armed channel are written |
| `FanFailSafe.RestoreAfterFailedWrite` | crates/rog-providers/src/hwmon.rs:1049-1056 | the channel is disarmed only after it is back in Auto |
| `FanFailSafe.EnableCustom` | crates/rog-providers/src/hwmon.rs:1098-1101 | only an armed channel is put in custom mode, with the gate open; success means that it reports mode 1 |
| `FanFailSafe.StagePoints` | crates/rog-providers/src/hwmon.rs:1074-1097 | every point's temperature and duty is staged, in order and numbered from one, and no mode is changed |
| `FanFailSafe.ResetChannelToAuto` | crates/rog-providers/src/hwmon.rs:1137-1150 | writes 3 once; success means that the channel reports 2 or 3 and is not under a curve |
| `FanFailSafe.ResetChannels` | crates/rog-providers/src/hwmon.rs:187-192 | commands Auto on every selected channel although others fail |
| `FanFailSafe.SetFanAuto` | crates/rog-providers/src/hwmon.rs:180-197 | success means the channel, or exactly the discovered ones, left the curve; discovering none is an error; every selected channel is commanded |
| `FanHost.LegacyRecoveryCovers` | crates/rog-privileged/src/main.rs:705-708 | a legacy recovery that succeeds keeps coverage if and only if it discovered all channels under a curve |
| `FanHost.LegacyRecoveryCanMiss` | crates/rog-privileged/src/main.rs:705-708 | with the GPU fan under a curve and only the CPU fan discovered, it leaves the GPU fan under a curve without a marker |
| `FanHost.GateStaysShut` | crates/rog-privileged/src/main.rs:625-643 | over a whole history a closed gate stays closed in the same process and no channel goes under a curve any more |
| `FanHost.CoveredExactly` | crates/rog-privileged/src/main.rs:691-723 | all moments of a safe history are covered if and only if nothing is under a curve whenever the legacy entry is removed |
| `FanHost.CoveredThroughout` | crates/rog-privileged/src/main.rs:691-723 | they are covered without a legacy entry at the start, or when discoveries find every channel ever under a curve |
| `FanHost.Host.Discover` | crates/rog-providers/src/hwmon.rs:777-837 | finds some channels, never none; finding none is an error |
| `FanMarker.MarkerRoundTrip` | crates/rog-privileged/src/main.rs:833-849 | what is written is read back, entry by entry |
| `FanMarker.MarkerNames` | crates/rog-privileged/src/main.rs:833-849 | any text names its trimmed rows that are not empty, in order, and is refused exactly when one of them is none of the four names |
| `FanMarker.WrittenArms` | crates/rog-privileged/src/main.rs:747-760 | sorting, removing duplicates and writing arms exactly the given channels |
| `FanMarker.SortedKeeps` | crates/rog-privileged/src/main.rs:751-753 | sorting and removing duplicates keeps exactly the entries |
| `HidLaws.AcceptsExactlyTrees` | crates/rog-providers/src/aura_hid.rs:259-346 | bytes are accepted exactly when they encode a tree of items with IDs 1 to 255 whose sums fit 64 bits, and each ID maps to the bytes of its Output items (HID 1.11, section 6.2.2) |
| `HidLaws.ParseOfTree` | crates/rog-providers/src/aura_hid.rs:259-346 | parsing the encoding of any tree yields its meaning |
| `HidLaws.RunTree` | crates/rog-providers/src/aura_hid.rs:300-328 | the stack machine computes the stack-free meaning of a tree and restores globals after a scope |
| `HidLaws.ScanRuns` | crates/rog-providers/src/aura_hid.rs:272-298 | scanning encoded items is running the items |
| `HidLaws.ScannedItems` | crates/rog-providers/src/aura_hid.rs:272-298 | bytes that scan without error are encoded items |
| `HidLaws.NeutralItemsIgnored` | crates/rog-providers/src/aura_hid.rs:300-328 | inserting an Input, Feature, local or long item anywhere changes nothing |
| `HidLaws.ProductCheckNeverFires` | crates/rog-providers/src/aura_hid.rs:318-321 | adding an Output item fails only when the sum overflows |
| `HidLaws.GlobalBytes` | crates/rog-providers/src/aura_hid.rs:300-317 | the bytes of Report Size, Report Count and Report ID; ID 0 is refused |
| `HidLaws.StackBytes` | crates/rog-providers/src/aura_hid.rs:300-328 | the bytes of Push and Pop; a Pop restores the globals of its Push and is refused without one |
| `HidLaws.OutputBytes` | crates/rog-providers/src/aura_hid.rs:318-328 | the bytes of an Output item add size times count to its report, or are refused beyond 64 bits |
| `HidLaws.FourBytes` | crates/rog-providers/src/aura_hid.rs:286-298 | items with four data bytes, lowest first |
| `HidLaws.LongBytes` | crates/rog-providers/src/aura_hid.rs:275-285 | a long item is skipped |
| `HidLaws.CutShort` | crates/rog-providers/src/aura_hid.rs:272-298 | what is reported for bytes that end in the middle of an item |
| `HidDescriptor.ParseOutputReportSizes` | crates/rog-providers/src/aura_hid.rs:259-346 | the loop computes the recursive scan and its conclusion |
| `HidDescriptor.ReadAt` | crates/rog-providers/src/aura_hid.rs:272-298 | reads one item in bounds or reports what is truncated |
| `HidDescriptor.InterpretShort` | crates/rog-providers/src/aura_hid.rs:300-328 | the effect of one short item on globals, stack and sums |
| `HidDescriptor.LittleEndian` | crates/rog-providers/src/aura_hid.rs:348-352 | the data bytes are the digits of the value to base 256, lowest first |
| `Lighting.SameModeIsEqual` | crates/rog-core/src/model.rs:981-983 | built-in modes are told apart by their normalised labels |
| `Lighting.ListContainsBuiltin` | crates/rog-core/src/model.rs:1306-1308 | among built-in modes the list test is membership |
| `Lighting.ValidateReportsFirst` | crates/rog-core/src/model.rs:1196-1291 | for a built-in mode, against any capabilities that list built-in modes, a request is valid exactly when it has no fault, and otherwise the first one is reported |
| `Lighting.DeviceAccepts` | crates/rog-providers/src/aura_hid.rs:143-189 | for the verified device exactly these are valid: one of the five modes; a primary colour for Static, Breathe and Pulse; a secondary one only for Breathe; Slow, Medium or Fast, not for Static; one of four directions, only for RainbowWave; no brightness or zone and not for all |
| `Lighting.ImitationPasses` | crates/rog-core/src/model.rs:981-983 | a custom label can pass for a built-in mode |
| `Lighting.HexRoundTrip` | crates/rog-core/src/model.rs:1317-1340 | every colour survives being written as text and parsed |
| `AuraWire.WireRoundTrip` | crates/rog-privileged/src/main.rs:955-1020 | the helper reads back exactly the daemon's request if and only if the device can be asked for it |
| `AuraWire.WireAnswer` | crates/rog-privileged/src/main.rs:955-1020 | whatever request the daemon sends, the helper reads back the part that crosses the bus, or refuses it with the error of its validation |
| `AuraWire.WireWords` | crates/rog-daemon/src/privileged_client.rs:208-254 | which word crosses the bus for each mode, speed and direction |
| `AuraWire.ColoursAccepted` | crates/rog-privileged/src/main.rs:975-986 | a colour is read from exactly the texts `#RRGGBB`, digit by digit |
| `AuraWire.TextsSurvive` | crates/rog-daemon/src/privileged_client.rs:208-254 | every mode, speed and direction the daemon can name is read back |
| `AuraWire.EncodeG615jmEffect` | crates/rog-providers/src/aura_hid.rs:355-418 | succeeds exactly for what the device can be asked for; the report decodes to the request with defaults Medium, Right and black, all reserved bytes are zero, and the set and apply reports are 0xb5 and 0xb4 |
| `AuraWire.ReportIsWhatIsShown` | crates/rog-providers/src/aura_hid.rs:400-408 | two reports are the same bytes exactly when they show the same |
| `AuraWire.FillEffect` | crates/rog-providers/src/aura_hid.rs:400-408 | each field at its byte, all others zero |
| `AuraWire.FillCommand` | crates/rog-providers/src/aura_hid.rs:410-415 | a report that is only its ID and command |
| `AuraWire.SendEffect` | crates/rog-providers/src/aura_hid.rs:355-418 | a request ends as reports exactly when the device can be asked for the part of it that crosses the bus, and the report shows exactly it; otherwise the daemon refuses it as unmapped, or the helper with its first fault |
| `Introspection.WalkIntrospection` | crates/rog-providers/src/aura.rs:1000-1046 | ends; introspects no path twice and records exactly the introspected paths, only within depth 3; at most 80 nodes; and below 80 nodes it introspected everything reachable by at most 3 successful steps |
| `Introspection.AllVisited` | crates/rog-providers/src/aura.rs:1000-1046 | when nothing is queued any more, everything within the depth limit was visited at its depth or above |
| `Introspection.Examine` | crates/rog-providers/src/aura.rs:1017-1042 | a path is introspected and recorded, and answers become nodes and queued children |

## Left out

- D-Bus, PolicyKit, ioctl, hidraw and sysfs access, path-shape and symlink checks, and discovery: these are parameters or free choices.
- Interference by others: nobody else writes the CPU files, the marker or the fan channels while the modelled code runs.
- Partial file contents: a failed write leaves the old or the requested value, and replacing the marker is one step; flushing to disk is not modelled.
- How the write policy and the record of a device are found: whether a request is permitted and the limits of the record are parameters. The raw PWM values of staged points are not modelled.
- The Aura rate limiter, and whether a duplicate reply reflects the device.
- Configuration files, TOML and the names of profiles.
- Error and warning texts: errors are kinds, and some refusals that differ only in their text share a kind.
- Telemetry (temperatures, usage, power, refresh rates) and everything that only formats.
- Nondeterministic map order: targets are verified in any order.
- Introspection: the answer for a path is taken to be the same throughout one walk.
- FanCurve.Curve.Sanitize: requires the policy's minimum bounds not to exceed its maximum bounds, because the source's clamp panics otherwise.
- CpuFrequency.SetFreqLimits: requires policies with distinct paths, as entries of one directory are; ordering is not promised after a rollback write that failed.
- FanFailSafe.RunOperations: from a start under the legacy entry, coverage is promised only as far as discoveries find the channels under a curve, because the code clears the marker without checking.
- HidDescriptor.LittleEndian: the bitwise or of shifted bytes is written as a sum, which is the same because the bytes do not overlap.
- Retry.EpisodeEnds: needs at most one report per start, because the code cannot tell reports apart; without it the exact behaviour is stated instead.
- PolicyTiming.AlternatesAfter: needs a pending preset to belong to the rule of the readings, because a new rule forgets it.
