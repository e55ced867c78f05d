# NeverDry: a verified model

NeverDry is a Home Assistant integration that waters a garden. This project models the parts of it
where a mistake floods or dries something, or accuses a healthy valve, and proves what they promise
for every fleet, every run, every counter and every page.

| file | part of the system |
|---|---|
| `OrderStatistics.dfy` | sort, k-th smallest, median, MAD, all reduced to counting |
| `SilenceJudgement.dfy` | one valve's silence against its peers, and the floor learned from ended silences |
| `QuietWatermark.dfy` | the monotone deque behind a soil probe's freshness bar (module `Watermark`) |
| `ProbeFreshness.dfy` | whether a soil probe's reading still stands |
| `FleetWatch.dfy` | the watch that collects silences tick by tick |
| `ValveFsm.dfy` | the per-valve state machine and its failure counter |
| `DriverSteps.dfy`, `CommandRuns.dfy`, `Driver.dfy` | the host of the machine: timers, completion, watchdog, retries |
| `CloseEvidence.dfy` | what an OK on a close is worth |
| `Zone.dfy` | a zone's deficit, its water counters and the cycle around a delivery |
| `Delivery.dfy` | the metered polling loop and the run over the zones |
| `WaterBalance.dfy` | runs of clamped ticks, the replay of recorded history, and the live balance beside it |
| `TimeoutLadder.dfy` | the three layers that stop a running valve |
| `LangSwitch.dfy` | the language redirect of the static site |
| `ReleasePruning.dfy` | the order of version tags and the choice of superseded pre-releases |
| `Notifier.dfy` | the index of raised notices beside the store that shows them |
| `Strings.dfy`, `Rounding.dfy`, `Wrappers.dfy` | splitting, decimal numbers, Python's `round`, an option type |

Code that changes fields is a class with those fields; each of its methods is proved equal to a
function on values, and the laws are proved about the function. Litres, millimetres and seconds are
exact reals. A driver's dispatch, with the execution of its actions, is one atomic step.

Where the code and its own comments disagree, the model follows the code:

- An OK on a close need not mean that the valve was seen closed. It does exactly when the command's
  first attempt brought it, that attempt found the valve neither idle nor unreachable, and the valve
  was never lost on the way (`CloseEvidence.CloseIsConfirmed`). The other ways: an idle machine
  answers a close with nothing, and `driver.py:762` reports OK, so a close that timed out is reported
  OK by its first retry without a second switch-off (`CloseEvidence.DeafCloseReportsOk`); a valve that
  drops off while closing is reported closed as soon as it is back, even back on, because
  `driver.py:1123-1124` makes the machine idle before the level is looked at
  (`DriverSteps.UnavailableWhileClosingReportsOk`); and so is one that was unreachable when the close
  was asked for, though it was never told to close (`DriverSteps.CloseFromUnreachableReportsOk`).
- `driver.py:348-350` says the retry budget can never lock a valve in the middle of a command. It
  can, exactly when the command finds the failure counter above zero
  (`CommandRuns.LocksOnLastAttemptFromZero`, `CommandRuns.DeafValveLocks`).
- A pending open is left unsettled, with no timer running, by the valve becoming unavailable or by an
  external close before its flow is verified, and by no other observation or expiry
  (`DriverSteps.TrackedStep`). Nothing that comes later settles it either, so its caller waits for
  ever (`CommandRuns.DerailedOpenWaitsForever`). So does an open begun while the valve is unreachable
  (`CommandRuns.AdriftWaitsForever`); one begun while it is closing has no timer of its own
  (`DriverSteps.BeginOutcome`).
- A valve that becomes unavailable while open loses its watchdog without being told to close
  (`DriverSteps.DisarmedWithoutClosing`).
- `sensor.py:1737-1740` says the replay produces the balance the live path did. Three things part
  them. They evaporate differently: the replay at the temperature that stood before an event
  (`sensor.py:1713-1716`), the live path at the median of recent readings, that event's included
  (`sensor.py:1216-1221`), so either can show more deficit: after 30 and then 0 degrees, over a base
  of 0, the simplest tier shows half of what the replay does (`WaterBalance.ReplayCanShowMore`). The
  replay credits the first reading of an accumulator, of which the live path only takes the level
  (`WaterBalance.ReplayCreditsFirstReading`). And it cuts evaporation at the reservoir's limit before
  it subtracts the rain of the same event, where the live path clamps once. Whatever the
  evaporation, the gap is at most the sum of what has parted the two (`WaterBalance.ReplayIsNearLive`).
  Where both evaporate alike, as at a constant temperature
  (`WaterBalance.SteadyWeatherEvaporatesAlike`), the replay never shows more deficit, and the same
  exactly when at some moment both were dry or both full and no event since has parted them
  (`WaterBalance.ReplayAgreesWithLive`).
- `sensor.py:2487-2491` says the freshness bar is not restored; line 2507 restores it.
- `const.py:323-327` says each safety layer fires after the one it protects. Rounding makes that
  strict only from three seconds on, below the ceiling (`TimeoutLadder.LayersAreStrict`).
- `environment.py:507-511` checks that restored evidence decreases, not that it is ordered in time.
  The maximum does not need the order (`Watermark.QuietWatermark.Restore`). But evidence dated after
  a word the device then speaks, as after a clock set back, can be lost to the stretch that word
  ends; exactly when is `Watermark.LateReportLosesEvidence`, and a device's own words never do it
  (`ProbeFreshness.OnlyCarriedIsLost`).
- Two zones whose names make one slug share notification ids, and then the index can hold a notice
  the store no longer shows (`Notifier.SharedSlugBreaksAgreement`).

## Model

The rows name results. The methods that carry an operation out are each proved equal to the function
on values that the results are about; those without a statement of their own have no row.

| member | source | states |
|---|---|---|
| OrderStatistics.KthByCount | custom_components/never_dry/environment.py:396-404 | the k-th smallest value is at most x exactly when more than k values are |
| OrderStatistics.SortPermutes | custom_components/never_dry/environment.py:396 | sorting keeps every value as often as it occurs |
| OrderStatistics.MedianAndMadBreakdown | custom_components/never_dry/environment.py:520-530 | if a strict majority lies in [lo, hi], the median does too and the MAD is at most hi - lo, whatever the rest say |
| OrderStatistics.MadAtLeastHalfGap | custom_components/never_dry/environment.py:520-530 | the MAD is at least the distance from the median to the upper middle value |
| OrderStatistics.MedianShifted | custom_components/never_dry/environment.py:529 | a common shift of all values shifts the median by as much |
| OrderStatistics.MadShifted | custom_components/never_dry/environment.py:520-530 | a common shift leaves the MAD alone |
| OrderStatistics.MedianInNumbers | custom_components/never_dry/environment.py:529 | the median is half the sum of the entries (n-1)/2 and n/2 of the sorted values |
| OrderStatistics.MadInNumbers | custom_components/never_dry/environment.py:520-530 | the MAD is half the sum of the entries (n-1)/2 and n/2 of the sorted distances from the median |
| SilenceJudgement.VerdictInNumbers | custom_components/never_dry/environment.py:564-569 | with enough peers, status, reference and threshold from the sorted peers and the sorted distances from their middle, as plain arithmetic |
| SilenceJudgement.FleetVerdictInNumbers | custom_components/never_dry/environment.py:590-599 | the same for a valve of a fleet, whose peers are the silences before and after its own |
| SilenceJudgement.TooFewPeers | custom_components/never_dry/environment.py:564-565 | with fewer peers than required the verdict is UNKNOWN, without numbers |
| SilenceJudgement.WildMinorityDecidesNothing | custom_components/never_dry/environment.py:533-569 | if a strict majority of peers lies in [lo, hi], every silence above the bar with reference hi and spread hi - lo is SILENT and every one up to the bar with reference lo and no spread is LIVE, whatever the others say |
| SilenceJudgement.MajorityBoundsAreSharp | custom_components/never_dry/environment.py:566-567 | both bars are reached by some minority, for every interval, floor and k, so neither bound can be improved |
| SilenceJudgement.BarAboveUpperMiddle | custom_components/never_dry/environment.py:567 | for k >= 1 the bar is never below the upper middle peer |
| SilenceJudgement.PeersLeaveOneOut | custom_components/never_dry/environment.py:590-599 | a valve's peers are the fleet's silences without its own entry, equal ones of others included |
| SilenceJudgement.VerdictBySilences | custom_components/never_dry/environment.py:564-599 | SILENT exactly when there are enough peers and the silence exceeds the leave-one-out bar; UNKNOWN exactly without enough |
| SilenceJudgement.AtMostHalfSilent | custom_components/never_dry/environment.py:572-599 | for k >= 1 at most half of any fleet, rounded down, is SILENT, whatever the silences and the floor |
| SilenceJudgement.HalfBoundNeedsK | custom_components/never_dry/environment.py:572-599 | for every 0 <= k < 1 a fleet of three has two SILENT valves, so the bound needs k >= 1 |
| SilenceJudgement.QuieterHasLowerBar | custom_components/never_dry/environment.py:564-599 | the bar that accuses a valve is no lower than the bar of any valve at least as quiet |
| SilenceJudgement.SilentIsUpwardClosed | custom_components/never_dry/environment.py:572-599 | a valve at least as quiet as a SILENT one is SILENT, though their peer sets differ |
| SilenceJudgement.SharedSilenceOnlyMovesTheFloor | custom_components/never_dry/environment.py:585-589 | adding t to every silence gives the verdicts of the original fleet under a floor lowered by t |
| SilenceJudgement.EqualSilencesAccuseNobody | custom_components/never_dry/environment.py:585-589 | when all are equally quiet nobody is SILENT |
| SilenceJudgement.FloorIsNearestRank | custom_components/never_dry/environment.py:376-404 | the floor occurred; at least the quantile's share of positive silences is at or below it, and it is the least such value; with too few it is the longest; none exactly without positive ones |
| Watermark.WindowMaxIsMaximum | custom_components/never_dry/environment.py:408-441 | the reference: None without a candidate in the window, otherwise a candidate that none exceeds |
| Watermark.FrontIsWindowMax | custom_components/never_dry/environment.py:461-469 | the front of a pruned deque that represents a history is that history's maximum |
| Watermark.PrunedStaysSound | custom_components/never_dry/environment.py:515-517 | dropping expired fronts loses nothing any later question can reach |
| Watermark.RecordedStaysSound | custom_components/never_dry/environment.py:447-459 | after a harmless report the deque is decreasing and represents the longer history |
| Watermark.LateReportLosesEvidence | custom_components/never_dry/environment.py:447-459 | a report is harmless exactly when it leaves the deque sound, and exactly when every later question is answered as the whole history would: when it takes no stretch with it that ended later, can still be asked about and is not represented by what is kept |
| Watermark.LateReport | custom_components/never_dry/environment.py:456-457 | a longer, earlier stretch reported after a shorter one makes the bar answer None where the maximum is 5 |
| Watermark.RestoredAnswers | custom_components/never_dry/environment.py:471-513 | the stored evidence alone has the same maximum as the whole history, at every time not yet pruned past |
| Watermark.AnswersOnEveryRun | custom_components/never_dry/environment.py:447-517 | after any run of reports, questions and restarts in time order, the answer is the maximum over everything ever reported within the window, and the deque is strictly decreasing in quiet and ordered in time |
| Watermark.BarIsPositive | custom_components/never_dry/environment.py:454-455 | after every such run the bar, where there is one, is longer than zero |
| Watermark.QuietWatermark.Record | custom_components/never_dry/environment.py:447-459 | the exact new deque; a stretch of no length changes nothing; any other keeps a sound bar sound exactly when it is harmless |
| Watermark.QuietWatermark.Value | custom_components/never_dry/environment.py:461-469 | for questions in time order, the maximum over the window, None without one |
| Watermark.QuietWatermark.Restore | custom_components/never_dry/environment.py:487-513 | accepted exactly when it is a list of pairs of numbers strictly decreasing in quiet, and otherwise nothing changes; sound either way |
| Watermark.Restart | custom_components/never_dry/environment.py:471-513 | the bar after a restart and the one before it both answer the maximum over the whole history |
| ProbeFreshness.Probe.ObserveDevice | custom_components/never_dry/sensor.py:2213-2232 | exactly the later words of the device are noted, and a sound bar stays sound unless the word ends a stretch that takes carried evidence with it |
| ProbeFreshness.Probe.IsFresh | custom_components/never_dry/sensor.py:2153-2211 | while the bar is sound and nothing lies ahead of the clock: fresh exactly when ever heard, at most 24 h old, and either no stretch ended in seven days or one of them lasted as long, over the whole history of words and carried evidence |
| ProbeFreshness.AnswerAll | custom_components/never_dry/sensor.py:2153-2232 | on every run of readings, words and checks that is on time, with no word older than the evidence a restart carried over, every check answers the rule on the history so far |
| ProbeFreshness.EarlierEvidenceIsKept | custom_components/never_dry/sensor.py:2226-2232 | a word no older than the carried evidence loses none of it |
| ProbeFreshness.OnlyCarriedIsLost | custom_components/never_dry/sensor.py:2226-2232 | ending a stretch is harmful exactly towards evidence carried over a restart; the device's own words lose nothing |
| ProbeFreshness.ClockSetBackLosesEvidence | custom_components/never_dry/sensor.py:2226-2232 | evidence at 100 s, then words at 40 s and 50 s, is such a case |
| ProbeFreshness.BarDecides | custom_components/never_dry/sensor.py:2210-2211 | comparing with the bar is asking whether some remembered stretch lasted as long |
| ProbeFreshness.RuleByCases | custom_components/never_dry/sensor.py:2199-2211 | never heard is never fresh; without evidence fresh for 24 h inclusive; with one stretch in the week fresh for as long as that lasted, inclusive, and at most 24 h |
| ProbeFreshness.RuleForgets | custom_components/never_dry/sensor.py:2206-2211 | evidence older than seven days does not count, and the device's last word stands before the reading's |
| ProbeFreshness.GapsExtend | custom_components/never_dry/sensor.py:2226-2232 | one more word adds one gap, between it and the word before |
| ProbeFreshness.MissedWordNeverLowersTheBar | custom_components/never_dry/sensor.py:2216-2221 | leaving out a word the device spoke never makes the bar shorter |
| FleetWatch.EndedIsStretchMaximum | custom_components/never_dry/reachability_watch.py:80-88 | the silence recorded when a device speaks is the longest reading of that stretch |
| FleetWatch.AdvanceMatches | custom_components/never_dry/reachability_watch.py:79-88 | the three numbers kept per device stay the last reading, the current peak and the last 50 positive stretch maxima of its full history |
| FleetWatch.FleetSilenceWatch.Observe | custom_components/never_dry/reachability_watch.py:66-101 | the verdicts are the fleet judgement under the floor of the full histories; all UNKNOWN exactly when no silence ever ended |
| FleetWatch.ExtendedKeeps | custom_components/never_dry/reachability_watch.py:75-90 | a tick leaves the history of a device that did not answer as it was |
| FleetWatch.ExtendedGains | custom_components/never_dry/reachability_watch.py:75-90 | a tick adds to the history of an answering device its own reading, once |
| FleetWatch.AnsweringExactly | custom_components/never_dry/reachability_watch.py:75-89 | exactly the drivers that answered are judged, each with its own silence |
| FleetWatch.KeptAreMostRecent | custom_components/never_dry/reachability_watch.py:51-86 | what a watch has kept are the last fifty of all positions of the reading history at which a positive stretch ended, oldest first |
| FleetWatch.IntervalsAreEverybodys | custom_components/never_dry/reachability_watch.py:90 | the floor is taken from what every answering device has kept, and from nothing else |
| FleetWatch.IntervalsOfMore | custom_components/never_dry/reachability_watch.py:90 | each device adds all it has kept, once, behind the others |
| FleetWatch.SilentOutlastsTheFleet | custom_components/never_dry/reachability_watch.py:95-101 | a SILENT valve has been quiet strictly longer than at least 95% of the silences the answering devices came back from, counted up to one that really ended |
| ValveFsm.ValveFsm.Dispatch | custom_components/never_dry/valve_fsm.py:200-228 | the new state, counter and last failure, and the actions, are those of the transition table for every state and event |
| ValveFsm.CounterOverHistory | custom_components/never_dry/valve_fsm.py:183-196 | over any history the counter is the number of failures since the last clean cycle or reset, the last failure is the newest of them, and MAINTENANCE holds exactly at the maximum |
| ValveFsm.ClosedSawOff | custom_components/never_dry/valve_fsm.py:355-364 | over any history the machine is in the leak window exactly when the switch was seen off for a close and the window has lasted since |
| ValveFsm.UnmeteredSkipsVerification | custom_components/never_dry/valve_fsm.py:131-137 | without a meter the two verification states are never entered |
| ValveFsm.EntersWorking | custom_components/never_dry/valve_fsm.py:232-389 | for each working state and UNREACHABLE, exactly which states and events lead into it |
| ValveFsm.EntersResting | custom_components/never_dry/valve_fsm.py:391-473 | MAINTENANCE is entered exactly by a failure at the maximum, IDLE exactly by a failure below it, a reset, availability, or a clean end |
| ValveFsm.FailuresAreCounted | custom_components/never_dry/valve_fsm.py:456-473 | each expiry records its own kind of failure and one more on the counter, and nothing else does |
| ValveFsm.FailuresAreTold | custom_components/never_dry/valve_fsm.py:466-473 | the actions tell a failure of exactly its kind, and the lock exactly when it falls |
| DriverSteps.EventRunsAwaited | custom_components/never_dry/valve_fsm.py:232-407 | from any state, an event from outside leaves running exactly the timer the new state waits for |
| DriverSteps.ExpiryIsNeverStale | custom_components/never_dry/driver.py:1055-1068 | an expiring timer always moves the machine, and no timer is left that the new state does not wait for |
| DriverSteps.MomentKeepsTimers | custom_components/never_dry/driver.py:722-749 | every command, observation, expiry, watchdog and abandonment keeps the armed timer the awaited one |
| DriverSteps.TimersMatchOnEveryRun | custom_components/never_dry/driver.py:1022-1086 | on every run exactly the awaited timer is armed, and the watchdog is present exactly while the valve is open |
| DriverSteps.OpeningArmsWatchdog | custom_components/never_dry/driver.py:911-921 | opening arms the watchdog for the time allowed from that moment |
| DriverSteps.DispatchArmsWatchdog | custom_components/never_dry/driver.py:918-923 | after every dispatch the watchdog is asleep exactly if the valve is open, one that had run out being renewed |
| DriverSteps.WatchdogTellsOff | custom_components/never_dry/driver.py:999-1011 | when the watchdog runs out the valve is open and is told to shut, and the machine is not touched |
| DriverSteps.DeadlineIsFixed | custom_components/never_dry/driver.py:999-1011 | while the valve stays open no run moves the deadline, so on a punctual run it is never open past it without the watchdog |
| DriverSteps.DispatchSends | custom_components/never_dry/driver.py:734-749 | for every state and event, what the actuator is told: on from IDLE only, off while opening or open, off when the meter stays dry, else nothing |
| DriverSteps.CommandSends | custom_components/never_dry/driver.py:649-687 | a command with its confirmation by level tells the actuator once, and only where it applies |
| DriverSteps.DisarmedWithoutClosing | custom_components/never_dry/driver.py:911-930 | an open valve loses its watchdog without a switch-off exactly when it becomes unavailable or is seen off |
| DriverSteps.BeginOutcome | custom_components/never_dry/driver.py:664-671 | a command is settled or timed from the start, except exactly from UNREACHABLE and, for an open, while closing |
| DriverSteps.TrackedStep | custom_components/never_dry/driver.py:751-763 | a timed pending command stays timed or is settled, except exactly for the two transitions that leave it pending without a timer; an expiry always settles it |
| DriverSteps.OkNeedsEvidence | custom_components/never_dry/driver.py:751-763 | from every state a command can wait in, exactly which observation makes it OK: for an open its evidence, for a close its evidence or, while unreachable, mere availability |
| DriverSteps.CommandsProgress | custom_components/never_dry/driver.py:664-671 | on any run without those two transitions the command is settled or still timed, the first expiry settles it, and its result never changes |
| DriverSteps.CycleBegins | custom_components/never_dry/driver.py:649-671 | beginning a cycle fails nothing |
| DriverSteps.CycleContinues | custom_components/never_dry/driver.py:751-763 | what settles a cycle as failed or locked has moved the counter by exactly one |
| DriverSteps.BackoffIsQuiet | custom_components/never_dry/driver.py:635-636 | between attempts nothing moves the counter or leaves IDLE or UNREACHABLE |
| DriverSteps.CloseFromIdleReportsOk | custom_components/never_dry/valve_fsm.py:232-243 | a close told to an idle machine changes nothing but the result, which is OK |
| DriverSteps.CloseRetryReportsOk | custom_components/never_dry/driver.py:626-636 | a close that timed out short of locking is reported OK by its first retry, which sends nothing |
| DriverSteps.UnavailableWhileClosingReportsOk | custom_components/never_dry/driver.py:1117-1124 | a close that loses the valve and finds it again is OK on availability alone, with nothing sent |
| DriverSteps.CloseFromUnreachableReportsOk | custom_components/never_dry/driver.py:607-608 | so is a close begun while unreachable, for which nothing is ever sent |
| CommandRuns.CommandIsBudgeted | custom_components/never_dry/driver.py:615-647 | against any surroundings a command ends within maxRetries + 1 attempts, each failed one moving the counter by one; it is refused exactly in maintenance or unreadable, untouched; failures are handed back only spent or not transient; OK only in an awaited state |
| CommandRuns.LocksOnLastAttemptFromZero | custom_components/never_dry/driver.py:348-360 | with the default maximum a command that locks the valve used maxRetries less the counter it found, so on its last attempt exactly when that was zero |
| CommandRuns.DeafValveLocks | custom_components/never_dry/driver.py:348-350 | for every counter it can find, an open to a valve that never answers does lock it, on that attempt |
| CommandRuns.BackoffKeepsCounter | custom_components/never_dry/driver.py:699-704 | a whole backoff leaves the counter where the failed attempt put it |
| CommandRuns.AdriftWaitsForever | custom_components/never_dry/driver.py:664-671 | a pending open in IDLE or UNREACHABLE is settled by no run of observations, expiries and watchdogs, and the actuator is told nothing |
| CommandRuns.DerailedOpenWaitsForever | custom_components/never_dry/driver.py:751-763 | so an open that loses its valve, or sees it shut before it is verified, is never settled |
| CommandRuns.StillMeter | custom_components/never_dry/driver.py:1029-1068 | a metered open seen on whose flow timer expires: where flow was verifiable it fails for good as ACTUATION_FAILED, counter up by one, told on and off; where it was hopeless it is OK in OPEN_VERIFIED, told on only |
| CommandRuns.LeakyClose | custom_components/never_dry/valve_fsm.py:377-389 | a metered close seen off whose leak timer expires fails for good as CLOSE_LEAK, counter up by one, told off only |
| CommandRuns.SecondAttemptOpens | custom_components/never_dry/driver.py:626-636 | a valve that misses the first open and answers the second is opened by one retry, told on twice, the failure left on the counter |
| CommandRuns.LostInBackoff | custom_components/never_dry/driver.py:635-636 | a valve lost during a backoff leaves the retry of its open waiting for ever |
| CommandRuns.LevelOpens | custom_components/never_dry/driver.py:673-687 | a valve that reads open already is confirmed at once: OK without a meter, in its flow window with one |
| CloseEvidence.AttemptIsConfirmed | custom_components/never_dry/driver.py:649-671 | an attempt to close is confirmed, by an off while waiting or a dry leak window, exactly if it ends OK, began neither idle nor unreachable, and never lost the valve |
| CloseEvidence.CloseIsConfirmed | custom_components/never_dry/driver.py:615-636 | against any surroundings, a close command is confirmed exactly if it ends OK without a retry, found the valve neither idle nor unreachable, and never lost it |
| CloseEvidence.RetriedCloseIsUnconfirmed | custom_components/never_dry/driver.py:626-636 | no transition of a close command that was retried confirms it |
| CloseEvidence.DeafCloseReportsOk | custom_components/never_dry/valve_fsm.py:232-243 | whenever the counter leaves room for one failure, a valve that never answers a close is reported closed after one retry |
| Driver.Driver.DispatchEvent | custom_components/never_dry/driver.py:722-727 | the host becomes exactly what one atomic dispatch describes |
| Driver.Driver.RunCommand | custom_components/never_dry/driver.py:615-636 | the host, result and retries are those of the command's run, to which the budget theorems apply |
| Zone.Zone.CreditDelivery | custom_components/never_dry/zone.py:357-378 | credited against the snapshot, or the acting value outside a cycle, with the measurement withdrawn |
| Zone.Zone.Settle | custom_components/never_dry/zone.py:380-393 | one credit, the counters once, the stamp, and no snapshot |
| Zone.Zone.MarkIrrigated | custom_components/never_dry/zone.py:395-435 | the deficit cleared, the given litres or the demand before clearing counted once |
| Zone.EventsKeepTheCycle | custom_components/never_dry/zone.py:357-378 | no tick, soil reading or live credit reaches the snapshot, the area or the lifetime counters |
| Zone.SettleIgnoresInterleaving | custom_components/never_dry/zone.py:357-393 | any interleaving of ticks, soil readings and live credits, then settling, is one settlement of the snapshot, counters included |
| Zone.MarkIgnoresInterleaving | custom_components/never_dry/zone.py:395-435 | the same for declaring the zone full |
| Zone.LiveCreditStartsOver | custom_components/never_dry/controller.py:1696-1703 | inside a cycle a live credit gives the same zone whatever came before it |
| Zone.DemandIsInverse | custom_components/never_dry/zone.py:319-345 | the delivered millimetres reach the acting deficit exactly when the litres reach the demand |
| Zone.SettledInFull | custom_components/never_dry/zone.py:380-393 | settling leaves nothing owed exactly when the delivery met the demand it started from |
| Zone.ClosingBranchesAgree | custom_components/never_dry/controller.py:1030-1057 | once the delivery reaches its target, crediting it and declaring the zone full leave the same zone, field for field |
| Zone.CreditsAddUpOutsideACycle | custom_components/never_dry/zone.py:360-366 | outside a cycle two credits subtract twice, which is what the snapshot prevents |
| Zone.ProbeWins | custom_components/never_dry/zone.py:331-355 | a cycle starts from the probe's number where there is one, and from the estimate otherwise |
| Zone.DemandInLitres | custom_components/never_dry/zone.py:319-329 | demand times efficiency is the acting deficit times the area; without efficiency there is no demand |
| Zone.CreditInLitres | custom_components/never_dry/zone.py:366-378 | a credit takes the litres that arrived off those the snapshot stands for, down to zero and up to the reservoir, and withdraws the measurement |
| Zone.RainNeedsTheSky | custom_components/never_dry/zone.py:314-316 | a covered zone never sees rain; an open one steps as its broadcasts do |
| Zone.TickInMillimetres | custom_components/never_dry/sensor.py:2543-2547 | inside the box a broadcast adds evaporation times coefficient and takes the rain |
| Zone.ZeroTickCopiesTheSite | custom_components/never_dry/sensor.py:2539-2541 | an all-zero broadcast takes over the site's deficit times the coefficient, unclamped |
| Zone.LiveCreditShows | custom_components/never_dry/controller.py:1700-1707 | a live credit shows rounded in the session figure inside a cycle, and does nothing outside one |
| Zone.FullOwesNothing | custom_components/never_dry/zone.py:420-425 | declaring a zone full leaves zero by the estimate and withdraws the probe's number |
| Zone.LifetimeTotal | custom_components/never_dry/zone.py:182-190 | over any life of sessions the lifetime total has grown by the sum of their rounded volumes |
| Zone.YearlyTotal | custom_components/never_dry/zone.py:187-190 | the yearly figure is the sum of the volumes since the calendar year last changed, with what that year had before |
| Zone.NewestSession | custom_components/never_dry/zone.py:385-435 | last volume, stamp and source are the newest session's, the session figure is zero and the snapshot gone |
| Zone.DurationIfKnown | custom_components/never_dry/zone.py:430-433 | a duration is written where one is known and left alone otherwise |
| Delivery.MeterInvariant | custom_components/never_dry/controller.py:1465-1485 | through any gaps and resets the measured litres lie between zero and the water that flowed |
| Delivery.NeverOverCredited | custom_components/never_dry/controller.py:1465-1485 | the meter never credits more than the water that flowed |
| Delivery.ExactWithoutReset | custom_components/never_dry/controller.py:1481 | without a reset it credits exactly that, however many polls heard nothing before the last |
| Delivery.SessionEndsOnTime | custom_components/never_dry/controller.py:1441-1499 | the session ends within the timeout rounded up to one poll, at the first stop request or ending poll and at no other |
| Delivery.LiveCreditsAreOne | custom_components/never_dry/controller.py:1688-1707 | inside a cycle all the live credits of a session, and whatever came between them, are one credit of its last figure and what came since |
| Delivery.DeliverFlowMeter | custom_components/never_dry/controller.py:1439-1506 | litres, duration and zone are those of the polls the session takes; the estimate stands in only for a meter that measured nothing |
| Delivery.IrrigateZones | custom_components/never_dry/controller.py:915-1016 | whatever ends the run, each visited zone is as after its own turn and the others only lose their snapshot |
| Delivery.TurnIsOneSettlement | custom_components/never_dry/controller.py:1018-1057 | whatever is polled, and whatever ticks and soil readings come between the polls and until the end of the run, a turn that reports water is one settlement of the deficit it started from, counters once; one that reports none moves no lasting counter |
| Delivery.NeverOverpaid | custom_components/never_dry/controller.py:1433-1506 | a turn with a measured volume leaves at least the deficit that the water which really flowed would leave |
| Delivery.MeasuredIsSettled | custom_components/never_dry/controller.py:969-1057 | a zone with valve and demand, opened, without exception and with litres measured, short of the target or not, is settled for exactly those |
| Delivery.EstimateIsSettled | custom_components/never_dry/controller.py:1162-1198 | where nothing was measured it is settled for the rate times the minutes the session took |
| Delivery.TurnCountsExactlyWater | custom_components/never_dry/controller.py:923-1065 | total, last volume, stamp, source and duration move by the rounded litres if the turn brought water, and stay exactly if there was no valve, no demand, a refused opening, an exception or no water |
| Delivery.SilentPollMeasuresNothing | custom_components/never_dry/controller.py:1454-1472 | a poll that finds the valve shut or the meter silent measures nothing |
| Delivery.PollMeasures | custom_components/never_dry/controller.py:1481-1485 | any other measures from the baseline, or from zero once the counter has fallen below it |
| Delivery.HaltsExactly | custom_components/never_dry/controller.py:990-998 | the run ends with a zone exactly on a stop request or an exception in its delivery |
| WaterBalance.RunIsOneClamp | custom_components/never_dry/sensor.py:2543-2547 | a whole run of clamped ticks is one clamp of start plus sum, into bounds that the ticks alone decide |
| WaterBalance.RunsNeverDiverge | custom_components/never_dry/zone.py:315-316 | two starts keep their order and never drift apart |
| WaterBalance.StartForgotten | custom_components/never_dry/zone.py:315-316 | the start no longer matters exactly when the two bounds have met |
| WaterBalance.ZoneTicksAreARun | custom_components/never_dry/sensor.py:2536-2547 | a zone's advancing broadcasts are such a run, and change nothing but the deficit |
| WaterBalance.ReplayWaterBalance | custom_components/never_dry/sensor.py:1704-1732 | the loop computes the replay of the recorded history |
| WaterBalance.ReplayStaysInBox | custom_components/never_dry/sensor.py:1707-1732 | the replayed deficit stays between zero and the reservoir, and its clock never passes the history |
| WaterBalance.PausedEvaporation | custom_components/never_dry/sensor.py:1713-1719 | stopping half-way at an unchanged temperature is going there in one step, clamping included |
| WaterBalance.RepeatsDoNotCount | custom_components/never_dry/sensor.py:1707-1732 | a repeat of the current temperature anywhere before the last event changes nothing |
| WaterBalance.TrailingRepeatEvaporates | custom_components/never_dry/sensor.py:1713-1719 | after the last event a repeat changes nothing exactly when the stretch since evaporates nothing or the deficit is at its limit |
| WaterBalance.TrailingRepeatCounts | custom_components/never_dry/sensor.py:1713-1719 | an hour at one millimetre an hour: 1 mm with the trailing repeat, none without |
| WaterBalance.OneClampOrTwo | custom_components/never_dry/sensor.py:1715-1729 | one clamped step against two of the same evaporation: the second is no higher, and equal exactly when both are dry, both full, or nothing parted them |
| WaterBalance.EventAsSteps | custom_components/never_dry/sensor.py:1712-1730 | for any evaporation on the live path and the replay's own, an event is one clamped step on the one and two on the other, and the live path takes no rain the replay does not |
| WaterBalance.GapIsBounded | custom_components/never_dry/sensor.py:1200-1250 | whatever each path evaporates, and in whatever order of time, the gap is at most what it was, plus the differences in evaporation, the rain only the replay credits and the excess only it forgets |
| WaterBalance.ReplayIsNearLive | custom_components/never_dry/sensor.py:1734-1749 | so for a whole history from its start, with no premise on the evaporation |
| WaterBalance.ReadingsEvaporateUnalike | custom_components/never_dry/sensor.py:1713-1717 | between two temperatures the replay evaporates at the first, the simplest tier at the median of both |
| WaterBalance.ReplayCanShowMore | custom_components/never_dry/sensor.py:1216-1221 | 30 degrees and then 0, an hour apart: 30 mm in the replay, 15 mm on the live path |
| WaterBalance.SteadyWeatherEvaporatesAlike | custom_components/never_dry/sensor.py:1216-1251 | at a constant temperature from the first event on, the simplest tier evaporates as the replay does |
| WaterBalance.GapAfter | custom_components/never_dry/sensor.py:1712-1730 | one event for which both evaporate alike: the gap grows only where rain parts them, and closes exactly by both being dry or both full |
| WaterBalance.FirstReadingParts | custom_components/never_dry/sensor.py:1526-1531 | at the first rain reading, of equal deficits evaporating alike, they agree exactly when it credits nothing or the deficit has nothing to give, and otherwise the replay is lower by at most the reading |
| WaterBalance.GapNeverGrows | custom_components/never_dry/sensor.py:1712-1730 | while both evaporate alike and no rain parts them the gap never grows |
| WaterBalance.ReplayAgreesWithLive | custom_components/never_dry/sensor.py:1734-1749 | for any history through which both evaporate alike, the replay shows no more deficit than the live path, and the same exactly when they were both dry or both full after the last event that parted them |
| WaterBalance.EarlyShowerChangesNothing | custom_components/never_dry/sensor.py:1709-1729 | a first reading before any temperature is credited by the replay alone, and both deficits stay zero |
| WaterBalance.ReplayCreditsFirstReading | custom_components/never_dry/sensor.py:1709 | one millimetre evaporated, then a first reading of five: the replay ends at 0, the live path at 1 |
| WaterBalance.RainIsRisePlusDrops | custom_components/never_dry/sensor.py:1525-1546 | the credited rain is the rise of the accumulator with every fall given back |
| WaterBalance.DayEvaporates | custom_components/never_dry/water_balance_model.py:597-599 | a day at a temperature evaporates the site's rate for every degree above its base, and nothing below it |
| WaterBalance.TimeEvaporates | custom_components/never_dry/sensor.py:1715-1717 | evaporation is in proportion to the time |
| WaterBalance.EventsCountInFull | custom_components/never_dry/sensor.py:1742-1745 | a sensor of single events credits a positive reading in full unless it repeats the one before |
| WaterBalance.BufferedAt | custom_components/never_dry/sensor.py:207-221 | the buffer holds the temperatures that stood at the last events |
| WaterBalance.BufferedCount | custom_components/never_dry/sensor.py:198-221 | ten of them, or as many as since the first temperature |
| TimeoutLadder.SpreadRises | custom_components/never_dry/const.py:323-329 | spreading never lowers a layer, and raises it exactly from three seconds on |
| TimeoutLadder.LayersAreOrdered | custom_components/never_dry/sensor.py:2841-2849 | delivery, watchdog and hardware bounds never overtake each other nor the user's ceiling |
| TimeoutLadder.LayersAreStrict | custom_components/never_dry/sensor.py:2829-2838 | a layer is strictly above the one it protects exactly when that one is below the ceiling and at least three seconds |
| TimeoutLadder.OnlyTheCeilingCutsTheJob | custom_components/never_dry/sensor.py:2721-2745 | for every volume and guard flow, the delivery's bound cuts the expected job short exactly when the ceiling does |
| TimeoutLadder.NoGuardFlowFlattensTheLadder | custom_components/never_dry/sensor.py:2837-2838 | without a guard flow all three layers are the ceiling |
| TimeoutLadder.GuardIsNearest | custom_components/never_dry/sensor.py:3063-3065 | the expected duration is within half a second of volume over flow in seconds |
| TimeoutLadder.LayersWithRoom | custom_components/never_dry/const.py:321-329 | with room under the ceiling: twice the job, then a quarter more twice, each within half a second |
| Rounding.TiesGoToEven | custom_components/never_dry/sensor.py:2724 | a tie rounds to the even integer |
| LangSwitch.PagePathIsAbsolute | docs/gh-pages/lang_switch.js:48-75 | stripping the prefix leaves an absolute path |
| LangSwitch.DetectedCode | docs/gh-pages/lang_switch.js:93-102 | the loop finds the detected language |
| LangSwitch.DetectedIsFirstMatch | docs/gh-pages/lang_switch.js:90-102 | the first browser language that is published, by tag or base, decides and nothing after it |
| LangSwitch.TagBeforeBase | docs/gh-pages/lang_switch.js:95-100 | a browser language is the published tag in lower case if there is one, else its published part before the first hyphen, else nothing |
| LangSwitch.Browser.Load | docs/gh-pages/lang_switch.js:109-138 | one load redirects and remembers as the policy says |
| LangSwitch.SwitchReachesLanguage | docs/gh-pages/lang_switch.js:72-78 | a switch reaches the language exactly when it adds a prefix or the page's first segment is not itself published, keeps the page, and drops the override |
| LangSwitch.SwitchesUndo | docs/gh-pages/lang_switch.js:70-78 | switching away and back is switching once |
| LangSwitch.OthersAreCarried | docs/gh-pages/lang_switch.js:63-68 | a switch drops the override and carries every other parameter in its place |
| LangSwitch.SwitchAddress | docs/gh-pages/lang_switch.js:72-78 | the address is base, prefix unless canonical, page, the other parameters and the fragment |
| LangSwitch.RedirectLowersRank | docs/gh-pages/lang_switch.js:109-138 | every redirect uses up one of the few a location can cause |
| LangSwitch.ChainIsBounded | docs/gh-pages/lang_switch.js:104-138 | at most two redirects from a page of the site, three from any path, whatever storage answers each time |
| LangSwitch.OneRedirectToPreferred | docs/gh-pages/lang_switch.js:104-138 | from a page of the site, with working storage, at most one redirect, to the language of the stated precedence, exactly unless the page's own first segment is published |
| LangSwitch.RedirectsExactly | docs/gh-pages/lang_switch.js:109-138 | a load redirects exactly if the preferred language is not the one being read, and then to it |
| LangSwitch.ChoiceIsRemembered | docs/gh-pages/lang_switch.js:109-132 | where storage works a load leaves behind the override, or the choice already made, or the translation landed on, or what was detected |
| LangSwitch.NeverDetectedAgain | docs/gh-pages/lang_switch.js:128-132 | no later load depends on what the browser announces |
| LangSwitch.EmptyIsNoChoice | docs/gh-pages/lang_switch.js:111-129 | an empty stored or asked-for language counts as none |
| LangSwitch.FirstOverrideCounts | docs/gh-pages/lang_switch.js:110 | of several overrides the first counts |
| LangSwitch.TwoRedirectsFromAnyPath | docs/gh-pages/lang_switch.js:104-138 | from any path, one that merely begins with the text of the base included, working storage allows at most two redirects |
| ReleasePruning.ComputeVersionKey | scripts/prune_prereleases.py:38-68 | the key of any tag, well-formed or not |
| ReleasePruning.KeysAreOrdered | scripts/prune_prereleases.py:38-68 | keys are strictly and totally ordered |
| ReleasePruning.LexIsFirstDifference | scripts/prune_prereleases.py:68 | tuple comparison is the order of the first difference, or of length |
| ReleasePruning.KeyOfTag | scripts/prune_prereleases.py:38-68 | parsing a rendered version gives back its numbers and identifiers |
| ReleasePruning.KeyOrderIsPrecedence | scripts/prune_prereleases.py:38-68 | on well-formed tags without build metadata the key order is the precedence of section 11 of Semantic Versioning 2.0.0, both ways |
| ReleasePruning.CoreNumbersAt | scripts/prune_prereleases.py:52-53 | three numbers in order; a part that is not one or is missing is zero, a fourth is ignored |
| ReleasePruning.UnreadableSortsLow | scripts/prune_prereleases.py:45-47 | a tag of which no number can be made is below every version above 0.0.0 |
| ReleasePruning.VIsOptional | scripts/prune_prereleases.py:49 | the leading v makes no difference |
| ReleasePruning.ComputeSuperseded | scripts/prune_prereleases.py:71-115 | the method selects the superseded tags |
| ReleasePruning.SortDescends | scripts/prune_prereleases.py:98-101 | the reverse sort is newest first by version, then publication time |
| ReleasePruning.FirstIsNewest | scripts/prune_prereleases.py:82-86 | no published pre-release is newer than the one kept |
| ReleasePruning.OlderByPrecedence | scripts/prune_prereleases.py:98-101 | older is lower in precedence, or the same version created earlier by the text of the date |
| ReleasePruning.UndatedIsOldest | scripts/prune_prereleases.py:99 | a release without a date is older than any dated one of its tag |
| ReleasePruning.SortKeepsOrder | scripts/prune_prereleases.py:98-101 | the sort is stable: what is in order, ties included, stays as it is |
| ReleasePruning.DeletedInOrder | scripts/prune_prereleases.py:115 | the tags to delete come newest first |
| ReleasePruning.AboveHighest | scripts/prune_prereleases.py:112-113 | above the highest stable means above every stable |
| ReleasePruning.KeptTags | scripts/prune_prereleases.py:103-113 | a pre-release is kept exactly when it is the newest or the current tag, and current or above every stable |
| ReleasePruning.DeletedExactly | scripts/prune_prereleases.py:71-115 | with unique tags exactly the published pre-releases that do not survive are deleted, never a stable or a draft |
| ReleasePruning.SurvivorIsHighest | scripts/prune_prereleases.py:76-92 | every survivor but the current tag is a highest pre-release and above every stable |
| ReleasePruning.SortUndeleted | scripts/prune_prereleases.py:98-101 | removing tags before sorting or after gives the same list |
| ReleasePruning.PruningIsIdempotent | scripts/prune_prereleases.py:71-115 | pruning what is left prunes nothing more |
| Notifier.IdsCollide | custom_components/never_dry/valve_notifier.py:311-319 | two notices share an id exactly when they are of one kind and their zones share a slug |
| Notifier.NotifyKeepsAgreement | custom_components/never_dry/valve_notifier.py:181-248 | with distinct slugs a notice keeps index and store in agreement |
| Notifier.WithdrawKeepsAgreement | custom_components/never_dry/valve_notifier.py:266-299 | so does withdrawing any set of notices |
| Notifier.AgreesOnEveryRun | custom_components/never_dry/valve_notifier.py:136-142 | on every run of calls from empty the store shows exactly what the index holds, in its words, all of it admitted by the mode |
| Notifier.SharedSlugBreaksAgreement | custom_components/never_dry/valve_notifier.py:311-319 | any two zones with one slug have a run after which they disagree |
| Notifier.AdmitsByMode | custom_components/never_dry/valve_notifier.py:155-164 | active admits every kind, away all but the request to water, stopped none |
| Notifier.ShownExactly | custom_components/never_dry/valve_notifier.py:204-248 | a call shows its own words under its severity exactly if admitted and new in severity or context; every other notice stays |
| Notifier.ZoneJoinsContext | custom_components/never_dry/valve_notifier.py:207-209 | the zone joins a context that names none, and overwrites nothing |
| Notifier.ClearUndoesNotify | custom_components/never_dry/valve_notifier.py:266-282 | showing and clearing a new notice leaves index and store as before |
| Notifier.LeftUp | custom_components/never_dry/valve_notifier.py:166-299 | what each clearing call and each change of mode leaves up, exactly |
| Notifier.CleanNameIsItsSlug | custom_components/never_dry/valve_notifier.py:318 | a lower-case name of word characters without underscores at its ends is its own slug |
| Notifier.SlugForgetsCase | custom_components/never_dry/valve_notifier.py:318 | names that differ only in case share a slug |
| Notifier.RunIsOneUnderscore | custom_components/never_dry/valve_notifier.py:318 | a run of other characters between words is one underscore |
| Notifier.SlugIsTrimmed | custom_components/never_dry/valve_notifier.py:318 | a slug is not empty and has no underscore at either end |
| Notifier.NothingIsGlobal | custom_components/never_dry/valve_notifier.py:313-318 | no zone, or a name without word characters, is global |
| Notifier.ValveNotifier.Notify | custom_components/never_dry/valve_notifier.py:181-248 | true exactly when admitted and not a repeat; then index and store gain the same notice, otherwise nothing changes |
| Notifier.ValveNotifier.ClearKeys | custom_components/never_dry/valve_notifier.py:289-299 | clearing a snapshot of keys one by one is withdrawing them together |
| Notifier.ValveNotifier.ApplyOperatingMode | custom_components/never_dry/valve_notifier.py:166-177 | the mode is adopted and exactly what it no longer admits goes |

## Left out

- ProbeFreshness.Probe.IsFresh: promised while the bar has lost no evidence and no word or earlier check lies ahead of the clock; which reports lose evidence is exact, a single answer given after one is not stated. Evidence is restored before the device's first word.
- WaterBalance.ReplayAgreesWithLive: speaks of accumulators, and of histories through which both paths evaporate alike; without that premise WaterBalance.ReplayIsNearLive bounds the gap.
- WaterBalance.SteadyWeatherEvaporatesAlike: the first event counts as the live path's start, and every temperature as inside the buffer's valid range; the other tiers enter only as an arbitrary evaporation per event.
- CloseEvidence.CloseIsConfirmed: an off seen while the machine is unreachable moves nothing and counts as no confirmation.
- LangSwitch.OneRedirectToPreferred: a path that merely begins with the text of the base is excluded; there the first page can be read as canonical whatever its prefix, and two redirects can be needed.
- DriverSteps.DeadlineIsFixed: that the event loop serves the watchdog on time is a premise, not a result.
- Delivery.TurnIsOneSettlement: a negative area is excluded, which the configuration never produces.
- Delivery.NeverOverpaid: speaks of measured volumes; an estimate for a silent meter may exceed the water that flowed.
- ReleasePruning.KeyOrderIsPrecedence: build metadata and identifiers with leading zeros are outside the rendered tags.
- Entities, registries, services, storage, logging, translations and the frontend: input and output. Texts reach the notifier as words.
- Interleaving inside the execution of one dispatch's actions: a dispatch is atomic.
- The map entry an expired timer leaves behind until it is next cancelled: an expired timer counts as not running.
- Lengths of timers and backoffs, adaptive latency and the flow-verification window: which timer runs and what it dispatches is modelled, how long it waits is not.
- Commands that queue for the lock: maintenance and readability are looked at before it is taken, so in the source a queued command can begin its cycle in MAINTENANCE; here a command is refused or begun in one step.
- Whether an entity is readable is one flag per command, read before the first attempt; of the liveness probe only the observations it feeds to the machine are modelled.
- Leak recovery, stuck-open escalation, failure notices, and the write to the timer on the device.
- Delivery by rate sensor, estimate or preset, a meter silent from the start, and the deferred credit after a refused opening.
- Closing every valve after an exception, the pause between zones, an exception while settling, the reset of the site's reference deficit, and zones that were not requested.
- Broadcasts that reach a zone before its turn, or in a run without one.
- Manual sessions, and the scheduler that decides when to water.
- The physics of evaporation beyond the hourly rate, seasonal coefficients, and the conversion of units; the coefficient of a zone is an input.
- Collecting and sorting recorded states before the replay; it starts from events in their order.
- The live path of an event-type rain sensor, which counts by timestamp.
- Floating point: sums and quotients are exact. Python's round-half-even is kept in the timeout ladder and the counters.
- Drivers and per-device watches are values in a map, not objects; two keys never share one.
- A deque with a maximum length is a sequence cut to its last 50 entries.
- The in-place sort of releases is a stable insertion sort on values; duplicate tags are not covered by the theorems that ask for unique ones.
- Letters and digits outside ASCII in tags, zone names and language codes.
- The text form of a query string, how a browser resolves an address, the early return of a single-language site, and the rendering of the switcher.
- A user dismissing a notice by hand, and notices raised from two callers at once.
- valve_operator.py, config_flow.py, the master valve and manual actuators: superseded, forms, or not wired.
