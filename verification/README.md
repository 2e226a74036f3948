# Alarm monitoring: verified models of its kernels

This Dafny project models the parts of the alarm-monitoring repository that carry real algorithms and proves what they
promise, for every input or over every run. `dafny verify dfyconfig.toml` checks all of it.

| file | models |
|---|---|
| `Text.dfy`, `Lists.dfy` | code-point order of names; counting, filtering, sorting and binary search, shared by the others |
| `Episodes.dfy` | the streaming alarm-episode generator and the batch definition it must reproduce |
| `FeatureStore.dfy` | channel features from a truncated journal window, one channel or many at once |
| `ClassHistory.dfy` | the class history of an object in serving and in training |
| `PackedKeys.dfy` | 64-bit keys of channel code and moment, and the horizon labels searched over them |
| `Rhythm.dfy` | rhythm features: key counts, day grid, active-day sums, streaks |
| `Thresholds.dfy` | the threshold sweep and the functions that choose a cut from it |
| `Rolling.dfy` | rolling mean, slope and onset age of the pump model |
| `Trajectories.dfy` | rebuilding run-to-failure trajectories from unlabelled rows |
| `Replay.dfy` | the replay clock that wraps around the historical window |
| `LoginThrottle.dfy` | login lockout |
| `EventIds.dfy`, `EventSync.dfy`, `RiskSync.dfy` | materialising events and risks behind high-water marks |
| `ObjectRisk.dfy` | facility risks and versioned decisions |
| `Paging.dfy` | cursor paging of events and sensors |
| `Hierarchy.dfy` | the recursive tree query, child counts, root paths and the grid layout |
| `Series.dfy` | categorical intervals, numeric buckets and gaps of one sensor |

Times are integers in microseconds, values and ratios are exact reals, tables are sequences of rows, and every service call
is one atomic step. Database clocks, random ids, the predictor and the risk map are parameters. Where a promise holds only
under a bound, the bound is a predicate on the inputs, and a lemma shows what happens outside it.

Two places where the code and its own text disagree: the docstring of `clear_username_failures` says that failures per
address survive a successful login, but whole rows are deleted, so the address counter survives exactly when none of its
failures in the window carry the cleared username (`LoginThrottle.ClearKeepsIpCountIff`); and the tick of the replay engine
drops whole laps silently when one tick overshoots by a full span (`Replay.TickIsExactIff`). In both the code is followed.

## Model

| member | source | states |
|---|---|---|
| Episodes.IterEpisodes | ml/outputs/ml-stage2/episodes.py:7-48 | An ordered stream yields exactly the batch reference; a bad gap, bad row or order fault stops it there, with every group handed out that no continuation could change. |
| Episodes.BeyondIsStrict | ml/outputs/ml-stage2/episodes.py:3-5 | The two-part pause test is the strict comparison of the whole difference with the gap. |
| Episodes.RunTracks | ml/outputs/ml-stage2/episodes.py:26-46 | After any ordered prefix the loop's variables describe the reference of that prefix. |
| Episodes.ExpectedEpisodes | ml/outputs/ml-stage2/verify_sample.py:13-47 | The two reference loops over rows in any order compute the per-channel groups with their boundary labels. |
| Episodes.CutsAreExactlyThePauses | ml/outputs/ml-stage2/verify_sample.py:37 | A group begins exactly at the first alarm and after each pause longer than the gap. |
| Episodes.EpisodesAreAsTheRowsSay | ml/outputs/ml-stage2/verify_sample.py:33-47 | Every episode of a journal, said about its rows alone: it runs from an alarm to an alarm without a pause over the gap, no other alarm is in reach on either side, it counts the alarms between, and each boundary is observed exactly if the channel has a row beyond that reach. |
| Episodes.EveryAlarmHasAnEpisode | ml/outputs/ml-stage2/verify_sample.py:33-47 | Every alarm of the journal lies in an episode of its channel. |
| Episodes.StreamingMatchesTheUnsortedSource | ml/outputs/ml-stage2/verify_sample.py:33-51 | Streaming any ordered arrangement of a journal gives the reference of the unsorted journal. |
| Episodes.EveryAlarmRowIsCountedOnce | ml/outputs/ml-stage2/verify_sample.py:51 | The row counts of all episodes sum to the number of alarm rows. |
| FeatureStore.TruncationLosesNoStart | ml/outputs/ml-service/feature_store.py:8-13 | Reading only alarms after a lower bound loses and invents no start, if the bound lies at least one gap before the counted window. |
| FeatureStore.MarginIsExact | ml/outputs/ml-service/feature_store.py:11 | A lower bound gives the right starts of every sorted list exactly if it lies at least one gap before the counted window, or the window is empty. |
| FeatureStore.StartCountsMatchTheGenerator | ml/outputs/ml-service/feature_store.py:9-27 | The 7-day and 30-day start counts of the truncated query are those of the episodes generated from the whole journal. |
| FeatureStore.RowCountsTheJournal | ml/outputs/ml-service/feature_store.py:9-24 | The event and alarm counts for 1, 7 and 30 days are counts over the whole journal of the channel's rows in those windows; the margin rows are in none of them. |
| FeatureStore.RowCountsTheActiveDays | ml/outputs/ml-service/feature_store.py:25 | The active days are the days, counted back from the moment, in which the channel has a record, 30 at most. |
| FeatureStore.AgesAreSinceTheLastRecords | ml/outputs/ml-service/feature_store.py:28-29 | The two ages are the hours since the last record and the last alarm of the 30 days, and missing exactly if there is none. |
| FeatureStore.ChannelAgeIsSinceTheFirstRecord | ml/outputs/ml-service/feature_store.py:145-146 | The channel age is the time since the channel's first record, in days. |
| FeatureStore.GapHoursAreTheLostTime | ml/outputs/ml-service/feature_store.py:123-125 | The gap hours are the time of the last 30 days that lies in known gaps, counted microsecond by microsecond. |
| FeatureStore.GroupedIsSingle | ml/outputs/ml-service/feature_store.py:31-52 | Grouping, partitioning and joining many channels at once gives each channel the row of its own query. |
| FeatureStore.FeaturesMany | ml/outputs/ml-service/feature_store.py:101-114 | The batch result contains a requested channel exactly when the single query succeeds for it, with the same values; a refused journal refuses the batch. |
| FeatureStore.RefusedJournalRefusesEveryChannel | ml/outputs/ml-service/feature_store.py:93-99 | When the journal check fails, every single query fails, on the same ground if the journal is too short or stale. |
| FeatureStore.FeaturesIff | ml/outputs/ml-service/feature_store.py:127-147 | A channel has features exactly under a condition on journal rows and known gaps: 30 days of journal, at most an hour stale, a recent and a day-old record, no alarm in 900 s, no gap in the last day. |
| FeatureStore.RefusalsSayWhy | ml/outputs/ml-service/feature_store.py:127-147 | A query that fails names the first of those conditions that does not hold, each said about journal rows. |
| FeatureStore.FeaturesCountGeneratedStarts | ml/outputs/ml-service/feature_store.py:137-147 | Features that are handed out carry the start counts of the generated episodes. |
| ClassHistory.ServingMatchesTheFullList | ml/outputs/ml-service/object_predictor.py:60-68 | The serving row from 30 days of starts and the seen flag is the row of the full list: counts for 24, 168 and 720 h, capped age, missing in the same cases. |
| ClassHistory.ServingStartsAreTheWindow | ml/outputs/ml-service/feature_store.py:53-59 | The windowed class query returns exactly the starts of the last 30 days, per channel of the object. |
| ClassHistory.SeenIff | ml/outputs/ml-service/feature_store.py:116-121 | The seen flag holds exactly if some class start is not after the moment. |
| ClassHistory.CountsAreOfTheHours | ml/outputs/ml-baseline-v2/explore_v8.py:67 | The three counts are of the starts in the last 24, 168 and 720 hours, the moment included. |
| ClassHistory.AgeIsHoursSinceTheLastStart | ml/outputs/ml-baseline-v2/explore_v8.py:68-72 | The age is missing exactly without a start by the moment; otherwise it is the hours since the last one, but 720 from 720 hours on. |
| ClassHistory.TrainingRowIsMeaning | ml/outputs/ml-baseline-v2/explore_v8.py:62-73 | Within the packing bounds the searched training row is the row of the object's own starts. |
| ClassHistory.ServingAgreesWithTraining | ml/outputs/ml-baseline-v2/explore_v8.py:62-73 | Serving and training give the same row whenever the training table holds the object's class starts. |
| PackedKeys.KeysEmbedTheOrder | ml/outputs/ml-baseline-v2/explore_v7.py:18-19 | For codes below 2^15 and offsets in [0, 2^48), keys are ordered by code and moment and are distinct, including 64-bit wrap-around. |
| PackedKeys.KeysEmbedTheOrderIff | ml/outputs/ml-baseline-v2/explore_v7.py:18-19 | The keys of a number of codes over a span of time embed the order exactly if there are at most 2^15 codes and 2^48 microseconds, or one code and 2^63, or nothing to pack. |
| PackedKeys.ForeignStartIsCountedIff | ml/outputs/ml-baseline-v2/explore_v7.py:29-30 | A start of another channel is counted exactly when it lies in the window moved by the code distance times 2^48 microseconds. |
| PackedKeys.OwnStartIsCountedIff | ml/outputs/ml-baseline-v2/explore_v7.py:29-30 | While a start lies within 2^48 microseconds of both ends of the window, it is counted exactly if it is of the channel itself and in the window. |
| PackedKeys.CodesIdentifyNames | ml/outputs/ml-baseline-v2/explore_v7.py:24-25 | Positions among the sorted distinct names identify the names. |
| PackedKeys.SearchesFindTheWindow | ml/outputs/ml-baseline-v2/explore_v7.py:26-31 | The two searches differ exactly when a selected start of that channel lies in the horizon. |
| PackedKeys.HorizonLabels | ml/outputs/ml-baseline-v2/explore_v7.py:22-33 | Each label is missing if an unobserved start falls in the horizon, else says whether an observed one does. |
| Thresholds.CutIsConfusion | ml/outputs/ml-baseline-v2/exp_metrics_core.py:4-13 | Every entry of the sweep equals the direct confusion at its threshold, tied scores included. |
| Thresholds.CurveDescends | ml/outputs/ml-baseline-v2/exp_metrics_core.py:9-13 | Thresholds fall strictly. |
| Thresholds.EveryThresholdIsACut | ml/outputs/ml-baseline-v2/exp_metrics_core.py:4-13 | Every real threshold that predicts something acts like one of the entries. |
| Thresholds.ConfusionSplitsTheRows | ml/outputs/ml-baseline-v2/exp_metrics_core.py:24-30 | The four counts split the rows. |
| Thresholds.MetricsAreQuotients | ml/outputs/ml-baseline-v2/exp_metrics_core.py:31-33 | Precision, recall and F1 times their denominators are their numerators, and they are zero without a denominator. |
| Thresholds.F1IsHarmonic | ml/outputs/ml-baseline-v2/exp_metrics_core.py:31-33 | F1 is the harmonic mean of precision and recall. |
| Thresholds.MaxF1IsOptimal | ml/outputs/ml-baseline-v2/exp_metrics_core.py:16-21 | No real threshold has a better F1, and every higher one that predicts something is strictly worse. |
| Thresholds.MaxF1IsOptimalByCounts | ml/outputs/ml-baseline-v2/exp_metrics_core.py:16-21 | By cross-multiplied counts of the rows, no threshold has a better F1; the value is the quotient of the counts at the chosen one. |
| Thresholds.PrecisionAtRecallExistsIff | ml/outputs/ml-baseline-v2/explore_v7.py:36-41 | A choice exists exactly when there are positives and the target is at most one. |
| Thresholds.PrecisionAtRecallIsBest | ml/outputs/ml-baseline-v2/explore_v7.py:36-41 | The choice has the best precision over all thresholds reaching the recall, at the highest such cut. |
| Thresholds.PrecisionAtRecallIsBestByCounts | ml/outputs/ml-baseline-v2/explore_v7.py:36-41 | By counts, the choice finds its share of the positives, and no threshold that does is more precise. |
| Thresholds.PrecisionThresholdIsBest | ml/outputs/ml-baseline-v2/explore_v11.py:68-72 | The threshold exists in the same cases, and no threshold that reaches the recall is more precise; higher ones are strictly less. |
| Thresholds.MarginIsOptimal | ml/outputs/ml-baseline-v2/explore_v8.py:86-90 | No real threshold has a better margin, and higher ones are strictly worse. |
| Thresholds.MarginDecidesQualification | ml/outputs/ml-baseline-v2/explore_v8.py:86-100 | The margin is not negative exactly if some threshold reaches precision 0.7 and recall 0.5 together. |
| Thresholds.MarginQualifiesByCounts | ml/outputs/ml-baseline-v2/explore_v8.py:86-100 | By counts: the margin is not negative exactly if some threshold has seven of ten predictions right and finds half of the positives. |
| Thresholds.MarginIsTheSmallerSlack | ml/outputs/ml-baseline-v2/explore_v8.py:88-90 | The margin is the smaller of the two slacks of the chosen cut. |
| Thresholds.NoPositivesTakeTheTop | ml/outputs/ml-baseline-v2/explore_v8.py:87-90 | Without positives there is no margin, and the cut is the highest score. |
| Thresholds.RecallAtPrecisionIsBest | ml/outputs/ml-baseline-v2/exp_metrics_core.py:37-42 | No threshold with enough precision has a better recall than the result. |
| Thresholds.RecallAtPrecisionIsAttained | ml/outputs/ml-baseline-v2/exp_metrics_core.py:37-42 | The result is attained by such a threshold, or is zero because there is none. |
| Thresholds.RecallAtPrecisionByCounts | ml/outputs/ml-baseline-v2/exp_metrics_core.py:37-42 | By counts: some precise threshold finds exactly the returned share of the positives, and no precise one finds more. |
| Rhythm.RhythmFeatures | ml/outputs/ml-baseline-v2/explore_v11.py:28-53 | Every row has the active-day counts, the streak, the same-weekday sum, and, when the packing bounds hold, the counts of its own starts. |
| Rhythm.BuildGrid | ml/outputs/ml-baseline-v2/explore_v11.py:38-43 | Each cell counts the starts of that code on that day. |
| Rhythm.Cumulate | ml/outputs/ml-baseline-v2/explore_v11.py:44-45 | Prefix sums count the active days before a column. |
| Rhythm.Streaks | ml/outputs/ml-baseline-v2/explore_v11.py:48-50 | The recurrence is the longest active run ending the day before. |
| Rhythm.GridHoldsEverything | ml/outputs/ml-baseline-v2/explore_v11.py:40-46 | Every start and query lies on the grid with at least 400 days before it, so no index leaves it. |
| Rhythm.ReadGridIsRight | ml/outputs/ml-baseline-v2/explore_v11.py:46-52 | Prefix-sum differences, streak and four weekly cells read for a query are the active days, run and weekday starts they stand for. |
| Rhythm.StreakReachesIff | ml/outputs/ml-baseline-v2/explore_v11.py:47-51 | A streak of at least w holds exactly if all w days before are active, that is, if the active-day count is w. |
| Rhythm.DayHoldsItsStart | ml/outputs/ml-baseline-v2/explore_v11.py:38 | Each start lies within its day, also before 1970. |
| Rhythm.CountRowIsRight | ml/outputs/ml-baseline-v2/explore_v11.py:32-37 | The four search columns count the object's own starts in their windows. |
| Rolling.GroupsSplitTheRows | ml/outputs/ml-pumps/pumps_v5_features.py:26 | Two rows share a group exactly if they are the same row or of the same trajectory. |
| Rolling.HistoryIsOwn | ml/outputs/ml-pumps/pumps_v5_features.py:25-28 | What the grouped columns look back on is the trajectory so far, or, outside trajectories, the row alone at position 0. |
| Rolling.RollingSumIsExactIff | ml/outputs/ml-pumps/pumps_v5_features.py:31-35 | The prefix-sum difference is the group's window sum for every series exactly when each full row window stays in one group. |
| Rolling.SortedTrajectoriesAreUnbroken | ml/outputs/ml-pumps/pumps_v5_features.py:25-28 | Sorting by trajectory guarantees that layout. |
| Rolling.RollingMeanIsPaddedMean | ml/outputs/ml-pumps/pumps_v5_features.py:38-40 | The rolling mean is the mean of the window left-padded with the profile. |
| Rolling.RollingSlopeIsFittedSlope | ml/outputs/ml-pumps/pumps_v5_features.py:43-52 | The closed forms compute the ordinary least-squares slope of the padded window. |
| Rolling.FittedLineIsLeastSquares | ml/outputs/ml-pumps/pumps_v5_features.py:43-52 | That line has the least squared error, and is the only one. |
| Rolling.DenominatorIsPositive | ml/outputs/ml-pumps/pumps_v5_features.py:50-52 | The slope's denominator is positive for windows of two or more. |
| Rolling.FrameMean | ml/outputs/ml-pumps/pumps_v5_features.py:66-78 | In a frame sorted by trajectory, each mean is that of the own history of its row behind the profile. |
| Rolling.FrameSlope | ml/outputs/ml-pumps/pumps_v5_features.py:66-82 | In such a frame, each slope belongs to the one line with the least squared error on that window. |
| Rolling.OnsetAgeIsMissingIff | ml/outputs/ml-pumps/pumps_v5_features.py:55-58 | The age is -1 exactly while the trajectory has had no abnormal sample. |
| Rolling.OnsetAgeCountsTheRowsSince | ml/outputs/ml-pumps/pumps_v5_features.py:55-58 | From the first abnormal sample on, the age counts the trajectory's rows since it. |
| Rolling.FrameOnsetAge | ml/outputs/ml-pumps/pumps_v5_features.py:55-58 | From the trajectory column: outside trajectories the age is 0 or missing by the row itself; inside it counts the rows of the trajectory after its first abnormal one. |
| Rolling.AbnormalIff | ml/outputs/ml-pumps/pumps_v5_features.py:56 | A row is abnormal exactly if some signal lies outside the band of four noise units around its profile. |
| Trajectories.CountOpen | ml/outputs/ml-pumps/pumps_data.py:70-75 | The backward loop counts the trajectories that must be open at each step. |
| Trajectories.StepHoldsItsRow | ml/outputs/ml-pumps/pumps_data.py:29 | Each row lies within its five-minute step, also before the origin. |
| Trajectories.ExtraRowsOf | ml/outputs/ml-pumps/pumps_data.py:69-86 | It succeeds exactly if every step has its rows or one unlabelled row more, and returns exactly those; otherwise it names the first step whose count is off, or, if all counts are right, the first whose extra row is labelled. |
| Trajectories.MatchPump | ml/outputs/ml-pumps/pumps_data.py:44-57 | The matching loop never finds rows and open trajectories different, covers every kept row once, and fails exactly if a row of the last step has no label. |
| Trajectories.KeptMatchesOpen | ml/outputs/ml-pumps/pumps_data.py:45-54 | After dropping the extra rows every step has exactly as many rows as open trajectories. |
| Trajectories.ChecksFollowFromMatching | ml/outputs/ml-pumps/pumps_data.py:59-64 | Size, last step and label count of each trajectory follow from the matching, so those checks cannot fail. |
| Trajectories.Reconstruct | ml/outputs/ml-pumps/pumps_data.py:28-66 | It succeeds exactly on tables with no negative step, balanced pumps, extra rows absent or allowed, every row of step 287 labelled, every other label of the window at step 11 or 95, and none outside; then every kept in-window row is in exactly one trajectory of one pump, with gap-free steps, allowed length and one label on its last row; otherwise the reason is the fault of the table. |
| Trajectories.FaultIsUnique | ml/outputs/ml-pumps/pumps_data.py:36-65 | A table has at most one fault: the first of its first faulty pump, with its step, then the lengths, then labels outside the window; and a table with a fault is not one that succeeds. |
| Trajectories.LengthsAreTheLabels | ml/outputs/ml-pumps/pumps_data.py:59-62 | The length check passes exactly if each labelled row of the window is at the last step of an allowed length. |
| Replay.ReplayEngine.TickOnce | src/services/replay_engine.py:87-149 | The new state row and the added readings are the pure step that the run theorems are about, and the result is the number added. |
| Replay.StepAddsFreshCopies | src/services/replay_engine.py:130-149 | A tick keeps every row and adds only copies of historical readings, with their payload, its moment, its number and new ids. |
| Replay.NoHistoryNoTick | src/services/replay_engine.py:83-85 | Without a historical reading a tick does nothing. |
| Replay.ReplayEngine.WindowBounds | src/services/replay_engine.py:24-41 | The bounds are the least and greatest historical times, or nothing. |
| Replay.BoundsAreTight | src/services/replay_engine.py:34-41 | Both bounds are times of historical readings and all lie between. |
| Replay.TickIsExactIff | src/services/replay_engine.py:95-128 | A tick replays each offset as often as the clock passes it exactly if the overshoot is below one span. |
| Replay.CursorStaysInsideIff | src/services/replay_engine.py:93-128 | The cursor stays in the window on every tick exactly if the window is not one instant. |
| Replay.RunFollowsTheClock | src/services/replay_engine.py:87-149 | On every run of such ticks the state is the virtual clock and each reading was replayed once per pass, offset zero once per wrap. |
| Replay.VirtualTimeIsWallTime | src/services/replay_engine.py:88-92 | At one speed and with the wall clock not going back, the virtual clock has moved by the speed times the wall-clock time of the run, up to half a microsecond per tick. |
| Replay.WholeSpeedIsExact | src/services/replay_engine.py:88-92 | At a whole speed that is exact. |
| Replay.ReplaysFollowTheWallClock | src/services/replay_engine.py:87-149 | So at a whole speed each reading has been replayed once for every time a clock at that speed since the wall-clock start has passed it. |
| Replay.ReplaysAreNearTheWallClock | src/services/replay_engine.py:87-149 | At any speed the replays lie between those of two clocks half a microsecond per tick apart from it. |
| Replay.BackwardsClockStands | src/services/replay_engine.py:91 | When the wall clock has gone back, the virtual clock stands still. |
| Replay.ReplaysDependOnTotalTimeOnly | src/services/replay_engine.py:87-149 | Two runs with the same total virtual time replay each reading equally often and end at the same cursor. |
| Replay.RunKeepsHistory | src/services/replay_engine.py:130-143 | Ticks never change the historical readings or the window. |
| LoginThrottle.KeyUnlocksAt | src/services/login_throttle.py:43-61 | One key's unlock time exists exactly at its limit and is the moment its count falls below. |
| LoginThrottle.WaitIsExact | src/services/login_throttle.py:64-101 | None exactly if no limit is reached; otherwise every earlier moment is locked, the unlock time is not, and the answer is the wait rounded up. |
| LoginThrottle.LoginThrottle.WaitFor | src/services/login_throttle.py:84-101 | The method computes that answer from its table. |
| LoginThrottle.LoginThrottle.RecordFailure | src/services/login_throttle.py:121-125 | Purges rows outside the window and stores one failure. |
| LoginThrottle.LoginThrottle.ClearUsernameFailures | src/services/login_throttle.py:138-139 | Keeps exactly the rows of other usernames. |
| LoginThrottle.LoginThrottle.TryLogin | src/api/auth.py:45-65 | A refused attempt changes nothing, the others record or clear, in the order of the login endpoint. |
| LoginThrottle.WrongPasswordCounts | src/api/auth.py:58-61 | A wrong password that is not refused raises the counts of its username and of its known address by one, and no other. |
| LoginThrottle.RightPasswordClears | src/api/auth.py:63 | A right one that is not refused zeroes its username and leaves the other usernames. |
| LoginThrottle.RunKeepsLimits | src/api/auth.py:45-65 | On every run with time not going back, no username or known address exceeds its limit in the window. |
| LoginThrottle.LimitsHoldFromTheStart | src/api/auth.py:45-65 | From an empty table on, each count in the window is at most its limit at the last attempt and ever after. |
| LoginThrottle.RunHolds | src/services/login_throttle.py:121-139 | After any run, what the table holds of the window is exactly the attempts that failed on their password and whose username has not logged in since. |
| LoginThrottle.AnswerFollowsFromTheHistory | src/api/auth.py:45-65 | Every answer follows from the attempts and answers before it: refused exactly if those still held against its username or its known address use up the limit, otherwise by the password. |
| LoginThrottle.WrongPasswordsLock | src/services/login_throttle.py:43-61 | As many uncleared wrong passwords of one username or address in one window as its limit make the next attempt refused. |
| LoginThrottle.PurgeIsInvisible | src/services/login_throttle.py:123 | A run with the purge and one without give the same outcomes. |
| LoginThrottle.ClearKeepsOtherUsernames | src/services/login_throttle.py:138 | Clearing zeroes one username and leaves the others' counts. |
| LoginThrottle.ClearKeepsIpCountIff | src/services/login_throttle.py:128-139 | The address count survives exactly if none of its failures in the window carry the cleared username. |
| LoginThrottle.ClearForgetsTheAddress | src/services/login_throttle.py:131-138 | One failure and one success take an address back to zero. |
| EventIds.IdsEmbedTheOrder | src/services/event_sync.py:72 | Below 10^12 event ids are ordered like reading ids and distinct. |
| EventIds.IdsAreOrderedIff | src/services/event_sync.py:72 | The ids up to a last reading are in string order exactly if it is below 10^12. |
| EventSync.EventJournal.SyncEvents | src/services/event_sync.py:52-96 | Whatever the batch size, the pending joined readings become events in order, the cursor moves to the last, and the count is theirs. |
| EventSync.EventJournal.SyncBatch | src/services/event_sync.py:53-91 | One batch takes at most that many pending readings. |
| EventSync.EventIsOfItsReading | src/services/event_sync.py:69-86 | The event of a joined reading carries its id, time and value, a channel of its name, and a fault exactly if it is corrupted. |
| EventSync.SyncedReading | src/services/event_sync.py:52-96 | With all channels known, a sync leaves one event for every notable reading and none for the others. |
| EventSync.SyncTakesIff | src/services/event_sync.py:54-63 | For any journal and channel table, a sync gives a reading one more event exactly if it is notable, ahead of the cursor and of a known channel. |
| EventSync.SyncPassesIff | src/services/event_sync.py:54-91 | Of the notable readings ahead of the cursor, a sync passes exactly those it takes and those of an unknown channel with a taken reading behind them. |
| RiskSync.RiskRegister.SyncRisks | src/services/risk_sync.py:61-202 | After syncing events, batches are evaluated until none is pending; events, risks, calls, counters and cursor are those of the pure fold, with one risk per alerting call, linked to the events it named. |
| RiskSync.RiskRegister.EvaluateGroup | src/services/risk_sync.py:103-186 | A group is missing its channel, skipped by a failing predictor, without alert, or becomes one risk linked to exactly the events its call names. |
| RiskSync.GroupBySensor | src/services/risk_sync.py:99-101 | The dictionary holds each sensor's events of the batch in order. |
| RiskSync.WindowSpansTheGroup | src/services/risk_sync.py:115-116 | The window sent to the predictor is the longest time between two events of the group, at least an hour. |
| RiskSync.StatesAddUp | src/services/risk_sync.py:113-114 | The alarm and anomaly counts of a group add up to its events. |
| RiskSync.SyncAccountsForEveryGroup | src/services/risk_sync.py:83-202 | Groups seen are created plus skipped plus without alert plus without channel; new risks and calls match the counters. |
| RiskSync.SyncAsksEachEventOnce | src/services/risk_sync.py:87-192 | In a sync each pending event whose channel exists reaches the predictor exactly once, and no other event does. |
| RiskSync.BatchCallsAreTheGroups | src/services/risk_sync.py:98-131 | The calls of a batch are about different sensors, and each names all events of its sensor in the batch and no other. |
| RiskSync.CallCountsTheReadings | src/services/risk_sync.py:113-131 | A call counts the corrupted readings behind its events as anomalies and the others as alarms. |
| RiskSync.RiskTypes | src/services/risk_sync.py:39-58 | Each of three systems has its own risk type; every other system is a sensor failure. |
| RiskSync.SyncCreatesTheAlertedRisks | src/services/risk_sync.py:155-182 | The risks a sync adds are exactly those of its alerting calls, in order, with their sensor, type and facility. |
| RiskSync.SyncLinksTheAlertedEvents | src/services/risk_sync.py:184-186 | Over a whole sync, an event that a call names has the risk of that call if it alerted, and every other event keeps what it had. |
| RiskSync.BatchesKeepRegister | src/services/risk_sync.py:87-192 | A sync leaves nothing behind the cursor, adds links only, and keeps the register in order. |
| RiskSync.NoReadingHasTwoEvents | src/services/event_sync.py:52-96 | On every interleaving of inserts, catalogue changes and syncs no reading has two events. |
| RiskSync.NoEventIsAskedTwice | src/services/risk_sync.py:87-192 | On every such run no event reaches the predictor twice. |
| RiskSync.LinkedEventsHaveTheirRisk | src/services/risk_sync.py:155-186 | On every such run a linked event has one existing risk, of its own sensor. |
| RiskSync.NoRiskWithoutAnEvent | src/services/risk_sync.py:155-186 | On every such run every risk has an event that is linked to it. |
| RiskSync.EventsReportTheirReadings | src/services/event_sync.py:69-86 | On every such run every event reports a notable reading: its time, its value, and a fault exactly if it was corrupted. |
| RiskSync.EveryNotableReadingBecomesOneEvent | src/services/risk_sync.py:75 | If every notable reading comes with its channel in the catalogue and channels stay, then after any interleaving, new channels included, the next sync leaves one event per notable reading and none for the others. |
| RiskSync.KnownRunIsSound | src/services/event_sync.py:52-96 | With a fixed catalogue that knows every channel, on every run the k-th event is that of the k-th notable reading up to the cursor, with its fields. |
| RiskSync.ReadingHasEventIff | src/services/event_sync.py:54-91 | On every interleaving with arbitrary catalogue changes, a reading has an event, and then one, exactly if some sync ran while it was notable, ahead of the cursor and of a known channel. |
| RiskSync.ReadingIsLostIff | src/services/event_sync.py:54-91 | On every such run, a notable reading lies behind the cursor without an event exactly if some sync found its channel unknown and took a later reading. |
| RiskSync.PassedReadingsGainNothing | src/services/event_sync.py:54-63 | Whatever follows, catalogue changes included, a reading behind the cursor gains no event. |
| RiskSync.LateChannelLosesTheReading | src/services/event_sync.py:54-63 | A reading that a sync has lost has no event after any continuation of the run. |
| ObjectRisk.RiskDesk.SyncObjectRisks | src/services/object_risk_sync.py:192-248 | Either all additions of both targets are committed and counted, or the committed table is unchanged. |
| ObjectRisk.IncidentRiskType | src/services/object_risk_sync.py:72-89 | The first suspect channel that is recognised decides; otherwise the default. |
| ObjectRisk.TypeOfIff | src/services/object_risk_sync.py:83-88 | Pump and flood sensors mean flooding, others what their engineering system stands for, the rest nothing. |
| ObjectRisk.SyncKeepsSingle | src/services/object_risk_sync.py:128-140 | A committed sync leaves at most one open unfinished risk per facility and model, however often a facility is listed. |
| ObjectRisk.RowAddsIff | src/services/object_risk_sync.py:197-205 | A row adds a risk exactly if it alerts, its facility is known, and no open unfinished risk of facility and model blocks it; a malformed alerting row fails. |
| ObjectRisk.SyncFailsIff | src/services/object_risk_sync.py:194-199 | A sync fails exactly if an answer cannot be used or has a malformed alerting row. |
| ObjectRisk.SyncTakesEffect | src/services/object_risk_sync.py:192-248 | After any run, a sync that does not fail covers every known facility with an alert and removes nothing; one that fails changes no risk. |
| ObjectRisk.AlertedFacilitiesAreCovered | src/services/object_risk_sync.py:197-205 | Once a map was read without fault, every known facility with an alert in it has an open unfinished risk of that model. |
| ObjectRisk.NewRisksComeFromAlerts | src/services/object_risk_sync.py:197-245 | Every added risk is open, at version 1, ends one horizon from now, belongs to a known facility with an alert of that model, and has the type of its target or of the first suspect that says anything. |
| ObjectRisk.RiskDesk.ApplyDecision | src/services/risk_decision.py:48-71 | Applied exactly if the expected version is current; then status, version and journal advance together, otherwise nothing changes. |
| ObjectRisk.DecisionTakesEffect | src/services/risk_decision.py:48-71 | After any run, a decision at the current version changes status, version and time of that risk only and is journalled; a stale one changes nothing. |
| ObjectRisk.RunKeepsDesk | src/services/risk_decision.py:56-70 | On every run at most one open unfinished risk per facility and model, and each risk's version is one plus its journal entries, its status and time those of the last of them. |
| ObjectRisk.AppliedVersionIsGone | src/services/risk_decision.py:48-57 | Once a decision was applied at a version, no later decision expecting it is applied. |
| Paging.CrawlListsEverythingOnce | src/services/event_query.py:67-79 | Following the cursor ends, and lists every event that matched at the start once, newest first, though rows with larger ids may be appended between pages. |
| Paging.PageBehind | src/services/event_query.py:67-78 | A page behind a row is the next stretch of the first matches, and its cursor names the last shown row. |
| Paging.TotalCountsTheMatches | src/services/event_query.py:65 | The total is the number of matching rows, wherever the cursor is and whatever the limit. |
| Paging.FiltersSelect | src/services/event_query.py:51-63 | Each filter selects by its own column, the time bounds included, and a scope excludes rows without a facility. |
| Paging.FiltersCombine | src/services/event_query.py:51-63 | A query selects what each of its filters selects. |
| Paging.SyncAppends | src/services/event_sync.py:69-89 | A sync of events only appends to the listing. |
| Paging.RunAppends | src/services/risk_sync.py:75-192 | On every run of inserts, catalogue changes and both syncs the listing is in id order, and further steps only append to it. |
| Paging.ServiceCrawlListsEverythingOnce | src/services/event_query.py:67-79 | A client that follows the cursor while such a run goes on gets every event that matched at its start once, newest first. |
| Paging.FindStart | src/services/sensor_query.py:85-93 | The position after the cursor, the beginning without one, the end if it is not listed. |
| Paging.ListSensors | src/services/sensor_query.py:82-95 | On an id-ordered list a slice page equals the keyset page; a cursor that is not listed gives an empty page. |
| Paging.LostCursorAgreesIff | src/services/sensor_query.py:86-92 | For a lost cursor the two pages agree exactly when nothing lies ahead of it. |
| Hierarchy.Tree | src/services/hierarchy_query.py:7-21 | The query ends, returns exactly the nodes below the facility's roots, each once, parents first, whatever cycles exist elsewhere. |
| Hierarchy.ChildrenCount | src/services/hierarchy_query.py:36-40 | The loop counts each row's children among the rows. |
| Hierarchy.ChildCountsAddUp | src/services/hierarchy_query.py:37-40 | In whatever order the tree's rows come, the counts sum to the rows that are not roots. |
| Hierarchy.Path | src/services/hierarchy_query.py:42-48 | In whatever order the tree's rows come, the walk finds every parent among them, ends, and returns the lineage of the node: from a row without a parent down to the node, each the parent of the next. |
| Hierarchy.LineageOfChild | src/services/hierarchy_query.py:42-48 | A path is the parent's path and the node, and nothing else. |
| Hierarchy.LineageIsUnique | src/services/hierarchy_query.py:42-48 | A node has one lineage, so the walk cannot return anything else. |
| Hierarchy.PathLengthIsDepth | src/services/layout.py:35 | A path is one longer than the node's depth in the query, and begins at a root of the facility. |
| Hierarchy.ClimbPath | src/services/sensor_query.py:100-110 | If no ancestor repeats, the climb over the whole table returns the lineage of the node, and nothing for an id without a row. |
| Hierarchy.ClimbEndsIff | src/services/sensor_query.py:106-108 | For every table and start the climb ends exactly if it has ended after one step per row, which is exactly if no ancestor repeats. |
| Hierarchy.LineageExistsIff | src/services/sensor_query.py:104-110 | A start has a lineage at all exactly if no ancestor repeats, so the climb is asked for nothing more than that its answer exists. |
| Hierarchy.CycleHasNoEnd | src/services/sensor_query.py:106-108 | From any node with a repeated ancestor, that is, on or below any cycle of parents, every further step is taken. |
| Hierarchy.TreePathIsTheClimb | src/services/sensor_query.py:100-110 | Below a facility's roots the climb over the whole table ends, and gives the path that the hierarchy query gives. |
| Hierarchy.Layout | src/services/layout.py:32-54 | Each node's column is the number of earlier nodes of its depth. |
| Hierarchy.PointsAreDistinct | src/services/layout.py:34-43 | No two nodes share a point. |
| Hierarchy.ColumnsAreFilled | src/services/layout.py:34-43 | The columns of a depth are 0 to n-1. |
| Series.BuildCategorical | src/services/sensor_series_query.py:105-124 | The intervals are the maximal runs, with first time, last time, value and last state. |
| Series.RunsAreRuns | src/services/sensor_series_query.py:107-123 | The runs are non-empty, of one value, differ from their neighbours and concatenate to the readings. |
| Series.RunsAreUnique | src/services/sensor_series_query.py:107-123 | No other division of the readings has these properties. |
| Series.BuildNumeric | src/services/sensor_series_query.py:73-102 | Without a width one point per reading; with one the sorted bucket means; a width of zero fails exactly if a reading has a value. |
| Series.BucketHoldsItsReadingIff | src/services/sensor_series_query.py:67-70 | A bucket holds its reading except before 1970 where the cut-off of the fraction crosses a border. |
| Series.PointsAscend | src/services/sensor_series_query.py:98-101 | The bucket times ascend strictly. |
| Series.PointsAreTheBucketMeans | src/services/sensor_series_query.py:91-101 | Each point is the mean of exactly the valued readings of its bucket, and every valued reading has the point of its bucket. |
| Series.BucketsConserve | src/services/sensor_series_query.py:91-101 | Bucket counts add up to the valued readings, and count-weighted means to their total. |
| Series.GapsAreExactlyThose | src/services/sensor_series_query.py:74-77 | The missing intervals are exactly the neighbours more than an hour apart. |

## Left out

- Floating point: means, slopes, ratios and ages are exact reals; rounding, and equality of floats after rounding, is not modelled.
- HorizonLabels: the meaning is promised for at most 2^15 names and moments from 2018 until early December 2026; outside, PackedKeys.ForeignStartIsCountedIff says what is counted instead.
- ServingAgreesWithTraining: holds under the packing bounds of the training keys; the table of starts is not empty, as the source needs.
- MaxF1IsOptimal: labels are 0 or 1, and there is at least one row, because the source fails on an empty sweep.
- FeaturesMany: time-zone conversion of the moment, the parquet reader and the engine's query planning are not modelled; an empty journal stands for the type error it causes.
- AbnormalIff: noise is positive; a channel of zero noise gives infinite or undefined deviations.
- Reconstruct: a negative step stands for the plain value error of the counting call; the values of the sensor columns, and the counts and step lists printed in error messages, are not carried.
- SyncRisks: random risk ids are fresh numbers, levels, SLA and texts of a risk are not carried, and predictor errors other than the declared one are not modelled.
- NoEventIsAskedTwice: reading ids are below 10^12, which the 32-bit id column guarantees.
- CrawlListsEverythingOnce: rows are appended and not changed or deleted between pages, which Paging.RunAppends shows for the modelled service; the link column of an event is not part of the listing.
- ClimbPath: asked only for starts without a repeated ancestor, because the source does not end on the others (Hierarchy.ClimbEndsIff).
- EveryNotableReadingBecomesOneEvent: asks that a channel is in the catalogue before its first notable reading; the writers do that (`event_etl.py` adds a missing channel in the session of its first reading, scenarios and replay only use known ones, and no channel is deleted), so the losing runs of RiskSync.ReadingIsLostIff are outside what they produce.
- TryLogin: check, password and recording are one step; interleaving of two requests between them is not modelled.
- RunKeepsDesk: one service call is one step; two sessions that read before either commits are not modelled.
- Bulk features without branching: `window_change`, `lagged`, `split`, `share_labels`, `object_labels`, `aggregate` would only add easy members.
- Text and card plumbing: verdicts, recommendations, blind spots, malformed optional texts, `parse_granularity_seconds`.
- HTTP, sessions and transactions beyond commit and rollback, password hashing, model training and calibration, file readers and writers.
