# aqua-bridge: a verified model of its control core

aqua-bridge reads temperature sensors and fan tachometers, estimates the temperature of every
drive bay, decides which bays are occupied and which drive sits where, learns the fans' curves,
and keeps what it has learned in a file that has to survive power cuts. This project models the
parts of it whose correctness is an argument over many steps, and proves that argument for every
input and every run:

- the zone filter (`LinearAlgebra`, `ZoneFilter`, `FilterRuns`, `FilterLaws`): Joseph-form updates in
  place on a mean and a covariance of any size, what every step does to each direction of the state,
  and the runs made of them;
- the two two-parameter recursive least-squares fits (`TwoParamRls`, `Calibration`, `Acceptance`,
  `PlacementMap`): drive calibration, when it is accepted, and the placement difference of a further
  sensor;
- the bay record (`BaySettling`, `SwapEvents`, `SharedBudget`, `OccupancyMachine`, `BayRecord`): the
  settling exemption and its budget, the limit on swap events, the two together, the occupancy
  machine;
- serial-to-bay association (`Associate`, `AssociationLife`, `AssociationLaws`, `SeriesWindow`): the
  greedy matcher, the life of a pair, what each tick does to it, the sliding series behind the scores;
- the fan curve fit and the drift rules (`FanCurve`, `FanHealth`, `FanFaults`);
- persistence (`AtomicWrite`, `Persister`, `CalibrationAge`, `Recorder`);
- tools (`ShardScheduler`, `MountTable`, `SampleChunks`, `AirRollout`, `HeatBalance`, `RefineAir`,
  `ZoneError`, `ZoneInterference`).

`Marks`, `RealAlgebra`, `Strings` and `Wrappers` are helpers. Check the project with `dafny verify dfyconfig.toml`
(Dafny 4.11).

## How the model is made

Numbers are exact reals. An object whose fields the program updates is a class, a loop is a loop,
and each such method is proved equal to a specification function, about which the properties are
lemmas. A run is a sequence of inputs (ticks, commands, lines, calls), and statements about runs
hold for all of them. Times, sensor readings, system-call outcomes and clock values are inputs.

The configuration checks of the program are taken as given where they are needed: a positive
margin, `bay_settle_s <= bay_settle_max_s`, positive row and sensor variances, declared serials
that are distinct, slope bounds on a placement box, zone names that are distinct and groups with a
positive prior. The airflow function of a fan (`phi`) is any function; only the lemmas about fans on
their curve or off it ask that it be monotone in the duty, and the one about the least curve of the whole
grid that it be nowhere negative; the expected power is not negative and does not fall with the duty,
and where its tolerance is above 1 a power reading is not negative.

Six places where the code and its documentation differ, or where a promise needs a condition:

- The documentation gives the settling exemption of a bay `bay_settle_s` per window and
  `bay_settle_max_s` in total (`src/aqua_bridge/control/estimator.py:217`, `:295`). The code caps
  only the amount it records. A window opened just before the budget runs out stays open, so the
  time really exempted can be larger. `BaySettling.BudgetAloneIsNoBound` is an example,
  `BaySettling.WithinBudgetExactly` says when the total holds (no tick is charged more than the
  budget has left), and `BaySettling.ExemptionBound` is the bound the code does keep.
- `write_atomic` promises that a failure leaves the previous file untouched
  (`src/aqua_bridge/modelstore.py:566-569`). A failing close of the directory handle is reported
  after the rename has gone through (`AtomicWrite.FailureMayReplace`). `AtomicWrite.WriteAtomic`
  states both conditions exactly: the file is replaced if and only if every call up to the rename
  succeeds, and an error is returned if and only if one of those fails or that close does.
- A successful `write_atomic` does not mean that the new bytes survive a crash: the directory
  synchronisation may have failed silently. `AtomicWrite.WriteAtomic` says when they do.
- A calibration the program has written can be dropped when it is read back: the loader refuses an
  offset outside its bounds (`src/aqua_bridge/control/estimator.py:2812`), and the update bounds the
  slope but not the offset (`:1361`). `CalibrationAge.OwnEntryComesBack` says exactly which entries
  come back, `CalibrationAge.OwnEntryDropped` is an example.
- The report of the air refinement compares each zone's rollout error before and after that zone's
  own turn (`tools/fit_model.py:262-288`), which never rises (`RefineAir.RefineZone`). The table it
  returns can still be worse for a zone refined earlier. A parameter's name is built from its zone's
  name and a dot, and zone names may contain dots (`src/aqua_bridge/control/thermal.py:683-723`), so
  two zones can share a parameter: zone "a" with group "b.c" and zone "a.b" with group "c"
  (`ZoneInterference.DottedNamesInterfere`). No zone ends up worse, from any table and any
  recordings, exactly when no zone's rollouts read a parameter that another zone's refinement may
  change (`ZoneInterference.SafeExactly`), and for every choice of groups and couplings exactly when
  no zone's name is another's followed by a dot (`ZoneInterference.SafeNamesExactly`).
- The two readers of the mount table name the same mount point for a path, but of two entries for
  it one takes the last and the other the first (`MountTable.ReadersAgree`).

## Model

| member | source | states |
|---|---|---|
| ZoneFilter.JosephIsDowndate | src/aqua_bridge/control/estimator.py:872-884 | for every gain, symmetric covariance and row, the symmetrised Joseph form is the rank-one downdate |
| ZoneFilter.ScalarUpdate | src/aqua_bridge/control/estimator.py:872-884 | the in-place scalar update leaves exactly the mean and covariance of fusing a reading of state i, on arrays of any size |
| ZoneFilter.PairUpdate | src/aqua_bridge/control/estimator.py:895-910 | the in-place pair update is the fusion of a reading of the sum of two states, the same two included |
| ZoneFilter.ResetState | src/aqua_bridge/control/estimator.py:887-892 | a reset decouples one state, gives it the new value and variance, and touches nothing else |
| ZoneFilter.FuseKeepsCovariance | src/aqua_bridge/control/estimator.py:872-910 | fusing any reading keeps the covariance symmetric and positive semidefinite |
| ZoneFilter.FuseNeverLoosens | src/aqua_bridge/control/estimator.py:872-910 | no direction of the state is more uncertain after a measurement than before |
| ZoneFilter.FuseShrinksVariances | src/aqua_bridge/control/estimator.py:872-910 | so no diagonal entry of the covariance rises |
| FilterRuns.FuseCommutes | src/aqua_bridge/control/estimator.py:2197-2199 | two readings give the same mean and covariance in either order |
| FilterRuns.FusionOrderIsFree | src/aqua_bridge/control/estimator.py:2197-2199 | so do any number of readings in any two orders: the configuration order of the sensors is irrelevant |
| FilterRuns.ApplyKeepsCovariance | src/aqua_bridge/control/estimator.py:2190-2193 | prediction with any transition, measurement, jump inflation, reset and seeding each keep a covariance; the rows below say what each of them does |
| FilterLaws.PredictCarries | src/aqua_bridge/control/estimator.py:2190-2193 | along every direction a prediction carries mean and variance back through the transition, adds the offset to the mean and each state's noise to the variance; with symmetry this determines the step |
| FilterLaws.InflateAdds | src/aqua_bridge/control/estimator.py:2310-2331 | a deliberate widening adds to the variance of its own state and changes nothing else, along every direction |
| FilterLaws.ReseedDecouples | src/aqua_bridge/control/estimator.py:2478-2487 | a reset state has the new value and variance, is tied to no other state, and the others keep mean and covariance |
| FilterLaws.PlaceMoves | src/aqua_bridge/control/estimator.py:2478-2487 | moving one mean changes nothing else and no variance |
| FilterLaws.MeasureIsBest | src/aqua_bridge/control/estimator.py:872-910 | a reading moves the estimate of every direction by the one multiple of the surprise that leaves the least variance |
| FilterLaws.ReadingPulls | src/aqua_bridge/control/estimator.py:872-910 | what is read ends between estimate and reading, by the noise's part of the whole uncertainty, and its variance shrinks by that part |
| FilterLaws.ScalarPulls | src/aqua_bridge/control/estimator.py:872-884 | the same in the entries of a scalar reading: distance from the reading and variance shrink by r / (P[i][i] + r) |
| FilterLaws.PairPulls | src/aqua_bridge/control/estimator.py:895-910 | and for a reading of the sum of two states |
| FilterLaws.PredictTwice | src/aqua_bridge/control/estimator.py:2190-2193 | two predictions in a row are the prediction with the product of the transitions, the first one's offset and noise carried through the second |
| FilterLaws.StartIsIndependent | src/aqua_bridge/control/estimator.py:2093-2125 | a zone starts at the given values with independent states of the given variances |
| FilterLaws.RunsFollow | src/aqua_bridge/control/estimator.py:2093-2331 | a run is its steps one after the other |
| FilterRuns.PredictKeepsCovariance | src/aqua_bridge/control/estimator.py:2191-2193 | phi P phi^T + Q, symmetrised, is a covariance for every transition matrix and non-negative noise |
| FilterRuns.WidenedIsCovariance | src/aqua_bridge/control/estimator.py:2310-2331 | the widening of a jump or a step keeps a covariance |
| FilterRuns.ReseedKeepsCovariance | src/aqua_bridge/control/estimator.py:2478-2487 | the resets of an occupancy change keep a covariance |
| FilterRuns.StartIsSound | src/aqua_bridge/control/estimator.py:2093-2125 | a zone starts in a covariance |
| FilterRuns.RunIsSound | src/aqua_bridge/control/estimator.py:2093-2331 | every state reachable by any sequence of these steps has a symmetric positive semidefinite covariance |
| FilterRuns.NoNegativeVariance | src/aqua_bridge/control/estimator.py:2553-2559 | the filter's negative-variance error is unreachable from any start by any run |
| TwoParamRls.AbsorbedIsPSD | src/aqua_bridge/control/estimator.py:1214-1253 | a row keeps the 2x2 covariance symmetric and positive semidefinite and its row variance positive |
| TwoParamRls.AbsorbedDet | src/aqua_bridge/control/estimator.py:1346-1379 | a row multiplies the determinant by r / s |
| TwoParamRls.AbsorbedInverts | src/aqua_bridge/control/estimator.py:1346-1379 | if L inverts P then L plus the row's information inverts the updated P |
| TwoParamRls.MoveSolves | src/aqua_bridge/control/estimator.py:1214-1253 | a correction by the gain solves the normal equations of the information with the row added, for both fits |
| TwoParamRls.SolvedOnce | src/aqua_bridge/control/estimator.py:1214-1253 | and nothing else solves them |
| Calibration.JosephIsAbsorbed | src/aqua_bridge/control/estimator.py:1355-1360 | the calibration's Joseph form is the plain rank-one reduction |
| Calibration.UpdateKeepsCovariance | src/aqua_bridge/control/estimator.py:1346-1379 | after a row the covariance is one, the slope is inside its bounds and the slope variance has not grown |
| Calibration.CovarianceIsInverseInformation | src/aqua_bridge/control/estimator.py:1346-1379 | after any rows the covariance is the inverse of the prior information plus the sum of all row informations |
| Calibration.InformationSums | src/aqua_bridge/control/estimator.py:1346-1379 | that information in closed form: row count, sum of x and sum of x squared over the row variance |
| Calibration.SlopeVarianceClosedForm | src/aqua_bridge/control/estimator.py:1346-1379 | the slope variance that decides acceptance, as a function of those sums alone |
| Calibration.NormalEquationsStep | src/aqua_bridge/control/estimator.py:1346-1379 | a row solves the least-squares normal equations if and only if the slope clamp does not act on it |
| Calibration.RunIsBatchFit | src/aqua_bridge/control/estimator.py:1346-1379 | while the clamp acts on no row, slope and offset after any rows solve the normal equations of the prior and every row: the recursion is the batch fit |
| Calibration.BatchFitIsUnique | src/aqua_bridge/control/estimator.py:1346-1379 | and nothing else solves them |
| Calibration.LostOnlyByAge | src/aqua_bridge/control/estimator.py:1422-1430 | an accepted calibration stays accepted through any samples and ticks in which no tick finds it out of age |
| Acceptance.LifeIsRun | src/aqua_bridge/control/estimator.py:1346-1379 | after any samples and ticks the fit is that of the samples alone, and the fresh count is the number of samples since the last tick that found the last sample out of age |
| Acceptance.SureExactly | src/aqua_bridge/control/estimator.py:1422-1430 | the slope variance is below a limit if and only if number, sum and sum of squares of the regressors carry enough information |
| Acceptance.AcceptedExactly | src/aqua_bridge/control/estimator.py:1422-1430 | a calibration is accepted if and only if twenty samples came since the last tick out of age, the samples carry enough information on the slope, and the last is in age: from the samples and ticks alone |
| Acceptance.ResidualOnRecord | src/aqua_bridge/control/estimator.py:1346-1379 | the residual returned is what the row misses in terms of the drive, and the mean square moves a tenth of the way to its square |
| PlacementMap.BoxNeverEmpty | src/aqua_bridge/control/estimator.py:2000-2017 | for every bay map a calibration can reach the box is not empty and contains slope difference 0 |
| PlacementMap.Member.constructor | src/aqua_bridge/control/estimator.py:1147-1155 | a member starts at (0, 0) with a covariance |
| PlacementMap.Member.Bound | src/aqua_bridge/control/estimator.py:1179-1211 | the pair ends in the box; if sliding along the unseen direction can get it there, the seen combination is unchanged and the slide is the smallest; if not, each coordinate is clipped |
| PlacementMap.Member.Absorb | src/aqua_bridge/control/estimator.py:1214-1253 | a row walks the offset, and the corrected pair and the new covariance solve the normal equations of everything read; the pair stored is that one if the box allows it, and otherwise the bounded one |
| PlacementMap.CorrectedExplains | src/aqua_bridge/control/estimator.py:1214-1253 | the corrected pair solves the normal equations of the prior information, the offset's walk taken off it, and the row, and the absorbed covariance inverts that information |
| PlacementMap.ExplanationIsUnique | src/aqua_bridge/control/estimator.py:1214-1253 | no other pair and no other covariance do |
| PlacementMap.BoxMeans | src/aqua_bridge/control/estimator.py:2000-2017 | a pair is in the box if and only if the resulting map of the member lies in the map bounds |
| PlacementMap.HeldIsUnique | src/aqua_bridge/control/estimator.py:1179-1211 | that description determines the bounded pair: no other pair satisfies it |
| BaySettling.ExemptionBound | src/aqua_bridge/control/estimator.py:1483-1499 | between two refunds the exempt time charged is at most the budget plus one window plus one tick interval |
| BaySettling.WithinBudgetExactly | src/aqua_bridge/control/estimator.py:1577-1599 | it stays within the budget if and only if no tick since the refund is charged more than is left |
| BaySettling.BudgetAloneIsNoBound | src/aqua_bridge/control/estimator.py:1577-1599 | five ticks that exempt 27 seconds on a budget of 10 |
| BaySettling.RefundExactly | src/aqua_bridge/control/estimator.py:1577-1599 | a tick earns the whole budget back if and only if it ends an unbroken run of clean ticks as long as the budget |
| BaySettling.WindowOrigin | src/aqua_bridge/control/estimator.py:1483-1499 | in any run the window and reason on record are those of the last deliberate widening that found budget left |
| BaySettling.InWindowExactly | src/aqua_bridge/control/estimator.py:1477-1499 | a tick is exempt if and only if a widening that found budget left lies less than a window back |
| BaySettling.NoBudgetNoWindow | src/aqua_bridge/control/estimator.py:1483-1499 | a budget of 0 never opens a window in any run |
| SwapEvents.RecordIsHistory | src/aqua_bridge/control/estimator.py:1525-1574 | the counters equal the number of events and counted refusals of the run, and the stamps are the times of the latest of each |
| SwapEvents.LastEventOnRecord | src/aqua_bridge/control/estimator.py:1525-1574 | the time and reason on record are those of the run's last event |
| SwapEvents.LimitedVerdict | src/aqua_bridge/control/estimator.py:1525-1574 | a statistical verdict is an event if and only if every earlier event is at least the window back and the budget is not spent; a refusal is counted if and only if every earlier counted one is too |
| SwapEvents.CrossingIsEvent | src/aqua_bridge/control/estimator.py:2527-2550 | an occupancy crossing is always an event |
| SharedBudget.RunIsBoth | src/aqua_bridge/control/estimator.py:2404-2550 | a bay's ticks are at once a run of the settling machine and a run of the swap-event machine that is asked with what the first has spent |
| SharedBudget.CrossingIsDeclared | src/aqua_bridge/control/estimator.py:2527-2550 | in every run a crossing of "empty" is an event with reason occupancy, whatever came before it |
| SharedBudget.StepIsDeclaredExactly | src/aqua_bridge/control/estimator.py:2527-2550 | a stepped mean without a crossing is an event, with reason jump, if and only if no event of the run lies within the window before it and the budget is not spent |
| SharedBudget.QuietTick | src/aqua_bridge/control/estimator.py:2527-2550 | no other tick touches the record of swap events |
| SharedBudget.EventsAreTallied | src/aqua_bridge/control/estimator.py:2521-2550 | the events bounded below are exactly those of ticks without a crossing since the last refund |
| SharedBudget.TickFollows | src/aqua_bridge/control/estimator.py:2404-2550 | what one tick leaves on record of swap events and of the open window, from the tick and what was on record |
| SharedBudget.EventsAreBounded | src/aqua_bridge/control/estimator.py:2521-2550 | between two refunds all statistical events but the last fit, each with a window less one tick, into the budget and the window time that went uncharged |
| OccupancyMachine.EmptyNeedsEvidence | src/aqua_bridge/control/estimator.py:2412-2477 | a bay becomes empty only after empty_confirm_s of evidence that no tick in between contradicted; blind ticks neither add nor reset |
| OccupancyMachine.OccupiedNeedsRises | src/aqua_bridge/control/estimator.py:2412-2477 | an empty bay becomes occupied only on a drive reading or the third uncontradicted rising tick |
| OccupancyMachine.UnknownNeedsBlindness | src/aqua_bridge/control/estimator.py:2412-2477 | it becomes unknown only without a zone filter or after occupancy_hold_s of blind ticks only |
| OccupancyMachine.ChangeClearsCounts | src/aqua_bridge/control/estimator.py:2475-2506 | every transition zeroes all pending counts |
| OccupancyMachine.EvidenceEmpties | src/aqua_bridge/control/estimator.py:2412-2477 | and enough uncontradicted evidence always empties the bay |
| OccupancyMachine.RisesOccupy | src/aqua_bridge/control/estimator.py:2412-2477 | and three uncontradicted rising ticks always occupy it |
| OccupancyMachine.BlindnessForgets | src/aqua_bridge/control/estimator.py:2412-2477 | and occupancy_hold_s of nothing but blind ticks always make it unknown |
| OccupancyMachine.DeclaredIsKnown | src/aqua_bridge/control/estimator.py:2412-2421 | a declared bay is at once what its owner says |
| OccupancyMachine.TickLeadsTo | src/aqua_bridge/control/estimator.py:2421-2477 | what a tick can make of an undeclared bay at all: nothing but what the rows above time |
| BayRecord.Bay.constructor | src/aqua_bridge/control/estimator.py:942-974 | a bay starts unknown, without a window, events or counts |
| BayRecord.Bay.MarkDisturbed | src/aqua_bridge/control/estimator.py:1483-1499 | the fields after it are the window-opening step of the settling machine |
| BayRecord.Bay.AccountSettle | src/aqua_bridge/control/estimator.py:1577-1599 | the fields after it are the charging step of the settling machine |
| BayRecord.Bay.Tick | src/aqua_bridge/control/estimator.py:2736-2764 | opening, testing and charging the window in a tick is one step of the settling machine |
| BayRecord.Bay.Advance | src/aqua_bridge/control/estimator.py:2404-2550 | marking, judging and charging one tick in the program's order is the step of the two machines together; a crossing counts one event with reason occupancy at this time |
| BayRecord.Bay.SwapEvent | src/aqua_bridge/control/estimator.py:1525-1574 | fields and verdict are the step of the swap-event machine, nothing else changes |
| BayRecord.Bay.Occupy | src/aqua_bridge/control/estimator.py:2412-2506 | the fields are the step of the occupancy machine, and it reports exactly the crossings of "empty" |
| Associate.Assign | src/aqua_bridge/control/associate.py:280-313 | the greedy result is the order-free set of pairs that score enough and beat every rival of their row and column by the margin |
| Associate.Accepts | src/aqua_bridge/control/associate.py:303-312 | the runner-up test of one pair is that rule |
| Associate.TakenMeansBeaten | src/aqua_bridge/control/associate.py:301-302 | a pair skipped because its serial or bay is taken would have failed the rule anyway |
| Associate.EveryWinnerOut | src/aqua_bridge/control/associate.py:298-300 | stopping at the first score below the threshold loses no winner |
| Associate.MatchIsInjective | src/aqua_bridge/control/associate.py:280-313 | with a positive margin no serial is matched to two bays |
| Associate.MatchIsUnique | src/aqua_bridge/control/associate.py:280-313 | any two results that satisfy the rule are equal: sort order and ties cannot matter |
| SeriesWindow.SeriesIsRecentHistory | src/aqua_bridge/control/associate.py:113-156 | trimming at every recording leaves exactly the recordings since the clock last went back, or the bays and zones changed, that lie inside the window, with their rows |
| SeriesWindow.SeriesIsBounded | src/aqua_bridge/control/associate.py:113-156 | recordings are at least SAMPLE_S apart and never more than the window holds, for any sequence of calls |
| SeriesWindow.RecordTrims | src/aqua_bridge/control/associate.py:142-156 | one call on a trimmed series is the trim of the call on the untrimmed one |
| SeriesWindow.SeriesHasOneShape | src/aqua_bridge/control/associate.py:126-141 | all recordings of a series cover the same bays and zones |
| SeriesWindow.RecordedExactly | src/aqua_bridge/control/associate.py:113-156 | a call restarts the recordings if the clock went back or the names changed, and otherwise is recorded if and only if the recording period has passed |
| SeriesWindow.SeriesIsWindow | src/aqua_bridge/control/associate.py:142-156 | the series in force is every recording since the last restart that is at most the window older than the last, and no other |
| AssociationLife.NoSerialInTwoBays | src/aqua_bridge/control/estimator.py:2562-2627 | in every reachable state no serial is in force in two bays, declared ones included |
| AssociationLife.PairsStayInjective | src/aqua_bridge/control/estimator.py:1911-1928 | the correlation pairs stay one-to-one over every run |
| AssociationLife.CountIsConsecutive | src/aqua_bridge/control/associate.py:316-345 | a pending count is the number of evaluations since which every evaluation accepted that pair |
| AssociationLife.AssociationNeedsThree | src/aqua_bridge/control/associate.py:316-345 | a new pair was accepted by three evaluations in a row, none in between refusing it |
| AssociationLife.FailuresAreConsecutive | src/aqua_bridge/control/estimator.py:3014-3059 | the failures on record are the failed re-checks of the bay's pair since it last passed one or was made |
| AssociationLife.PairEndsByFailures | src/aqua_bridge/control/estimator.py:3014-3059 | a pair that a re-check ends had failed associate_drop_checks of them and passed none in between, over any run |
| AssociationLife.StatesAreRun | src/aqua_bridge/control/estimator.py:2562-2627 | the states of every run of ticks step from one to the next as those two results ask |
| AssociationLaws.MatrixExactly | src/aqua_bridge/control/estimator.py:2562-2584 | the matcher is shown exactly the scores of heard serials without a bay and of bays that are neither paired, declared nor empty |
| AssociationLaws.TickFollows | src/aqua_bridge/control/estimator.py:1911-1928 | what every tick of every run makes of every bay: a pair ends if and only if the bay is declared, crosses "empty" or jumps, its serial is silent or declared, or a re-check fails for the last time it may; a bay without one gets one at the third acceptance in a row |
| AssociationLaws.SwapEndsPair | src/aqua_bridge/control/estimator.py:2492-2512 | a crossing of "empty" ends a bay's pair and its count, a jump ends its pair |
| AssociationLaws.ThreeInARowMakePair | src/aqua_bridge/control/associate.py:316-345 | three evaluations in a row that give a bay the same serial, no crossing between them, make the pair |
| AssociationLife.Associations.constructor | src/aqua_bridge/control/estimator.py:924-940 | no pairs and no counts at the start |
| AssociationLife.Associations.ForgetPair | src/aqua_bridge/control/estimator.py:1835-1847 | one bay loses its pair, pending count, failures and verification and the serial its SMART history; every other bay and serial keeps its own |
| AssociationLife.Associations.Recheck | src/aqua_bridge/control/estimator.py:3014-3059 | re-scoring the held pairs in order is the recheck step of the association life, and exactly the serials whose pairs it ends lose their history |
| FanCurve.SpreadIsScatter | src/aqua_bridge/control/fancurve.py:437-453 | a decaying bin's spread around any speed is a weighted sum of squared deviations with non-negative weights |
| FanCurve.BinMoments | src/aqua_bridge/control/fancurve.py:437-453 | so n never exceeds the capacity and sr^2 <= n sr2 in every reachable bin |
| FanCurve.MeanDutyInBin | src/aqua_bridge/control/fancurve.py:440-452 | and its mean duty stays inside the bin through every decay |
| FanCurve.MeanDutyIsCentre | src/aqua_bridge/control/fancurve.py:354-357 | the mean duty the fit regresses on is the one point from which the decayed samples lean neither way |
| FanCurve.MeanDutyOfBin | src/aqua_bridge/control/fancurve.py:354-357 | so it lies in its bin |
| FanCurve.MeanDutyOfOne | src/aqua_bridge/control/fancurve.py:354-357 | and is the duty when all samples were taken at one |
| FanCurve.UsableAreAll | src/aqua_bridge/control/fancurve.py:347-353 | the bins used are all those with enough samples |
| FanCurve.EnoughMeans | src/aqua_bridge/control/fancurve.py:354-362 | they carry a fit if and only if they are enough and two of them are far enough apart in duty |
| FanCurve.SseIsError | src/aqua_bridge/control/fancurve.py:371-378 | the error computed from three sums is the squared error summed bin by bin |
| FanCurve.SseNonNegative | src/aqua_bridge/control/fancurve.py:371-384 | hence it is not negative at any grid point and any top speed, for any bins that readings can leave |
| FanCurve.BestSpeedIsLeast | src/aqua_bridge/control/fancurve.py:371-378 | the closed-form top speed is the least-squares minimiser at a grid point |
| FanCurve.FitIsLeastSquares | src/aqua_bridge/control/fancurve.py:347-388 | the chosen curve has the least error of all eligible grid points and all top speeds |
| FanCurve.FitIsLeastOfAll | src/aqua_bridge/control/fancurve.py:347-388 | for speeds that are not negative, of all grid points that move any air, eligible or not |
| FanCurve.SearchGrid | src/aqua_bridge/control/fancurve.py:363-384 | the running best ends as the first least-error eligible point of the grid, or there is no eligible point |
| FanCurve.FitBins | src/aqua_bridge/control/fancurve.py:347-393 | a fit is returned if and only if one exists that enough bins carry, that is the grid's least and that is accurate enough; it is that one; on bins that lie on the curve of a grid point it always is returned, without error |
| FanCurve.CurveIsEligible | src/aqua_bridge/control/fancurve.py:363-384 | on bins whose samples lie on the curve of a grid point, that point is eligible, has the curve's own top speed and no error |
| FanCurve.CurveIsRecovered | src/aqua_bridge/control/fancurve.py:347-393 | and whichever grid point wins there has no error and gives every bin's speed back |
| FanCurve.BestIsUnique | src/aqua_bridge/control/fancurve.py:363-384 | that least point is unique |
| FanCurve.BestIsFirst | src/aqua_bridge/control/fancurve.py:363-384 | and it is the first of equally good points, dead bands before exponents |
| FanCurve.GridSpans | src/aqua_bridge/control/fancurve.py:140-141 | the grid runs in even steps from dead band 0 to 0.45 and from exponent 0.5 to 1.5 |
| FanCurve.AccurateExactly | src/aqua_bridge/control/fancurve.py:386-393 | a fit is accurate enough if and only if the mean squared miss of the readings is at most the square of the given share of the top speed |
| FanCurve.FitParses | src/aqua_bridge/control/fancurve.py:198-213 | every eligible grid fit lies inside the bounds a stored curve must have |
| FanCurve.AcceptedParses | src/aqua_bridge/control/fancurve.py:198-213 | so every accepted fit can be read back |
| FanCurve.SampleIsSettled | src/aqua_bridge/control/fancurve.py:424-436 | a reading enters a bin only after its command has stayed at one duty for settle_s of unbroken ticks |
| FanCurve.SteadyIsSampled | src/aqua_bridge/control/fancurve.py:424-436 | and every live reading after settle_s of one command does |
| FanCurve.FanModel.constructor | src/aqua_bridge/control/fancurve.py:274-290 | a fan model starts with empty bins and no fit |
| FanCurve.FanModel.Absorb | src/aqua_bridge/control/fancurve.py:438-452 | one settled reading changes the bin of its duty by one decayed accumulation and no other |
| FanCurve.FanModel.Read | src/aqua_bridge/control/fancurve.py:411-453 | every live reading confirms the fit, only a settled one is sampled, other channels' holds are untouched |
| FanCurve.FanModel.Refit | src/aqua_bridge/control/fancurve.py:457-470 | a due refit installs the accepted fit if there is one, with an error that is not negative, and otherwise keeps the last one; before it is due nothing changes |
| FanCurve.FanModel.FitIsLeast | src/aqua_bridge/control/fancurve.py:347-388 | an accepted fit of the bins that readings have left is that least curve |
| FanCurve.FanModel.Publish | src/aqua_bridge/control/fancurve.py:239-259 | a curve is published if and only if a fit exists and neither it nor the last reading is too old, and it lies in the bounds |
| FanHealth.PruneKeepsInForce | src/aqua_bridge/health.py:1022-1028 | pruning cuts off exactly the duties that were in force at no moment after the cutoff |
| FanHealth.PruneTwice | src/aqua_bridge/health.py:1022-1028 | pruning at every tick leaves what one pruning of the whole history would |
| FanHealth.RunIsSound | src/aqua_bridge/health.py:1010-1047 | in every run the window is the pruned history since the last gap and a running rpm timer started on a history at least settle_s long |
| FanHealth.BandIsHistory | src/aqua_bridge/health.py:1010-1032 | the band is the least and greatest duty in force during the last settle_s of the unpruned history, and there is none if and only if the history does not reach that far |
| FanHealth.OnTheCurveNeverDeviates | src/aqua_bridge/health.py:1130-1159 | with a monotone curve, a fan whose speed is within the tolerance of its curve, at any duty in force during the last settle_s, has no rpm timer running |
| FanHealth.ExpectedPowerNeverDeviates | src/aqua_bridge/health.py:1161-1187 | and one whose power is within the tolerance of what any such duty is expected to draw has no power timer running, whatever the tolerance |
| FanHealth.FaultNeedsLiveReadings | src/aqua_bridge/health.py:1034-1047 | an rpm or power fault means at least settle_s plus the rule's own seconds of updates that all carried a live reading |
| FanHealth.FaultIsSustained | src/aqua_bridge/health.py:1034-1047 | a fault of any rule means that every update over the rule's seconds read the channel and found it deviating |
| FanHealth.SustainedIsFault | src/aqua_bridge/health.py:1034-1047 | and a deviation found by every update over that long always is a fault |
| FanFaults.TimerExactly | src/aqua_bridge/health.py:1103-1187 | after a reading a rule's timer runs if and only if, on the unpruned history, the speed is below its tolerance for every duty in force over the last settle_s or above it for every one; the same for the power; the rail voltage is outside its limits |
| FanFaults.FaultExactly | src/aqua_bridge/health.py:1034-1047 | a rule reports a channel if and only if every update over the rule's seconds found it off in that sense |
| FanFaults.StoppedFanIsReported | src/aqua_bridge/health.py:1136-1159 | a fan that stands still, at duties all of which should turn it, is reported after the rule's seconds |
| FanHealth.ChannelState.constructor | src/aqua_bridge/health.py:917-926 | a channel starts with no window and no timer |
| FanHealth.ChannelState.Forget | src/aqua_bridge/health.py:928-933 | a gap clears window and timers |
| FanHealth.ChannelState.ForgetDuty | src/aqua_bridge/health.py:935-939 | a reading without a duty clears the window and the two timers that need one, not the rail's |
| FanHealth.ChannelState.DutyBand | src/aqua_bridge/health.py:1010-1032 | the edited window is the pruned push of the old one and the band is its range, or none |
| FanHealth.ChannelState.Sustained | src/aqua_bridge/health.py:1034-1047 | a timer starts at its first deviation, survives further ones, is dropped by a healthy reading, and reports once past its window |
| FanHealth.ChannelState.JudgeDuty | src/aqua_bridge/health.py:1136-1187 | the rpm and power rules leave the timers and problems of the specification |
| FanHealth.ChannelState.CheckChannel | src/aqua_bridge/health.py:1103-1187 | a whole verdict is the specification's step, and the problems are the rules past their windows |
| FanHealth.ChannelState.Update | src/aqua_bridge/health.py:1274-1289 | a channel that missed an update starts again; otherwise its evidence continues |
| AtomicWrite.WriteAtomic | src/aqua_bridge/modelstore.py:566-596 | in every state on the way a crash leaves the old content or the complete new bytes; when the file is replaced, when an error is returned and when the new bytes are durable, each exactly |
| AtomicWrite.ReplaceFile | src/aqua_bridge/modelstore.py:573-586 | without the rename the target's possible contents are unchanged; with it the new bytes are complete and live |
| AtomicWrite.OpenTemp | src/aqua_bridge/modelstore.py:570-572 | opening the temporary file leaves the target alone and the file empty, whether it existed or not |
| AtomicWrite.Commit | src/aqua_bridge/modelstore.py:582 | the rename puts the complete new bytes in the target's place; if it fails nothing changes |
| AtomicWrite.RollBack | src/aqua_bridge/modelstore.py:583-586 | removing the temporary file leaves the target alone |
| AtomicWrite.Fill | src/aqua_bridge/modelstore.py:575-582 | however the writes are split, the temporary file holds all bytes, synchronised, if and only if every call succeeded |
| AtomicWrite.NoFailureWritesAll | src/aqua_bridge/modelstore.py:575-580 | without a failing write all bytes are written, however they are split |
| AtomicWrite.OneByteACall | src/aqua_bridge/modelstore.py:575-580 | when every write takes one byte and the m-th fails, exactly m bytes can be written |
| AtomicWrite.PlacedIsOldOrNew | src/aqua_bridge/modelstore.py:583-596 | before the directory is synchronised a crash leaves the new bytes or anything it could have left before, and exactly that |
| AtomicWrite.SyncedDirIsDurable | src/aqua_bridge/modelstore.py:587-596 | after it a crash leaves the new bytes only |
| AtomicWrite.SyncedIsSettled | src/aqua_bridge/modelstore.py:587-596 | of a synchronised file in a synchronised directory a crash leaves exactly what readers see |
| AtomicWrite.OldBytesOrNewBytes | src/aqua_bridge/modelstore.py:566-569 | from such a start a crash anywhere in a write leaves exactly the old bytes or exactly the new ones |
| AtomicWrite.FailureMayReplace | src/aqua_bridge/modelstore.py:591-596 | a call in which only the close of the directory fails returns an error and leaves the new bytes in the file |
| Persister.ModelPersister.constructor | src/aqua_bridge/modelstore.py:602-630 | a persister starts clean with nothing captured |
| Persister.ModelPersister.Capture | src/aqua_bridge/modelstore.py:641-656 | a tick is captured, with its settle section, if and only if it has a memory, that carries no seed, and the settle callback returns |
| Persister.ModelPersister.Store | src/aqua_bridge/modelstore.py:679-684 | every crash in a save leaves earlier content or the document of one captured tick with a bay view that some tick has shown |
| Persister.ModelPersister.Begin | src/aqua_bridge/modelstore.py:676 | an attempt is stamped before it writes, and attempts stay apart |
| Persister.ModelPersister.Finish | src/aqua_bridge/modelstore.py:677-690 | the write of an attempt succeeds exactly when the document can be built and every reported call goes through; a failure is counted and keeps the snapshot dirty |
| Persister.ModelPersister.Save | src/aqua_bridge/modelstore.py:671-690 | success means the file is the newest snapshot's document; a failure keeps the snapshot dirty and, but for the failed directory close, the file untouched |
| Persister.ModelPersister.OnTick | src/aqua_bridge/modelstore.py:632-639 | at most one attempt a tick, none before interval_s; over any run the file comes from a captured seed-free snapshot and attempts stay apart |
| Persister.ModelPersister.Close | src/aqua_bridge/modelstore.py:692-696 | a shutdown without an error leaves the newest snapshot in the file, whether it had to write or not |
| Persister.SpacedFromAll | src/aqua_bridge/modelstore.py:632-639 | an on-tick attempt is at least interval_s after every earlier attempt |
| CalibrationAge.RoundTripAge | src/aqua_bridge/control/estimator.py:2842-2858 | through save, load and restore the age grows by exactly the outage on the wall clock, and is lost if and only if it was unknown, negative, saved without a controller time, or the wall clock went behind the sample |
| CalibrationAge.UsableIsOlder | src/aqua_bridge/modelstore.py:270-294 | an entry that one restart brings back calibrated and not inflated is at least as old as at save time and inside the saver's window |
| CalibrationAge.InflatedExactly | src/aqua_bridge/modelstore.py:375-387 | a file newer than the clock or too old always inflates, any other keeps the entry's own pending inflation |
| CalibrationAge.InflationLasts | src/aqua_bridge/control/estimator.py:1374-1378 | over any samples, ticks and restarts that read no stale file an inflation keeps its factor and ends with exactly the sample that completes its confirmation |
| CalibrationAge.InflationOutlasts | src/aqua_bridge/modelstore.py:375-387 | no restart shortens an inflation: only accepted samples take anything off the twenty it may still ask for, whatever comes between |
| CalibrationAge.UninflatedMetNoStaleFile | src/aqua_bridge/modelstore.py:375-387 | an entry without inflation has met no stale file since its last twenty samples |
| CalibrationAge.DoubtfulRestarts | src/aqua_bridge/control/estimator.py:2853-2858 | the fresh count restarts if and only if the age is unknown, negative, saved without a controller time, or past the saver's window |
| CalibrationAge.DoubtfulNeedsRebuilding | src/aqua_bridge/control/estimator.py:1422-1430 | an entry that was doubtful at any restart is not calibrated at any time, by any window, before twenty more samples, whatever ticks and restarts come between |
| CalibrationAge.AgeIsElapsed | src/aqua_bridge/control/estimator.py:2842-2858 | through any ticks and restarts a known age grows by exactly the controller time spent in the runs plus the wall time between them |
| CalibrationAge.AgeIsTimeSinceLastSample | src/aqua_bridge/control/estimator.py:2842-2858 | so over any history it is the time since the last accepted sample |
| CalibrationAge.AtLeastAsOldAsSaved | src/aqua_bridge/modelstore.py:270-294 | while the controller clock runs forward in each run, an entry that comes out with a known age and no inflation is at least as old as at every save since its last sample |
| CalibrationAge.SampleTimeIsConserved | src/aqua_bridge/modelstore.py:446-465 | through any ticks and restarts the last sample's wall time is conserved up to the drift between the two clocks |
| CalibrationAge.OwnEntryComesBack | src/aqua_bridge/control/estimator.py:2795-2841 | an entry the program made itself, through any history, survives a restart if and only if its offset lies in the bounds |
| CalibrationAge.KeptExactly | src/aqua_bridge/control/estimator.py:2801-2860 | so such an entry is kept through its whole life if and only if no restart finds its offset outside the bounds |
| CalibrationAge.ComesBackExactly | src/aqua_bridge/control/estimator.py:2801-2860 | any stored entry comes back if and only if slope and offset are in bounds, the covariance nearly symmetric without negative variances, counts and error sensible, and its own inflation, unless a stale file replaces it, none that deflates |
| CalibrationAge.OwnEntryDropped | src/aqua_bridge/control/estimator.py:1346-1379 | one sample can take a fresh entry's offset out of them |
| Recorder.RecordingIsSuffix | src/aqua_bridge/recorder.py:331-358 | reading path.N to path in order gives the last lines ever written, in order, each once, and at most N + 1 files exist |
| Recorder.FilesAreSmall | src/aqua_bridge/recorder.py:338-339 | every file is smaller than max_bytes plus its last line |
| Recorder.ShiftDropsOldest | src/aqua_bridge/recorder.py:341-354 | a rotation drops the oldest file's text and nothing else, at depth 0 too |
| Recorder.LineKeepsSound | src/aqua_bridge/recorder.py:331-358 | one more line, with or without a rotation, keeps all of this |
| Recorder.LineKeepsFilled | src/aqua_bridge/recorder.py:331-358 | a file leaves the newest place only when it has reached the limit, and lines are dropped only when every place is taken |
| Recorder.KeepsEnough | src/aqua_bridge/recorder.py:331-358 | so no line is dropped while less than N times the limit is kept, nor at all without a limit |
| Recorder.ReadBack | src/aqua_bridge/recorder.py:335-336 | a file splits back into exactly the lines written to it |
| Recorder.Recorder.constructor | src/aqua_bridge/recorder.py:300-313 | a recorder starts with no file |
| Recorder.Recorder.Rotate | src/aqua_bridge/recorder.py:341-358 | the descending renames shift every file by one place, whichever are missing, and open an empty one |
| Recorder.Recorder.WriteLine | src/aqua_bridge/recorder.py:331-339 | the newest file grows by the line and is rotated if and only if that takes it to the limit |
| Recorder.Recorder.OnTick | src/aqua_bridge/recorder.py:315-329 | a closed recorder and a record that could not be built leave every file alone; otherwise one line is added and the account of all lines stays true |
| Recorder.Recorder.Close | src/aqua_bridge/recorder.py:360-365 | closing is final and loses nothing |
| ShardScheduler.ShardFiles | tools/ci_pytest_shards.py:60-84 | as many shards as asked for, but never more than files; they partition the files, and the heaviest is at most 4/3 - 1/(3n) of the heaviest shard of any other partition into as many |
| ShardScheduler.ShardCount | tools/ci_pytest_shards.py:77 | the number of shards is the smaller of the number asked for and the number of files, but at least one |
| ShardScheduler.Pack | tools/ci_pytest_shards.py:78-83 | the buckets and totals are those of the greedy assignment of the sorted weights |
| ShardScheduler.GreedyBound | tools/ci_pytest_shards.py:78-83 | for descending weights and any n, the greedy makespan is within 4/3 - 1/(3n) of any other assignment's |
| ShardScheduler.GrahamMeans | tools/ci_pytest_shards.py:78-83 | that bound, checked in whole numbers, is 4/3 - 1/(3n) of the other makespan |
| ShardScheduler.HeavyJob | tools/ci_pytest_shards.py:78-83 | when the last job weighs more than a third of another assignment's makespan, greedy is no worse than it |
| ShardScheduler.GreedyBoundIsTight | tools/ci_pytest_shards.py:78-83 | five jobs on two buckets meet the bound with equality |
| ShardScheduler.SortedOrdered | tools/ci_pytest_shards.py:73-76 | the files are ordered by descending weight, then by name, and are the same files |
| ShardScheduler.SortedThroughout | tools/ci_pytest_shards.py:73-76 | of any two files the heavier stands first, and of equally heavy ones the one whose name is not later |
| ShardScheduler.NameOrder | tools/ci_pytest_shards.py:73-76 | names compare by the first character in which they differ, a prefix first |
| ShardScheduler.ShardingAsAssignment | tools/ci_pytest_shards.py:60-84 | every partition of the files is an assignment of the sorted list with the same shard weights |
| ShardScheduler.MakespanBound | tools/ci_pytest_shards.py:60-84 | so the bound holds against every partition of the files, in any order |
| MountTable.DecodersAgree | src/aqua_bridge/hostinfo.py:199-214 | the four successive replacements equal the single pass on every string |
| MountTable.ReplacementsAreOnePass | src/aqua_bridge/hostinfo.py:195-214 | for any escape table in an order where no replacement produces a piece of a later code |
| MountTable.OrderMatters | src/aqua_bridge/hostinfo.py:195-204 | replacing the backslash first decodes an escaped backslash twice |
| MountTable.UnescapeMountPoint | src/aqua_bridge/hostinfo.py:210-214 | the loop applies the replacements in order |
| MountTable.UnescapeMountField | tools/bench_model_store.py:146-161 | the index loop is the single left-to-right pass, truncated escapes included |
| MountTable.DecodeEncode | tools/bench_model_store.py:146-161 | the single pass inverts the octal escaping of space, tab, newline and backslash |
| MountTable.ReplacingInvertsEscaping | src/aqua_bridge/hostinfo.py:210-214 | so do the successive replacements |
| MountTable.EncodeDecode | tools/bench_model_store.py:146-161 | escaping the decoded text gives the field back if and only if the field has no bare separator and no stray backslash |
| MountTable.CarriesExactly | src/aqua_bridge/hostinfo.py:264-267 | a mount point carries the paths that begin with its names, each name whole; the root carries every path |
| MountTable.LastLongest | src/aqua_bridge/hostinfo.py:255-272 | the running best is a longest mount point that carries the path, the last of equals |
| MountTable.FirstLongest | tools/bench_model_store.py:208-222 | the running best is a longest mount point that carries the path, the first of equals |
| MountTable.ReadersAgree | src/aqua_bridge/hostinfo.py:255-272 | both name the same mount point, and the same entry if and only if it is mounted once |
| SampleChunks.Chunks | tools/fit_model.py:156-177 | the chunks are disjoint, ordered runs of horizon + 1 usable, closely spaced samples, and every usable window of that length meets one |
| AirRollout.ZoneFlow | tools/fit_model.py:180-193 | the loop computes flow and normalised flow of the groups |
| AirRollout.Totals | tools/fit_model.py:207-219 | the loops compute total conductance and total heat of everything the zone exchanges heat with |
| AirRollout.RolloutError | tools/fit_model.py:196-222 | the loop computes the squared tracking error of the free-running implicit Euler rollout for any parameters, and fails exactly when a step divides by zero |
| HeatBalance.NextBalances | tools/fit_model.py:218-219 | the air after a step is the one temperature at which the heat stored over the step is what sources and power bring in at that temperature |
| HeatBalance.SourcesAre | tools/fit_model.py:202-217 | the sources are the inlet through airflow and leak, the coupled zones, and the bays, each at the drive temperature that its sensor reads |
| HeatBalance.ShareIsMean | tools/fit_model.py:180-193 | the normalised airflow is the mean of the groups' airflow, each measured by its prior and weighted by its effectiveness |
| HeatBalance.ErrorOfMiss | tools/fit_model.py:220-221 | a recording missed by d at each of n steps has the error n d^2 |
| HeatBalance.NoErrorExactly | tools/fit_model.py:220-221 | and the error is 0 if and only if the rollout meets every measured value |
| AirRollout.DrivesPassive | tools/fit_model.py:207-219 | parameters inside their bounds give no negative conductance |
| AirRollout.RolloutsContract | tools/fit_model.py:196-222 | rollouts from two starts differ by their starts over the product of the stiffnesses, for any parameters and step lengths |
| AirRollout.RolloutsKeepOrder | tools/fit_model.py:196-222 | with parameters inside their bounds they keep their order |
| AirRollout.ContractionAtLeastOne | tools/fit_model.py:196-222 | and that product is at least 1 |
| AirRollout.NeverMoveApart | tools/fit_model.py:196-222 | so no further step moves them apart |
| AirRollout.AirStaysWithin | tools/fit_model.py:196-222 | without a constant heat input the air stays between the extremes of its start and its driving temperatures |
| RefineAir.LineSearch | tools/fit_model.py:262-274 | the value returned is kept or tried, and no tried value has a lower error |
| RefineAir.CandidateExactly | tools/fit_model.py:268-271 | a tried value is as far from the value in force as the fraction says, and at a bound only where a full step reaches past it |
| RefineAir.Sweep | tools/fit_model.py:260-279 | a sweep lowers the error or leaves everything and has shown a coordinate-wise minimum over the tried steps |
| RefineAir.RefineZone | tools/fit_model.py:256-281 | the error never rises, stopping early means a coordinate-wise minimum, otherwise it fell, and changed parameters are in bounds |
| RefineAir.Refine | tools/fit_model.py:249-290 | over all zones in turn changed parameters are in bounds and no other parameter changes, and no zone's error is raised when the errors ignore each other's parameters |
| ZoneError.ErrorReads | tools/fit_model.py:191-222 | a zone's rollout error depends on its own group, leak, coupling and power parameters and the bays' coefficients only |
| ZoneError.ZonesAreSeparate | src/aqua_bridge/control/thermal.py:683-723 | when no zone's rollouts read a parameter that another zone's refinement may change, the zones' errors are independent |
| ZoneError.ApartNamesKeysApart | src/aqua_bridge/control/thermal.py:683-723 | it is enough that no zone's name is another's, or another's followed by a dot |
| ZoneError.SharedNamesExactly | src/aqua_bridge/control/thermal.py:683-704 | two zones have a pair of group names that gives them the same parameter if and only if one zone's name is the other's followed by a dot and more |
| ZoneError.CandidateStaysInTable | tools/fit_model.py:268-271 | no tried step leaves the bounds of the parameter table |
| ZoneError.TableByKind | src/aqua_bridge/control/thermal.py:80-90 | whatever zones, groups and bays are called, each key falls under the bounds and step of its own kind |
| ZoneError.AirKeysExactly | src/aqua_bridge/control/thermal.py:683-723 | the parameters refined are those of the zone's groups, splits, leak, couplings and power, and no others |
| ZoneError.TableIsSolvable | tools/fit_model.py:196-222 | with parameters inside the table no rollout divides by zero |
| ZoneError.RefineAll | tools/fit_model.py:232-290 | refining every zone moves no bay's coefficient and leaves no bound of the table; when no zone's rollouts read another's parameters no zone's error rises, and with sane recordings that is the squared error of rollouts that all run |
| ZoneInterference.SafeExactly | tools/fit_model.py:249-290 | no refinement of these zones, from any table in bounds, ever raises an error if and only if no zone's rollouts read a parameter that another zone's refinement may change |
| ZoneInterference.SharedParameterRaises | tools/fit_model.py:249-290 | for any zones that share such a parameter: recordings and a table in bounds, complete, from which one pass raises an error |
| ZoneInterference.SharedParameterMatters | tools/fit_model.py:191-222 | and two such tables, different in the other zone's parameters only, with different errors |
| ZoneInterference.IndependentExactly | src/aqua_bridge/control/thermal.py:683-723 | the errors of zones of two names ignore each other's parameters, whatever their groups and couplings, if and only if neither name is the other's followed by a dot |
| ZoneInterference.SafeNamesExactly | src/aqua_bridge/control/thermal.py:683-723 | and zones of two names always refine safely together if and only if so |
| ZoneInterference.DottedNamesInterfere | src/aqua_bridge/control/thermal.py:683-704 | zone "a" with group "b.c" and zone "a.b" with group "c" do not |
| ZoneInterference.DottedNamesMayBeSafe | src/aqua_bridge/control/thermal.py:683-704 | with groups "x" and "c" the same two names are harmless |

## Left out

- Floating point: rounding, NaN and infinity, and the numerical accuracy of the matrix exponential; prediction takes any transition matrix, offset and non-negative process noise.
- Pearson correlation and detrending (`correlation`, `score_matrix`): the matcher takes any scores. The SMART history of one serial (`record_smart`) is not modelled.
- Sorting in the matcher: the order is any ranking of the pairs by descending score, so every tie-break is covered.
- `phi`, the airflow share of a duty, is not computed; the fits and rules take any such function.
- The consecutive re-reading of the same SMART sample, the choice of the proximal sensor a bay is seeded from, jump detection itself and the views published for display.
- Manual calibrations: their restore is the SMART restore with inflation always on and doubtful entries dropped.
- At most four serials per bay are kept by the program on restore; the model follows one entry.
- Shape checks of stored documents, JSON encoding, fingerprints and the reading of fit reports. The check of a stored covariance looks at the diagonal and the symmetry only; entries the program wrote are positive semidefinite and come back unchanged.
- Messages, logging, diagnostics, the spin-up rule and the host rules of the health monitor.
- The throttling reader and the disk, memory and uptime readers.
- Paths with a trailing slash or relative parts in the mount-table readers; prefix tests are on absolute normalised paths.
- `_subsample` and the root mean square figures of the fit report.
- FanCurve.FitBins: compares squared errors instead of their square roots, with the sign test on the top speed kept.
- AtomicWrite.WriteAtomic: an interrupt between the rename and the return is not modelled, and a write call is taken to accept at least one byte when it succeeds.
- SeriesWindow.RecordTrims: the values of one recording are one row, so stored lists of different lengths cannot occur, nor can a stored time that is not a number.
- Recorder.Recorder.WriteLine: a failing write or rename is not modelled.
- ZoneError.TotalError: a chunk whose rollout would divide by zero counts as 0, where the program stops; `ZoneError.TableIsSolvable` shows that no table inside its bounds has one, and `ZoneError.RefineAll` then speaks of the rollouts' errors themselves.
- OccupancyMachine.EvidenceEmpties: asks that tick lengths are not negative, as the program clamps them.
- SharedBudget.StepIsDeclaredExactly: asks for a clock that does not go back; with one that does, the program looks at the last event only (`SharedBudget.TickFollows`).
- SharedBudget.EventsAreBounded: asks for a clock that does not go back and for ticks at most an hour apart, which is the most one tick is charged for.
