# Staff assignment: a verified model

A municipality assigns staff to shelters or polling stations. Staff declare whether they are
available for an event; an integer program decides who goes where; a worker process solves
queued requests. This project models that system in Dafny and proves what it promises.

The system in its own terms:

- **The engine.** An assignment problem is encoded as an integer program with five
  constraints: exact headcount (C1), one facility per person (C2), qualification requirements
  (C3), only available staff (C4), a cap per department (C5). The weighted objective of time,
  cost and longest trip is scaled to integers. Solving goes in stages: the full program, the
  program without C3, and C3 as soft constraints behind a big-M penalty. A second, separate
  reading of the constraints checks pins and manual edits. `Domain`, `Counting`, `Scaling`,
  `Objective`, `Validation`, `Model`, `CpSat`, `SolverPort`, `Agreement`, `Diagnosis`,
  `Optima`, `Service`, `Guarantees`, `Dominance`, `PenaltyLimit`, `PenaltyReach`,
  `PenaltyTrade`, `NegativeCounts`, `Existence`.
- **Distance and cost.** A cost table by distance bands, travel metrics, and a triangular
  cache of distances between school districts. `TravelCost`, `DistanceCache`.
- **Stored data.** CSV imports in two phases, master data, events, declarations, the problem
  built from them, list cells read back as written, the replay of a past event, and the manual
  edit. `CsvImport`, `Decimals`, `CsvCells`, `Availability`, `MasterData`, `ProblemBuilder`, `Pipeline`,
  `Replay`, `ManualEdit`.
- **Protocols.** The job queue with any number of crashing workers, the login lockout, the
  pruned rate limiter. `JobQueue`, `JobIds`, `Authentication`, `RateLimit`.

The constraint solver is a parameter with a contract. `Conforming`: a returned point is
feasible, OPTIMAL means minimal, INFEASIBLE means there is no point. `Exact`: it also never
stops early. `Existence.ExactSolverExists` shows that the contract can be met. Great-circle
distance, hash verification, clocks and random session ids are parameters too. Floats are
modelled by `real`.

What the proofs found out about the code:

- **The penalty is not always an upper bound.** The code calls big-M a strict upper bound on
  the scaled objective. The rounding error of the minimax coefficient is multiplied by the
  longest trip, which the margin does not mention. For all weights the bound holds in every
  problem of given weights, longest trip (1 second or more), headcount (1 or more, at most the
  pairs) and number of pairs if and only if `required * round(SCALE * (w_time + w_cost) / required)
  + round(SCALE * w_inequity / longest) * longest < big-M` (`PenaltyReach.ReachIsExact`, which
  also covers the degenerate numbers); weights 0.5, 0.3 and 0.2 with everybody one hour away and
  three pairs miss it (`PenaltyReach.MixedWeightsFail`).
- **Beyond it a requirement can be given up for shorter trips.** Within the bound every demoted
  optimum puts slack first, whatever the weights (`Dominance.ReachDominates`); a penalty above
  every difference of two encoded objectives suffices (`Dominance.SpreadDominates`). The bound
  cannot be improved with two people wanted and an even number of pairs
  (`PenaltyTrade.SlackFirstIsExact`). With inequity as the only weight the exact limit uses the
  shortest trip as well: `round(SCALE * w / longest) * (longest - shortest) < big-M`
  (`PenaltyLimit.PenaltyLimitIsExact`). The witnesses on common weights
  (`PenaltyTrade.MixedWeightsTrade`, `PenaltyLimit.OrdinaryTripFails`) have trips of 0 seconds,
  which the cost engine gives only to districts at one point or to a district whose fixed time
  is set to 0; the default is 900 s. With no trip below 900 s and inequity weighted 1 slack
  comes first for every longest trip up to 42000 s (`PenaltyLimit.DefaultTripSuffices`), but
  with inequity weighted 0.001 alone, which asks for the same assignments, a longest trip of
  1999 s is beyond the limit (`PenaltyLimit.SmallWeightFails`).
- **A negative required count stops demotion.** Nothing rejects one on import; the slack
  variable then has an empty domain, so the demoted program is solvable iff the C3-free
  program is *and* no required count is negative (`Optima.DemotedSolvable`). A facility for one
  with one prevention specialist and -1 managers required imports
  (`NegativeCounts.NegativeCountIsImported`); with one clerk it can be filled, yet the solve
  blames a hard constraint (`NegativeCounts.DemotionCanFail`, `NegativeCounts.StuckIsDiagnosed`).
- **`allow_c3_demotion` is never read**: demotion always happens, and is modelled so.
- **A manual edit cannot move anybody of a complete assignment**, whatever the sequence of
  edits (`ManualEdit.ExactHeadcountsFreeze`, `ManualEdit.NoRunOfEditsMovesAnyone`); it only
  drops the pin mark. All else it can do is to put somebody unassigned at a facility imported
  since (`ManualEdit.EditMovesNobody`), as at one for a single person (`ManualEdit.AddedPlaceIsTaken`).
- **One worker per job needs an unheld id.** No two workers hold one job if and only if no id
  is enqueued while a worker still holds it (`JobQueue.StepKeepsInvIff`, `JobIds.GuardIsExact`).
  The ids `J-{event}-{second}` see to that unless an event is enqueued twice in one second,
  with its deletion in between (`JobIds.NoReuseIff`, `JobIds.ReuseNeedsDeletion`); then nine
  steps from empty tables lead to a double claim (`JobIds.ReuseBreaksExclusion`). The deletion
  is `EventService.delete_event`, which no HTTP route calls: it has to come from elsewhere.
- **`_finish` has no status guard**, yet no run in which only unheld ids are enqueued leaves a
  terminal state (`JobQueue.TerminalWhilePresent`).
- **A second optimisation of an event raises** whenever it assigns somebody the first one did.
  Saving a result only inserts, so the primary key is violated outside the worker's `try`, and
  the job stays RUNNING (`JobQueue.SecondOptimisationRaises`).
- **A tolerated cost table can still make further cheaper**, by up to 1e-6 yen a boundary
  (`TravelCost.ToleratedTable`).

## Model

| member | source | states |
|---|---|---|
| Scaling.Round | src/optimization_engine/scaling.py:60 | Python's `round`: within one half of its argument, never negative for a non-negative one |
| Scaling.Ceil | src/optimization_engine/scaling.py:78 | the ceiling: at least its argument, by less than one |
| Scaling.FindMaxTime | src/optimization_engine/scaling.py:38 | the longest trip of the matrix: an upper bound that occurs, 0 when the matrix is empty |
| Scaling.ComputeNormalisation | src/optimization_engine/scaling.py:36-47 | the scales are the required headcount times the longest and dearest trip, each taken as at least 1 |
| Scaling.NormalisationPositive | src/optimization_engine/scaling.py:40-46 | no scale is below 1, so no term divides by zero |
| Objective.NormalisedObjective | src/optimization_engine/scaling.py:81-102 | the accumulating loop computes the weighted sum of normalised time, cost and longest trip |
| Objective.ScaledClose | src/optimization_engine/scaling.py:50-65 | the integer objective is within half a unit per assigned person, plus half a unit per second of the longest trip if inequity has a weight, of SCALE times the real one, for any assignment |
| Objective.ObjectiveInRange | src/optimization_engine/scaling.py:68-78 | an assignment no larger than the required headcount has a normalised objective in [0, sum of weights] |
| Objective.ObjectiveReorder | src/optimization_engine/scaling.py:93-102 | the objective does not depend on the order of the assignments |
| Validation.CheckAssignments | src/optimization_engine/validation.py:44-144 | the violations of all five constraints, in the order the passes report them, for both flag settings |
| Validation.CheckMembership | src/optimization_engine/validation.py:56-73 | flags staff not available and facilities not in the event, assignment by assignment |
| Validation.CheckStaff | src/optimization_engine/validation.py:75-85 | flags each person assigned more than once |
| Validation.CheckHeadcounts | src/optimization_engine/validation.py:87-106 | flags too many always, too few only for a complete assignment |
| Validation.CheckDepartments | src/optimization_engine/validation.py:108-120 | flags each department over the cap |
| Validation.CheckQualifications | src/optimization_engine/validation.py:122-142 | flags each requirement with too few matching people |
| Validation.CheckIsClean | src/optimization_engine/validation.py:44-157 | no violation is reported iff the five constraints hold, stated without reference to the passes |
| Validation.CleanMonotone | src/optimization_engine/validation.py:56-120 | what holds of a complete clean assignment holds, as an upper bound, of every part of it, counted with repetition |
| Validation.PinSoundness | src/optimization_engine/service.py:68-86 | rejected pins are hopeless: no complete assignment that contains them passes the checker |
| Model.BuildModel | src/optimization_engine/builder.py:47-113 | translates a problem, or fails iff the travel matrix misses an entry |
| Model.FillPairs | src/optimization_engine/builder.py:60-75 | the nested loop: one variable per staff member and facility, with its coefficient and travel time |
| Model.GroupByDepartment | src/optimization_engine/builder.py:89-91 | the staff of each department, in order |
| CpSat.EncodePins | src/optimization_engine/cp_sat_adapter.py:44-47 | the emitted constraints fix exactly the pinned variables |
| CpSat.EncodeHeadcounts | src/optimization_engine/cp_sat_adapter.py:49-52 | they hold of a 0/1 point iff the chosen pairs meet every headcount exactly |
| CpSat.EncodeStaff | src/optimization_engine/cp_sat_adapter.py:54-57 | they hold iff nobody is chosen twice |
| CpSat.EncodeHardC3 | src/optimization_engine/cp_sat_adapter.py:59-81 | hard: they hold iff every requirement has enough eligible people chosen |
| CpSat.EncodeSoftC3 | src/optimization_engine/cp_sat_adapter.py:67-79 | soft: they hold iff every shortfall is covered by its slack |
| CpSat.EncodeCaps | src/optimization_engine/cp_sat_adapter.py:83-88 | they hold iff no department exceeds the cap |
| CpSat.EncodeTimes | src/optimization_engine/cp_sat_adapter.py:92-95 | they hold iff the longest-trip variable is at least every chosen trip |
| CpSat.EncodeObjective | src/optimization_engine/cp_sat_adapter.py:90-99 | the emitted terms sum to chosen coefficients, plus the minimax term when it is active, plus big-M per unit of slack |
| CpSat.Encode | src/optimization_engine/cp_sat_adapter.py:39-99 | the whole emitted program has exactly the intended solutions and objective |
| CpSat.SlackBounds | src/optimization_engine/cp_sat_adapter.py:68 | every slack lies between 0 and its required count |
| SolverPort.DecisionExists | src/optimization_engine/cp_sat_adapter.py:101-108 | every emitted program has an answer the exact contract accepts: bounded integer programs are infeasible or have a minimum |
| SolverPort.Solve | src/optimization_engine/cp_sat_adapter.py:101-146 | encode, solve, read back: feasible outcomes come from a solution, proven optima from an optimum; with an exact solver feasible iff solvable |
| SolverPort.OptimalityGap | src/optimization_engine/cp_sat_adapter.py:21-25 | the reported gap lies in [0, 1] |
| Agreement.CoreAgrees | src/optimization_engine/cp_sat_adapter.py:44-88 | pins, C1, C2 and C5 of any encoding hold of a set of pairs iff the set meets them as the problem states them |
| Agreement.FullProgramOnSets | src/optimization_engine/cp_sat_adapter.py:44-88 | a set of pairs is a solution of the hard program iff it meets all constraints and contains the pins |
| Agreement.CheckerOnSets | src/optimization_engine/validation.py:147-157 | the checker accepts iff the pairs are distinct and meet the same constraints |
| Agreement.EncoderIsChecker | src/optimization_engine/validation.py:44-157 | encoder and checker are one predicate: a set of pairs solves the hard program iff it contains the pins and has no violation |
| Diagnosis.Pigeonhole | src/optimization_engine/diagnoser.py:34-38 | a solution of C1, C2 and C5 assigns exactly the required headcount, at most the sum over departments of min(cap, size) |
| Diagnosis.Fill | src/optimization_engine/service.py:68-86 | if that sum covers the required headcount, every partial assignment within C2, C5 and the headcounts extends to a complete one |
| Diagnosis.FillableIffCapped | src/optimization_engine/builder.py:89-94 | with accepted pins the C3-free problem is fillable iff the capped department sizes cover the required headcount |
| Diagnosis.CappedAtMostStaff | src/optimization_engine/diagnoser.py:36-38 | the capped sizes never exceed the available staff |
| Optima.ObjectiveSplit | src/optimization_engine/cp_sat_adapter.py:90-99 | the encoded objective is at least scaled objective plus penalty, with equality when the longest-trip variable is tight |
| Optima.CheapestSolves | src/optimization_engine/cp_sat_adapter.py:90-99 | every admissible set of pairs is the choice of a solution whose encoded objective is exactly scaled objective plus penalty |
| Optima.FullSolvable | src/optimization_engine/service.py:49-51 | the full program is solvable iff some set meets all constraints and the pins |
| Optima.RelaxedSolvable | src/optimization_engine/service.py:53-55 | the C3-free program is solvable iff some set meets C1, C2, C5 and the pins |
| Optima.DemotedSolvable | src/optimization_engine/service.py:55-58 | the demoted program is solvable iff the C3-free one is and no required count is negative |
| Optima.TightSlacks | src/optimization_engine/cp_sat_adapter.py:67-79 | in a demoted optimum each slack equals its requirement's shortfall |
| Dominance.SpreadDominates | src/optimization_engine/scaling.py:68-78 | if big-M exceeds the difference of the encoded objectives of any two complete assignments, every demoted optimum minimises total slack first |
| Dominance.RangeDominates | src/optimization_engine/scaling.py:68-78 | if big-M exceeds every encoded objective, every demoted optimum minimises total slack first |
| Dominance.ReachMeansRange | src/optimization_engine/scaling.py:68-78 | if `required * round(SCALE * (w_time + w_cost) / required) + round(SCALE * w_inequity / longest) * longest` is below big-M, big-M exceeds the encoded objective of every complete assignment, for all weights |
| Dominance.ReachDominates | src/optimization_engine/scaling.py:68-78 | under that one condition every demoted optimum minimises total slack first, for all weights |
| Dominance.MarginMeansReach | src/optimization_engine/scaling.py:71-78 | the condition is met whenever the real-valued range plus rounding stays below big-M |
| Dominance.NoInequityMargin | src/optimization_engine/scaling.py:71-78 | without an inequity weight the range plus rounding stays below big-M, unless more people are wanted than there are pairs |
| Dominance.RoomMargin | src/optimization_engine/scaling.py:71-78 | so it does, for all weights, whenever required headcount + longest trip < 2 (pairs + 2) |
| Dominance.PenaltyDominates | src/optimization_engine/scaling.py:68-78 | in both cases the reach is below big-M and every demoted optimum minimises total slack first, whether or not anything is fillable |
| PenaltyLimit.WithinMeansSlackFirst | src/optimization_engine/scaling.py:63-78 | inequity only: while the rounded coefficient times the difference between the longest and the shortest trip stays below big-M, slack comes first |
| PenaltyLimit.PenaltyLimitIsExact | src/optimization_engine/scaling.py:63-78 | inequity only, at least three pairs: slack comes first in all problems of given weight, shortest trip, longest trip and size iff the rounded coefficient times the difference of the trips is below big-M |
| PenaltyLimit.OrdinaryTripFails | src/optimization_engine/scaling.py:71-78 | weight 1, trips of 0 and 3500 s, three pairs: a problem that reaches the demoted stage and has an optimum with avoidable slack |
| PenaltyLimit.ShortestTripSuffices | src/optimization_engine/scaling.py:63-78 | the limit holds, for any number of pairs, while longest * (longest - shortest) is at most 2 * SCALE * weight * shortest |
| PenaltyLimit.DefaultTripSuffices | src/shared_kernel/value_objects.py:35 | weight 1, no trip below the default 900 s: the limit holds for every longest trip up to 42000 s |
| PenaltyLimit.SmallWeightFails | src/optimization_engine/scaling.py:63-78 | weight 0.001, trips of 900 and 1999 s, three pairs: a problem at the demoted stage with an optimum with avoidable slack |
| PenaltyReach.ReachIsExact | src/optimization_engine/scaling.py:68-78 | for all weights, any longest trip, headcount and number of pairs: big-M exceeds every encoded objective in all such problems iff the reach stays below big-M, or the headcount is 0 or beyond the pairs |
| PenaltyReach.ReachOfInequity | src/optimization_engine/scaling.py:63-78 | with inequity alone that is the limit of PenaltyLimit.PenaltyLimitIsExact for a shortest trip of 0 s |
| PenaltyReach.MixedWeightsFail | src/optimization_engine/scaling.py:71-78 | valid mixed weights, everybody one hour away, one person wanted, three pairs: a problem with a complete assignment whose encoded objective is not below big-M |
| PenaltyTrade.SlackFirstIsExact | src/optimization_engine/scaling.py:68-78 | for all weights and any longest trip, two people wanted and 2 n pairs with n at least 2: every problem that reaches the demoted stage minimises slack first iff the reach stays below big-M |
| PenaltyTrade.MixedWeightsTrade | src/optimization_engine/scaling.py:71-78 | weights 0.5, 0.3 and 0.2, trips of 0 s and one hour, four pairs: a problem at the demoted stage with an optimum that gives a fillable requirement up |
| Service.MakeResult | src/shared_kernel/problem.py:76-113 | a result is accepted iff objective and gap are in range, only C3 is violated and no staff member appears twice |
| Service.ValidatePins | src/optimization_engine/service.py:68-86 | reports the first violation of the pins as a partial assignment, or none iff there is none |
| Service.ToAssignmentResult | src/optimization_engine/result_mapper.py:20-31 | maps an outcome, recomputing the objective; refused exactly when the firewall refuses |
| Service.PassesFirewall | src/shared_kernel/problem.py:91-113 | no outcome read from a solution trips the firewall, given non-negative travel data |
| Service.Stage | src/optimization_engine/service.py:49-58 | one stage gives an answer iff its program is solvable (exact solver), read from an optimum |
| Service.Optimize | src/optimization_engine/service.py:35-61 | the staged solve; refuses only rejected pins, an incomplete matrix or negative travel data, and each of the first two exactly then |
| Guarantees.StagedSolveIsExact | src/optimization_engine/service.py:46-61 | a clean answer iff one exists; a demoted answer iff only C3 stands in the way and no count is negative; a diagnosis otherwise |
| Guarantees.DiagnosisMeans | src/optimization_engine/diagnoser.py:41-59 | TOTAL_SHORTAGE iff required > available; HARD_CONSTRAINT iff there are enough people but the capped sizes fall short (or a negative count bars demotion); the reported shortage is the exact difference |
| NegativeCounts.NegativeCountIsImported | src/data_management/services.py:245-266 | a facility row with a requirement count of -1 in its exported cell passes every import check and is built with that count |
| NegativeCounts.DemotionCanFail | src/optimization_engine/cp_sat_adapter.py:67-79 | for a well-formed problem with that facility the C3-free program is solvable and the demoted one is not |
| NegativeCounts.StuckIsDiagnosed | src/optimization_engine/service.py:53-61 | its staged solve reports HARD_CONSTRAINT although the capped departments cover the required headcount |
| Guarantees.ReportMatchesChecker | src/optimization_engine/cp_sat_adapter.py:129-131 | a demoted optimum reports exactly the C3 requirements the checker flags, in its order, and the checker finds nothing else |
| Guarantees.FullAnswerIsClean | src/optimization_engine/service.py:49-51 | an answer of the full stage has no violation, by the solver's report and by the checker |
| Guarantees.PinsSurvive | src/optimization_engine/cp_sat_adapter.py:118-127 | every answer, time-limited or not, contains every pin, and marks the pins and nothing else as pinned |
| Guarantees.NearOptimal | src/optimization_engine/scaling.py:81-102 | the reported objective exceeds that of any clean assignment that keeps the pins by at most (required + longest trip) / SCALE, by required / SCALE without an inequity weight |
| Guarantees.NearOptimalDemoted | src/optimization_engine/cp_sat_adapter.py:90-99 | the same bound for a demoted answer, against every complete assignment that keeps the pins and leaves no more people missing |
| Existence.ExactSolverExists | src/optimization_engine/cp_sat_adapter.py:101-108 | a solver meeting both contracts exists, so no theorem about answers is empty |
| Existence.OptimumExists | src/optimization_engine/cp_sat_adapter.py:99 | from any solution of a stage an optimum can be reached: encoded objectives are never negative |
| Existence.AnswerExists | src/optimization_engine/service.py:35-61 | every well-formed problem with non-negative travel data has the answer the exact staged solve gives |
| TravelCost.AcceptedIff | src/shared_kernel/value_objects.py:134-222 | construction accepts exactly the tables with positive, strictly increasing bounds, one final unbounded band and no drop beyond the tolerance |
| TravelCost.CostIsTotal | src/shared_kernel/value_objects.py:224-232 | the scan always finds a band - the final raise is unreachable - and never a negative cost |
| TravelCost.ScanFinds | src/shared_kernel/value_objects.py:224-228 | the scan charges the band whose half-open interval holds the distance |
| TravelCost.CostMonotone | src/shared_kernel/value_objects.py:196-222 | for any tolerance: cost at d1 <= cost at d2 + k tolerances, k the boundaries in (d1, d2] |
| TravelCost.AcceptedIsMonotone | src/shared_kernel/value_objects.py:168-232 | an accepted table is total and monotone up to 1e-6 yen per boundary crossed |
| TravelCost.ExactlyMonotoneIff | src/shared_kernel/value_objects.py:196-222 | cost never falls with distance iff no boundary drops at all |
| TravelCost.DefaultTable | src/shared_kernel/value_objects.py:236-243 | the default table is accepted and exactly monotone |
| TravelCost.ToleratedTable | src/shared_kernel/value_objects.py:216-222 | an accepted table whose cost falls at a boundary |
| TravelCost.MetricsSane | src/distance_cost/calculator.py:42-86 | metrics are non-negative, distance is at least the straight line, time is never underestimated |
| TravelCost.MetricsMonotone | src/distance_cost/calculator.py:37-86 | a longer line, a larger detour factor or a slower speed never shorten distance or time, nor lower cost beyond the tolerance |
| DistanceCache.LexTotalOrder | src/distance_cost/entities.py:34 | string order is total and antisymmetric |
| DistanceCache.CanonicalKeyIsThePair | src/distance_cost/entities.py:30-34 | two pairs share a key iff they are the same unordered pair; the key is in order |
| DistanceCache.ComputeMatrix | src/distance_cost/matrix.py:26-35 | the triangular loop emits n (n + 1) / 2 entries: every unordered pair once, the diagonal included |
| DistanceCache.MatrixKeysDistinct | src/data_management/schema.py:168-170 | with distinct ids no two entries collide and all are in canonical order |
| DistanceCache.MatrixIsCoherent | src/data_management/services.py:135-142 | storing the matrix gives a cache coherent with the master |
| DistanceCache.CacheAnswers | src/data_management/repositories.py:272-284 | get(a, b) = get(b, a) = the distance if both districts are in the master, nothing otherwise |
| DistanceCache.DistanceStore.PutDistances | src/data_management/repositories.py:286-288 | succeeds iff the keys are distinct and canonical, and stores all entries |
| DistanceCache.DistanceStore.Commit | src/data_management/services.py:135-142 | master and recomputed cache change together, or neither does; coherence is kept |
| DistanceCache.DistanceStore.Import | src/data_management/services.py:108-143 | rejected with the exact bad lines, rolled back, or stored entirely; coherent in every case |
| DistanceCache.DistanceStore.GetDistance | src/data_management/repositories.py:272-284 | the stored answer, which is the distance for two districts of the master |
| CsvImport.CheckRows | src/data_management/services.py:166-203 | reports exactly the lines of bad rows - missing key, repeated key, unbuildable record; with none, the records of all rows in order |
| CsvCells.SplitJoin | src/data_management/services.py:430-431 | splitting undoes joining for parts free of the separator |
| CsvCells.SplitListJoin | src/data_management/services.py:430-431 | `_split_list` undoes joining for trimmed parts, the empty list included |
| Decimals.DecimalRoundTrip | src/data_management/services.py:443 | `int` reads a printed integer back, negative ones included, whatever else the digit table holds |
| Decimals.UnderscoresAndSigns | src/data_management/services.py:443 | single underscores between digits and a plus sign are read, other underscores are refused |
| CsvCells.LabelRoundTrip | src/data_management/services.py:73-83 | looking a label up over the three enumerations gives its requirement back |
| CsvCells.LabelsDistinct | src/shared_kernel/enums.py:38-52 | no two requirements share a label, across all three enumerations |
| CsvCells.ParseRequirements | src/data_management/services.py:434-446 | the loop parses item by item; one malformed item fails the cell; counts in any Unicode digits, with signs and underscores as `int` reads them |
| CsvCells.RequirementCellRoundTrip | src/data_management/services.py:275-278 | parsing an exported requirement cell gives the same list in order, for every list and every digit table |
| CsvCells.RequirementCellInjective | src/data_management/services.py:275-278 | different requirement lists never export to the same cell |
| CsvCells.QualificationCellRoundTrip | src/data_management/services.py:214-216 | parsing an exported qualification cell gives the same set, whatever the order of the labels |
| Availability.LatestOf | src/shared_kernel/availability.py:50 | the greatest instant: it occurs and bounds all others |
| Availability.AmbiguousIff | src/shared_kernel/availability.py:51-59 | the function refuses iff two rows of the pair share its latest instant |
| Availability.NeverAmbiguous | src/data_management/schema.py:135-139 | under the UNIQUE constraint it never refuses, and answers nothing iff nothing was declared |
| Availability.QueryRefinesFunction | src/data_management/repositories.py:226-242 | the correlated-maximum query returns a row iff the function returns it for that staff member |
| Availability.QueryOncePerStaff | src/data_management/repositories.py:226-242 | the query never returns two rows of one staff member |
| MasterData.Database.ImportDistricts | src/data_management/services.py:108-143 | rejected, rolled back or stored entirely, each exactly when the rows, the stored ids and the injected failure say; every reference stays valid |
| MasterData.Database.ImportStaff | src/data_management/services.py:161-207 | rejected, rolled back or stored entirely, each exactly when the rows and stored keys say; the store stays sound |
| MasterData.Database.ImportFacilities | src/data_management/services.py:232-268 | the same for facilities, with the headcount and requirement checks of their construction |
| MasterData.Database.ImportDeclarations | src/data_management/services.py:306-342 | the same for declarations: unknown staff, unreadable times and repeated instants are rejected, a missing event or stored instant rolls back |
| MasterData.Database.CreateEvent | src/data_management/services.py:380-382 | refused iff the id exists; a new event starts without declarations and assignments even if its id was used before |
| MasterData.Database.Transition | src/data_management/services.py:388-408 | allowed iff the table allows it and, to start collecting, a facility exists |
| MasterData.Database.DeleteEvent | src/data_management/services.py:410-422 | a confirmed event is refused; any other takes exactly its declarations and assignments along |
| MasterData.EventDeleted | src/data_management/schema.py:125-152 | the cascade leaves no reference to the event behind and keeps every other constraint |
| ProblemBuilder.AvailableMeansEffective | src/api_orchestration/problem_builder.py:54-59 | the selected staff are, each once, those whose declaration in force is available |
| ProblemBuilder.BuildMatrix | src/api_orchestration/problem_builder.py:61-68 | the nested loops enter exactly one metric per staff member and facility |
| ProblemBuilder.BuildProblem | src/api_orchestration/problem_builder.py:36-90 | fails iff the event is missing; otherwise distinct ids, a complete non-negative matrix with the right metrics, and exactly the available staff, in every reachable store |
| ProblemBuilder.MatrixAgreesWithCache | src/distance_cost/calculator.py:76-81 | the matrix distance is the cached great-circle distance times the detour factor |
| Pipeline.RunJob | src/api_orchestration/worker.py:52-79 | a job on an existing event never raises in building or solving; with an exact solver its outcome is decided by capacities and available staff alone |
| Pipeline.StagedIsOutcome | src/optimization_engine/service.py:46-61 | clean iff fillable with C3, TOTAL_SHORTAGE iff people are missing, assigned iff the capped sizes suffice (counts non-negative) |
| Replay.BuildReplay | src/comparison_report/replay.py:29-67 | the replay has the actual headcounts, the available staff of the master and their metrics; it fails iff an actual headcount is below its facility's requirements or a lookup for a candidate and a facility misses |
| Replay.MadeMetricsNonNegative | src/comparison_report/metrics.py:43-55 | metrics made from a master are non-negative, wherever the lookups succeed |
| Replay.ReplayWellFormed | src/comparison_report/replay.py:36-67 | every replay meets the engine's preconditions |
| Replay.BaselineMeetsHeadcounts | src/comparison_report/replay.py:36-42 | the actual assignment meets C1 and C2 of its replay by construction |
| Replay.ReplayDominance | src/comparison_report/service.py:41-49 | if the baseline also meets C3, C4 and C5, the optimised objective exceeds it by at most (required + longest trip) / SCALE, by required / SCALE without an inequity weight |
| ManualEdit.RowsReplaced | src/api_orchestration/services.py:79-96 | replacing an event's rows as a whole keeps the store sound once their own key and references are checked |
| ManualEdit.EditService.Patch | src/api_orchestration/routers.py:212-235 | accepted iff the edited set violates nothing; then it can be saved and is what is stored; refused edits change nothing |
| ManualEdit.CleanIsStorable | src/api_orchestration/services.py:79-96 | a set without violations meets the table's key and references |
| ManualEdit.ExactHeadcountsFreeze | src/api_orchestration/routers.py:219-233 | from exact headcounts an edit is accepted iff it repeats the person's place and nothing was violated |
| ManualEdit.EditMovesNobody | src/api_orchestration/routers.py:219-233 | an accepted edit of a complete assignment keeps every pair, and adds one at most for somebody unassigned at a facility added since; the result is complete again |
| ManualEdit.NoRunOfEditsMovesAnyone | src/api_orchestration/routers.py:219-233 | after any run of edits, with declarations changing and facilities added in between, everybody of a complete assignment is where they were; new pairs are only at added facilities, and without those there are none |
| ManualEdit.AddedPlaceIsTaken | src/api_orchestration/routers.py:219-233 | an edit that does put somebody unassigned at an added facility, accepted |
| JobQueue.JobTable.Enqueue | src/api_orchestration/job_queue.py:86-101 | adds a QUEUED row iff the id is new and the event exists |
| JobQueue.JobTable.SelectOldest | src/api_orchestration/job_queue.py:110-117 | an oldest queued job, none iff none is queued |
| JobQueue.JobTable.ClaimNext | src/api_orchestration/job_queue.py:104-131 | undisturbed: the oldest queued job becomes RUNNING, nothing else changes |
| JobQueue.JobTable.Finish | src/api_orchestration/job_queue.py:134-140 | overwrites the state whatever it was |
| JobQueue.JobTable.SaveResult | src/optimization_engine/repository.py:19-59 | the inserts go through together, iff the event exists, the result row is new, and everybody assigned is named once and has no row for the event yet |
| JobQueue.Worker.Step | src/api_orchestration/worker.py:39-86 | undisturbed: an oldest queued job ends as its outcome says; it raises iff the solution cannot be saved - its result row exists or somebody it assigns already has a row for the event - and then leaves the job RUNNING |
| JobQueue.SecondOptimisationRaises | src/api_orchestration/worker.py:78-86 | two solved jobs of one event, each saveable on its own, one after the other: the first succeeds, and the second stays RUNNING without a result iff they assign somebody in common |
| JobQueue.StepIsPlan | src/api_orchestration/worker.py:39-86 | the undisturbed step is a run of the state machine: select, claim and the transactions of the outcome leave the tables the method leaves |
| JobQueue.StepKeepsInvIff | src/api_orchestration/worker.py:39-86 | every interleaved step, crash, edit and deletion keeps one worker per job, held jobs RUNNING and succeeded jobs recorded, iff it does not enqueue an id that a worker still holds |
| JobQueue.RunKeepsInv | src/api_orchestration/job_queue.py:104-140 | so does every run whose enqueues are so guarded, reused ids included: no job is ever held twice and SUCCEEDED implies a committed result row |
| JobQueue.TerminalWhilePresent | src/api_orchestration/job_queue.py:134-153 | in such a run a terminal row never changes as long as it stays in the table |
| JobQueue.NoReuseIsGuarded | src/api_orchestration/job_queue.py:86-101 | a run that never enqueues an id twice is guarded throughout |
| JobQueue.LeavesQueuedOnce | src/api_orchestration/job_queue.py:119-126 | without reuse a job that left QUEUED is never queued again |
| JobQueue.ClaimedOnce | src/api_orchestration/job_queue.py:119-131 | without reuse no two successful claims of a run take the same job |
| JobQueue.TerminalForever | src/api_orchestration/job_queue.py:134-153 | without reuse a terminal row is only ever deleted with its event, never changed or replaced |
| JobQueue.ClaimTakesOldest | src/api_orchestration/job_queue.py:109-126 | with non-decreasing enqueue times and without reuse a successful claim takes an oldest queued job, whatever came between select and update |
| JobIds.GuardIsExact | src/api_orchestration/job_queue.py:104-131 | after a possible step from a good state no continuation without further enqueues gives a job to two workers iff the step did not enqueue an id still held: otherwise claiming job after job gets there |
| JobIds.JobIdIff | src/api_orchestration/routers.py:180-182 | two ids J-{event}-{second} are equal iff event and second are - or for the negative of a second and an event id that ends in a dash |
| JobIds.NoReuseIff | src/api_orchestration/routers.py:175-189 | from the epoch on, a run reuses an id iff it enqueues one event twice in one second |
| JobIds.ReuseNeedsDeletion | src/data_management/schema.py:178-182 | a reused id gets through only if the first job's event was deleted in between |
| JobIds.RealRunsAreSafe | src/api_orchestration/routers.py:175-189 | with the service's ids and no event enqueued twice in one second every state of every run keeps one worker per job and every success recorded |
| JobIds.ReuseBreaksExclusion | src/api_orchestration/routers.py:175-189 | a run from empty tables, with the service's ids, that ends with two workers holding one job |
| Authentication.Authenticator.Login | src/security/authentication.py:55-85 | a session iff the account exists, is not locked and the password matches; the whole new account store, sessions and log |
| Authentication.Authenticator.Authenticate | src/security/authentication.py:89-94 | the session's user iff it is stored and not expired |
| Authentication.Authenticator.LogoutSession | src/security/authentication.py:96-101 | removes exactly that session, logs its user |
| Authentication.RunLocks | src/security/authentication.py:105-113 | after c checks without success the failures have grown by c and, past the free ones, a lock reaches a lock duration per extra check |
| Authentication.LockoutRate | src/security/authentication.py:55-113 | real-hash checks in a run without success <= max(1, threshold - initial failures) + elapsed / lock duration |
| Authentication.OthersDoNotMatter | src/security/authentication.py:55-74 | logins on other accounts neither change an account nor check its hash |
| RateLimit.RateLimiter.Prune | src/security/rate_limit.py:46-49 | deletes exactly the windows before the previous one |
| RateLimit.RateLimiter.Check | src/security/rate_limit.py:32-39 | counts every request, accepts up to the limit, and keeps only windows from the previous one on |
| RateLimit.PruningExact | src/security/rate_limit.py:32-49 | the stored count never exceeds the true one, and equals it iff no request for the key was followed by one more than a window later |
| RateLimit.PruningIsInvisible | src/security/rate_limit.py:32-49 | while windows never fall more than one below the highest seen, a request is accepted iff fewer than the limit of the whole history had its key |
| RateLimit.ClockJumpForgets | src/security/rate_limit.py:46-49 | a clock that jumps back further gives a spent limit back |
| RateLimit.FirstLimitAccepted | src/security/rate_limit.py:36-39 | exactly the first `limit` requests per key are accepted |
| RateLimit.IntervalBound | src/security/rate_limit.py:32-44 | any interval of T seconds lets at most limit * (ceil(T / 60) + 1) requests through |

## Left out

- Solver internals, time limits, seeds and thread counts: the solver is a parameter. Nothing is claimed about the optimality of a time-limited answer, nor about the diagnosis after a time-out, which the code reports as infeasible.
- Floating-point rounding: floats are `real`, so tolerances are exact and NaN and infinity do not occur.
- Haversine trigonometry: distances are a parameter, assumed non-negative, and symmetric where a lemma says so.
- PenaltyTrade.SlackFirstIsExact: that slack comes first only within the reach is proved for two people wanted and an even number of pairs; PenaltyLimit.PenaltyLimitIsExact gives the exact limit for inequity alone and any number of pairs from three on. The shortest trip sharpens the limit for inequity alone only. For other numbers the reach is proved sufficient; how much two complete assignments that differ in one shortfall can differ in cost then depends on the exchanges the facilities allow.
- Replay.ReplayDominance: is about the normalised objective; the totals, reductions and rates of the comparison report, which the objective weighs but does not equal, are not modelled.
- CsvCells.ParseRequirements: which characters are digits outside ASCII is a parameter, not the Unicode table itself; the length limit of Python's `int`, the CSV file format, encodings and the export sanitiser are not modelled.
- RateLimit.IntervalBound: assumes a limit of at least zero and the steady clock of RateLimit.PruningIsInvisible.
- JobQueue.LeavesQueuedOnce: is about runs that never enqueue an id twice, since a reused id names another job, and so are JobQueue.ClaimedOnce, JobQueue.TerminalForever and JobQueue.ClaimTakesOldest; JobIds.NoReuseIff says when the service's runs are such.
- JobIds.NoReuseIff: clocks are read as microseconds since the epoch, from the epoch on.
- Worker liveness: a crashed worker leaves its job RUNNING for ever, and the model lets it.
- The violation rows stored with a result: their ids follow from the result's, so they never fail on their own.
- Incremental runs keeping earlier assignments: the worker passes none; pins are proved to survive only when given.
- SQL, sessions and row order: tables are values with their constraints, read in insertion order; a transaction is all-or-nothing.
- Names, dates, reasons and other fields no rule here depends on; roles, the authorizer, middleware, settings, DTOs, the audit file and the frontend.
- The sufficiency report, enumerations and other single-branch members, which would only add easy statements.
