/** What a worker does with a job: build the problem from the store, then optimise it. */
module Pipeline {
  import opened Diagnosis
  import opened DistanceCache
  import opened Domain
  import opened Guarantees
  import opened MasterData
  import opened ProblemBuilder
  import opened Scaling
  import opened Service
  import opened SolverPort
  import opened TravelCost
  import opened Validation

  /** Whatever the store went through, a job on an existing event never raises; with an exact
      solver it ends in a clean assignment, a demoted one or a diagnosis exactly as the
      capacities and the staff available at that moment allow. The worker passes no previous
      assignments, so nothing is pinned in either mode. */
  method RunJob(
      db: Database, event: EventId, parameters: Parameters, travel: TravelParameters, incremental: bool, solver: Solver)
    returns (answer: Option<Answer>, ghost problem: Option<Problem>)
    requires db.Valid() && NonNegative(db.distances.dist) && parameters.Valid() && travel.Valid()
    requires Conforming(solver)
    ensures answer.Some? <==> event in db.events
    ensures problem.Some? <==> event in db.events
    ensures problem.Some? ==>
              WellFormed(problem.value) && problem.value.pins == [] && problem.value.facilities == db.facilities
    ensures problem.Some? ==>
              forall s :: s in problem.value.availableStaff <==>
                s in db.staff && IsAvailable(db.declarations, s.id, event)
    ensures Exact(solver) && answer.Some? ==> Outcome(problem.value, answer.value)
  {
    var built := BuildProblem(db, event, parameters, travel, incremental, []);
    if built.Err? {
      return None, None;
    }
    var p := built.value;
    assert p.pins == [];
    NoPinsNoViolation(p);
    var r := Optimize(p, solver);
    answer, problem := Some(r.value), Some(p);
    if Exact(solver) {
      StagedIsOutcome(p, r);
    }
  }

  /** The answer a problem must get. */
  ghost predicate Outcome(p: Problem, a: Answer) {
    && (FullyFillable(p) <==> a.Assigned? && a.result.violations == [])
    && (a.Diagnosed? && a.diagnosis.cause.TotalShortage? <==> TotalRequired(p.facilities) > |p.availableStaff|)
    && (NonNegativeCounts(p) ==>
          (a.Assigned? <==> TotalRequired(p.facilities) <= CappedCapacity(p)))
  }

  lemma StagedIsOutcome(p: Problem, r: Result<Answer, Refusal>)
    requires WellFormed(p) && NonNegativeTravel(p)
    requires Check(p, p.pins, false, false) == [] && Staged(p, r)
    ensures r.Ok? && Outcome(p, r.value)
  {
    StagedSolveIsExact(p, r);
    DiagnosisMeans(p, r);
    FillableIffCapped(p);
    if FullyFillable(p) {
      assert Fillable(p);
    }
  }
}
