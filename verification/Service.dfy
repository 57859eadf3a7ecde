/** The optimisation service: pin pre-validation, the staged solves, the result mapper and
    the firewall every result passes through. */
module Service {
  import opened Domain
  import opened Counting
  import opened Validation
  import opened Objective
  import opened Model
  import opened CpSat
  import opened SolverPort
  import opened Agreement
  import opened Diagnosis
  import opened Optima

  datatype AssignmentResult = AssignmentResult(
    event: EventId,
    assignments: seq<Assignment>,
    objectiveValue: real,
    optimalityGap: real,
    status: SolverStatus,
    violations: seq<Violation>)

  datatype FirewallError =
    | NegativeObjective
    | GapOutOfRange
    | NonDemotable(violation: Violation)
    | DuplicateStaff(staff: StaffId)

  datatype Refusal =
    | PinsInfeasible(first: Violation)
    | CannotBuild(missing: ModelError)
    | Firewall(error: FirewallError)

  datatype Answer = Assigned(result: AssignmentResult) | Diagnosed(diagnosis: InfeasibilityDiagnosis)

  ghost predicate OnlyC3(violations: seq<Violation>) {
    forall x :: x in violations ==> x.constraint == C3
  }

  ghost predicate StaffOnce(assignments: seq<Assignment>) {
    forall i, j :: 0 <= i < j < |assignments| ==> assignments[i].staff != assignments[j].staff
  }

  /** The checks an AssignmentResult runs on construction. */
  method MakeResult(result: AssignmentResult) returns (r: Result<AssignmentResult, FirewallError>)
    ensures r.Ok? <==> && result.objectiveValue >= 0.0
                       && 0.0 <= result.optimalityGap <= 1.0
                       && OnlyC3(result.violations)
                       && StaffOnce(result.assignments)
    ensures r.Ok? ==> r.value == result
  {
    if result.objectiveValue < 0.0 {
      return Err(NegativeObjective);
    }
    if !(0.0 <= result.optimalityGap <= 1.0) {
      return Err(GapOutOfRange);
    }
    for i := 0 to |result.violations|
      invariant forall k :: 0 <= k < i ==> result.violations[k].constraint == C3
    {
      if result.violations[i].constraint != C3 {
        assert result.violations[i] in result.violations;
        return Err(NonDemotable(result.violations[i]));
      }
    }
    var seen: set<StaffId> := {};
    for i := 0 to |result.assignments|
      invariant seen == set k | 0 <= k < i :: result.assignments[k].staff
      invariant forall j, k :: 0 <= j < k < i ==> result.assignments[j].staff != result.assignments[k].staff
    {
      if result.assignments[i].staff in seen {
        return Err(DuplicateStaff(result.assignments[i].staff));
      }
      seen := seen + {result.assignments[i].staff};
    }
    r := Ok(result);
  }

  /** `_validate_pins`: pins are checked as a partial assignment. */
  method ValidatePins(p: Problem) returns (first: Option<Violation>)
    ensures p.pins == [] ==> first.None?
    ensures p.pins != [] ==> (first.None? <==> Check(p, p.pins, false, false) == [])
    ensures first.Some? ==> Check(p, p.pins, false, false) != [] && first.value == Check(p, p.pins, false, false)[0]
  {
    if p.pins == [] {
      return None;
    }
    var violations := CheckAssignments(p, p.pins, false, false);
    first := if violations == [] then None else Some(violations[0]);
  }

  lemma NoPinsNoViolation(p: Problem)
    requires p.parameters.Valid() && (forall f :: f in p.facilities ==> f.headcount >= 1)
    requires p.pins == []
    ensures Check(p, p.pins, false, false) == []
  {
    CheckIsClean(p, [], false, false);
    assert PairsOf(p.pins) == [];
  }

  ghost function ResultOf(p: Problem, o: SolveOutcome): AssignmentResult {
    AssignmentResult(p.event, o.assignments, ObjectiveOf(p, PairsOf(o.assignments)),
                     o.optimalityGap, o.status, o.c3Violations)
  }

  /** `to_assignment_result`: the objective is recomputed, never read from the solver. */
  method ToAssignmentResult(p: Problem, o: SolveOutcome) returns (r: Result<Answer, Refusal>)
    requires forall a :: a in o.assignments ==> a.Pair() in p.travel
    ensures r.Ok? ==> r.value == Assigned(ResultOf(p, o))
    ensures r.Err? ==> r.error.Firewall?
    ensures r.Ok? <==> && ResultOf(p, o).objectiveValue >= 0.0
                       && 0.0 <= o.optimalityGap <= 1.0
                       && OnlyC3(o.c3Violations)
                       && StaffOnce(o.assignments)
  {
    var value := NormalisedObjective(p, o.assignments);
    var made := MakeResult(AssignmentResult(p.event, o.assignments, value, o.optimalityGap, o.status, o.c3Violations));
    r := if made.Ok? then Ok(Assigned(made.value)) else Err(Firewall(made.error));
  }

  // ----- A solution's outcome always passes the firewall -----

  lemma PairTravel(p: Problem, demoteC3: bool, includeC3: bool, v: Valuation)
    requires WellFormed(p)
    ensures forall a :: a in ReadAssignments(ModelOf(p, demoteC3, includeC3), v) ==> a.Pair() in p.travel
  {
    PairsHaveTravel(p);
    ReadPairs(p, demoteC3, includeC3, v);
    var m := ModelOf(p, demoteC3, includeC3);
    forall a | a in ReadAssignments(m, v)
      ensures a.Pair() in p.travel
    {
      var i :| 0 <= i < |ReadAssignments(m, v)| && ReadAssignments(m, v)[i] == a;
      assert Picked(p, v)[i] == a.Pair();
      assert Picked(p, v)[i] in Picked(p, v);
    }
  }

  lemma DistinctPlaces(ps: seq<Pair>)
    requires NoDup(ps) && SetC2(Elements(ps))
    ensures forall i, j :: 0 <= i < j < |ps| ==> ps[i].0 != ps[j].0
  {
    forall i, j | 0 <= i < j < |ps|
      ensures ps[i].0 != ps[j].0
    {
      assert ps[i] in Elements(ps) && ps[j] in Elements(ps);
      if ps[i].0 == ps[j].0 {
        TwoPlaces(Elements(ps), ps[i], ps[j]);
      }
    }
  }

  lemma PassesFirewall(p: Problem, demoteC3: bool, includeC3: bool, v: Valuation, o: SolveOutcome)
    requires WellFormed(p)
    requires WellFormedModel(ModelOf(p, demoteC3, includeC3))
    requires Program(ModelOf(p, demoteC3, includeC3), v) && Reads(ModelOf(p, demoteC3, includeC3), v, o)
    ensures NonNegativeTravel(p) ==> ResultOf(p, o).objectiveValue >= 0.0
    ensures OnlyC3(o.c3Violations) && StaffOnce(o.assignments)
  {
    var ps := Picked(p, v);
    var m := ModelOf(p, demoteC3, includeC3);
    ReadPairs(p, demoteC3, includeC3, v);
    assert o.assignments == ReadAssignments(m, v);
    assert ResultOf(p, o).objectiveValue == ObjectiveOf(p, ps);
    assert o.c3Violations == (if m.demoteC3 then ReadViolations(m.c3, v) else []);
    assert OnlyC3(o.c3Violations);
    hide *;
    PickedIsChoice(p, v);
    ChosenHard(p, demoteC3, includeC3, v);
    HardStaffOnce(p, o.assignments);
    if NonNegativeTravel(p) {
      HardObjective(p, ps);
    }
  }

  lemma HardStaffOnce(p: Problem, assignments: seq<Assignment>)
    requires NoDup(PairsOf(assignments)) && SetHard(p, Elements(PairsOf(assignments)))
    ensures StaffOnce(assignments)
  {
    var ps := PairsOf(assignments);
    DistinctPlaces(ps);
    assert forall i :: 0 <= i < |ps| ==> assignments[i].staff == ps[i].0;
  }

  lemma HardObjective(p: Problem, ps: seq<Pair>)
    requires WellFormed(p) && NonNegativeTravel(p)
    requires NoDup(ps) && SetHard(p, Elements(ps))
    ensures ObjectiveOf(p, ps) >= 0.0
  {
    Pigeonhole(p, Elements(ps));
    ElementsSize(ps);
    ObjectiveInRange(p, ps);
  }

  // ----- The staged solve -----

  ghost predicate Sane(p: Problem) {
    && DistinctStaff(p.availableStaff)
    && DistinctFacilities(p.facilities)
    && p.parameters.Valid()
    && (forall f :: f in p.facilities ==> f.headcount >= 1)
  }

  /** A proven optimum of one stage, and the outcome read from it. */
  ghost predicate OptimumBehind(p: Problem, demoteC3: bool, v: Valuation, o: SolveOutcome)
    requires WellFormed(p)
  {
    ModelWellFormed(p, demoteC3, true);
    && Optimum(ModelOf(p, demoteC3, true), v)
    && Reads(ModelOf(p, demoteC3, true), v, o)
    && o.status.ProvenOptimal? && o.optimalityGap == 0.0
  }

  ghost predicate FromOptimum(p: Problem, demoteC3: bool, r: Result<Answer, Refusal>)
    requires WellFormed(p)
  {
    exists v: Valuation, o: SolveOutcome ::
      OptimumBehind(p, demoteC3, v, o) && r == Ok(Assigned(ResultOf(p, o)))
  }

  ghost predicate FromSolution(p: Problem, r: Result<Answer, Refusal>)
    requires WellFormed(p)
  {
    exists demoteC3: bool, v: Valuation, o: SolveOutcome ::
      SolutionBehind(p, demoteC3, v, o) && r == Ok(Assigned(ResultOf(p, o)))
  }

  ghost predicate SolutionBehind(p: Problem, demoteC3: bool, v: Valuation, o: SolveOutcome)
    requires WellFormed(p)
  {
    ModelWellFormed(p, demoteC3, true);
    Program(ModelOf(p, demoteC3, true), v) && Reads(ModelOf(p, demoteC3, true), v, o)
  }

  /** The whole service's answer under an exact solver. */
  ghost predicate Staged(p: Problem, r: Result<Answer, Refusal>)
    requires WellFormed(p)
  {
    ModelWellFormed(p, false, true);
    ModelWellFormed(p, false, false);
    ModelWellFormed(p, true, true);
    if Check(p, p.pins, false, false) != [] then r == Err(PinsInfeasible(Check(p, p.pins, false, false)[0]))
    else if Solvable(ModelOf(p, false, true)) then FromOptimum(p, false, r)
    else if Solvable(ModelOf(p, false, false)) && Solvable(ModelOf(p, true, true)) then FromOptimum(p, true, r)
    else r == Ok(Diagnosed(Classify(p)))
  }

  /** Solve one stage and, if it succeeds, map the outcome to an answer. */
  method Stage(p: Problem, solver: Solver, demoteC3: bool) returns (answer: Option<Result<Answer, Refusal>>)
    requires WellFormed(p)
    requires Conforming(solver)
    ensures WellFormedModel(ModelOf(p, demoteC3, true))
    ensures answer.Some? && answer.value.Ok? ==> FromSolution(p, answer.value)
    ensures answer.Some? && answer.value.Err? ==> answer.value.error.Firewall?
    ensures answer.Some? && NonNegativeTravel(p) ==> answer.value.Ok?
    ensures Exact(solver) ==> (answer.Some? <==> Solvable(ModelOf(p, demoteC3, true)))
    ensures Exact(solver) && answer.Some? && answer.value.Ok? ==> FromOptimum(p, demoteC3, answer.value)
  {
    ModelWellFormed(p, demoteC3, true);
    var built := BuildModel(p, demoteC3, true);
    var m := built.value;
    var o := Solve(m, solver);
    if !o.feasible {
      return None;
    }
    ghost var v: Valuation :| Program(m, v) && Reads(m, v, o);
    if Exact(solver) {
      ghost var best: Valuation :| Optimum(m, best) && Reads(m, best, o);
      assert OptimumBehind(p, demoteC3, best, o);
    }
    PairTravel(p, demoteC3, true, v);
    PassesFirewall(p, demoteC3, true, v, o);
    var r := ToAssignmentResult(p, o);
    answer := Some(r);
    assert SolutionBehind(p, demoteC3, v, o);
  }

  method StageWithoutC3(p: Problem, solver: Solver) returns (feasible: bool)
    requires WellFormed(p)
    requires Conforming(solver)
    ensures WellFormedModel(ModelOf(p, false, false))
    ensures Exact(solver) ==> (feasible <==> Solvable(ModelOf(p, false, false)))
  {
    ModelWellFormed(p, false, false);
    var built := BuildModel(p, false, false);
    var o := Solve(built.value, solver);
    feasible := o.feasible;
  }

  method RunStages(p: Problem, solver: Solver) returns (r: Result<Answer, Refusal>)
    requires WellFormed(p) && Conforming(solver)
    requires Check(p, p.pins, false, false) == []
    ensures Exact(solver) && NonNegativeTravel(p) ==> Staged(p, r)
    ensures r.Err? ==> r.error.Firewall? && !NonNegativeTravel(p)
    ensures r.Ok? && r.value.Assigned? ==> FromSolution(p, r)
    ensures r.Ok? && r.value.Diagnosed? ==> r.value.diagnosis == Classify(p)
  {
    var full := Stage(p, solver, false);
    if full.Some? {
      return full.value;
    }
    var relaxed := StageWithoutC3(p, solver);
    if relaxed {
      var demoted := Stage(p, solver, true);
      if demoted.Some? {
        return demoted.value;
      }
    }
    r := Ok(Diagnosed(Classify(p)));
  }

  /** `OptimizationService.optimize`. The only refusals are rejected pins, an incomplete
      travel matrix, and - for negative travel data alone - the firewall. */
  method Optimize(p: Problem, solver: Solver) returns (r: Result<Answer, Refusal>)
    requires Sane(p) && Conforming(solver)
    ensures r.Err? && r.error.PinsInfeasible? <==> Check(p, p.pins, false, false) != []
    ensures r.Err? && r.error.CannotBuild? <==> Check(p, p.pins, false, false) == [] && !CompleteMatrix(p)
    ensures r.Err? && r.error.Firewall? ==> !NonNegativeTravel(p)
    ensures r.Ok? && r.value.Assigned? ==> CompleteMatrix(p) && FromSolution(p, r)
    ensures r.Ok? && r.value.Diagnosed? ==> r.value.diagnosis == Classify(p)
    ensures Exact(solver) && CompleteMatrix(p) && NonNegativeTravel(p) ==> Staged(p, r)
  {
    var bad := ValidatePins(p);
    if p.pins == [] {
      NoPinsNoViolation(p);
    }
    if bad.Some? {
      return Err(PinsInfeasible(bad.value));
    }
    var built := BuildModel(p, false, true);
    if built.Err? {
      return Err(CannotBuild(built.error));
    }
    r := RunStages(p, solver);
  }
}
