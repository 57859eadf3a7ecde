/** What the theorems about answers assume can be had: an exact solver, an optimum of every
    solvable program, and for every well-formed problem the answer the staged solve owes it. */
module Existence {
  import opened Agreement
  import opened CpSat
  import opened Diagnosis
  import opened Domain
  import opened Dominance
  import opened Model
  import opened Optima
  import opened Service
  import opened SolverPort
  import opened Validation

  ghost function Oracle(cp: CpModel): Response {
    if TermsKnown(cp.domains, cp.objective) then
      DecisionExists(cp);
      var r :| Decides(cp, r);
      r
    else
      Response(UNKNOWN, (x: Var) => 0, 0.0, 0.0)
  }

  lemma ExactSolverExists()
    ensures exists solver: Solver :: Exact(solver) && Conforming(solver)
  {
    assert Exact(Oracle) && Conforming(Oracle);
  }

  lemma {:induction false} SlackTotalNonNegative(m: MilpModel, v: Valuation, n: nat)
    requires forall i :: 0 <= i < n ==> v(Slack(i)) >= 0
    ensures SlackTotal(n, v) >= 0
  {
    if n > 0 {
      SlackTotalNonNegative(m, v, n - 1);
    }
  }

  /** No solution of either stage has a negative encoded objective. */
  lemma CostNonNegative(p: Problem, demoteC3: bool, v: Valuation)
    requires WellFormed(p) && NonNegativeTravel(p)
    requires WellFormedModel(ModelOf(p, demoteC3, true)) && Program(ModelOf(p, demoteC3, true), v)
    ensures CpSat.Objective(ModelOf(p, demoteC3, true), v) >= 0
  {
    var m := ModelOf(p, demoteC3, true);
    ObjectiveSplit(p, demoteC3, true, v);
    ScaledNonNegative(p, Picked(p, v));
    if demoteC3 {
      SlackBounds(m, Chosen(m.pairs, v), v);
      SlackTotalNonNegative(m, v, |m.c3|);
      BigMPositive(p.parameters.weights, |m.pairs|);
      IntTimes(m.bigM, 0, SlackTotal(|m.c3|, v));
    }
  }

  /** From any solution, cheaper and cheaper ones lead to an optimum. */
  lemma {:induction false} OptimumExists(p: Problem, demoteC3: bool, v: Valuation) returns (best: Valuation)
    requires WellFormed(p) && NonNegativeTravel(p)
    requires WellFormedModel(ModelOf(p, demoteC3, true)) && Program(ModelOf(p, demoteC3, true), v)
    ensures Optimum(ModelOf(p, demoteC3, true), best)
    decreases CpSat.Objective(ModelOf(p, demoteC3, true), v)
  {
    var m := ModelOf(p, demoteC3, true);
    if u: Valuation :| Program(m, u) && CpSat.Objective(m, u) < CpSat.Objective(m, v) {
      CostNonNegative(p, demoteC3, u);
      CostNonNegative(p, demoteC3, v);
      best := OptimumExists(p, demoteC3, u);
    } else {
      best := v;
    }
  }

  /** The answer read from an optimum of a stage. */
  lemma StageAnswerExists(p: Problem, demoteC3: bool) returns (r: Result<Answer, Refusal>)
    requires WellFormed(p) && NonNegativeTravel(p)
    requires WellFormedModel(ModelOf(p, demoteC3, true)) && Solvable(ModelOf(p, demoteC3, true))
    ensures FromOptimum(p, demoteC3, r)
  {
    var m := ModelOf(p, demoteC3, true);
    var v: Valuation :| Program(m, v);
    var best := OptimumExists(p, demoteC3, v);
    var o := SolveOutcome(true, ReadAssignments(m, best), 0.0, 0.0, ProvenOptimal,
                          if demoteC3 then ReadViolations(m.c3, best) else []);
    r := Ok(Assigned(ResultOf(p, o)));
    assert OptimumBehind(p, demoteC3, best, o);
  }

  /** Every well-formed problem with non-negative travel data has the answer the exact
      staged solve gives. */
  lemma AnswerExists(p: Problem) returns (r: Result<Answer, Refusal>)
    requires WellFormed(p) && NonNegativeTravel(p)
    ensures Staged(p, r)
  {
    ModelWellFormed(p, false, true);
    ModelWellFormed(p, false, false);
    ModelWellFormed(p, true, true);
    if Check(p, p.pins, false, false) != [] {
      r := Err(PinsInfeasible(Check(p, p.pins, false, false)[0]));
    } else if Solvable(ModelOf(p, false, true)) {
      r := StageAnswerExists(p, false);
    } else if Solvable(ModelOf(p, false, false)) && Solvable(ModelOf(p, true, true)) {
      r := StageAnswerExists(p, true);
    } else {
      r := Ok(Diagnosed(Classify(p)));
    }
  }
}
