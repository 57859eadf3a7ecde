/** Solving a program and reading the answer back. What the solver does inside is not
    modelled: a solver is any function from constraint models to responses, and the
    theorems say which contract they need of it. */
module SolverPort {
  import opened Domain
  import opened Counting
  import opened Model
  import opened CpSat

  datatype CpStatus = OPTIMAL | FEASIBLE | INFEASIBLE | MODEL_INVALID | UNKNOWN

  datatype Response = Response(status: CpStatus, values: Valuation, objective: real, bound: real)
  {
    predicate Found() { status.OPTIMAL? || status.FEASIBLE? }
  }

  type Solver = CpModel -> Response

  /** What any status promises, timed out or not. */
  ghost predicate Conforms(cp: CpModel, r: Response) {
    && (r.Found() ==> Feasible(cp, r.values))
    && (r.status.OPTIMAL? ==>
          forall v: Valuation :: Feasible(cp, v) ==>
              ObjectiveValue(cp.objective, r.values) <= ObjectiveValue(cp.objective, v))
    && (r.status.INFEASIBLE? || r.status.MODEL_INVALID? ==> forall v: Valuation :: !Feasible(cp, v))
  }

  /** A run that went to completion. */
  ghost predicate Decides(cp: CpModel, r: Response) {
    Conforms(cp, r) && !r.status.FEASIBLE? && !r.status.UNKNOWN?
  }

  ghost predicate Conforming(solver: Solver) {
    forall cp: CpModel :: TermsKnown(cp.domains, cp.objective) ==> Conforms(cp, solver(cp))
  }

  ghost predicate Exact(solver: Solver) {
    forall cp: CpModel :: TermsKnown(cp.domains, cp.objective) ==> Decides(cp, solver(cp))
  }

  // ----- The exact contract can be met: bounded integers have a minimum -----

  function Low(domains: map<Var, (int, int)>, t: Term): int {
    if t.v !in domains then 0
    else if t.coeff >= 0 then t.coeff * domains[t.v].0 else t.coeff * domains[t.v].1
  }

  lemma TermBound(domains: map<Var, (int, int)>, t: Term, v: Valuation)
    requires t.v in domains && domains[t.v].0 <= v(t.v) <= domains[t.v].1
    ensures Low(domains, t) <= TermValue(v)(t)
  {
    var lo, hi, x := domains[t.v].0, domains[t.v].1, v(t.v);
    if t.coeff >= 0 {
      assert t.coeff * (x - lo) >= 0;
    } else {
      assert t.coeff * (x - hi) >= 0;
    }
  }

  function LowOf(domains: map<Var, (int, int)>): Term -> int {
    (t: Term) => Low(domains, t)
  }

  lemma ObjectiveBounded(cp: CpModel, v: Valuation)
    requires TermsKnown(cp.domains, cp.objective) && Feasible(cp, v)
    ensures Sum(cp.objective, LowOf(cp.domains)) <= ObjectiveValue(cp.objective, v)
  {
    forall t | t in cp.objective
      ensures LowOf(cp.domains)(t) <= TermValue(v)(t)
    {
      TermBound(cp.domains, t, v);
    }
    SumLe(cp.objective, LowOf(cp.domains), TermValue(v));
  }

  lemma {:induction false} Descend(cp: CpModel, v: Valuation) returns (best: Valuation)
    requires TermsKnown(cp.domains, cp.objective) && Feasible(cp, v)
    ensures Feasible(cp, best)
    ensures forall u: Valuation :: Feasible(cp, u) ==>
              ObjectiveValue(cp.objective, best) <= ObjectiveValue(cp.objective, u)
    decreases ObjectiveValue(cp.objective, v) - Sum(cp.objective, LowOf(cp.domains))
  {
    if u: Valuation :| Feasible(cp, u) && ObjectiveValue(cp.objective, u) < ObjectiveValue(cp.objective, v) {
      ObjectiveBounded(cp, v);
      ObjectiveBounded(cp, u);
      best := Descend(cp, u);
    } else {
      best := v;
    }
  }

  /** Every model this adapter can build has a response of the kind an exact solver gives. */
  lemma DecisionExists(cp: CpModel)
    requires TermsKnown(cp.domains, cp.objective)
    ensures exists r :: Decides(cp, r)
  {
    if v: Valuation :| Feasible(cp, v) {
      var best := Descend(cp, v);
      assert Decides(cp, Response(OPTIMAL, best, 0.0, 0.0));
    } else {
      assert Decides(cp, Response(INFEASIBLE, (x: Var) => 0, 0.0, 0.0));
    }
  }

  // ----- Reading the response -----

  datatype SolverStatus = ProvenOptimal | TimeLimitReached | Cancelled

  datatype SolveOutcome = SolveOutcome(
    feasible: bool,
    assignments: seq<Assignment>,
    objectiveValue: real,
    optimalityGap: real,
    status: SolverStatus,
    c3Violations: seq<Violation>)

  function OptimalityGap(objective: real, bound: real): (gap: real)
    ensures 0.0 <= gap <= 1.0
  {
    if objective == 0.0 then 0.0
    else
      var gap := Magnitude(objective - bound) / Magnitude(objective);
      if gap < 0.0 then 0.0 else if gap > 1.0 then 1.0 else gap
  }

  function Magnitude(x: real): real { if x < 0.0 then -x else x }

  function IsOne(v: Valuation): Pair -> bool { (pr: Pair) => v(X(pr)) == 1 }

  function Place(m: MilpModel, pr: Pair): Assignment {
    Assignment(m.event, pr.0, pr.1, pr in m.pinned)
  }

  function PlaceAll(m: MilpModel, ps: seq<Pair>): (r: seq<Assignment>)
    ensures |r| == |ps|
    ensures forall i :: 0 <= i < |r| ==> r[i] == Place(m, ps[i])
  {
    seq(|ps|, i requires 0 <= i < |ps| => Place(m, ps[i]))
  }

  function ReadAssignments(m: MilpModel, v: Valuation): seq<Assignment> {
    PlaceAll(m, Filter(m.pairs, IsOne(v)))
  }

  function ShortfallAt(f: FacilityId): Violation {
    Violation(C3, QualificationShortfall, Some(f), None)
  }

  function ReadViolations(c3: seq<C3Requirement>, v: Valuation): (r: seq<Violation>)
    ensures forall x :: x in r ==> x.constraint == C3
  {
    if c3 == [] then []
    else
      var i := |c3| - 1;
      ReadViolations(c3[..i], v) + if v(Slack(i)) > 0 then [ShortfallAt(c3[i].facility)] else []
  }

  /** The outcome carries the assignments and violations of the valuation v. */
  ghost predicate Reads(m: MilpModel, v: Valuation, o: SolveOutcome) {
    && o.assignments == ReadAssignments(m, v)
    && o.c3Violations == (if m.demoteC3 then ReadViolations(m.c3, v) else [])
    && 0.0 <= o.optimalityGap <= 1.0
  }

  ghost predicate Solvable(m: MilpModel)
    requires WellFormedModel(m)
  {
    exists v: Valuation :: Program(m, v)
  }

  ghost predicate Optimum(m: MilpModel, v: Valuation)
    requires WellFormedModel(m)
  {
    Program(m, v) && forall u: Valuation :: Program(m, u) ==> Objective(m, v) <= Objective(m, u)
  }

  method ReadBack(m: MilpModel, v: Valuation) returns (assignments: seq<Assignment>, violations: seq<Violation>)
    ensures assignments == ReadAssignments(m, v)
    ensures violations == if m.demoteC3 then ReadViolations(m.c3, v) else []
  {
    assignments := ReadAssignments(m, v);
    violations := [];
    if m.demoteC3 {
      for i := 0 to |m.c3|
        invariant violations == ReadViolations(m.c3[..i], v)
      {
        assert m.c3[..i + 1][..i] == m.c3[..i];
        if v(Slack(i)) > 0 {
          violations := violations + [ShortfallAt(m.c3[i].facility)];
        }
      }
      assert m.c3[..|m.c3|] == m.c3;
    }
  }

  /** `CpSatAdapter.solve`. Only OPTIMAL and FEASIBLE count as solved: any other status,
      a time-out included, is reported as infeasible. */
  method Solve(m: MilpModel, solver: Solver) returns (o: SolveOutcome)
    requires WellFormedModel(m)
    ensures !o.feasible ==> o == SolveOutcome(false, [], 0.0, 1.0, Cancelled, [])
    ensures Conforming(solver) && o.feasible ==> exists v: Valuation :: Program(m, v) && Reads(m, v, o)
    ensures Conforming(solver) && o.status.ProvenOptimal? ==>
              o.feasible && o.optimalityGap == 0.0 && exists v: Valuation :: Optimum(m, v) && Reads(m, v, o)
    ensures Exact(solver) ==> (o.feasible <==> Solvable(m))
    ensures Exact(solver) && o.feasible ==> o.status.ProvenOptimal?
  {
    var cp := Encode(m);
    var r := solver(cp);
    if !r.Found() {
      return SolveOutcome(false, [], 0.0, 1.0, Cancelled, []);
    }
    var assignments, violations := ReadBack(m, r.values);
    var gap := if r.status.OPTIMAL? then 0.0 else OptimalityGap(r.objective, r.bound);
    o := SolveOutcome(true, assignments, r.objective, gap,
      if r.status.OPTIMAL? then ProvenOptimal else TimeLimitReached, violations);
    assert Reads(m, r.values, o);
    assert Conforming(solver) ==> Conforms(cp, r);
    assert Exact(solver) ==> Decides(cp, r);
    assert Conforming(solver) ==> Program(m, r.values);
    if Conforming(solver) && r.status.OPTIMAL? {
      OptimumRead(m, cp, r);
    }
  }

  lemma OptimumRead(m: MilpModel, cp: CpModel, r: Response)
    requires WellFormedModel(m) && Encodes(cp, m)
    requires Conforms(cp, r) && r.status.OPTIMAL?
    ensures Optimum(m, r.values)
  {
    assert Feasible(cp, r.values);
    forall u: Valuation | Program(m, u)
      ensures Objective(m, r.values) <= Objective(m, u)
    {
      assert Feasible(cp, u);
      assert ObjectiveValue(cp.objective, r.values) == Objective(m, r.values);
      assert ObjectiveValue(cp.objective, u) == Objective(m, u);
    }
  }
}
