/** What the staged service guarantees about its answers, for every problem. */
module Guarantees {
  import opened Domain
  import opened Counting
  import opened Scaling
  import opened Validation
  import opened Objective
  import opened Model
  import opened CpSat
  import opened SolverPort
  import opened Agreement
  import opened Diagnosis
  import opened Optima
  import opened Service

  // ----- Reported violations are the checker's -----

  /** A violation without its wording. */
  function Tags(vs: seq<Violation>): (r: seq<(ConstraintId, Option<FacilityId>)>)
    ensures |r| == |vs|
    ensures forall i :: 0 <= i < |r| ==> r[i] == (vs[i].constraint, vs[i].facility)
  {
    seq(|vs|, i requires 0 <= i < |vs| => (vs[i].constraint, vs[i].facility))
  }

  ghost predicate SlackIffShort(c3: seq<C3Requirement>, S: set<Pair>, v: Valuation) {
    forall i: nat :: i < |c3| ==> (v(Slack(i)) > 0 <==> |Where(S, Meets(c3[i]))| < c3[i].count)
  }

  lemma TagsConcat(s: seq<Violation>, t: seq<Violation>)
    ensures Tags(s + t) == Tags(s) + Tags(t)
  {
  }

  /** Encoder and checker count the same people for one requirement. */
  lemma SameMatching(p: Problem, f: FacilityId, q: QualificationRequirement, ps: seq<Pair>)
    requires DistinctStaff(p.availableStaff) && NoDup(ps)
    ensures |Where(Elements(ps), Meets(C3Requirement(f, EligibleIds(p.availableStaff, q.requirement), q.count)))|
         == CountIf(ps, Fills(Directory(p.availableStaff), f, q.requirement))
  {
    FillsAgrees(p, Elements(ps), f, q);
    CountIsSize(ps, Fills(Directory(p.availableStaff), f, q.requirement));
  }

  lemma ShortPrefix(shorter: seq<C3Requirement>, longer: seq<C3Requirement>, S: set<Pair>, v: Valuation)
    requires shorter <= longer && SlackIffShort(longer, S, v)
    ensures SlackIffShort(shorter, S, v)
  {
    forall i: nat | i < |shorter|
      ensures v(Slack(i)) > 0 <==> |Where(S, Meets(shorter[i]))| < shorter[i].count
    {
      assert shorter[i] == longer[i];
    }
  }

  lemma ReportStep(c3: seq<C3Requirement>, r: C3Requirement, v: Valuation)
    ensures ReadViolations(c3 + [r], v)
         == ReadViolations(c3, v) + if v(Slack(|c3|)) > 0 then [ShortfallAt(r.facility)] else []
  {
    assert (c3 + [r])[..|c3|] == c3;
  }

  lemma Associative<T>(a: seq<T>, b: seq<T>, c: seq<T>)
    ensures (a + b) + c == a + (b + c)
  {
  }

  lemma {:induction false} RequirementTags(
    p: Problem, before: seq<C3Requirement>, f: FacilityId, reqs: seq<QualificationRequirement>, ps: seq<Pair>,
    v: Valuation)
    requires DistinctStaff(p.availableStaff) && NoDup(ps)
    requires SlackIffShort(before + C3For(f, reqs, p.availableStaff), Elements(ps), v)
    ensures Tags(ReadViolations(before + C3For(f, reqs, p.availableStaff), v))
         == Tags(ReadViolations(before, v)) + Tags(FlagRequirements(Directory(p.availableStaff), f, reqs, ps))
  {
    var all := before + C3For(f, reqs, p.availableStaff);
    if reqs == [] {
      assert all == before;
    } else {
      var rest, last := reqs[..|reqs| - 1], reqs[|reqs| - 1];
      var shorter := before + C3For(f, rest, p.availableStaff);
      var r := C3Requirement(f, EligibleIds(p.availableStaff, last.requirement), last.count);
      C3ForLast(p, before, f, reqs);
      assert all == shorter + [r] && shorter <= all;
      hide *;
      ShortPrefix(shorter, all, Elements(ps), v);
      RequirementTags(p, before, f, rest, ps, v);
      RequirementTagsStep(p, shorter, f, last, ps, v);
      FlagLast(p, f, reqs, ps);
      Associative(Tags(ReadViolations(before, v)), Tags(FlagRequirements(Directory(p.availableStaff), f, rest, ps)),
                  Tags(OneRequirementFlag(p, f, last, ps)));
    }
  }

  function OneRequirementFlag(p: Problem, f: FacilityId, q: QualificationRequirement, ps: seq<Pair>): seq<Violation> {
    var matching := CountIf(ps, Fills(Directory(p.availableStaff), f, q.requirement));
    if matching < q.count
    then [Violation(C3, RequirementShort(matching, q.count, q.requirement), Some(f), None)]
    else []
  }

  lemma C3ForLast(p: Problem, before: seq<C3Requirement>, f: FacilityId, reqs: seq<QualificationRequirement>)
    requires reqs != []
    ensures var last := reqs[|reqs| - 1];
            before + C3For(f, reqs, p.availableStaff)
            == before + C3For(f, reqs[..|reqs| - 1], p.availableStaff)
               + [C3Requirement(f, EligibleIds(p.availableStaff, last.requirement), last.count)]
  {
  }

  lemma FlagLast(p: Problem, f: FacilityId, reqs: seq<QualificationRequirement>, ps: seq<Pair>)
    requires reqs != []
    ensures Tags(FlagRequirements(Directory(p.availableStaff), f, reqs, ps))
         == Tags(FlagRequirements(Directory(p.availableStaff), f, reqs[..|reqs| - 1], ps))
          + Tags(OneRequirementFlag(p, f, reqs[|reqs| - 1], ps))
  {
    TagsConcat(FlagRequirements(Directory(p.availableStaff), f, reqs[..|reqs| - 1], ps),
               OneRequirementFlag(p, f, reqs[|reqs| - 1], ps));
  }

  lemma RequirementTagsStep(
    p: Problem, shorter: seq<C3Requirement>, f: FacilityId, q: QualificationRequirement, ps: seq<Pair>, v: Valuation)
    requires DistinctStaff(p.availableStaff) && NoDup(ps)
    requires SlackIffShort(shorter + [C3Requirement(f, EligibleIds(p.availableStaff, q.requirement), q.count)],
                           Elements(ps), v)
    ensures Tags(ReadViolations(shorter + [C3Requirement(f, EligibleIds(p.availableStaff, q.requirement), q.count)], v))
         == Tags(ReadViolations(shorter, v)) + Tags(OneRequirementFlag(p, f, q, ps))
  {
    var r := C3Requirement(f, EligibleIds(p.availableStaff, q.requirement), q.count);
    var n: nat := |shorter|;
    ReportStep(shorter, r, v);
    SameMatching(p, f, q, ps);
    assert (shorter + [r])[n] == r;
    assert v(Slack(n)) > 0 <==> |Where(Elements(ps), Meets(r))| < r.count;
    TagsConcat(ReadViolations(shorter, v), if v(Slack(n)) > 0 then [ShortfallAt(f)] else []);
  }

  lemma {:induction false} QualificationTags(p: Problem, facilities: seq<Facility>, ps: seq<Pair>, v: Valuation)
    requires DistinctStaff(p.availableStaff) && NoDup(ps)
    requires SlackIffShort(AllC3(facilities, p.availableStaff), Elements(ps), v)
    ensures Tags(ReadViolations(AllC3(facilities, p.availableStaff), v))
         == Tags(FlagQualifications(Directory(p.availableStaff), facilities, ps))
  {
    if facilities != [] {
      var rest, last := facilities[..|facilities| - 1], facilities[|facilities| - 1];
      var before := AllC3(rest, p.availableStaff);
      ShortPrefix(before, AllC3(facilities, p.availableStaff), Elements(ps), v);
      QualificationTags(p, rest, ps, v);
      RequirementTags(p, before, last.id, last.requirements, ps, v);
      TagsConcat(FlagQualifications(Directory(p.availableStaff), rest, ps),
                 FlagRequirements(Directory(p.availableStaff), last.id, last.requirements, ps));
    }
  }

  /** When C1, C2, C4 and C5 hold, the checker can only have C3 to report. */
  lemma OnlyQualifications(p: Problem, ps: seq<Pair>)
    requires WellFormed(p) && NoDup(ps) && SetHard(p, Elements(ps))
    ensures CheckPairs(p, ps, true, true) == FlagQualifications(Directory(p.availableStaff), p.facilities, ps)
  {
    assert p.parameters.Valid();
    assert CheckPairs(p, ps, true, true)
        == CheckPairs(p, ps, true, false) + FlagQualifications(Directory(p.availableStaff), p.facilities, ps);
    hide *;
    CleanOnSets(p, ps, false);
    CheckIsClean(p, ps, true, false);
  }

  lemma TightMeansShort(m: MilpModel, S: set<Pair>, v: Valuation)
    requires forall i: nat :: i < |m.c3| ==> v(Slack(i)) == Shortfall(m, S)(i)
    ensures SlackIffShort(m.c3, S, v)
  {
    forall i: nat | i < |m.c3|
      ensures v(Slack(i)) > 0 <==> |Where(S, Meets(m.c3[i]))| < m.c3[i].count
    {
      assert v(Slack(i)) == Shortfall(m, S)(i);
    }
  }

  lemma SlacksMarkShortfalls(p: Problem, v: Valuation)
    requires WellFormed(p) && NonNegativeTravel(p)
    requires WellFormedModel(ModelOf(p, true, true)) && Optimum(ModelOf(p, true, true), v)
    ensures SlackIffShort(AllC3(p.facilities, p.availableStaff), Elements(Picked(p, v)), v)
  {
    TightSlacks(p, v);
    PickedIsChoice(p, v);
    TightMeansShort(ModelOf(p, true, true), Elements(Picked(p, v)), v);
  }

  /** An optimum of the demoted stage reports exactly the C3 requirements the checker would
      flag, in the checker's order, and the checker finds nothing else. */
  lemma ReportMatchesChecker(p: Problem, v: Valuation, o: SolveOutcome)
    requires WellFormed(p) && NonNegativeTravel(p)
    requires WellFormedModel(ModelOf(p, true, true))
    requires Optimum(ModelOf(p, true, true), v) && Reads(ModelOf(p, true, true), v, o)
    ensures Tags(o.c3Violations) == Tags(Validate(p, o.assignments))
    ensures forall x :: x in Validate(p, o.assignments) ==> x.constraint == C3
  {
    var ps := Picked(p, v);
    ReadPairs(p, true, true, v);
    assert Validate(p, o.assignments) == CheckPairs(p, ps, true, true);
    assert o.c3Violations == ReadViolations(AllC3(p.facilities, p.availableStaff), v);
    hide *;
    PickedIsChoice(p, v);
    ChosenHard(p, true, true, v);
    OnlyQualifications(p, ps);
    SlacksMarkShortfalls(p, v);
    QualificationTags(p, p.facilities, ps, v);
    SameTagsOnlyC3(o.c3Violations, Validate(p, o.assignments));
  }

  lemma SameTagsOnlyC3(reported: seq<Violation>, found: seq<Violation>)
    requires Tags(reported) == Tags(found)
    requires forall x :: x in reported ==> x.constraint == C3
    ensures forall x :: x in found ==> x.constraint == C3
  {
    forall x | x in found
      ensures x.constraint == C3
    {
      var i :| 0 <= i < |found| && found[i] == x;
      assert Tags(found)[i] == Tags(reported)[i];
      assert reported[i] in reported;
    }
  }

  /** An answer of the full stage is one the checker accepts. */
  lemma FullAnswerIsClean(p: Problem, v: Valuation, o: SolveOutcome)
    requires WellFormed(p)
    requires WellFormedModel(ModelOf(p, false, true))
    requires Program(ModelOf(p, false, true), v) && Reads(ModelOf(p, false, true), v, o)
    ensures o.c3Violations == [] && Validate(p, o.assignments) == []
  {
    ReadPairs(p, false, true, v);
    PickedIsChoice(p, v);
    FullProgramOnSets(p, Elements(Picked(p, v)));
    CheckerOnSets(p, o.assignments);
  }

  lemma PinnedPlaces(m: MilpModel, ps: seq<Pair>)
    ensures forall pr :: pr in ps && pr in m.pinned ==> Assignment(m.event, pr.0, pr.1, true) in PlaceAll(m, ps)
    ensures forall x :: x in PlaceAll(m, ps) ==> (x.pinned <==> x.Pair() in m.pinned)
  {
    forall pr | pr in ps && pr in m.pinned
      ensures Assignment(m.event, pr.0, pr.1, true) in PlaceAll(m, ps)
    {
      var i :| 0 <= i < |ps| && ps[i] == pr;
      assert PlaceAll(m, ps)[i] == Place(m, pr);
    }
  }

  lemma PinsPicked(p: Problem, demoteC3: bool, v: Valuation)
    requires WellFormed(p) && Check(p, p.pins, false, false) == []
    requires WellFormedModel(ModelOf(p, demoteC3, true)) && Program(ModelOf(p, demoteC3, true), v)
    ensures forall a :: a in p.pins ==> a.Pair() in Picked(p, v)
  {
    PickedIsChoice(p, v);
    ChosenHard(p, demoteC3, true, v);
    PinsArePartial(p);
    forall a | a in p.pins
      ensures a.Pair() in Picked(p, v)
    {
      assert a.Pair() in Elements(Picked(p, v));
    }
  }

  lemma PinsRead(p: Problem, demoteC3: bool, v: Valuation, o: SolveOutcome)
    requires WellFormed(p) && SolutionBehind(p, demoteC3, v, o)
    requires Check(p, p.pins, false, false) == []
    ensures forall a :: a in p.pins ==> Assignment(p.event, a.staff, a.facility, true) in o.assignments
    ensures forall x :: x in o.assignments ==> (x.pinned <==> x.Pair() in PinnedSet(p.pins))
  {
    ModelWellFormed(p, demoteC3, true);
    PinsPicked(p, demoteC3, v);
    PinnedPlaces(ModelOf(p, demoteC3, true), Picked(p, v));
    assert forall a :: a in p.pins ==> a.Pair() in PinnedSet(p.pins);
  }

  /** Every answer, time-limited or not, keeps every pin, and marks the pins and nothing
      else as pinned. */
  lemma PinsSurvive(p: Problem, r: Result<Answer, Refusal>)
    requires WellFormed(p) && FromSolution(p, r)
    requires Check(p, p.pins, false, false) == []
    ensures forall a :: a in p.pins ==> Assignment(p.event, a.staff, a.facility, true) in r.value.result.assignments
    ensures forall x :: x in r.value.result.assignments ==> (x.pinned <==> x.Pair() in PinnedSet(p.pins))
  {
    var demoteC3: bool, v: Valuation, o: SolveOutcome :|
      SolutionBehind(p, demoteC3, v, o) && r == Ok(Assigned(ResultOf(p, o)));
    PinsRead(p, demoteC3, v, o);
  }

  // ----- The staged solve is exact -----

  /** Some complete assignment satisfies all five constraints and the pins. */
  ghost predicate FullyFillable(p: Problem) {
    exists S: set<Pair> :: SetHard(p, S) && SetPins(p, S) && SetC3(p, S)
  }

  lemma {:induction false} NoReport(c3: seq<C3Requirement>, v: Valuation)
    ensures ReadViolations(c3, v) == [] <==> forall i: nat :: i < |c3| ==> v(Slack(i)) <= 0
  {
    if c3 != [] {
      NoReport(c3[..|c3| - 1], v);
    }
  }

  /** A demoted answer without violations would have been a full answer. */
  lemma DemotedReports(p: Problem, v: Valuation, o: SolveOutcome)
    requires WellFormed(p) && NonNegativeTravel(p)
    requires WellFormedModel(ModelOf(p, true, true))
    requires Optimum(ModelOf(p, true, true), v) && Reads(ModelOf(p, true, true), v, o)
    requires o.c3Violations == []
    ensures FullyFillable(p)
  {
    ReportMatchesChecker(p, v, o);
    assert |Tags(Validate(p, o.assignments))| == 0;
    CheckerOnSets(p, o.assignments);
    ReadPairs(p, true, true, v);
    PickedIsChoice(p, v);
    ChosenHard(p, true, true, v);
  }

  /** The answer is a clean assignment iff one exists; an assignment that reports C3
      shortfalls iff only C3 stands in the way and no required count is negative; a
      diagnosis otherwise. */
  lemma StagedSolveIsExact(p: Problem, r: Result<Answer, Refusal>)
    requires WellFormed(p) && NonNegativeTravel(p)
    requires Check(p, p.pins, false, false) == [] && Staged(p, r)
    ensures r.Ok?
    ensures FullyFillable(p) <==> r.value.Assigned? && r.value.result.violations == []
    ensures !FullyFillable(p) && Fillable(p) && NonNegativeCounts(p) <==>
            r.value.Assigned? && r.value.result.violations != []
    ensures !FullyFillable(p) && !(Fillable(p) && NonNegativeCounts(p)) <==> r.value == Diagnosed(Classify(p))
  {
    FullSolvable(p);
    RelaxedSolvable(p);
    DemotedSolvable(p);
    if FullyFillable(p) {
      FullAnswer(p, r);
    } else if Fillable(p) && NonNegativeCounts(p) {
      DemotedAnswer(p, r);
    }
  }

  lemma FullAnswer(p: Problem, r: Result<Answer, Refusal>)
    requires WellFormed(p) && FromOptimum(p, false, r)
    ensures r.value.result.violations == [] && Validate(p, r.value.result.assignments) == []
  {
    var v: Valuation, o: SolveOutcome :| OptimumBehind(p, false, v, o) && r == Ok(Assigned(ResultOf(p, o)));
    ModelWellFormed(p, false, true);
    FullAnswerIsClean(p, v, o);
  }

  lemma DemotedAnswer(p: Problem, r: Result<Answer, Refusal>)
    requires WellFormed(p) && NonNegativeTravel(p) && FromOptimum(p, true, r)
    ensures Tags(r.value.result.violations) == Tags(Validate(p, r.value.result.assignments))
    ensures r.value.result.violations == [] ==> FullyFillable(p)
  {
    var v: Valuation, o: SolveOutcome :| OptimumBehind(p, true, v, o) && r == Ok(Assigned(ResultOf(p, o)));
    ModelWellFormed(p, true, true);
    ReportMatchesChecker(p, v, o);
    if o.c3Violations == [] {
      DemotedReports(p, v, o);
    }
  }

  /** What each diagnosis means. A total shortage is reported exactly when people are
      missing; the other cause exactly when there are enough people, yet the department
      caps - or a negative required count, with no clean assignment - stand in the way. */
  lemma DiagnosisMeans(p: Problem, r: Result<Answer, Refusal>)
    requires WellFormed(p) && NonNegativeTravel(p)
    requires Check(p, p.pins, false, false) == [] && Staged(p, r)
    ensures r.Ok? && r.value.Diagnosed? && r.value.diagnosis.cause.TotalShortage? <==>
            TotalRequired(p.facilities) > |p.availableStaff|
    ensures r.Ok? && r.value.Diagnosed? && r.value.diagnosis.cause.HardConstraint? <==>
            && TotalRequired(p.facilities) <= |p.availableStaff|
            && (TotalRequired(p.facilities) > CappedCapacity(p) || (!NonNegativeCounts(p) && !FullyFillable(p)))
    ensures r.Ok? && r.value.Diagnosed? && r.value.diagnosis.cause.TotalShortage? ==>
              r.value.diagnosis.shortageCount == Some(TotalRequired(p.facilities) - |p.availableStaff|)
  {
    hide *;
    StagedSolveIsExact(p, r);
    ClassifyMeans(p);
    FullIsFillable(p);
    FillableIffCapped(p);
    CappedAtMostStaff(p);
    DiagnosisCases(r, Classify(p), TotalRequired(p.facilities), |p.availableStaff|, CappedCapacity(p),
                   FullyFillable(p), Fillable(p), NonNegativeCounts(p));
  }

  lemma ClassifyMeans(p: Problem)
    ensures Classify(p).cause.TotalShortage? <==> TotalRequired(p.facilities) > |p.availableStaff|
    ensures Classify(p).cause.HardConstraint? <==> TotalRequired(p.facilities) <= |p.availableStaff|
    ensures Classify(p).cause.TotalShortage? ==>
              Classify(p).shortageCount == Some(TotalRequired(p.facilities) - |p.availableStaff|)
  {
  }

  lemma FullIsFillable(p: Problem)
    ensures FullyFillable(p) ==> Fillable(p)
  {
  }

  /** The case analysis on its own: required headcount, staff, capped sizes, and what is solvable. */
  lemma DiagnosisCases(r: Result<Answer, Refusal>, d: InfeasibilityDiagnosis, required: int, staff: int, capped: int,
                       full: bool, fillable: bool, counts: bool)
    requires r.Ok? && (full ==> fillable) && (fillable <==> required <= capped) && capped <= staff
    requires full <==> r.value.Assigned? && r.value.result.violations == []
    requires !full && fillable && counts <==> r.value.Assigned? && r.value.result.violations != []
    requires !full && !(fillable && counts) <==> r.value == Diagnosed(d)
    requires d.cause.TotalShortage? <==> required > staff
    requires d.cause.HardConstraint? <==> required <= staff
    requires d.cause.TotalShortage? ==> d.shortageCount == Some(required - staff)
    ensures r.value.Diagnosed? && r.value.diagnosis.cause.TotalShortage? <==> required > staff
    ensures r.value.Diagnosed? && r.value.diagnosis.cause.HardConstraint? <==>
            required <= staff && (required > capped || (!counts && !full))
    ensures r.value.Diagnosed? && r.value.diagnosis.cause.TotalShortage? ==>
              r.value.diagnosis.shortageCount == Some(required - staff)
  {
  }

  // ----- Near-optimality of the reported objective -----

  /** (required + longest trip) / SCALE; without an inequity weight, required / SCALE. */
  ghost function ErrorBound(p: Problem): real {
    (TotalRequired(p.facilities) + TripError(p.parameters.weights, NormOf(p).maxTravelSeconds)) as real / SCALE as real
  }

  /** Rounding turns an integer comparison into a real one with a small slack. */
  lemma ScaledOrder(p: Problem, ps: seq<Pair>, qs: seq<Pair>)
    requires NonNegativeTravel(p)
    requires |ps| == |qs| == TotalRequired(p.facilities)
    requires ScaledObjective(p, ps) <= ScaledObjective(p, qs)
    ensures ObjectiveOf(p, ps) <= ObjectiveOf(p, qs) + ErrorBound(p)
  {
    ScaledClose(p, ps);
    ScaledClose(p, qs);
    MaxSecondsWithin(p, ps);
    MaxSecondsWithin(p, qs);
  }

  /** The optimum's encoded objective against that of any set it competes with. */
  lemma BeatsEncoded(p: Problem, demoteC3: bool, v: Valuation, S: set<Pair>)
    requires WellFormed(p) && NonNegativeTravel(p)
    requires WellFormedModel(ModelOf(p, demoteC3, true)) && Optimum(ModelOf(p, demoteC3, true), v)
    requires SetHard(p, S) && SetPins(p, S)
    requires demoteC3 ==> NonNegativeCounts(p)
    requires !demoteC3 ==> SetC3(p, S)
    ensures var m := ModelOf(p, demoteC3, true);
            ScaledObjective(p, Picked(p, v)) + Penalty(m, v)
            <= ScaledObjective(p, Picked(p, Cheapest(p, m, S))) + Penalty(m, Cheapest(p, m, S))
  {
    CheapestSolves(p, demoteC3, true, S);
    ObjectiveSplit(p, demoteC3, true, v);
  }

  lemma PickedSize(p: Problem, v: Valuation)
    requires WellFormed(p) && SetHard(p, Elements(Picked(p, v)))
    ensures |Picked(p, v)| == TotalRequired(p.facilities)
  {
    PickedIsChoice(p, v);
    Pigeonhole(p, Elements(Picked(p, v)));
    ElementsSize(Picked(p, v));
  }

  lemma NearOptimalSolution(p: Problem, v: Valuation, other: seq<Pair>)
    requires WellFormed(p) && NonNegativeTravel(p)
    requires WellFormedModel(ModelOf(p, false, true)) && Optimum(ModelOf(p, false, true), v)
    requires NoDup(other) && SetHard(p, Elements(other)) && SetC3(p, Elements(other)) && SetPins(p, Elements(other))
    ensures ObjectiveOf(p, Picked(p, v)) <= ObjectiveOf(p, other) + ErrorBound(p)
  {
    var m, S := ModelOf(p, false, true), Elements(other);
    var u := Cheapest(p, m, S);
    BeatsEncoded(p, false, v, S);
    CheapestSolves(p, false, true, S);
    PickedIsChoice(p, u);
    PickedIsChoice(p, v);
    ChosenHard(p, false, true, v);
    PickedSize(p, u);
    PickedSize(p, v);
    ScaledOrder(p, Picked(p, v), Picked(p, u));
    ObjectiveReorder(p, Picked(p, u), other);
  }

  /** The solver minimises integers; the reported real objective is still within the
      rounding error of every clean assignment that keeps the pins. */
  lemma NearOptimal(p: Problem, r: Result<Answer, Refusal>, other: seq<Assignment>)
    requires WellFormed(p) && NonNegativeTravel(p)
    requires FromOptimum(p, false, r)
    requires Validate(p, other) == [] && SetPins(p, Elements(PairsOf(other)))
    ensures r.value.result.objectiveValue <= ObjectiveOf(p, PairsOf(other)) + ErrorBound(p)
  {
    var v: Valuation, o: SolveOutcome :| OptimumBehind(p, false, v, o) && r == Ok(Assigned(ResultOf(p, o)));
    ModelWellFormed(p, false, true);
    CheckerOnSets(p, other);
    NearOptimalSolution(p, v, PairsOf(other));
    ReadPairs(p, false, true, v);
  }

  // ----- ... and of a demoted answer, among assignments with no more shortfall -----

  /** People missing over all C3 requirements. */
  ghost function ShortTotal(c3: seq<C3Requirement>, S: set<Pair>): int {
    if c3 == [] then 0
    else
      var last := c3[|c3| - 1];
      ShortTotal(c3[..|c3| - 1], S) + Max(0, last.count - |Where(S, Meets(last))|)
  }

  /** People missing over all C3 requirements of the problem under an assignment. */
  ghost function Missing(p: Problem, ps: seq<Pair>): int {
    ShortTotal(AllC3(p.facilities, p.availableStaff), Elements(ps))
  }

  lemma {:induction false} TightTotal(m: MilpModel, S: set<Pair>, v: Valuation, n: nat)
    requires n <= |m.c3| && forall i: nat :: i < |m.c3| ==> v(Slack(i)) == Shortfall(m, S)(i)
    ensures SlackTotal(n, v) == ShortTotal(m.c3[..n], S)
  {
    if n > 0 {
      TightTotal(m, S, v, n - 1);
      assert m.c3[..n][..n - 1] == m.c3[..n - 1];
    }
  }

  /** Slack of an optimum, and of the cheapest solution for a set, are both people missing. */
  lemma OptimumMissing(p: Problem, v: Valuation)
    requires WellFormed(p) && NonNegativeTravel(p)
    requires WellFormedModel(ModelOf(p, true, true)) && Optimum(ModelOf(p, true, true), v)
    ensures NonNegativeCounts(p)
    ensures SlackTotal(|ModelOf(p, true, true).c3|, v) == Missing(p, Picked(p, v))
  {
    var m := ModelOf(p, true, true);
    TightSlacks(p, v);
    PickedIsChoice(p, v);
    TightTotal(m, Chosen(m.pairs, v), v, |m.c3|);
    assert m.c3[..|m.c3|] == m.c3;
  }

  lemma CheapestMissing(p: Problem, S: set<Pair>)
    requires WellFormed(p)
    ensures var m := ModelOf(p, true, true);
            SlackTotal(|m.c3|, Cheapest(p, m, S)) == ShortTotal(m.c3, S)
  {
    var m := ModelOf(p, true, true);
    TightTotal(m, S, Cheapest(p, m, S), |m.c3|);
    assert m.c3[..|m.c3|] == m.c3;
  }

  lemma CheaperOrShorter(bigM: int, za: int, a: int, zb: int, b: int)
    requires bigM > 0 && za + bigM * a <= zb + bigM * b && b <= a
    ensures za <= zb
  {
    IntTimes(bigM, b, a);
  }

  lemma NearOptimalShort(p: Problem, v: Valuation, other: seq<Pair>)
    requires WellFormed(p) && NonNegativeTravel(p)
    requires WellFormedModel(ModelOf(p, true, true)) && Optimum(ModelOf(p, true, true), v)
    requires NoDup(other) && SetHard(p, Elements(other)) && SetPins(p, Elements(other))
    requires Missing(p, other) <= Missing(p, Picked(p, v))
    ensures ObjectiveOf(p, Picked(p, v)) <= ObjectiveOf(p, other) + ErrorBound(p)
  {
    var m, S := ModelOf(p, true, true), Elements(other);
    var u := Cheapest(p, m, S);
    assert m.demoteC3 && m.bigM == BigM(p.parameters.weights, |m.pairs|)
           && m.c3 == AllC3(p.facilities, p.availableStaff);
    assert Penalty(m, v) == m.bigM * SlackTotal(|m.c3|, v) && Penalty(m, u) == m.bigM * SlackTotal(|m.c3|, u);
    assert Missing(p, other) == ShortTotal(m.c3, S);
    hide *;
    OptimumMissing(p, v);
    CheapestMissing(p, S);
    BeatsEncoded(p, true, v, S);
    WeightsPositive(p, |m.pairs|);
    CheaperOrShorter(m.bigM, ScaledObjective(p, Picked(p, v)), SlackTotal(|m.c3|, v),
                     ScaledObjective(p, Picked(p, u)), SlackTotal(|m.c3|, u));
    CheapestSolves(p, true, true, S);
    PickedIsChoice(p, u);
    PickedIsChoice(p, v);
    ChosenHard(p, true, true, v);
    PickedSize(p, u);
    PickedSize(p, v);
    ScaledOrder(p, Picked(p, v), Picked(p, u));
    ObjectiveReorder(p, Picked(p, u), other);
  }

  lemma WeightsPositive(p: Problem, n: nat)
    requires WellFormed(p)
    ensures BigM(p.parameters.weights, n) > 0
  {
    BigMPositive(p.parameters.weights, n);
  }

  /** A demoted answer is as near-optimal, against every complete assignment that keeps the
      pins and leaves no more people missing. */
  lemma NearOptimalDemoted(p: Problem, r: Result<Answer, Refusal>, other: seq<Assignment>)
    requires WellFormed(p) && NonNegativeTravel(p)
    requires FromOptimum(p, true, r)
    requires NoDup(PairsOf(other)) && SetHard(p, Elements(PairsOf(other))) && SetPins(p, Elements(PairsOf(other)))
    requires Missing(p, PairsOf(other)) <= Missing(p, PairsOf(r.value.result.assignments))
    ensures r.value.result.objectiveValue <= ObjectiveOf(p, PairsOf(other)) + ErrorBound(p)
  {
    var v: Valuation, o: SolveOutcome :| OptimumBehind(p, true, v, o) && r == Ok(Assigned(ResultOf(p, o)));
    ModelWellFormed(p, true, true);
    ReadPairs(p, true, true, v);
    NearOptimalShort(p, v, PairsOf(other));
  }
}
