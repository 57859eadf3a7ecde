/** What an optimum of each staged program looks like: its objective in the problem's own
    terms, tight slacks, and which programs have solutions at all. */
module Optima {
  import opened Domain
  import opened Counting
  import opened Scaling
  import opened Objective
  import opened Model
  import opened CpSat
  import opened SolverPort
  import opened Agreement
  import opened Diagnosis

  function Picked(p: Problem, v: Valuation): seq<Pair> {
    Filter(AllPairs(p.availableStaff, p.facilities), IsOne(v))
  }

  lemma PickedIsChoice(p: Problem, v: Valuation)
    requires WellFormed(p)
    ensures NoDup(Picked(p, v))
    ensures Elements(Picked(p, v)) == Chosen(AllPairs(p.availableStaff, p.facilities), v)
    ensures Elements(Picked(p, v)) <= PairSet(p)
  {
    AllPairsNoDup(p.availableStaff, p.facilities);
    NoDupFilter(AllPairs(p.availableStaff, p.facilities), IsOne(v));
  }

  lemma ReadPairs(p: Problem, demoteC3: bool, includeC3: bool, v: Valuation)
    requires WellFormed(p)
    ensures PairsOf(ReadAssignments(ModelOf(p, demoteC3, includeC3), v)) == Picked(p, v)
  {
  }

  // ----- The encoded objective of a valuation -----

  lemma OnePairCost(m: MilpModel, pr: Pair, v: Valuation, f: Pair -> int)
    requires 0 <= v(X(pr)) <= 1 && pr in m.objectiveCoeff && m.objectiveCoeff[pr] == f(pr)
    ensures PairCost(m, v)(pr) == if IsOne(v)(pr) then f(pr) else 0
  {
    assert v(X(pr)) == 0 ==> m.objectiveCoeff[pr] * v(X(pr)) == 0;
  }

  lemma {:induction false} PairCostSum(m: MilpModel, ps: seq<Pair>, v: Valuation, f: Pair -> int)
    requires forall pr :: pr in ps ==> 0 <= v(X(pr)) <= 1 && pr in m.objectiveCoeff && m.objectiveCoeff[pr] == f(pr)
    ensures Sum(ps, PairCost(m, v)) == Sum(Filter(ps, IsOne(v)), f)
  {
    if ps != [] {
      var rest, last := ps[..|ps| - 1], ps[|ps| - 1];
      assert Filter(ps, IsOne(v)) == Filter(rest, IsOne(v)) + if IsOne(v)(last) then [last] else [];
      hide *;
      assert ps == rest + [last];
      OnePairCost(m, last, v, f);
      PairCostSum(m, rest, v, f);
      SumAppend(rest, last, PairCost(m, v));
      SumAppend(Filter(rest, IsOne(v)), last, f);
    }
  }

  lemma SumAppend<T>(s: seq<T>, x: T, f: T -> int)
    ensures Sum(s + [x], f) == Sum(s, f) + f(x)
    ensures Sum(s + [], f) == Sum(s, f)
  {
    assert (s + [x])[..|s|] == s && s + [] == s;
  }

  lemma PairsCost(p: Problem, demoteC3: bool, includeC3: bool, v: Valuation)
    requires WellFormed(p) && IsBool(ModelOf(p, demoteC3, includeC3), v)
    ensures Positive(NormOf(p))
    ensures Sum(AllPairs(p.availableStaff, p.facilities), PairCost(ModelOf(p, demoteC3, includeC3), v))
         == Sum(Picked(p, v), CoeffOf(p, NormOf(p)))
  {
    NormalisationPositive(p, NormOf(p));
    PairsHaveTravel(p);
    PairCostSum(ModelOf(p, demoteC3, includeC3), AllPairs(p.availableStaff, p.facilities), v, CoeffOf(p, NormOf(p)));
  }

  lemma TmaxNonNegative(p: Problem)
    requires p.parameters.Valid()
    ensures Positive(NormOf(p)) && TmaxCoeff(p.parameters.weights, NormOf(p)) >= 0
  {
    NormalisationPositive(p, NormOf(p));
  }

  lemma IntTimes(a: int, b: int, c: int)
    requires a >= 0 && b <= c
    ensures a * b <= a * c
  {
  }

  function TimeTerm(m: MilpModel, v: Valuation): int {
    if TimeActive(m) then m.tmaxCoeff * v(TMax) else 0
  }

  lemma TimeTermBounds(p: Problem, demoteC3: bool, includeC3: bool, v: Valuation)
    requires WellFormed(p) && NonNegativeTravel(p)
    requires WellFormedModel(ModelOf(p, demoteC3, includeC3))
    requires TimesCovered(ModelOf(p, demoteC3, includeC3), Chosen(AllPairs(p.availableStaff, p.facilities), v), v)
    ensures Positive(NormOf(p))
    ensures TimeTerm(ModelOf(p, demoteC3, includeC3), v)
         >= TmaxCoeff(p.parameters.weights, NormOf(p)) * MaxSeconds(p, Picked(p, v))
    ensures v(TMax) == MaxSeconds(p, Picked(p, v)) ==>
              TimeTerm(ModelOf(p, demoteC3, includeC3), v)
              == TmaxCoeff(p.parameters.weights, NormOf(p)) * MaxSeconds(p, Picked(p, v))
  {
    var m, ps := ModelOf(p, demoteC3, includeC3), Picked(p, v);
    TmaxNonNegative(p);
    MaxSecondsWithin(p, ps);
    if TimeActive(m) {
      TripsCovered(p, demoteC3, includeC3, v);
      IntTimes(m.tmaxCoeff, MaxSeconds(p, ps), v(TMax));
    } else {
      ZeroProduct(m.tmaxCoeff, MaxSeconds(p, ps));
    }
  }

  lemma ZeroProduct(a: int, b: int)
    requires a == 0 || b == 0
    ensures a * b == 0
  {
  }

  lemma TripsCovered(p: Problem, demoteC3: bool, includeC3: bool, v: Valuation)
    requires WellFormed(p) && NonNegativeTravel(p)
    requires WellFormedModel(ModelOf(p, demoteC3, includeC3)) && TimeActive(ModelOf(p, demoteC3, includeC3))
    requires TimesCovered(ModelOf(p, demoteC3, includeC3), Chosen(AllPairs(p.availableStaff, p.facilities), v), v)
    ensures MaxSeconds(p, Picked(p, v)) <= v(TMax)
  {
    var ps := Picked(p, v);
    PickedIsChoice(p, v);
    PairsHaveTravel(p);
    MaxSecondsBounds(p, ps);
    forall pr | pr in ps
      ensures SecondsOf(p)(pr) <= v(TMax)
    {
      assert pr in Elements(ps);
    }
  }

  function Penalty(m: MilpModel, v: Valuation): int {
    if m.demoteC3 then m.bigM * SlackTotal(|m.c3|, v) else 0
  }

  /** Any solution costs at least its encoded objective plus its penalty, and exactly that
      when the T_max variable sits on the longest trip. */
  lemma ObjectiveSplit(p: Problem, demoteC3: bool, includeC3: bool, v: Valuation)
    requires WellFormed(p) && NonNegativeTravel(p)
    requires WellFormedModel(ModelOf(p, demoteC3, includeC3)) && Program(ModelOf(p, demoteC3, includeC3), v)
    ensures CpSat.Objective(ModelOf(p, demoteC3, includeC3), v)
         >= ScaledObjective(p, Picked(p, v)) + Penalty(ModelOf(p, demoteC3, includeC3), v)
    ensures v(TMax) == MaxSeconds(p, Picked(p, v)) ==>
              CpSat.Objective(ModelOf(p, demoteC3, includeC3), v)
              == ScaledObjective(p, Picked(p, v)) + Penalty(ModelOf(p, demoteC3, includeC3), v)
  {
    var m := ModelOf(p, demoteC3, includeC3);
    PairsCost(p, demoteC3, includeC3, v);
    TimeTermBounds(p, demoteC3, includeC3, v);
    SlackCostIsPenalty(m.bigM, |m.c3|, v);
  }

  // ----- Solutions from sets -----

  ghost function Shortfall(m: MilpModel, S: set<Pair>): int -> int {
    (i: int) => if 0 <= i < |m.c3| then Max(0, m.c3[i].count - |Where(S, Meets(m.c3[i]))|) else 0
  }

  lemma CountsInModel(p: Problem, m: MilpModel)
    requires m.c3 == AllC3(p.facilities, p.availableStaff)
    ensures NonNegativeCounts(p) <==> forall i :: 0 <= i < |m.c3| ==> m.c3[i].count >= 0
  {
    if NonNegativeCounts(p) {
      forall i | 0 <= i < |m.c3| ensures m.c3[i].count >= 0 {
        C3Lookup(p.facilities, p.availableStaff, m.c3[i]);
      }
    }
    if forall i :: 0 <= i < |m.c3| ==> m.c3[i].count >= 0 {
      forall f, q | f in p.facilities && q in f.requirements ensures q.count >= 0 {
        var r := C3Requirement(f.id, EligibleIds(p.availableStaff, q.requirement), q.count);
        C3Lookup(p.facilities, p.availableStaff, r);
        var i :| 0 <= i < |m.c3| && m.c3[i] == r;
      }
    }
  }

  lemma TripsBelow(p: Problem, ps: seq<Pair>, time: int)
    requires WellFormed(p) && NonNegativeTravel(p) && Elements(ps) <= PairSet(p) && MaxSeconds(p, ps) <= time
    ensures forall pr :: pr in Elements(ps) ==> pr in p.travel && p.travel[pr].timeSeconds <= time
  {
    PairsHaveTravel(p);
    MaxSecondsBounds(p, ps);
    forall pr | pr in Elements(ps)
      ensures pr in p.travel && p.travel[pr].timeSeconds <= time
    {
      assert SecondsOf(p)(pr) <= MaxSeconds(p, ps);
    }
  }

  lemma CoveredBy(p: Problem, demoteC3: bool, includeC3: bool, S: set<Pair>, v: Valuation)
    requires WellFormed(p) && WellFormedModel(ModelOf(p, demoteC3, includeC3))
    requires 0 <= v(TMax) <= NormOf(p).maxTravelSeconds
    requires forall pr :: pr in S ==> pr in p.travel && p.travel[pr].timeSeconds <= v(TMax)
    ensures TimesCovered(ModelOf(p, demoteC3, includeC3), S, v)
  {
    hide AllPairs, NormOf, TimeActive;
  }

  lemma IndicatorTimes(p: Problem, demoteC3: bool, includeC3: bool, S: set<Pair>, slack: int -> int, time: int)
    requires WellFormed(p) && NonNegativeTravel(p) && S <= PairSet(p)
    requires WellFormedModel(ModelOf(p, demoteC3, includeC3))
    requires MaxSeconds(p, Picked(p, Indicator(S, slack, time))) <= time <= NormOf(p).maxTravelSeconds
    ensures TimesCovered(ModelOf(p, demoteC3, includeC3), S, Indicator(S, slack, time))
  {
    var v := Indicator(S, slack, time);
    assert v(TMax) == time;
    hide *;
    PickedIsChoice(p, v);
    IndicatorChooses(p, S, slack, time);
    TripsBelow(p, Picked(p, v), time);
    MaxSecondsBounds(p, Picked(p, v));
    CoveredBy(p, demoteC3, includeC3, S, v);
  }

  /** The picked list of an indicator depends only on the set. */
  lemma PickedSame(p: Problem, S: set<Pair>, slack: int -> int, t1: int, t2: int)
    requires WellFormed(p) && S <= PairSet(p)
    ensures MaxSeconds(p, Picked(p, Indicator(S, slack, t1))) == MaxSeconds(p, Picked(p, Indicator(S, slack, t2)))
  {
    PickedIsChoice(p, Indicator(S, slack, t1));
    PickedIsChoice(p, Indicator(S, slack, t2));
    IndicatorChooses(p, S, slack, t1);
    IndicatorChooses(p, S, slack, t2);
    MaxSecondsReorder(p, Picked(p, Indicator(S, slack, t1)), Picked(p, Indicator(S, slack, t2)));
  }

  /** The cheapest valuation that picks S: slacks at the shortfall, T_max at the longest trip. */
  ghost function Cheapest(p: Problem, m: MilpModel, S: set<Pair>): Valuation {
    Indicator(S, Shortfall(m, S), MaxSeconds(p, Picked(p, Indicator(S, Shortfall(m, S), 0))))
  }

  lemma CheapestProgram(p: Problem, demoteC3: bool, includeC3: bool, S: set<Pair>)
    requires WellFormed(p) && NonNegativeTravel(p)
    requires SetHard(p, S) && SetPins(p, S)
    requires demoteC3 ==> includeC3 && NonNegativeCounts(p)
    requires !demoteC3 && includeC3 ==> SetC3(p, S)
    ensures WellFormedModel(ModelOf(p, demoteC3, includeC3))
    ensures Program(ModelOf(p, demoteC3, includeC3), Cheapest(p, ModelOf(p, demoteC3, includeC3), S))
  {
    var m := ModelOf(p, demoteC3, includeC3);
    var v := Cheapest(p, m, S);
    assert S <= PairSet(p) && m.demoteC3 == demoteC3;
    hide *;
    CoreAgrees(p, demoteC3, includeC3, S);
    CheapestTimes(p, demoteC3, includeC3, S);
    CheapestC3(p, demoteC3, includeC3, S);
    CheapestChooses(p, demoteC3, includeC3, S);
    ProgramFromParts(m, S, v);
  }

  lemma CheapestChooses(p: Problem, demoteC3: bool, includeC3: bool, S: set<Pair>)
    requires WellFormed(p) && S <= PairSet(p)
    ensures var m := ModelOf(p, demoteC3, includeC3);
            Chosen(m.pairs, Cheapest(p, m, S)) == S && IsBool(m, Cheapest(p, m, S))
  {
    var m := ModelOf(p, demoteC3, includeC3);
    IndicatorChooses(p, S, Shortfall(m, S), Cheapest(p, m, S)(TMax));
  }

  lemma CheapestTimes(p: Problem, demoteC3: bool, includeC3: bool, S: set<Pair>)
    requires WellFormed(p) && NonNegativeTravel(p) && S <= PairSet(p)
    requires WellFormedModel(ModelOf(p, demoteC3, includeC3))
    ensures TimesCovered(ModelOf(p, demoteC3, includeC3), S, Cheapest(p, ModelOf(p, demoteC3, includeC3), S))
  {
    var m := ModelOf(p, demoteC3, includeC3);
    var v := Cheapest(p, m, S);
    CheapestPicks(p, m, S);
    MaxSecondsWithin(p, Picked(p, v));
    IndicatorTimes(p, demoteC3, includeC3, S, Shortfall(m, S), v(TMax));
  }

  lemma CheapestC3(p: Problem, demoteC3: bool, includeC3: bool, S: set<Pair>)
    requires WellFormed(p)
    requires demoteC3 ==> includeC3 && NonNegativeCounts(p)
    requires !demoteC3 && includeC3 ==> SetC3(p, S)
    ensures var m := ModelOf(p, demoteC3, includeC3);
            if demoteC3 then SlacksCover(m, S, Cheapest(p, m, S)) else C3Met(m, S)
  {
    var m := ModelOf(p, demoteC3, includeC3);
    if demoteC3 {
      CountsInModel(p, m);
      ShortfallCovers(m, S, Cheapest(p, m, S));
    } else if includeC3 {
      C3Agrees(p, m, S);
    }
  }

  lemma ShortfallCovers(m: MilpModel, S: set<Pair>, v: Valuation)
    requires forall i :: 0 <= i < |m.c3| ==> m.c3[i].count >= 0
    requires forall i: nat :: i < |m.c3| ==> v(Slack(i)) == Shortfall(m, S)(i)
    ensures SlacksCover(m, S, v)
  {
    forall i: nat | i < |m.c3| ensures SlackOk(m, S, v, i) {
      assert v(Slack(i)) == Shortfall(m, S)(i);
    }
  }

  lemma CheapestPicks(p: Problem, m: MilpModel, S: set<Pair>)
    requires WellFormed(p) && S <= PairSet(p)
    ensures Elements(Picked(p, Cheapest(p, m, S))) == S
    ensures Cheapest(p, m, S)(TMax) == MaxSeconds(p, Picked(p, Cheapest(p, m, S)))
  {
    var slack := Shortfall(m, S);
    var time := MaxSeconds(p, Picked(p, Indicator(S, slack, 0)));
    PickedSame(p, S, slack, 0, time);
    IndicatorChooses(p, S, slack, time);
    PickedIsChoice(p, Cheapest(p, m, S));
  }

  lemma CheapestSolves(p: Problem, demoteC3: bool, includeC3: bool, S: set<Pair>)
    requires WellFormed(p) && NonNegativeTravel(p)
    requires SetHard(p, S) && SetPins(p, S)
    requires demoteC3 ==> includeC3 && NonNegativeCounts(p)
    requires !demoteC3 && includeC3 ==> SetC3(p, S)
    ensures WellFormedModel(ModelOf(p, demoteC3, includeC3))
    ensures Program(ModelOf(p, demoteC3, includeC3), Cheapest(p, ModelOf(p, demoteC3, includeC3), S))
    ensures Elements(Picked(p, Cheapest(p, ModelOf(p, demoteC3, includeC3), S))) == S
    ensures CpSat.Objective(ModelOf(p, demoteC3, includeC3), Cheapest(p, ModelOf(p, demoteC3, includeC3), S))
         == ScaledObjective(p, Picked(p, Cheapest(p, ModelOf(p, demoteC3, includeC3), S)))
            + Penalty(ModelOf(p, demoteC3, includeC3), Cheapest(p, ModelOf(p, demoteC3, includeC3), S))
  {
    var m := ModelOf(p, demoteC3, includeC3);
    CheapestProgram(p, demoteC3, includeC3, S);
    CheapestPicks(p, m, S);
    ObjectiveSplit(p, demoteC3, includeC3, Cheapest(p, m, S));
  }

  // ----- Which stages are solvable -----

  lemma FullSolvable(p: Problem)
    requires WellFormed(p)
    ensures WellFormedModel(ModelOf(p, false, true))
    ensures Solvable(ModelOf(p, false, true)) <==> exists S: set<Pair> :: SetHard(p, S) && SetPins(p, S) && SetC3(p, S)
  {
    var m := ModelOf(p, false, true);
    ModelWellFormed(p, false, true);
    if v: Valuation :| Program(m, v) {
      FullProgramOnSets(p, Chosen(m.pairs, v));
    }
    if S: set<Pair> :| SetHard(p, S) && SetPins(p, S) && SetC3(p, S) {
      FullProgramOnSets(p, S);
    }
  }

  lemma ChosenHard(p: Problem, demoteC3: bool, includeC3: bool, v: Valuation)
    requires WellFormed(p)
    requires WellFormedModel(ModelOf(p, demoteC3, includeC3)) && Program(ModelOf(p, demoteC3, includeC3), v)
    ensures SetHard(p, Chosen(AllPairs(p.availableStaff, p.facilities), v))
    ensures SetPins(p, Chosen(AllPairs(p.availableStaff, p.facilities), v))
  {
    CoreAgrees(p, demoteC3, includeC3, Chosen(AllPairs(p.availableStaff, p.facilities), v));
  }

  lemma RelaxedSolvable(p: Problem)
    requires WellFormed(p) && NonNegativeTravel(p)
    ensures WellFormedModel(ModelOf(p, false, false))
    ensures Solvable(ModelOf(p, false, false)) <==> Fillable(p)
  {
    var m := ModelOf(p, false, false);
    ModelWellFormed(p, false, false);
    if v: Valuation :| Program(m, v) {
      ChosenHard(p, false, false, v);
    }
    if S: set<Pair> :| SetHard(p, S) && SetPins(p, S) {
      CheapestSolves(p, false, false, S);
    }
  }

  /** Demotion rescues exactly what dropping C3 rescues - unless some required count is
      negative: its slack variable then has an empty domain. */
  lemma DemotedSolvable(p: Problem)
    requires WellFormed(p) && NonNegativeTravel(p)
    ensures WellFormedModel(ModelOf(p, true, true)) && WellFormedModel(ModelOf(p, false, false))
    ensures Solvable(ModelOf(p, true, true)) <==> Solvable(ModelOf(p, false, false)) && NonNegativeCounts(p)
  {
    var m := ModelOf(p, true, true);
    ModelWellFormed(p, true, true);
    RelaxedSolvable(p);
    if v: Valuation :| Program(m, v) {
      ChosenHard(p, true, true, v);
      SlackBounds(m, Chosen(m.pairs, v), v);
      assert forall i :: 0 <= i < |m.c3| ==> 0 <= v(Slack(i)) <= m.c3[i].count;
      CountsInModel(p, m);
    }
    if NonNegativeCounts(p) {
      if S: set<Pair> :| SetHard(p, S) && SetPins(p, S) {
        CheapestSolves(p, true, true, S);
      }
    }
  }

  // ----- Slacks at an optimum -----

  lemma {:induction false} SlackTotalLe(n: nat, u: Valuation, v: Valuation)
    requires forall i: nat :: i < n ==> u(Slack(i)) <= v(Slack(i))
    ensures SlackTotal(n, u) <= SlackTotal(n, v)
    ensures SlackTotal(n, u) >= SlackTotal(n, v) ==> forall i: nat :: i < n ==> u(Slack(i)) == v(Slack(i))
  {
    if n > 0 {
      SlackTotalLe(n - 1, u, v);
    }
  }

  lemma BigMPositive(w: Weights, pairCount: nat)
    requires w.Valid()
    ensures BigM(w, pairCount) as real >= SCALE as real * w.Sum() + pairCount as real + 2.0
    ensures BigM(w, pairCount) >= 2
  {
    assert w.Sum() >= 0.0;
  }

  lemma PenaltyOrder(bigM: int, a: int, b: int)
    requires bigM > 0 && bigM * a <= bigM * b
    ensures a <= b
  {
  }

  /** Every solution's slacks cover the shortfalls. */
  lemma SlacksAboveShortfall(m: MilpModel, S: set<Pair>, v: Valuation)
    requires SlacksCover(m, S, v)
    ensures forall i: nat :: i < |m.c3| ==> Shortfall(m, S)(i) <= v(Slack(i))
    ensures forall i :: 0 <= i < |m.c3| ==> m.c3[i].count >= 0
  {
    forall i: nat | i < |m.c3|
      ensures Shortfall(m, S)(i) <= v(Slack(i)) && m.c3[i].count >= 0
    {
      assert SlackOk(m, S, v, i);
    }
  }

  /** An optimum's total slack is no more than the total shortfall of its own choice. */
  lemma OptimumSlackTotal(p: Problem, v: Valuation)
    requires WellFormed(p) && NonNegativeTravel(p) && NonNegativeCounts(p)
    requires WellFormedModel(ModelOf(p, true, true)) && Optimum(ModelOf(p, true, true), v)
    ensures var m := ModelOf(p, true, true);
            SlackTotal(|m.c3|, v) <= SlackTotal(|m.c3|, Cheapest(p, m, Chosen(m.pairs, v)))
  {
    var m := ModelOf(p, true, true);
    var S := Chosen(m.pairs, v);
    var u := Cheapest(p, m, S);
    ChosenHard(p, true, true, v);
    CheapestSolves(p, true, true, S);
    ObjectiveSplit(p, true, true, v);
    SameChoice(p, u, v);
    BigMPositive(p.parameters.weights, |m.pairs|);
    PenaltyOrder(m.bigM, SlackTotal(|m.c3|, v), SlackTotal(|m.c3|, u));
  }

  /** At an optimum of the demoted program every slack equals its shortfall. */
  lemma CheapestIsShort(p: Problem, m: MilpModel, S: set<Pair>, i: nat)
    requires i < |m.c3|
    ensures Cheapest(p, m, S)(Slack(i)) == Shortfall(m, S)(i)
  {
  }

  lemma TightSlacks(p: Problem, v: Valuation)
    requires WellFormed(p) && NonNegativeTravel(p)
    requires WellFormedModel(ModelOf(p, true, true)) && Optimum(ModelOf(p, true, true), v)
    ensures NonNegativeCounts(p)
    ensures var m := ModelOf(p, true, true);
            forall i: nat :: i < |m.c3| ==> v(Slack(i)) == Shortfall(m, Chosen(m.pairs, v))(i)
  {
    var m := ModelOf(p, true, true);
    var S := Chosen(m.pairs, v);
    assert SlacksCover(m, S, v) && m.c3 == AllC3(p.facilities, p.availableStaff);
    hide *;
    SlacksAboveShortfall(m, S, v);
    CountsInModel(p, m);
    OptimumSlackTotal(p, v);
    forall i: nat | i < |m.c3|
      ensures Cheapest(p, m, S)(Slack(i)) == Shortfall(m, S)(i)
    {
      CheapestIsShort(p, m, S, i);
    }
    SlackTotalLe(|m.c3|, Cheapest(p, m, S), v);
  }

  /** Two solutions with the same choice have the same encoded objective. */
  lemma SameChoice(p: Problem, u: Valuation, v: Valuation)
    requires WellFormed(p)
    requires Elements(Picked(p, u)) == Chosen(AllPairs(p.availableStaff, p.facilities), v)
    ensures ScaledObjective(p, Picked(p, u)) == ScaledObjective(p, Picked(p, v))
  {
    PickedIsChoice(p, u);
    PickedIsChoice(p, v);
    FilterSame(AllPairs(p.availableStaff, p.facilities), u, v);
  }

  lemma {:induction false} FilterSame(ps: seq<Pair>, u: Valuation, v: Valuation)
    requires Chosen(ps, u) == Chosen(ps, v)
    ensures Filter(ps, IsOne(u)) == Filter(ps, IsOne(v))
  {
    if ps != [] {
      var rest, last := ps[..|ps| - 1], ps[|ps| - 1];
      assert ps == rest + [last];
      assert forall pr :: pr in ps ==> (pr in Chosen(ps, u) <==> u(X(pr)) == 1);
      assert forall pr :: pr in ps ==> (pr in Chosen(ps, v) <==> v(X(pr)) == 1);
      FilterSame(rest, u, v);
    }
  }
}
