/** When the big-M penalty really dominates: an optimum of the demoted program then has the
    least total C3 slack. The documented claim is that it always does; the rounding of the
    minimax coefficient, multiplied by the longest trip, can break it. */
module Dominance {
  import opened Domain
  import opened Counting
  import opened Scaling
  import opened Objective
  import opened Model
  import opened CpSat
  import opened SolverPort
  import opened Agreement
  import opened Diagnosis
  import opened Optima
  import opened Guarantees

  ghost function PairCount(p: Problem): nat {
    |AllPairs(p.availableStaff, p.facilities)|
  }

  /** Room for everything the encoded objective can reach below one penalty: the time and
      cost terms, half a unit of rounding per assignment, the minimax term at its largest. */
  ghost predicate MarginHolds(p: Problem) {
    var w, norm := p.parameters.weights, NormOf(p);
    NormalisationPositive(p, norm);
    SCALE as real * (w.travelTime + w.travelCost) + TotalRequired(p.facilities) as real / 2.0
    + (TmaxCoeff(w, norm) * norm.maxTravelSeconds) as real
    < BigM(w, PairCount(p)) as real
  }

  /** Every optimum of the demoted program minimises the total C3 slack first. */
  ghost predicate SlackFirst(p: Problem)
    requires WellFormed(p)
  {
    ModelWellFormed(p, true, true);
    var m := ModelOf(p, true, true);
    forall v: Valuation, u: Valuation :: Optimum(m, v) && Program(m, u) ==>
      SlackTotal(|m.c3|, v) <= SlackTotal(|m.c3|, u)
  }

  /** The claim made for the penalty: it exceeds every encoded objective. */
  ghost predicate RangeBelowPenalty(p: Problem) {
    forall ps: seq<Pair> :: NoDup(ps) && SetHard(p, Elements(ps)) ==>
      ScaledObjective(p, ps) < BigM(p.parameters.weights, PairCount(p))
  }

  /** Less than the claim, and all that the penalty needs: it exceeds the difference between
      any two encoded objectives. */
  ghost predicate SpreadBelowPenalty(p: Problem) {
    forall ps: seq<Pair>, qs: seq<Pair> ::
      NoDup(ps) && SetHard(p, Elements(ps)) && NoDup(qs) && SetHard(p, Elements(qs)) ==>
        ScaledObjective(p, ps) < ScaledObjective(p, qs) + BigM(p.parameters.weights, PairCount(p))
  }

  lemma RequiredBounds(p: Problem, ps: seq<Pair>)
    requires WellFormed(p) && NoDup(ps) && SetHard(p, Elements(ps))
    ensures |ps| == TotalRequired(p.facilities) <= PairCount(p)
  {
    Pigeonhole(p, Elements(ps));
    ElementsSize(ps);
    AllPairsNoDup(p.availableStaff, p.facilities);
    ElementsSize(AllPairs(p.availableStaff, p.facilities));
    SubsetSize(Elements(ps), PairSet(p));
  }

  // ----- How far the encoded objective can reach -----

  /** The time weight counts only if some trip takes time. */
  function TimeWeight(w: Weights, longest: int): real {
    if longest >= 1 then w.travelTime else 0.0
  }

  /** The largest coefficient a pair can have. */
  function TopCoeff(w: Weights, longest: int, required: int): int
    requires required >= 1
  {
    Round(SCALE as real * Ratio(TimeWeight(w, longest) + w.travelCost, required as real))
  }

  /** The largest minimax term. */
  function TopMinimax(w: Weights, longest: int): int {
    Round(Ratio(SCALE as real * w.inequity, Max(longest, 1) as real)) * longest
  }

  /** The largest encoded objective of an assignment of `required` people. */
  function Reach(w: Weights, longest: int, required: int): int
    requires required >= 1
  {
    required * TopCoeff(w, longest, required) + TopMinimax(w, longest)
  }

  /** The claim on its four numbers: big-M exceeds everything the objective can reach. */
  predicate WithinReach(w: Weights, longest: int, required: int, pairs: int) {
    required == 0 || required > pairs || (required >= 1 && Reach(w, longest, required) < BigM(w, pairs))
  }

  /** A share of the scale is at most one part in `required`. */
  lemma PartOfScale(a: real, m: real, r: real)
    requires 0.0 <= a <= m && m > 0.0 && r >= 1.0
    ensures Times(r, m) > 0.0 && 0.0 <= Ratio(a, Times(r, m)) <= Ratio(1.0, r)
  {
    var x := Ratio(a, m);
    RatioWithin(a, m);
    assert Times(r, m) >= m by { ProductNonNegative(r - 1.0, m); }
    assert Ratio(a, Times(r, m)) == Ratio(x, r) by { assert a == x * m; }
    assert Ratio(1.0, r) - Ratio(x, r) == Ratio(1.0 - x, r);
    RatioNonNegative(x, r);
    RatioNonNegative(1.0 - x, r);
  }

  lemma WeightedPart(w: real, x: real, r: real)
    requires w >= 0.0 && r >= 1.0 && x <= Ratio(1.0, r)
    ensures Times(w, x) <= Ratio(w, r)
  {
    ProductNonNegative(w, Ratio(1.0, r) - x);
    assert Times(w, Ratio(1.0, r)) == Ratio(w, r);
  }

  lemma RatioSum(a: real, b: real, r: real)
    requires r != 0.0
    ensures Ratio(a + b, r) == Ratio(a, r) + Ratio(b, r)
  {
  }

  lemma ValueAtMost(w: Weights, norm: Normalisation, longest: int, required: int, m: real, t: TravelMetrics)
    requires w.Valid() && required >= 1 && longest >= 0 && m >= 1.0
    requires norm.nTime == Times(required as real, Max(longest, 1) as real) && norm.nCost == Times(required as real, m)
    requires 0 <= t.timeSeconds <= longest && 0.0 <= t.costYen <= m
    ensures norm.nTime > 0.0 && norm.nCost > 0.0
    ensures PairValue(w, norm, t) <= Ratio(TimeWeight(w, longest) + w.travelCost, required as real)
  {
    var r := required as real;
    PartOfScale(t.timeSeconds as real, Max(longest, 1) as real, r);
    PartOfScale(t.costYen, m, r);
    WeightedPart(w.travelCost, Ratio(t.costYen, norm.nCost), r);
    RatioSum(TimeWeight(w, longest), w.travelCost, r);
    if longest >= 1 {
      WeightedPart(w.travelTime, Ratio(t.timeSeconds as real, norm.nTime), r);
    } else {
      ZeroTrip(w.travelTime, norm.nTime, r);
    }
  }

  lemma ZeroTrip(w: real, n: real, r: real)
    requires n > 0.0 && r >= 1.0
    ensures Times(w, Ratio(0.0, n)) == 0.0 && Ratio(0.0, r) == 0.0
  {
  }

  lemma ScaleUp(x: real, y: real)
    requires x <= y
    ensures SCALE as real * x <= SCALE as real * y
  {
  }

  lemma {:induction false} CoeffsAtMost(p: Problem, norm: Normalisation, ps: seq<Pair>, top: int)
    requires norm.nTime != 0.0 && norm.nCost != 0.0 && top >= 0
    requires forall k :: k in p.travel ==> PairCoeff(p.parameters.weights, norm, p.travel[k]) <= top
    ensures Sum(ps, CoeffOf(p, norm)) <= |ps| * top
  {
    if ps != [] {
      var n := |ps| - 1;
      CoeffsAtMost(p, norm, ps[..n], top);
      OneMoreTop(n, top);
    }
  }

  lemma OneMoreTop(n: int, top: int)
    ensures (n + 1) * top == n * top + top
  {
  }

  /** The scales of a problem, as products with the required headcount. */
  lemma ScalesOf(p: Problem) returns (m: real)
    requires NonNegativeTravel(p) && TotalRequired(p.facilities) >= 1
    ensures var norm, r := NormOf(p), TotalRequired(p.facilities) as real;
            && norm.maxTravelSeconds >= 0
            && norm.nTime == Times(r, Max(norm.maxTravelSeconds, 1) as real)
            && norm.nCost == Times(r, m) && m >= 1.0
            && norm.nTimeSingle == Max(norm.maxTravelSeconds, 1) as real
    ensures forall k :: k in p.travel ==>
              0 <= p.travel[k].timeSeconds <= NormOf(p).maxTravelSeconds && 0.0 <= p.travel[k].costYen <= m
  {
    var t, c := NormFacts(p);
    m := MaxReal(c, 1.0);
    TravelWithin(p, t, c);
    CastProduct(TotalRequired(p.facilities), Max(t, 1));
  }

  lemma PairsAtMost(p: Problem)
    requires NonNegativeTravel(p) && p.parameters.Valid() && TotalRequired(p.facilities) >= 1
    ensures Positive(NormOf(p))
    ensures forall k :: k in p.travel ==>
              PairCoeff(p.parameters.weights, NormOf(p), p.travel[k])
              <= TopCoeff(p.parameters.weights, NormOf(p).maxTravelSeconds, TotalRequired(p.facilities))
  {
    var w, norm, r := p.parameters.weights, NormOf(p), TotalRequired(p.facilities);
    TmaxNonNegative(p);
    var m := ScalesOf(p);
    forall k | k in p.travel
      ensures PairCoeff(w, norm, p.travel[k]) <= TopCoeff(w, norm.maxTravelSeconds, r)
    {
      ValueAtMost(w, norm, norm.maxTravelSeconds, r, m, p.travel[k]);
      ScaleUp(PairValue(w, norm, p.travel[k]), Ratio(TimeWeight(w, norm.maxTravelSeconds) + w.travelCost, r as real));
      RoundMonotone(SCALE as real * PairValue(w, norm, p.travel[k]),
                    SCALE as real * Ratio(TimeWeight(w, norm.maxTravelSeconds) + w.travelCost, r as real));
    }
  }

  lemma TopCoeffNonNegative(w: Weights, longest: int, required: int)
    requires w.Valid() && required >= 1
    ensures TopCoeff(w, longest, required) >= 0
  {
    RatioNonNegative(TimeWeight(w, longest) + w.travelCost, required as real);
  }

  /** No complete assignment's encoded objective is beyond the reach. */
  lemma WithinTheReach(p: Problem, ps: seq<Pair>)
    requires WellFormed(p) && NonNegativeTravel(p) && TotalRequired(p.facilities) >= 1
    requires |ps| == TotalRequired(p.facilities)
    ensures ScaledObjective(p, ps)
         <= Reach(p.parameters.weights, NormOf(p).maxTravelSeconds, TotalRequired(p.facilities))
  {
    var w, norm, r := p.parameters.weights, NormOf(p), TotalRequired(p.facilities);
    TmaxNonNegative(p);
    var m := ScalesOf(p);
    PairsAtMost(p);
    TopCoeffNonNegative(w, norm.maxTravelSeconds, r);
    CoeffsAtMost(p, norm, ps, TopCoeff(w, norm.maxTravelSeconds, r));
    MaxSecondsWithin(p, ps);
    IntTimes(TmaxCoeff(w, norm), MaxSeconds(p, ps), norm.maxTravelSeconds);
  }

  ghost predicate ReachBelowPenalty(p: Problem) {
    WithinReach(p.parameters.weights, NormOf(p).maxTravelSeconds, TotalRequired(p.facilities), PairCount(p))
  }

  /** If big-M exceeds the reach, it exceeds every encoded objective. */
  lemma ReachMeansRange(p: Problem)
    requires WellFormed(p) && NonNegativeTravel(p) && ReachBelowPenalty(p)
    ensures RangeBelowPenalty(p)
  {
    forall ps: seq<Pair> | NoDup(ps) && SetHard(p, Elements(ps))
      ensures ScaledObjective(p, ps) < BigM(p.parameters.weights, PairCount(p))
    {
      RequiredBounds(p, ps);
      BigMPositive(p.parameters.weights, PairCount(p));
      if ps == [] {
        NormalisationPositive(p, NormOf(p));
      } else {
        WithinTheReach(p, ps);
      }
    }
  }

  lemma {:induction false} CoeffsNonNegative(p: Problem, norm: Normalisation, ps: seq<Pair>)
    requires NonNegativeTravel(p) && p.parameters.Valid() && norm.nTime > 0.0 && norm.nCost > 0.0
    ensures Sum(ps, CoeffOf(p, norm)) >= 0
  {
    if ps != [] {
      CoeffsNonNegative(p, norm, ps[..|ps| - 1]);
      var pr := ps[|ps| - 1];
      if pr in p.travel {
        CoeffNonNegative(p.parameters.weights, norm, p.travel[pr]);
      }
    }
  }

  lemma CoeffNonNegative(w: Weights, norm: Normalisation, t: TravelMetrics)
    requires w.Valid() && norm.nTime > 0.0 && norm.nCost > 0.0
    requires t.timeSeconds >= 0 && t.costYen >= 0.0
    ensures PairCoeff(w, norm, t) >= 0
  {
    RatioNonNegative(t.timeSeconds as real, norm.nTime);
    RatioNonNegative(t.costYen, norm.nCost);
    ProductNonNegative(w.travelTime, Ratio(t.timeSeconds as real, norm.nTime));
    ProductNonNegative(w.travelCost, Ratio(t.costYen, norm.nCost));
  }

  lemma RatioNonNegative(a: real, n: real)
    requires a >= 0.0 && n > 0.0
    ensures Ratio(a, n) >= 0.0
  {
  }

  lemma ScaledNonNegative(p: Problem, ps: seq<Pair>)
    requires WellFormed(p) && NonNegativeTravel(p)
    ensures ScaledObjective(p, ps) >= 0
  {
    TmaxNonNegative(p);
    MaxSecondsBounds(p, ps);
    CoeffsNonNegative(p, NormOf(p), ps);
    IntTimes(TmaxCoeff(p.parameters.weights, NormOf(p)), 0, MaxSeconds(p, ps));
  }

  lemma PenaltyGap(bigM: int, a: int, b: int, za: int, zb: int)
    requires bigM > 0 && zb < za + bigM
    requires za + bigM * a <= zb + bigM * b
    ensures a <= b
  {
    if a >= b + 1 {
      IntTimes(bigM, b + 1, a);
    }
  }

  /** u's slacks can only be lowered by moving them to the shortfall of u's own choice. */
  lemma CheapestSlack(p: Problem, u: Valuation)
    requires WellFormed(p)
    requires WellFormedModel(ModelOf(p, true, true)) && Program(ModelOf(p, true, true), u)
    ensures var m := ModelOf(p, true, true);
            SlackTotal(|m.c3|, Cheapest(p, m, Chosen(m.pairs, u))) <= SlackTotal(|m.c3|, u)
    ensures NonNegativeCounts(p)
  {
    var m := ModelOf(p, true, true);
    SlacksAboveShortfall(m, Chosen(m.pairs, u), u);
    CountsInModel(p, m);
    SlackTotalLe(|m.c3|, Cheapest(p, m, Chosen(m.pairs, u)), u);
  }

  lemma MarginSolution(p: Problem, v: Valuation, u: Valuation)
    requires WellFormed(p) && NonNegativeTravel(p) && SpreadBelowPenalty(p)
    requires WellFormedModel(ModelOf(p, true, true))
    requires Optimum(ModelOf(p, true, true), v) && Program(ModelOf(p, true, true), u)
    ensures var m := ModelOf(p, true, true); SlackTotal(|m.c3|, v) <= SlackTotal(|m.c3|, u)
  {
    var m := ModelOf(p, true, true);
    var S := Chosen(m.pairs, u);
    var best := Cheapest(p, m, S);
    CheapestSlack(p, u);
    ChosenHard(p, true, true, u);
    BeatsEncoded(p, true, v, S);
    CheapestPicks(p, m, S);
    PickedIsChoice(p, best);
    ChosenHard(p, true, true, v);
    PickedIsChoice(p, v);
    assert ScaledObjective(p, Picked(p, best)) < ScaledObjective(p, Picked(p, v)) + m.bigM;
    BigMPositive(p.parameters.weights, |m.pairs|);
    PenaltyGap(m.bigM, SlackTotal(|m.c3|, v), SlackTotal(|m.c3|, best),
               ScaledObjective(p, Picked(p, v)), ScaledObjective(p, Picked(p, best)));
  }

  /** A penalty above every difference makes one C3 shortfall less outweigh any objective
      increase. */
  lemma SpreadDominates(p: Problem)
    requires WellFormed(p) && NonNegativeTravel(p) && SpreadBelowPenalty(p)
    ensures SlackFirst(p)
  {
    ModelWellFormed(p, true, true);
    var m := ModelOf(p, true, true);
    forall v: Valuation, u: Valuation | Optimum(m, v) && Program(m, u)
      ensures SlackTotal(|m.c3|, v) <= SlackTotal(|m.c3|, u)
    {
      MarginSolution(p, v, u);
    }
  }

  /** So does a penalty above the whole range. */
  lemma RangeDominates(p: Problem)
    requires WellFormed(p) && NonNegativeTravel(p) && RangeBelowPenalty(p)
    ensures SlackFirst(p)
  {
    forall ps: seq<Pair>, qs: seq<Pair> |
        NoDup(ps) && SetHard(p, Elements(ps)) && NoDup(qs) && SetHard(p, Elements(qs))
      ensures ScaledObjective(p, ps) < ScaledObjective(p, qs) + BigM(p.parameters.weights, PairCount(p))
    {
      ScaledNonNegative(p, qs);
    }
    SpreadDominates(p);
  }

  /** One condition for all weights: a reach below big-M puts slack first. */
  lemma ReachDominates(p: Problem)
    requires WellFormed(p) && NonNegativeTravel(p) && ReachBelowPenalty(p)
    ensures SlackFirst(p)
  {
    ReachMeansRange(p);
    RangeDominates(p);
  }

  lemma RoundedShare(required: int, s: real)
    requires required >= 1
    ensures (required * Round(SCALE as real * Ratio(s, required as real))) as real
         <= SCALE as real * s + required as real / 2.0
  {
    var x := SCALE as real * Ratio(s, required as real);
    var r := required as real;
    HalfStep(Round(x) as real - x, r);
    SplitProduct(Round(x) as real, x, r);
    CastProduct(Round(x), required);
    assert Times(x, r) == SCALE as real * s by { assert Ratio(s, r) * r == s; }
  }

  /** The margin is a special case of the reach. */
  lemma MarginMeansReach(p: Problem)
    requires WellFormed(p) && NonNegativeTravel(p) && MarginHolds(p)
    ensures ReachBelowPenalty(p)
  {
    var w, norm, r := p.parameters.weights, NormOf(p), TotalRequired(p.facilities);
    if r >= 1 {
      var m := ScalesOf(p);
      RoundedShare(r, TimeWeight(w, norm.maxTravelSeconds) + w.travelCost);
    } else {
      RequiredNonNegative(p.facilities);
    }
  }

  lemma {:induction false} RequiredNonNegative(facilities: seq<Facility>)
    requires forall f :: f in facilities ==> f.headcount >= 1
    ensures TotalRequired(facilities) >= |facilities|
  {
    if facilities != [] {
      assert facilities[|facilities| - 1] in facilities;
      RequiredNonNegative(facilities[..|facilities| - 1]);
    }
  }

  /** Without an inequity weight the margin suffices whenever anything can be complete. */
  lemma NoInequityMargin(p: Problem)
    requires WellFormed(p) && TotalRequired(p.facilities) <= PairCount(p)
    requires p.parameters.weights.inequity == 0.0
    ensures MarginHolds(p)
  {
    var w, norm := p.parameters.weights, NormOf(p);
    NormalisationPositive(p, norm);
    ZeroInequity(w, norm, 0);
    BigMPositive(w, PairCount(p));
    assert TmaxCoeff(w, norm) * norm.maxTravelSeconds == 0;
  }

  /** Otherwise it suffices while headcount plus longest trip stay below twice the
      pair-count margin: the exact room left for rounding. */
  lemma RoomMargin(p: Problem)
    requires WellFormed(p) && NonNegativeTravel(p)
    requires TotalRequired(p.facilities) + NormOf(p).maxTravelSeconds < 2 * (PairCount(p) + 2)
    ensures MarginHolds(p)
  {
    var w, norm := p.parameters.weights, NormOf(p);
    var t, c := NormFacts(p);
    TmaxClose(w, norm, norm.maxTravelSeconds);
    ShareWithin(w.inequity, norm.maxTravelSeconds as real, norm.nTimeSingle);
    BigMPositive(w, PairCount(p));
  }

  /** Two cases within reach: no inequity weight, or enough room for rounding. */
  lemma PenaltyDominates(p: Problem)
    requires WellFormed(p) && NonNegativeTravel(p)
    requires || p.parameters.weights.inequity == 0.0
             || TotalRequired(p.facilities) + NormOf(p).maxTravelSeconds < 2 * (PairCount(p) + 2)
    ensures ReachBelowPenalty(p) && SlackFirst(p)
  {
    if p.parameters.weights.inequity == 0.0 {
      if TotalRequired(p.facilities) <= PairCount(p) {
        NoInequityMargin(p);
        MarginMeansReach(p);
      }
    } else {
      RoomMargin(p);
      MarginMeansReach(p);
    }
    ReachDominates(p);
  }
}
