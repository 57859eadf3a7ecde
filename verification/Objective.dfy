/** The reported objective, its integer-scaled encoding, and how far apart the two can be. */
module Objective {
  import opened Domain
  import opened Counting
  import opened Scaling

  function SecondsOf(p: Problem): Pair -> int {
    (pr: Pair) => if pr in p.travel then p.travel[pr].timeSeconds else 0
  }

  function YenOf(p: Problem): Pair -> real {
    (pr: Pair) => if pr in p.travel then p.travel[pr].costYen else 0.0
  }

  function MaxSeconds(p: Problem, ps: seq<Pair>): int {
    if ps == [] then 0 else Max(MaxSeconds(p, ps[..|ps| - 1]), SecondsOf(p)(ps[|ps| - 1]))
  }

  /** w_time * (sum t / n_time) + w_cost * (sum c / n_cost) + w_inequity * (max t / n_single) */
  function RealObjective(p: Problem, norm: Normalisation, ps: seq<Pair>): real
    requires norm.nTime != 0.0 && norm.nCost != 0.0 && norm.nTimeSingle != 0.0
  {
    var w := p.parameters.weights;
    TimeCost(w, norm, Sum(ps, SecondsOf(p)) as real, SumReal(ps, YenOf(p)))
    + Inequity(w, norm, MaxSeconds(p, ps) as real)
  }

  /** The objective in the problem's own normalisation. */
  ghost function ObjectiveOf(p: Problem, ps: seq<Pair>): real {
    NormalisationPositive(p, NormOf(p));
    RealObjective(p, NormOf(p), ps)
  }

  /** `normalised_objective`: one pass accumulating the three terms. */
  method NormalisedObjective(p: Problem, assignments: seq<Assignment>) returns (value: real)
    requires forall a :: a in assignments ==> a.Pair() in p.travel
    ensures value == ObjectiveOf(p, PairsOf(assignments))
  {
    var norm := ComputeNormalisation(p);
    NormalisationUnique(p, norm, NormOf(p));
    NormalisationPositive(p, norm);
    var sumT, sumC, maxT := Accumulate(p, assignments);
    var w := p.parameters.weights;
    value := TimeCost(w, norm, sumT as real, sumC) + Inequity(w, norm, maxT as real);
  }

  method Accumulate(p: Problem, assignments: seq<Assignment>) returns (sumT: int, sumC: real, maxT: int)
    requires forall a :: a in assignments ==> a.Pair() in p.travel
    ensures sumT == Sum(PairsOf(assignments), SecondsOf(p))
    ensures sumC == SumReal(PairsOf(assignments), YenOf(p))
    ensures maxT == MaxSeconds(p, PairsOf(assignments))
  {
    var ps := PairsOf(assignments);
    sumT, sumC, maxT := 0, 0.0, 0;
    for i := 0 to |assignments|
      invariant sumT == Sum(ps[..i], SecondsOf(p))
      invariant sumC == SumReal(ps[..i], YenOf(p))
      invariant maxT == MaxSeconds(p, ps[..i])
    {
      var metrics := p.travel[assignments[i].Pair()];
      assert ps[..i + 1][..i] == ps[..i];
      sumT := sumT + metrics.timeSeconds;
      sumC := sumC + metrics.costYen;
      maxT := Max(maxT, metrics.timeSeconds);
    }
    assert ps[..|ps|] == ps;
  }

  // ----- The encoded objective of a list of pairs -----

  function ValueOf(p: Problem, norm: Normalisation): Pair -> real
    requires norm.nTime != 0.0 && norm.nCost != 0.0
  {
    (pr: Pair) => if pr in p.travel then PairValue(p.parameters.weights, norm, p.travel[pr]) else 0.0
  }

  function CoeffOf(p: Problem, norm: Normalisation): Pair -> int
    requires norm.nTime != 0.0 && norm.nCost != 0.0
  {
    (pr: Pair) => if pr in p.travel then PairCoeff(p.parameters.weights, norm, p.travel[pr]) else 0
  }

  /** Scaled and rounded time and cost, plus the scaled minimax term. */
  ghost function ScaledObjective(p: Problem, ps: seq<Pair>): int {
    var norm := NormOf(p);
    NormalisationPositive(p, norm);
    Sum(ps, CoeffOf(p, norm)) + TmaxCoeff(p.parameters.weights, norm) * MaxSeconds(p, ps)
  }

  lemma {:induction false} ValueIsSum(p: Problem, norm: Normalisation, ps: seq<Pair>)
    requires norm.nTime != 0.0 && norm.nCost != 0.0
    ensures SumReal(ps, ValueOf(p, norm))
         == TimeCost(p.parameters.weights, norm, Sum(ps, SecondsOf(p)) as real, SumReal(ps, YenOf(p)))
  {
    var w := p.parameters.weights;
    if ps == [] {
      TimeCostAdds(w, norm, 0.0, 0.0, 0.0, 0.0);
    } else {
      var rest, last := ps[..|ps| - 1], ps[|ps| - 1];
      ValueIsSum(p, norm, rest);
      var t, c := SecondsOf(p)(last) as real, YenOf(p)(last);
      TimeCostAdds(w, norm, Sum(rest, SecondsOf(p)) as real, SumReal(rest, YenOf(p)), t, c);
      assert ValueOf(p, norm)(last) == TimeCost(w, norm, t, c);
      assert Sum(ps, SecondsOf(p)) as real == Sum(rest, SecondsOf(p)) as real + t;
    }
  }

  /** The reported objective as a sum over the pairs, plus the minimax term. */
  lemma ObjectiveAsSum(p: Problem, ps: seq<Pair>)
    ensures Positive(NormOf(p))
    ensures ObjectiveOf(p, ps) == SumReal(ps, ValueOf(p, NormOf(p)))
                                  + Inequity(p.parameters.weights, NormOf(p), MaxSeconds(p, ps) as real)
  {
    NormalisationPositive(p, NormOf(p));
    ValueIsSum(p, NormOf(p), ps);
  }

  lemma {:induction false} MaxSecondsBounds(p: Problem, ps: seq<Pair>)
    ensures MaxSeconds(p, ps) >= 0
    ensures forall pr :: pr in ps ==> SecondsOf(p)(pr) <= MaxSeconds(p, ps)
    ensures MaxSeconds(p, ps) == 0 || exists pr :: pr in ps && SecondsOf(p)(pr) == MaxSeconds(p, ps)
  {
    if ps != [] {
      var rest, last := ps[..|ps| - 1], ps[|ps| - 1];
      assert ps == rest + [last];
      MaxSecondsBounds(p, rest);
    }
  }

  lemma MaxSecondsReorder(p: Problem, s: seq<Pair>, t: seq<Pair>)
    requires Elements(s) == Elements(t)
    ensures MaxSeconds(p, s) == MaxSeconds(p, t)
  {
    MaxSecondsBounds(p, s);
    MaxSecondsBounds(p, t);
    assert forall pr :: pr in s <==> pr in Elements(s);
    assert forall pr :: pr in t <==> pr in Elements(t);
  }

  /** The reported objective depends only on which pairs are chosen. */
  lemma ObjectiveReorder(p: Problem, s: seq<Pair>, t: seq<Pair>)
    requires NoDup(s) && NoDup(t) && Elements(s) == Elements(t)
    ensures ObjectiveOf(p, s) == ObjectiveOf(p, t)
  {
    ObjectiveAsSum(p, s);
    ObjectiveAsSum(p, t);
    SumRealReorder(s, t, ValueOf(p, NormOf(p)));
    MaxSecondsReorder(p, s, t);
  }

  lemma NormFacts(p: Problem) returns (maxTime: int, maxCost: real)
    ensures IsMaxTime(p.travel, maxTime) && IsMaxCost(p.travel, maxCost)
    ensures NormOf(p) == NormalisationFrom(TotalRequired(p.facilities), maxTime, maxCost)
    ensures NormOf(p).nTime >= 1.0 && NormOf(p).nCost >= 1.0 && NormOf(p).nTimeSingle >= 1.0
    ensures NonNegativeTravel(p) ==> maxTime >= 0 && maxCost >= 0.0
  {
    var norm := NormOf(p);
    maxTime, maxCost :| IsMaxTime(p.travel, maxTime) && IsMaxCost(p.travel, maxCost)
                        && norm == NormalisationFrom(TotalRequired(p.facilities), maxTime, maxCost);
    NormalisationPositive(p, norm);
  }

  lemma MaxSecondsWithin(p: Problem, ps: seq<Pair>)
    requires NonNegativeTravel(p)
    ensures 0 <= MaxSeconds(p, ps) <= NormOf(p).maxTravelSeconds
  {
    var t, c := NormFacts(p);
    MaxSecondsBounds(p, ps);
    if MaxSeconds(p, ps) != 0 {
      var pr :| pr in ps && SecondsOf(p)(pr) == MaxSeconds(p, ps);
      assert pr in p.travel;
    }
  }

  // ----- Rounding error -----

  lemma {:induction false} CoeffsClose(p: Problem, norm: Normalisation, ps: seq<Pair>)
    requires norm.nTime != 0.0 && norm.nCost != 0.0
    ensures SCALE as real * SumReal(ps, ValueOf(p, norm)) - |ps| as real / 2.0
         <= Sum(ps, CoeffOf(p, norm)) as real
         <= SCALE as real * SumReal(ps, ValueOf(p, norm)) + |ps| as real / 2.0
  {
    if ps != [] {
      CoeffsClose(p, norm, ps[..|ps| - 1]);
    }
  }

  lemma TmaxClose(w: Weights, norm: Normalisation, t: int)
    requires norm.nTimeSingle > 0.0 && t >= 0
    ensures SCALE as real * Inequity(w, norm, t as real) - t as real / 2.0
         <= (TmaxCoeff(w, norm) * t) as real
         <= SCALE as real * Inequity(w, norm, t as real) + t as real / 2.0
  {
    var tc := TmaxCoeff(w, norm);
    var exact := Ratio(SCALE as real * w.inequity, norm.nTimeSingle);
    var target := SCALE as real * Inequity(w, norm, t as real);
    Regroup(SCALE as real, w.inequity, t as real, norm.nTimeSingle);
    HalfStep(tc as real - exact, t as real);
    SplitProduct(tc as real, exact, t as real);
    CastProduct(tc, t);
  }

  lemma HalfStep(d: real, x: real)
    requires -0.5 <= d <= 0.5 && x >= 0.0
    ensures -x / 2.0 <= Times(d, x) <= x / 2.0
  {
    ProductNonNegative(0.5 - d, x);
    SplitProduct(0.5, d, x);
    ProductNonNegative(d - -0.5, x);
    SplitProduct(d, -0.5, x);
  }

  lemma SplitProduct(a: real, b: real, x: real)
    ensures Times(a, x) == Times(b, x) + Times(a - b, x)
  {
  }

  lemma CastProduct(a: int, b: int)
    ensures (a * b) as real == Times(a as real, b as real)
  {
  }

  lemma Regroup(s: real, w: real, x: real, n: real)
    requires n != 0.0
    ensures Times(Ratio(s * w, n), x) == s * Times(w, Ratio(x, n))
  {
    var y := x / n;
    assert x == y * n;
    assert s * w / n * x == s * w * y;
  }

  lemma ZeroInequity(w: Weights, norm: Normalisation, t: int)
    requires norm.nTimeSingle > 0.0 && w.inequity == 0.0
    ensures TmaxCoeff(w, norm) == 0 && Inequity(w, norm, t as real) == 0.0
  {
    assert Ratio(SCALE as real * w.inequity, norm.nTimeSingle) == 0.0;
  }

  /** Rounding the minimax coefficient matters only if inequity has a weight. */
  function TripError(w: Weights, seconds: int): int {
    if w.inequity == 0.0 then 0 else seconds
  }

  /** The encoded objective is within half a unit per assignment and, if inequity has a
      weight, half a unit per second of the longest trip, of the scaled real one. */
  lemma ScaledClose(p: Problem, ps: seq<Pair>)
    ensures var error := (|ps| + TripError(p.parameters.weights, MaxSeconds(p, ps))) as real / 2.0;
            SCALE as real * ObjectiveOf(p, ps) - error
            <= ScaledObjective(p, ps) as real
            <= SCALE as real * ObjectiveOf(p, ps) + error
  {
    ObjectiveAsSum(p, ps);
    MaxSecondsBounds(p, ps);
    CoeffsClose(p, NormOf(p), ps);
    if p.parameters.weights.inequity == 0.0 {
      ZeroInequity(p.parameters.weights, NormOf(p), MaxSeconds(p, ps));
    } else {
      TmaxClose(p.parameters.weights, NormOf(p), MaxSeconds(p, ps));
    }
  }

  // ----- Range -----

  lemma {:induction false} SecondsBound(p: Problem, ps: seq<Pair>, m: int)
    requires m >= 0
    requires forall k :: k in p.travel ==> 0 <= p.travel[k].timeSeconds <= m
    ensures 0 <= Sum(ps, SecondsOf(p)) <= |ps| * m
  {
    if ps != [] {
      var n := |ps| - 1;
      SecondsBound(p, ps[..n], m);
      assert |ps| * m == n * m + m;
    }
  }

  lemma {:induction false} YenBound(p: Problem, ps: seq<Pair>, m: real)
    requires m >= 0.0
    requires forall k :: k in p.travel ==> 0.0 <= p.travel[k].costYen <= m
    ensures 0.0 <= SumReal(ps, YenOf(p)) <= Times(|ps| as real, m)
  {
    if ps != [] {
      var n := |ps| - 1;
      YenBound(p, ps[..n], m);
      SplitProduct(|ps| as real, n as real, m);
      assert |ps| as real - n as real == 1.0;
      assert Times(1.0, m) == m;
    }
  }

  lemma ProductMonotone(a: real, b: real, c: real, d: real)
    requires 0.0 <= a <= b && 0.0 <= c <= d
    ensures Times(a, c) <= Times(b, d)
  {
    ProductNonNegative(b - a, d);
    ProductNonNegative(a, d - c);
    SplitProduct(b, a, d);
    assert Times(a, d) == Times(a, c) + Times(a, d - c);
  }

  lemma RatioWithin(a: real, n: real)
    requires n > 0.0 && 0.0 <= a <= n
    ensures 0.0 <= Ratio(a, n) <= 1.0
  {
  }

  lemma ShareWithin(w: real, a: real, n: real)
    requires w >= 0.0 && n > 0.0 && 0.0 <= a <= n
    ensures 0.0 <= Times(w, Ratio(a, n)) <= w
  {
    var r := Ratio(a, n);
    RatioWithin(a, n);
    ProductNonNegative(w, r);
    ProductNonNegative(w, 1.0 - r);
    assert Times(w, 1.0 - r) == w - Times(w, r);
  }

  lemma TravelWithin(p: Problem, maxTime: int, maxCost: real)
    requires NonNegativeTravel(p)
    requires IsMaxTime(p.travel, maxTime) && IsMaxCost(p.travel, maxCost)
    ensures forall k :: k in p.travel ==> 0 <= p.travel[k].timeSeconds <= Max(maxTime, 1)
    ensures forall k :: k in p.travel ==> 0.0 <= p.travel[k].costYen <= MaxReal(maxCost, 1.0)
  {
  }

  /** With at most the required number of assignments, every normalised term is within
      its weight. */
  lemma TermsInRange(p: Problem, ps: seq<Pair>)
    requires NonNegativeTravel(p) && p.parameters.Valid()
    requires |ps| <= Max(TotalRequired(p.facilities), 1)
    ensures Positive(NormOf(p))
    ensures 0.0 <= SumReal(ps, ValueOf(p, NormOf(p)))
         <= p.parameters.weights.travelTime + p.parameters.weights.travelCost
    ensures 0.0 <= Inequity(p.parameters.weights, NormOf(p), MaxSeconds(p, ps) as real) <= p.parameters.weights.inequity
  {
    var norm := NormOf(p);
    ValueIsSum(p, norm, ps);
    TimeWithin(p, ps);
    CostWithin(p, ps);
    NormalisationPositive(p, norm);
    TimeCostWithin(p.parameters.weights, norm, Sum(ps, SecondsOf(p)) as real, SumReal(ps, YenOf(p)));
    SingleWithin(p, ps);
  }

  lemma TimeCostWithin(w: Weights, norm: Normalisation, t: real, c: real)
    requires w.Valid() && norm.nTime > 0.0 && norm.nCost > 0.0
    requires 0.0 <= t <= norm.nTime && 0.0 <= c <= norm.nCost
    ensures 0.0 <= TimeCost(w, norm, t, c) <= w.travelTime + w.travelCost
  {
    ShareWithin(w.travelTime, t, norm.nTime);
    ShareWithin(w.travelCost, c, norm.nCost);
  }

  lemma SingleWithin(p: Problem, ps: seq<Pair>)
    requires NonNegativeTravel(p) && p.parameters.Valid()
    ensures Positive(NormOf(p))
    ensures 0.0 <= Inequity(p.parameters.weights, NormOf(p), MaxSeconds(p, ps) as real) <= p.parameters.weights.inequity
  {
    var t, c := NormFacts(p);
    MaxSecondsWithin(p, ps);
    ShareWithin(p.parameters.weights.inequity, MaxSeconds(p, ps) as real, NormOf(p).nTimeSingle);
  }

  lemma TimeWithin(p: Problem, ps: seq<Pair>)
    requires NonNegativeTravel(p) && |ps| <= Max(TotalRequired(p.facilities), 1)
    ensures 0.0 <= Sum(ps, SecondsOf(p)) as real <= NormOf(p).nTime
  {
    var t, c := NormFacts(p);
    var r, m := Max(TotalRequired(p.facilities), 1), Max(t, 1);
    TravelWithin(p, t, c);
    SecondsBound(p, ps, m);
    IntProductMonotone(|ps|, r, m);
  }

  lemma IntProductMonotone(a: int, b: int, m: int)
    requires a <= b && m >= 0
    ensures a * m <= b * m
  {
  }

  lemma CostWithin(p: Problem, ps: seq<Pair>)
    requires NonNegativeTravel(p) && |ps| <= Max(TotalRequired(p.facilities), 1)
    ensures 0.0 <= SumReal(ps, YenOf(p)) <= NormOf(p).nCost
  {
    var m := CostScale(p);
    YenBound(p, ps, m);
    ProductMonotone(|ps| as real, Max(TotalRequired(p.facilities), 1) as real, m, m);
  }

  /** The cost scale: required headcount times a bound on every cost. */
  lemma CostScale(p: Problem) returns (m: real)
    requires NonNegativeTravel(p)
    ensures m >= 1.0 && forall k :: k in p.travel ==> 0.0 <= p.travel[k].costYen <= m
    ensures NormOf(p).nCost == Times(Max(TotalRequired(p.facilities), 1) as real, m)
  {
    var t, c := NormFacts(p);
    m := MaxReal(c, 1.0);
    TravelWithin(p, t, c);
  }

  /** The reported objective of a complete assignment lies between 0 and the weight sum. */
  lemma ObjectiveInRange(p: Problem, ps: seq<Pair>)
    requires NonNegativeTravel(p) && p.parameters.Valid()
    requires |ps| <= Max(TotalRequired(p.facilities), 1)
    ensures 0.0 <= ObjectiveOf(p, ps) <= p.parameters.weights.Sum()
  {
    ObjectiveAsSum(p, ps);
    TermsInRange(p, ps);
  }
}
