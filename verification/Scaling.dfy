/** Objective normalisation and integer scaling. Floats are modelled by `real`; Python's
    `round` (half to even) and `math.ceil` are written out. */
module Scaling {
  import opened Domain

  const SCALE: int := 1_000_000

  function Round(x: real): (r: int)
    ensures x - 0.5 <= r as real <= x + 0.5
    ensures x >= 0.0 ==> r >= 0
  {
    var below := x.Floor;
    var fraction := x - below as real;
    if fraction < 0.5 then below
    else if fraction > 0.5 then below + 1
    else if below % 2 == 0 then below else below + 1
  }

  lemma RoundMonotone(x: real, y: real)
    requires x <= y
    ensures Round(x) <= Round(y)
  {
    assert x.Floor <= y.Floor;
  }

  function Ceil(x: real): (r: int)
    ensures x <= r as real < x + 1.0
  {
    -((-x).Floor)
  }

  function Max(x: int, y: int): int { if x >= y then x else y }

  function Min(x: int, y: int): int { if x <= y then x else y }

  function MaxReal(x: real, y: real): real { if x >= y then x else y }

  datatype Normalisation = Normalisation(nTime: real, nCost: real, nTimeSingle: real, maxTravelSeconds: int)

  // max(..., default=0) over the travel matrix's values.

  ghost predicate IsMaxTime(travel: map<Pair, TravelMetrics>, m: int) {
    if travel == map[] then m == 0
    else
      && (exists k :: k in travel && travel[k].timeSeconds == m)
      && (forall k :: k in travel ==> travel[k].timeSeconds <= m)
  }

  ghost predicate IsMaxCost(travel: map<Pair, TravelMetrics>, m: real) {
    if travel == map[] then m == 0.0
    else (exists k :: k in travel && travel[k].costYen == m) && forall k :: k in travel ==> travel[k].costYen <= m
  }

  method FindMaxTime(travel: map<Pair, TravelMetrics>) returns (m: int)
    ensures IsMaxTime(travel, m)
  {
    m := 0;
    var rest := travel.Keys;
    while rest != {}
      invariant rest <= travel.Keys
      invariant rest == travel.Keys ==> m == 0
      invariant rest != travel.Keys ==> exists k :: k in travel && travel[k].timeSeconds == m
      invariant forall k :: k in travel && k !in rest ==> travel[k].timeSeconds <= m
      decreases rest
    {
      var k :| k in rest;
      m := if rest == travel.Keys then travel[k].timeSeconds else Max(m, travel[k].timeSeconds);
      rest := rest - {k};
    }
    assert travel != map[] ==> travel.Keys != {};
  }

  method FindMaxCost(travel: map<Pair, TravelMetrics>) returns (m: real)
    ensures IsMaxCost(travel, m)
  {
    m := 0.0;
    var rest := travel.Keys;
    while rest != {}
      invariant rest <= travel.Keys
      invariant rest == travel.Keys ==> m == 0.0
      invariant rest != travel.Keys ==> exists k :: k in travel && travel[k].costYen == m
      invariant forall k :: k in travel && k !in rest ==> travel[k].costYen <= m
      decreases rest
    {
      var k :| k in rest;
      m := if rest == travel.Keys then travel[k].costYen else MaxReal(m, travel[k].costYen);
      rest := rest - {k};
    }
    assert travel != map[] ==> travel.Keys != {};
  }

  function TotalRequired(facilities: seq<Facility>): int {
    if facilities == [] then 0
    else TotalRequired(facilities[..|facilities| - 1]) + facilities[|facilities| - 1].headcount
  }

  function NormalisationFrom(required: int, maxTime: int, maxCost: real): Normalisation {
    var r := Max(required, 1);
    Normalisation(
      (r * Max(maxTime, 1)) as real,
      Times(r as real, MaxReal(maxCost, 1.0)),
      Max(maxTime, 1) as real,
      maxTime)
  }

  ghost predicate IsNormalisation(p: Problem, norm: Normalisation) {
    exists t, c :: IsMaxTime(p.travel, t) && IsMaxCost(p.travel, c)
                   && norm == NormalisationFrom(TotalRequired(p.facilities), t, c)
  }

  method ComputeNormalisation(p: Problem) returns (norm: Normalisation)
    ensures IsNormalisation(p, norm)
  {
    var t := FindMaxTime(p.travel);
    var c := FindMaxCost(p.travel);
    norm := NormalisationFrom(TotalRequired(p.facilities), t, c);
  }

  lemma NormalisationUnique(p: Problem, n1: Normalisation, n2: Normalisation)
    requires IsNormalisation(p, n1) && IsNormalisation(p, n2)
    ensures n1 == n2
  {
  }

  lemma NormalisationExists(p: Problem)
    ensures exists norm :: IsNormalisation(p, norm)
  {
    var t := MaxTimeExists(p.travel, p.travel.Keys);
    var c := MaxCostExists(p.travel, p.travel.Keys);
    assert IsNormalisation(p, NormalisationFrom(TotalRequired(p.facilities), t, c));
  }

  lemma MaxTimeExists(travel: map<Pair, TravelMetrics>, keys: set<Pair>) returns (m: int)
    requires keys <= travel.Keys
    ensures keys == {} ==> m == 0
    ensures keys != {} ==> exists k :: k in keys && travel[k].timeSeconds == m
    ensures forall k :: k in keys ==> travel[k].timeSeconds <= m
    ensures keys == travel.Keys ==> IsMaxTime(travel, m)
  {
    m := 0;
    if keys != {} {
      var k :| k in keys;
      m := MaxTimeExists(travel, keys - {k});
      m := if keys == {k} then travel[k].timeSeconds else Max(m, travel[k].timeSeconds);
    }
  }

  lemma MaxCostExists(travel: map<Pair, TravelMetrics>, keys: set<Pair>) returns (m: real)
    requires keys <= travel.Keys
    ensures keys == {} ==> m == 0.0
    ensures keys != {} ==> exists k :: k in keys && travel[k].costYen == m
    ensures forall k :: k in keys ==> travel[k].costYen <= m
    ensures keys == travel.Keys ==> IsMaxCost(travel, m)
  {
    m := 0.0;
    if keys != {} {
      var k :| k in keys;
      m := MaxCostExists(travel, keys - {k});
      m := if keys == {k} then travel[k].costYen else MaxReal(m, travel[k].costYen);
    }
  }

  /** The normalisation of a problem. */
  ghost function NormOf(p: Problem): (norm: Normalisation)
    ensures IsNormalisation(p, norm)
  {
    NormalisationExists(p);
    var norm :| IsNormalisation(p, norm);
    norm
  }

  ghost predicate Positive(norm: Normalisation) {
    norm.nTime > 0.0 && norm.nCost > 0.0 && norm.nTimeSingle > 0.0
  }

  lemma FromPositive(required: int, maxTime: int, maxCost: real)
    ensures var norm := NormalisationFrom(required, maxTime, maxCost);
            norm.nTime >= 1.0 && norm.nCost >= 1.0 && norm.nTimeSingle >= 1.0
  {
    assert Max(required, 1) * Max(maxTime, 1) >= 1;
    AtLeastOne(Max(required, 1) as real, MaxReal(maxCost, 1.0));
  }

  lemma AtLeastOne(x: real, y: real)
    requires x >= 1.0 && y >= 1.0
    ensures x * y >= 1.0
  {
  }

  lemma NormalisationPositive(p: Problem, norm: Normalisation)
    requires IsNormalisation(p, norm)
    ensures norm.nTime >= 1.0 && norm.nCost >= 1.0 && norm.nTimeSingle >= 1.0
  {
    var t, c :| IsMaxTime(p.travel, t) && IsMaxCost(p.travel, c)
                && norm == NormalisationFrom(TotalRequired(p.facilities), t, c);
    FromPositive(TotalRequired(p.facilities), t, c);
  }

  // Products and quotients by name, so that equal arguments are seen to give equal results.

  function Times(a: real, b: real): real { a * b }

  lemma ProductNonNegative(a: real, b: real)
    requires a >= 0.0 && b >= 0.0
    ensures Times(a, b) >= 0.0
  {
  }

  function Ratio(a: real, n: real): real
    requires n != 0.0
  {
    a / n
  }

  /** The weighted, normalised time and cost terms of some seconds and some yen. */
  function TimeCost(w: Weights, norm: Normalisation, seconds: real, yen: real): real
    requires norm.nTime != 0.0 && norm.nCost != 0.0
  {
    Times(w.travelTime, Ratio(seconds, norm.nTime)) + Times(w.travelCost, Ratio(yen, norm.nCost))
  }

  /** The weighted, normalised minimax term. */
  function Inequity(w: Weights, norm: Normalisation, seconds: real): real
    requires norm.nTimeSingle != 0.0
  {
    Times(w.inequity, Ratio(seconds, norm.nTimeSingle))
  }

  /** The un-scaled objective share of one assignment. */
  function PairValue(w: Weights, norm: Normalisation, t: TravelMetrics): real
    requires norm.nTime != 0.0 && norm.nCost != 0.0
  {
    TimeCost(w, norm, t.timeSeconds as real, t.costYen)
  }

  lemma RatioAdds(w: real, a: real, b: real, n: real)
    requires n != 0.0
    ensures Times(w, Ratio(a + b, n)) == Times(w, Ratio(a, n)) + Times(w, Ratio(b, n))
    ensures Times(w, Ratio(0.0, n)) == 0.0
  {
    assert (a + b) / n == a / n + b / n;
    assert 0.0 / n == 0.0;
  }

  lemma TimeCostAdds(w: Weights, norm: Normalisation, t1: real, c1: real, t2: real, c2: real)
    requires norm.nTime != 0.0 && norm.nCost != 0.0
    ensures TimeCost(w, norm, t1 + t2, c1 + c2) == TimeCost(w, norm, t1, c1) + TimeCost(w, norm, t2, c2)
    ensures TimeCost(w, norm, 0.0, 0.0) == 0.0
  {
    RatioAdds(w.travelTime, t1, t2, norm.nTime);
    RatioAdds(w.travelCost, c1, c2, norm.nCost);
  }

  function PairCoeff(w: Weights, norm: Normalisation, t: TravelMetrics): int
    requires norm.nTime != 0.0 && norm.nCost != 0.0
  {
    Round(SCALE as real * PairValue(w, norm, t))
  }

  function TmaxCoeff(w: Weights, norm: Normalisation): int
    requires norm.nTimeSingle != 0.0
  {
    Round(Ratio(SCALE as real * w.inequity, norm.nTimeSingle))
  }

  function BigM(w: Weights, pairCount: int): int {
    Ceil(SCALE as real * w.Sum()) + pairCount + 2
  }
}
