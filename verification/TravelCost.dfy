/** The distance-band cost table and the travel metrics built on it. Distances and yen are
    reals; the great-circle distance itself is a parameter. */
module TravelCost {
  import opened Domain
  import opened Scaling

  const TOLERANCE: real := 0.000001

  datatype Rule = Flat | PerKm

  /** `upper` is exclusive; None means unbounded. */
  datatype Band = Band(upper: Option<real>, rule: Rule, amount: real)
  {
    function CostAt(distance: real): real {
      if rule == Flat then amount else Times(distance, amount)
    }
  }

  datatype CostModelError =
    | UpperBoundNotPositive
    | NegativeAmount
    | NoBands
    | UnboundedBandCount
    | UnboundedBandNotLast
    | BoundsNotIncreasing
    | CostDecreases

  // ----- Construction -----

  /** What building one band checks. */
  function CheckBand(b: Band): Option<CostModelError> {
    if b.upper.Some? && b.upper.value <= 0.0 then Some(UpperBoundNotPositive)
    else if b.amount < 0.0 then Some(NegativeAmount)
    else None
  }

  function CheckBands(bands: seq<Band>): Option<CostModelError> {
    if bands == [] then None
    else if CheckBand(bands[0]).Some? then CheckBand(bands[0])
    else CheckBands(bands[1..])
  }

  function UnboundedBands(bands: seq<Band>): seq<nat> {
    if bands == [] then []
    else UnboundedBands(bands[..|bands| - 1]) + if bands[|bands| - 1].upper.None? then [|bands| - 1] else []
  }

  predicate NotIncreasing(lower: Band, upper: Band) {
    lower.upper.Some? && upper.upper.Some? && upper.upper.value <= lower.upper.value
  }

  predicate Drops(lower: Band, upper: Band, tolerance: real) {
    lower.upper.Some? && lower.CostAt(lower.upper.value) - upper.CostAt(lower.upper.value) > tolerance
  }

  /** Building the whole table: the errors in the order they are looked for. */
  function Construct(bands: seq<Band>): Result<seq<Band>, CostModelError> {
    if CheckBands(bands).Some? then Err(CheckBands(bands).value)
    else if bands == [] then Err(NoBands)
    else if |UnboundedBands(bands)| != 1 then Err(UnboundedBandCount)
    else if UnboundedBands(bands)[0] != |bands| - 1 then Err(UnboundedBandNotLast)
    else if exists i :: 0 <= i < |bands| - 2 && NotIncreasing(bands[i], bands[i + 1]) then Err(BoundsNotIncreasing)
    else if exists i :: 0 <= i < |bands| - 1 && Drops(bands[i], bands[i + 1], TOLERANCE) then Err(CostDecreases)
    else Ok(bands)
  }

  /** The linear scan; None stands for the final raise. */
  function CostFor(bands: seq<Band>, distance: real): Option<real> {
    if bands == [] then None
    else if bands[0].upper.None? || distance < bands[0].upper.value then Some(bands[0].CostAt(distance))
    else CostFor(bands[1..], distance)
  }

  // ----- What construction accepts -----

  /** A table in order: positive, strictly increasing bounds, only the last band unbounded. */
  ghost predicate Shaped(bands: seq<Band>) {
    && bands != []
    && (forall i :: 0 <= i < |bands| ==> bands[i].amount >= 0.0)
    && (forall i :: 0 <= i < |bands| ==> (bands[i].upper.None? <==> i == |bands| - 1))
    && (forall i :: 0 <= i < |bands| - 1 ==> bands[i].upper.value > 0.0)
    && (forall i :: 0 <= i < |bands| - 2 ==> bands[i].upper.value < bands[i + 1].upper.value)
  }

  /** No boundary's cost falls by more than the tolerance. */
  ghost predicate Climbs(bands: seq<Band>, tolerance: real) {
    forall i :: 0 <= i < |bands| - 1 ==> !Drops(bands[i], bands[i + 1], tolerance)
  }

  lemma {:induction false} CheckBandsIff(bands: seq<Band>)
    ensures CheckBands(bands).None? <==> forall i :: 0 <= i < |bands| ==> CheckBand(bands[i]).None?
  {
    if bands != [] {
      CheckBandsIff(bands[1..]);
      assert forall i :: 0 < i < |bands| ==> bands[i] == bands[1..][i - 1];
    }
  }

  lemma {:induction false} UnboundedBandsAre(bands: seq<Band>)
    ensures UnboundedBands(bands) == [] <==> forall i :: 0 <= i < |bands| ==> bands[i].upper.Some?
    ensures forall i :: 0 <= i < |UnboundedBands(bands)| ==> UnboundedBands(bands)[i] < |bands|
  {
    if bands != [] {
      var rest, last := bands[..|bands| - 1], bands[|bands| - 1];
      UnboundedBandsAre(rest);
      assert bands == rest + [last];
      if last.upper.Some? {
        assert UnboundedBands(bands) == UnboundedBands(rest);
      } else {
        assert UnboundedBands(bands) == UnboundedBands(rest) + [|bands| - 1];
      }
    }
  }

  lemma OnlyLastUnbounded(bands: seq<Band>)
    requires bands != []
    ensures UnboundedBands(bands) == [|bands| - 1] <==>
              forall i :: 0 <= i < |bands| ==> (bands[i].upper.None? <==> i == |bands| - 1)
  {
    var rest := bands[..|bands| - 1];
    UnboundedBandsAre(rest);
    assert forall i :: 0 <= i < |rest| ==> rest[i] == bands[i];
    assert UnboundedBands(rest) != [|bands| - 1];
  }

  /** Construction accepts exactly the tables in order whose cost never drops by more than
      the tolerance, and keeps them as given. */
  lemma AcceptedIff(bands: seq<Band>)
    ensures Construct(bands).Ok? <==> Shaped(bands) && Climbs(bands, TOLERANCE)
    ensures Construct(bands).Ok? ==> Construct(bands).value == bands
  {
    CheckBandsIff(bands);
    if bands != [] {
      OnlyLastUnbounded(bands);
      assert |UnboundedBands(bands)| == 1 && UnboundedBands(bands)[0] == |bands| - 1 <==>
               UnboundedBands(bands) == [|bands| - 1];
    }
  }

  // ----- Total and monotone -----

  lemma ShapedRest(bands: seq<Band>, tolerance: real)
    requires Shaped(bands) && |bands| > 1
    ensures Shaped(bands[1..]) && (Climbs(bands, tolerance) ==> Climbs(bands[1..], tolerance))
    ensures forall i :: 0 < i < |bands| ==> bands[i] == bands[1..][i - 1]
    ensures |bands| > 2 ==> bands[0].upper.value < bands[1].upper.value
  {
    var rest := bands[1..];
    forall i | 0 <= i < |rest| - 1 && Climbs(bands, tolerance)
      ensures !Drops(rest[i], rest[i + 1], tolerance)
    {
      assert !Drops(bands[i + 1], bands[i + 2], tolerance);
    }
    forall i | 0 <= i < |rest| - 2
      ensures rest[i].upper.value < rest[i + 1].upper.value
    {
      assert bands[i + 1].upper.value < bands[i + 2].upper.value;
    }
  }

  /** The final raise is unreachable, and no distance costs less than nothing. */
  lemma {:induction false} CostIsTotal(bands: seq<Band>, distance: real)
    requires Shaped(bands) && distance >= 0.0
    ensures CostFor(bands, distance).Some? && CostFor(bands, distance).value >= 0.0
  {
    if bands[0].upper.None? || distance < bands[0].upper.value {
      ProductNonNegative(distance, bands[0].amount);
    } else {
      ShapedRest(bands, 0.0);
      CostIsTotal(bands[1..], distance);
    }
  }

  lemma TimesMonotone(a: real, b: real, c: real)
    requires a <= b && c >= 0.0
    ensures Times(a, c) <= Times(b, c)
  {
    assert Times(b, c) - Times(a, c) == (b - a) * c;
  }

  /** Boundaries in (d1, d2]. */
  function Crossed(bands: seq<Band>, d1: real, d2: real): nat {
    if bands == [] then 0
    else (if bands[0].upper.Some? && d1 < bands[0].upper.value <= d2 then 1 else 0) + Crossed(bands[1..], d1, d2)
  }

  lemma {:induction false} CrossedFrom(bands: seq<Band>, d1: real, d1': real, d2: real)
    requires forall b :: b in bands && b.upper.Some? ==> (d1 < b.upper.value <==> d1' < b.upper.value)
    ensures Crossed(bands, d1, d2) == Crossed(bands, d1', d2)
  {
    if bands != [] {
      CrossedFrom(bands[1..], d1, d1', d2);
    }
  }

  lemma {:induction false} LaterBoundsLarger(bands: seq<Band>, i: nat)
    requires Shaped(bands) && 0 < i < |bands| - 1
    ensures bands[0].upper.value < bands[i].upper.value
  {
    if i > 1 {
      LaterBoundsLarger(bands, i - 1);
    }
    assert bands[i - 1].upper.value < bands[i].upper.value;
  }

  lemma CrossedRest(bands: seq<Band>, d1: real, d2: real)
    requires Shaped(bands) && |bands| > 1 && d1 < bands[0].upper.value <= d2
    ensures Crossed(bands, d1, d2) == 1 + Crossed(bands[1..], bands[0].upper.value, d2)
  {
    forall b | b in bands[1..] && b.upper.Some?
      ensures d1 < b.upper.value && bands[0].upper.value < b.upper.value
    {
      var i :| 0 <= i < |bands[1..]| && bands[1..][i] == b;
      LaterBoundsLarger(bands, i + 1);
    }
    CrossedFrom(bands[1..], d1, bands[0].upper.value, d2);
  }

  /** Within one band, up to its bound, cost does not fall. */
  lemma BandMonotone(b: Band, d1: real, d2: real)
    requires b.amount >= 0.0 && d1 <= d2
    ensures b.CostAt(d1) <= b.CostAt(d2)
  {
    TimesMonotone(d1, d2, b.amount);
  }

  /** Further is never cheaper, but for the tolerance at each boundary crossed. */
  lemma {:induction false} CostMonotone(bands: seq<Band>, tolerance: real, d1: real, d2: real)
    requires Shaped(bands) && Climbs(bands, tolerance) && tolerance >= 0.0
    requires 0.0 <= d1 <= d2
    ensures CostFor(bands, d1).Some? && CostFor(bands, d2).Some?
    ensures CostFor(bands, d1).value <= CostFor(bands, d2).value + Times(Crossed(bands, d1, d2) as real, tolerance)
    decreases |bands|
  {
    CostIsTotal(bands, d1);
    CostIsTotal(bands, d2);
    ProductNonNegative(Crossed(bands, d1, d2) as real, tolerance);
    if bands[0].upper.None? || d2 < bands[0].upper.value {
      BandMonotone(bands[0], d1, d2);
    } else {
      var u := bands[0].upper.value;
      ShapedRest(bands, tolerance);
      if u <= d1 {
        CostMonotone(bands[1..], tolerance, d1, d2);
      } else {
        BandMonotone(bands[0], d1, u);
        assert !Drops(bands[0], bands[1], tolerance);
        assert CostFor(bands[1..], u) == Some(bands[1].CostAt(u));
        CostMonotone(bands[1..], tolerance, u, d2);
        CrossedRest(bands, d1, d2);
        OneMoreTolerance(Crossed(bands[1..], u, d2), tolerance);
      }
    }
  }

  lemma OneMoreTolerance(n: nat, tolerance: real)
    ensures Times((1 + n) as real, tolerance) == tolerance + Times(n as real, tolerance)
  {
  }

  /** An accepted table: cost_for(d1) <= cost_for(d2) + k * 1e-6, k boundaries in (d1, d2]. */
  lemma AcceptedIsMonotone(bands: seq<Band>, d1: real, d2: real)
    requires Construct(bands).Ok? && 0.0 <= d1 <= d2
    ensures CostFor(bands, d1).Some? && CostFor(bands, d2).Some?
    ensures CostFor(bands, d1).value <= CostFor(bands, d2).value + Times(Crossed(bands, d1, d2) as real, TOLERANCE)
  {
    AcceptedIff(bands);
    CostMonotone(bands, TOLERANCE, d1, d2);
  }

  // ----- Exactly monotone: no boundary drops at all -----

  ghost predicate NeverCheaper(bands: seq<Band>) {
    forall d1, d2 :: 0.0 <= d1 <= d2 && CostFor(bands, d1).Some? && CostFor(bands, d2).Some? ==>
      CostFor(bands, d1).value <= CostFor(bands, d2).value
  }

  function LowerBound(bands: seq<Band>, i: nat): real
    requires Shaped(bands) && i < |bands|
  {
    if i == 0 then 0.0 else bands[i - 1].upper.value
  }

  /** The scan finds the band a distance lies in. */
  lemma {:induction false} ScanFinds(bands: seq<Band>, i: nat, distance: real)
    requires Shaped(bands) && i < |bands|
    requires i > 0 ==> LowerBound(bands, i) <= distance
    requires bands[i].upper.Some? ==> distance < bands[i].upper.value
    ensures CostFor(bands, distance) == Some(bands[i].CostAt(distance))
  {
    if i > 0 {
      ShapedRest(bands, 0.0);
      if i > 1 {
        LaterBoundsLarger(bands, i - 1);
      }
      ScanFinds(bands[1..], i - 1, distance);
    }
  }

  /** Close enough below a bound, a band that costs more than c at it costs more than c. */
  lemma JustBelow(b: Band, lower: real, u: real, c: real) returns (d: real)
    requires b.amount >= 0.0 && 0.0 <= lower < u && c >= 0.0 && b.CostAt(u) > c
    ensures lower <= d < u && b.CostAt(d) > c
  {
    if b.rule == Flat {
      return lower;
    }
    var r := c / b.amount;
    assert Times(r, b.amount) == c;
    assert r < u by { if r >= u { TimesMonotone(u, r, b.amount); } }
    var middle := (r + u) / 2.0;
    assert Times(middle, b.amount) > c by {
      assert Times(middle, b.amount) - Times(r, b.amount) == (middle - r) * b.amount;
    }
    d := MaxReal(lower, middle);
    TimesMonotone(middle, d, b.amount);
  }

  lemma DropIsSeen(bands: seq<Band>, i: nat)
    requires Shaped(bands) && i < |bands| - 1 && Drops(bands[i], bands[i + 1], 0.0)
    ensures !NeverCheaper(bands)
  {
    var u := bands[i].upper.value;
    var lower := LowerBound(bands, i);
    assert 0.0 <= lower < u by { assert i > 0 ==> bands[i - 1].upper.value < bands[i - 1 + 1].upper.value; }
    ProductNonNegative(u, bands[i + 1].amount);
    var d := JustBelow(bands[i], lower, u, bands[i + 1].CostAt(u));
    ScanFinds(bands, i, d);
    assert bands[i + 1].upper.Some? ==> bands[i].upper.value < bands[i + 1].upper.value;
    ScanFinds(bands, i + 1, u);
  }

  /** Cost never falls with distance if and only if no boundary drops, tolerated or not. */
  lemma ExactlyMonotoneIff(bands: seq<Band>)
    requires Shaped(bands)
    ensures NeverCheaper(bands) <==> Climbs(bands, 0.0)
  {
    if Climbs(bands, 0.0) {
      forall d1, d2 | 0.0 <= d1 <= d2
        ensures CostFor(bands, d1).Some? && CostFor(bands, d2).Some?
                && CostFor(bands, d1).value <= CostFor(bands, d2).value
      {
        CostMonotone(bands, 0.0, d1, d2);
        assert Times(Crossed(bands, d1, d2) as real, 0.0) == 0.0;
      }
    } else {
      var i :| 0 <= i < |bands| - 1 && Drops(bands[i], bands[i + 1], 0.0);
      DropIsSeen(bands, i);
    }
  }

  const DEFAULT_BANDS: seq<Band> :=
    [Band(Some(2.0), Flat, 0.0), Band(Some(10.0), Flat, 300.0), Band(None, PerKm, 400.0)]

  /** The default table is accepted and exactly monotone. */
  lemma DefaultTable()
    ensures Construct(DEFAULT_BANDS).Ok? && NeverCheaper(DEFAULT_BANDS)
  {
    var bands := DEFAULT_BANDS;
    assert bands[0].upper == Some(2.0) && bands[1].upper == Some(10.0) && bands[2].upper == None;
    assert Times(10.0, 400.0) == 4000.0;
    assert Shaped(bands);
    assert !Drops(bands[0], bands[1], 0.0) && !Drops(bands[1], bands[2], 0.0);
    assert Climbs(bands, 0.0) && Climbs(bands, TOLERANCE);
    hide *;
    AcceptedIff(bands);
    ExactlyMonotoneIff(bands);
  }

  const TOLERATED_BANDS: seq<Band> := [Band(Some(10.0), Flat, 300.0000005), Band(None, PerKm, 30.0)]

  /** A tolerated table: accepted, though just past 10 km is cheaper than just before. */
  lemma ToleratedTable()
    ensures Construct(TOLERATED_BANDS).Ok? && !NeverCheaper(TOLERATED_BANDS)
  {
    var bands := TOLERATED_BANDS;
    assert bands[0].upper == Some(10.0) && bands[1].upper == None;
    assert Times(10.0, 30.0) == 300.0;
    AcceptedIff(bands);
    ExactlyMonotoneIff(bands);
    assert Drops(bands[0], bands[1], 0.0);
  }

  // ----- Travel metrics -----

  datatype TravelParameters = TravelParameters(detour: real, speedKmh: real, sameDistrictSeconds: int, bands: seq<Band>)
  {
    ghost predicate Valid() {
      detour >= 1.0 && speedKmh > 0.0 && sameDistrictSeconds >= 0 && Construct(bands).Ok?
    }
  }

  function TravelSeconds(distance: real, speedKmh: real): int
    requires speedKmh > 0.0
  {
    Ceil(Times(Ratio(distance, speedKmh), 3600.0))
  }

  /** Distance, time and cost between two districts whose points lie `greatCircle` apart. */
  function Metrics(from: DistrictId, to: DistrictId, greatCircle: real, params: TravelParameters): TravelMetrics
    requires params.Valid() && greatCircle >= 0.0
  {
    if from == to then TravelMetrics(0.0, params.sameDistrictSeconds, 0.0)
    else
      var distance := Times(greatCircle, params.detour);
      ProductNonNegative(greatCircle, params.detour);
      AcceptedIff(params.bands);
      CostIsTotal(params.bands, distance);
      TravelMetrics(distance, TravelSeconds(distance, params.speedKmh), CostFor(params.bands, distance).value)
  }

  lemma CancelFactor(x: real, y: real, m: real)
    requires m > 0.0 && x * m <= y * m
    ensures x <= y
  {
    assert (x - y) * m == x * m - y * m;
  }

  lemma RatioMonotone(a: real, b: real, n: real, m: real)
    requires 0.0 <= a <= b && 0.0 < m <= n
    ensures 0.0 <= Ratio(a, n) <= Ratio(b, m)
  {
    assert Ratio(a, n) * n == a && Ratio(b, m) * m == b;
    assert Ratio(a, n) >= 0.0;
    assert Ratio(a, n) * m <= Ratio(a, n) * n;
    CancelFactor(Ratio(a, n), Ratio(b, m), m);
  }

  lemma SecondsMonotone(d1: real, d2: real, speed1: real, speed2: real)
    requires 0.0 <= d1 <= d2 && 0.0 < speed2 <= speed1
    ensures 0 <= TravelSeconds(d1, speed1) <= TravelSeconds(d2, speed2)
  {
    RatioMonotone(d1, d2, speed1, speed2);
    TimesMonotone(Ratio(d1, speed1), Ratio(d2, speed2), 3600.0);
    ProductNonNegative(Ratio(d1, speed1), 3600.0);
  }

  /** Metrics are never negative, never shorter than the straight line, and never
      underestimate the time by the speed. */
  lemma MetricsSane(from: DistrictId, to: DistrictId, greatCircle: real, params: TravelParameters)
    requires params.Valid() && greatCircle >= 0.0
    ensures var t := Metrics(from, to, greatCircle, params);
            && t.timeSeconds >= 0 && t.costYen >= 0.0
            && (from != to ==> t.distanceKm >= greatCircle
                               && t.timeSeconds as real >= Times(Ratio(t.distanceKm, params.speedKmh), 3600.0))
  {
    if from != to {
      var distance := Times(greatCircle, params.detour);
      ProductNonNegative(greatCircle, params.detour);
      TimesMonotone(1.0, params.detour, greatCircle);
      assert Times(1.0, greatCircle) == greatCircle && Times(params.detour, greatCircle) == distance;
      SecondsMonotone(distance, distance, params.speedKmh, params.speedKmh);
      AcceptedIff(params.bands);
      CostIsTotal(params.bands, distance);
    }
  }

  /** Further apart, a larger detour factor and a slower speed never give a shorter
      distance, less time or - but for the tolerance - a lower cost. */
  lemma MetricsMonotone(a: DistrictId, b: DistrictId, c: DistrictId, d: DistrictId,
                        g1: real, g2: real, p1: TravelParameters, p2: TravelParameters)
    requires p1.Valid() && p2.Valid() && p1.bands == p2.bands
    requires a != b && c != d && 0.0 <= g1 <= g2
    requires p1.detour <= p2.detour && p2.speedKmh <= p1.speedKmh
    ensures var t1, t2 := Metrics(a, b, g1, p1), Metrics(c, d, g2, p2);
            && t1.distanceKm <= t2.distanceKm && t1.timeSeconds <= t2.timeSeconds
            && t1.costYen <= t2.costYen + Times(Crossed(p1.bands, t1.distanceKm, t2.distanceKm) as real, TOLERANCE)
            && (NeverCheaper(p1.bands) ==> t1.costYen <= t2.costYen)
  {
    ProductNonNegative(g1, p1.detour);
    TimesMonotone(g1, g2, p1.detour);
    TimesMonotone(p1.detour, p2.detour, g2);
    assert Times(p1.detour, g2) == Times(g2, p1.detour) && Times(p2.detour, g2) == Times(g2, p2.detour);
    SecondsMonotone(Times(g1, p1.detour), Times(g2, p2.detour), p1.speedKmh, p2.speedKmh);
    AcceptedIsMonotone(p1.bands, Times(g1, p1.detour), Times(g2, p2.detour));
  }
}
