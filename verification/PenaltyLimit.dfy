/** Where the penalty stops dominating. For problems weighted on inequity alone the limit is
    exact: the rounded minimax coefficient times the difference between the longest and the
    shortest trip must stay below big-M. */
module PenaltyLimit {
  import opened Domain
  import opened Counting
  import opened Scaling
  import opened Validation
  import opened Objective
  import opened Model
  import opened CpSat
  import opened SolverPort
  import opened Agreement
  import opened Diagnosis
  import opened Optima
  import opened Dominance

  /** Problems weighted on inequity alone, with trips from the shortest to the longest. */
  ghost predicate InequityOnly(p: Problem, weight: real, shortest: int, longest: int, pairs: int) {
    && WellFormed(p) && NonNegativeTravel(p)
    && p.parameters.weights == Weights(0.0, 0.0, weight)
    && (forall k :: k in p.travel ==> p.travel[k].timeSeconds >= shortest)
    && NormOf(p).maxTravelSeconds == longest
    && PairCount(p) == pairs
  }

  /** The minimax coefficient for a given weight and longest trip. */
  function Coefficient(weight: real, longest: int): int {
    Round(Ratio(SCALE as real * weight, Max(longest, 1) as real))
  }

  predicate WithinPenalty(weight: real, shortest: int, longest: int, pairs: int) {
    Coefficient(weight, longest) * (longest - shortest) < BigM(Weights(0.0, 0.0, weight), pairs)
  }

  lemma ZeroTimeCost(w: Weights, norm: Normalisation, t: real, c: real)
    requires norm.nTime != 0.0 && norm.nCost != 0.0
    requires w.travelTime == 0.0 && w.travelCost == 0.0
    ensures TimeCost(w, norm, t, c) == 0.0
  {
  }

  lemma {:induction false} ZeroCoefficients(p: Problem, ps: seq<Pair>)
    requires Positive(NormOf(p))
    requires p.parameters.weights.travelTime == 0.0 && p.parameters.weights.travelCost == 0.0
    ensures Sum(ps, CoeffOf(p, NormOf(p))) == 0
  {
    if ps != [] {
      ZeroCoefficients(p, ps[..|ps| - 1]);
      var pr := ps[|ps| - 1];
      if pr in p.travel {
        ZeroTimeCost(p.parameters.weights, NormOf(p), p.travel[pr].timeSeconds as real, p.travel[pr].costYen);
      }
    }
  }

  lemma InequityScaled(p: Problem, weight: real, shortest: int, longest: int, pairs: int, ps: seq<Pair>)
    requires InequityOnly(p, weight, shortest, longest, pairs)
    ensures ScaledObjective(p, ps) == Coefficient(weight, longest) * MaxSeconds(p, ps)
  {
    var t, c := NormFacts(p);
    ZeroCoefficients(p, ps);
  }

  /** Somebody assigned travels at least the shortest trip. */
  lemma TripAtLeast(p: Problem, weight: real, shortest: int, longest: int, pairs: int, ps: seq<Pair>)
    requires InequityOnly(p, weight, shortest, longest, pairs)
    requires ps != [] && SetHard(p, Elements(ps))
    ensures MaxSeconds(p, ps) >= shortest
  {
    var pr := ps[0];
    assert pr in Elements(ps) && pr in PairSet(p);
    AllPairsMembers(p.availableStaff, p.facilities, pr);
    MaxSecondsBounds(p, ps);
    assert SecondsOf(p)(pr) >= shortest;
  }

  lemma SpreadBelow(c: int, a: int, b: int, shortest: int, longest: int, bigM: int)
    requires c >= 0 && a <= longest && b >= shortest && c * (longest - shortest) < bigM
    ensures c * a < c * b + bigM
  {
    IntTimes(c, a - b, longest - shortest);
    assert c * (a - b) == c * a - c * b;
  }

  /** Everybody's trip of a complete assignment is within the range; without anybody there is none. */
  lemma TripsWithin(p: Problem, weight: real, shortest: int, longest: int, pairs: int, ps: seq<Pair>)
    requires InequityOnly(p, weight, shortest, longest, pairs)
    requires NoDup(ps) && SetHard(p, Elements(ps))
    ensures |ps| == TotalRequired(p.facilities)
    ensures if ps == [] then MaxSeconds(p, ps) == 0 else shortest <= MaxSeconds(p, ps) <= longest
  {
    RequiredBounds(p, ps);
    if ps != [] {
      TripAtLeast(p, weight, shortest, longest, pairs, ps);
      MaxSecondsWithin(p, ps);
    }
  }

  lemma SpreadWithin(
      p: Problem, weight: real, shortest: int, longest: int, pairs: int, ps: seq<Pair>, qs: seq<Pair>)
    requires InequityOnly(p, weight, shortest, longest, pairs) && WithinPenalty(weight, shortest, longest, pairs)
    requires NoDup(ps) && SetHard(p, Elements(ps)) && NoDup(qs) && SetHard(p, Elements(qs))
    ensures ScaledObjective(p, ps) < ScaledObjective(p, qs) + BigM(p.parameters.weights, PairCount(p))
  {
    var w, c := p.parameters.weights, Coefficient(weight, longest);
    assert PairCount(p) == pairs && w == Weights(0.0, 0.0, weight) && w.Valid();
    assert c * (longest - shortest) < BigM(w, pairs) && pairs >= 0;
    assert weight > 0.0;
    hide *;
    InequityScaled(p, weight, shortest, longest, pairs, ps);
    InequityScaled(p, weight, shortest, longest, pairs, qs);
    TripsWithin(p, weight, shortest, longest, pairs, ps);
    TripsWithin(p, weight, shortest, longest, pairs, qs);
    BigMPositive(w, pairs);
    if ps != [] {
      CoefficientNonNegative(weight, longest);
      SpreadBelow(c, MaxSeconds(p, ps), MaxSeconds(p, qs), shortest, longest, BigM(w, pairs));
    }
  }

  /** Within the limit every problem of the family minimises slack first. */
  lemma WithinMeansSlackFirst(p: Problem, weight: real, shortest: int, longest: int, pairs: int)
    requires InequityOnly(p, weight, shortest, longest, pairs) && WithinPenalty(weight, shortest, longest, pairs)
    ensures SlackFirst(p)
  {
    forall ps: seq<Pair>, qs: seq<Pair> |
        NoDup(ps) && SetHard(p, Elements(ps)) && NoDup(qs) && SetHard(p, Elements(qs))
      ensures ScaledObjective(p, ps) < ScaledObjective(p, qs) + BigM(p.parameters.weights, PairCount(p))
    {
      SpreadWithin(p, weight, shortest, longest, pairs, ps, qs);
    }
    SpreadDominates(p);
  }

  // ----- The limiting problem -----
  //
  // One facility wants two people: one holding the first qualification, one the second.
  // Nobody holds the second, so C3 is demoted; only person 0, who lives far away, holds
  // the first. Person 0 plus anybody leaves one shortfall and the longest trip; two others
  // leave two shortfalls and the shortest.

  const FAR := DisasterPreventionSpecialist
  const NOBODY := EmergencyLifesavingTechnician

  function Id(i: nat): (id: StaffId)
    ensures |id| == i + 1
  {
    seq(i + 1, _ => 'a')
  }

  function Person(i: nat): Staff {
    Staff(Id(i), "D", Clerical, General, "R", if i == 0 then {FAR} else {})
  }

  function Crowd(n: nat): (r: seq<Staff>)
    ensures |r| == n
    ensures forall i :: 0 <= i < n ==> r[i] == Person(i)
  {
    seq(n, i requires 0 <= i => Person(i))
  }

  const SHELTER := Facility("F", "R", 2,
    [QualificationRequirement(NeedsQualification(FAR), 1), QualificationRequirement(NeedsQualification(NOBODY), 1)])

  function TripOf(pr: Pair, shortest: int, longest: int): TravelMetrics {
    TravelMetrics(0.0, if pr.0 == Id(0) then longest else shortest, 0.0)
  }

  function Limit(n: nat, weight: real, shortest: int, longest: int): Problem {
    Problem("E", [SHELTER], Crowd(n),
      map pr | pr in AllPairs(Crowd(n), [SHELTER]) :: TripOf(pr, shortest, longest),
      Parameters(Weights(0.0, 0.0, weight), 2), [])
  }

  lemma {:induction false} OneColumn(staff: seq<Staff>, f: Facility)
    ensures |AllPairs(staff, [f])| == |staff|
  {
    if staff != [] {
      OneColumn(staff[..|staff| - 1], f);
    }
  }

  lemma LimitPair(n: nat, i: nat)
    requires i < n
    ensures (Id(i), "F") in AllPairs(Crowd(n), [SHELTER])
  {
    AllPairsMembers(Crowd(n), [SHELTER], (Id(i), "F"));
    assert Crowd(n)[i] in Crowd(n) && SHELTER in [SHELTER];
  }

  lemma LimitFacts(n: nat, weight: real, shortest: int, longest: int)
    requires n >= 3 && weight > 0.0 && longest >= 1 && 0 <= shortest <= longest
    ensures InequityOnly(Limit(n, weight, shortest, longest), weight, shortest, longest, n)
  {
    var p := Limit(n, weight, shortest, longest);
    forall i, j | 0 <= i < j < n
      ensures p.availableStaff[i].id != p.availableStaff[j].id
    {
      assert |Id(i)| != |Id(j)|;
    }
    forall s | s in p.availableStaff
      ensures CompleteRow(p, s)
    {
      var i :| 0 <= i < n && p.availableStaff[i] == s;
      LimitPair(n, i);
    }
    OneColumn(Crowd(n), SHELTER);
    LimitPair(n, 0);
    var t, c := NormFacts(p);
    assert p.travel[(Id(0), "F")].timeSeconds == longest;
  }

  lemma PairHard(n: nat, weight: real, shortest: int, longest: int, i: nat, j: nat)
    requires n >= 3 && weight > 0.0 && longest >= 1 && 0 <= shortest <= longest
    requires i < j < n
    ensures SetHard(Limit(n, weight, shortest, longest), {(Id(i), "F"), (Id(j), "F")})
    ensures SetPins(Limit(n, weight, shortest, longest), {(Id(i), "F"), (Id(j), "F")})
  {
    var p := Limit(n, weight, shortest, longest);
    var a, b := (Id(i), "F"), (Id(j), "F");
    var S := {a, b};
    assert |Id(i)| != |Id(j)|;
    LimitPair(n, i);
    LimitPair(n, j);
    assert Where(S, AtFacility("F")) == S;
    forall s: StaffId ensures |Where(S, OfStaff(s))| <= 1 {
      if s == Id(i) {
        assert Where(S, OfStaff(s)) == {a};
      } else if s == Id(j) {
        assert Where(S, OfStaff(s)) == {b};
      } else {
        assert Where(S, OfStaff(s)) == {};
      }
    }
    forall d: DepartmentId ensures |Where(S, InDepartment(Directory(p.availableStaff), d))| <= 2 {
      SubsetSize(Where(S, InDepartment(Directory(p.availableStaff), d)), S);
    }
  }

  function Wanted(): seq<C3Requirement> {
    [C3Requirement("F", {Id(0)}, 1), C3Requirement("F", {}, 1)]
  }

  lemma LimitC3(n: nat)
    requires n >= 3
    ensures AllC3([SHELTER], Crowd(n)) == Wanted()
  {
    assert [SHELTER][..0] == [];
    assert AllC3([SHELTER][..0], Crowd(n)) == [];
    assert AllC3([SHELTER], Crowd(n)) == C3For("F", SHELTER.requirements, Crowd(n));
    assert Crowd(n)[0] in Crowd(n);
    assert EligibleIds(Crowd(n), NeedsQualification(FAR)) == {Id(0)};
    assert EligibleIds(Crowd(n), NeedsQualification(NOBODY)) == {};
  }

  ghost function FarPlaces(): set<Pair> { {(Id(0), "F"), (Id(1), "F")} }

  ghost function NearPlaces(): set<Pair> { {(Id(1), "F"), (Id(2), "F")} }

  /** All that the argument needs of the limiting problem. */
  ghost predicate Limiting(p: Problem, weight: real, shortest: int, longest: int, n: nat) {
    && InequityOnly(p, weight, shortest, longest, n) && weight > 0.0 && longest >= 1 && 0 <= shortest <= longest
    && TotalRequired(p.facilities) == 2
    && NonNegativeCounts(p)
    && AllC3(p.facilities, p.availableStaff) == Wanted()
    && SecondsOf(p)((Id(0), "F")) == longest
    && SecondsOf(p)((Id(1), "F")) == shortest && SecondsOf(p)((Id(2), "F")) == shortest
    && SetHard(p, FarPlaces()) && SetPins(p, FarPlaces())
    && SetHard(p, NearPlaces()) && SetPins(p, NearPlaces())
  }

  lemma LimitIsLimiting(n: nat, weight: real, shortest: int, longest: int)
    requires n >= 3 && weight > 0.0 && longest >= 1 && 0 <= shortest <= longest
    ensures Limiting(Limit(n, weight, shortest, longest), weight, shortest, longest, n)
  {
    LimitFacts(n, weight, shortest, longest);
    LimitC3(n);
    assert [SHELTER][..0] == [];
    PairHard(n, weight, shortest, longest, 0, 1);
    PairHard(n, weight, shortest, longest, 1, 2);
    LimitPair(n, 0);
    LimitPair(n, 1);
    LimitPair(n, 2);
    assert |Id(0)| == 1 && |Id(1)| == 2 && |Id(2)| == 3;
  }

  lemma NobodyQualifies(p: Problem, S: set<Pair>)
    requires p.facilities == [SHELTER]
    requires forall s :: s in p.availableStaff ==> NOBODY !in s.qualifications
    ensures !SetC3(p, S)
  {
    var q := SHELTER.requirements[1];
    assert SHELTER in p.facilities && q in SHELTER.requirements;
    assert Where(S, Fills(Directory(p.availableStaff), "F", q.requirement)) == {};
    assert !SetFilled(p, S, "F", q);
  }

  /** Complete assignments exist but none meets C3: the staged solve gets to the demoted model. */
  ghost predicate NeedsDemotion(p: Problem) {
    && (exists S: set<Pair> :: SetHard(p, S) && SetPins(p, S))
    && (forall S: set<Pair> :: SetHard(p, S) && SetPins(p, S) ==> !SetC3(p, S))
  }

  lemma LimitNeedsDemotion(p: Problem, weight: real, shortest: int, longest: int, n: nat)
    requires Limiting(p, weight, shortest, longest, n) && p.facilities == [SHELTER]
    requires forall s :: s in p.availableStaff ==> NOBODY !in s.qualifications
    ensures NeedsDemotion(p)
  {
    forall S: set<Pair>
      ensures !SetC3(p, S)
    {
      NobodyQualifies(p, S);
    }
  }

  lemma WantedShortfalls(m: MilpModel, S: set<Pair>)
    requires m.c3 == Wanted()
    ensures Shortfall(m, S)(1) == 1
    ensures Shortfall(m, S)(0) == if (Id(0), "F") in S then 0 else 1
  {
    assert Where(S, Meets(m.c3[1])) == {};
    if (Id(0), "F") in S {
      assert Where(S, Meets(m.c3[0])) == {(Id(0), "F")};
    } else {
      assert Where(S, Meets(m.c3[0])) == {};
    }
  }

  lemma SlackPair(v: Valuation)
    ensures SlackTotal(2, v) == v(Slack(0)) + v(Slack(1))
  {
    assert SlackTotal(1, v) == SlackTotal(0, v) + v(Slack(0));
  }

  lemma PickedTrip(p: Problem, weight: real, shortest: int, longest: int, n: nat, v: Valuation)
    requires Limiting(p, weight, shortest, longest, n)
    requires WellFormedModel(ModelOf(p, true, true)) && Program(ModelOf(p, true, true), v)
    ensures MaxSeconds(p, Picked(p, v)) >= shortest
  {
    ChosenHard(p, true, true, v);
    PickedIsChoice(p, v);
    RequiredBounds(p, Picked(p, v));
    hide *;
    TripAtLeast(p, weight, shortest, longest, n, Picked(p, v));
  }

  /** Any solution leaves one shortfall and the longest trip, or two shortfalls. */
  lemma SolutionSlack(p: Problem, weight: real, shortest: int, longest: int, n: nat, v: Valuation)
    requires Limiting(p, weight, shortest, longest, n)
    requires WellFormedModel(ModelOf(p, true, true)) && Program(ModelOf(p, true, true), v)
    ensures SlackTotal(2, v) >= 1
    ensures SlackTotal(2, v) >= 2 || MaxSeconds(p, Picked(p, v)) >= longest
    ensures MaxSeconds(p, Picked(p, v)) >= shortest
  {
    var m := ModelOf(p, true, true);
    var S := Chosen(m.pairs, v);
    SlacksAboveShortfall(m, S, v);
    WantedShortfalls(m, S);
    SlackPair(v);
    PickedIsChoice(p, v);
    MaxSecondsBounds(p, Picked(p, v));
    PickedTrip(p, weight, shortest, longest, n, v);
    assert (Id(0), "F") in S ==> (Id(0), "F") in Picked(p, v) by {
      assert forall pr :: pr in Elements(Picked(p, v)) ==> pr in Picked(p, v);
    }
  }

  lemma ShortTrip(p: Problem, shortest: int, ps: seq<Pair>)
    requires Elements(ps) == NearPlaces() && shortest >= 0
    requires SecondsOf(p)((Id(1), "F")) == shortest && SecondsOf(p)((Id(2), "F")) == shortest
    ensures MaxSeconds(p, ps) == shortest
  {
    MaxSecondsBounds(p, ps);
    assert (Id(1), "F") in Elements(ps);
    forall pr | pr in ps
      ensures SecondsOf(p)(pr) == shortest
    {
      assert pr in Elements(ps);
    }
  }

  lemma FarIsNotNear()
    ensures (Id(0), "F") !in NearPlaces()
  {
    assert |Id(0)| == 1 && |Id(1)| == 2 && |Id(2)| == 3;
  }

  lemma NearCost(p: Problem, weight: real, shortest: int, longest: int, n: nat)
    requires Limiting(p, weight, shortest, longest, n)
    ensures var u := Cheapest(p, ModelOf(p, true, true), NearPlaces());
            SlackTotal(2, u) == 2 && MaxSeconds(p, Picked(p, u)) == shortest
  {
    var m := ModelOf(p, true, true);
    var u := Cheapest(p, m, NearPlaces());
    FarIsNotNear();
    WantedShortfalls(m, NearPlaces());
    SlackPair(u);
    CheapestPicks(p, m, NearPlaces());
    ShortTrip(p, shortest, Picked(p, u));
  }

  lemma FarCost(p: Problem, weight: real, shortest: int, longest: int, n: nat)
    requires Limiting(p, weight, shortest, longest, n)
    ensures SlackTotal(2, Cheapest(p, ModelOf(p, true, true), FarPlaces())) == 1
  {
    var m := ModelOf(p, true, true);
    WantedShortfalls(m, FarPlaces());
    SlackPair(Cheapest(p, m, FarPlaces()));
  }

  lemma TwoPenalties(bigM: int, coefficient: int, shortest: int, longest: int, trip: int, slack: int)
    requires bigM > 0 && coefficient >= 0 && trip >= shortest
    requires coefficient * (longest - shortest) >= bigM
    requires slack >= 1 && (slack >= 2 || trip >= longest)
    ensures coefficient * trip + bigM * slack >= coefficient * shortest + 2 * bigM
  {
    IntTimes(coefficient, shortest, trip);
    if slack >= 2 {
      IntTimes(bigM, 2, slack);
    } else {
      IntTimes(coefficient, longest, trip);
    }
  }

  lemma AnyCost(p: Problem, weight: real, shortest: int, longest: int, n: nat, x: Valuation)
    requires Limiting(p, weight, shortest, longest, n) && !WithinPenalty(weight, shortest, longest, n)
    requires WellFormedModel(ModelOf(p, true, true)) && Program(ModelOf(p, true, true), x)
    ensures CpSat.Objective(ModelOf(p, true, true), x)
         >= Coefficient(weight, longest) * shortest + 2 * ModelOf(p, true, true).bigM
  {
    var m := ModelOf(p, true, true);
    ObjectiveSplit(p, true, true, x);
    SolutionSlack(p, weight, shortest, longest, n, x);
    InequityScaled(p, weight, shortest, longest, n, Picked(p, x));
    CoefficientNonNegative(weight, longest);
    MaxSecondsBounds(p, Picked(p, x));
    BigMPositive(p.parameters.weights, n);
    TwoPenalties(m.bigM, Coefficient(weight, longest), shortest, longest,
                 MaxSeconds(p, Picked(p, x)), SlackTotal(2, x));
  }

  lemma CoefficientNonNegative(weight: real, longest: int)
    requires weight > 0.0
    ensures Coefficient(weight, longest) >= 0
  {
    RatioNonNegative(SCALE as real * weight, Max(longest, 1) as real);
  }

  /** Beyond the limit the cheap pair, with two shortfalls, is an optimum. */
  lemma NearIsOptimal(p: Problem, weight: real, shortest: int, longest: int, n: nat)
    requires Limiting(p, weight, shortest, longest, n) && !WithinPenalty(weight, shortest, longest, n)
    ensures WellFormedModel(ModelOf(p, true, true))
    ensures Optimum(ModelOf(p, true, true), Cheapest(p, ModelOf(p, true, true), NearPlaces()))
  {
    var m := ModelOf(p, true, true);
    var u := Cheapest(p, m, NearPlaces());
    CheapestSolves(p, true, true, NearPlaces());
    NearCost(p, weight, shortest, longest, n);
    InequityScaled(p, weight, shortest, longest, n, Picked(p, u));
    assert CpSat.Objective(m, u) == Coefficient(weight, longest) * shortest + 2 * m.bigM;
    forall x: Valuation | Program(m, x)
      ensures CpSat.Objective(m, u) <= CpSat.Objective(m, x)
    {
      AnyCost(p, weight, shortest, longest, n, x);
    }
  }

  /** Beyond the limit an optimum takes two shortfalls although one would do. */
  lemma BeyondFails(p: Problem, weight: real, shortest: int, longest: int, n: nat)
    requires Limiting(p, weight, shortest, longest, n) && !WithinPenalty(weight, shortest, longest, n)
    ensures !SlackFirst(p)
  {
    NearIsOptimal(p, weight, shortest, longest, n);
    CheapestSolves(p, true, true, FarPlaces());
    FarCost(p, weight, shortest, longest, n);
    NearCost(p, weight, shortest, longest, n);
  }

  /** The exact limit: with inequity as the only weight and at least three pairs, every
      problem with trips from the shortest to the longest minimises slack first iff the
      largest difference of minimax terms stays below big-M. */
  lemma PenaltyLimitIsExact(weight: real, shortest: int, longest: int, n: nat)
    requires weight > 0.0 && longest >= 1 && 0 <= shortest <= longest && n >= 3
    ensures (forall p: Problem :: InequityOnly(p, weight, shortest, longest, n) ==> SlackFirst(p))
            <==> WithinPenalty(weight, shortest, longest, n)
  {
    if WithinPenalty(weight, shortest, longest, n) {
      forall p: Problem | InequityOnly(p, weight, shortest, longest, n)
        ensures SlackFirst(p)
      {
        WithinMeansSlackFirst(p, weight, shortest, longest, n);
      }
    } else {
      LimitIsLimiting(n, weight, shortest, longest);
      BeyondFails(Limit(n, weight, shortest, longest), weight, shortest, longest, n);
    }
  }

  /** Beyond it the limiting problem gets to the demoted stage and trades a requirement. */
  lemma LimitFails(weight: real, shortest: int, longest: int, n: nat)
    requires weight > 0.0 && longest >= 1 && 0 <= shortest <= longest && n >= 3
    requires !WithinPenalty(weight, shortest, longest, n)
    ensures var p := Limit(n, weight, shortest, longest);
            WellFormed(p) && NeedsDemotion(p) && !SlackFirst(p)
  {
    var p := Limit(n, weight, shortest, longest);
    LimitIsLimiting(n, weight, shortest, longest);
    LimitNeedsDemotion(p, weight, shortest, longest, n);
    BeyondFails(p, weight, shortest, longest, n);
  }

  /** With a trip of no time an ordinary commute is beyond it: weight 1, a longest trip of
      3500 seconds, three pairs. The coefficient rounds 285.71 up to 286. */
  lemma OrdinaryTripFails()
    ensures !WithinPenalty(1.0, 0, 3500, 3)
    ensures var p := Limit(3, 1.0, 0, 3500);
            WellFormed(p) && NeedsDemotion(p) && !SlackFirst(p)
  {
    var x := Ratio(1000000.0, 3500.0);
    assert 285.5 < x < 286.0;
    assert Coefficient(1.0, 3500) == 286;
    LimitFails(1.0, 0, 3500, 3);
  }

  // ----- With a shortest trip: what rounding gains against what the trip takes away -----

  /** What the shortest trip takes away from the minimax term is as much as rounding can add. */
  predicate MakesUp(weight: real, shortest: real, longest: real) {
    longest * (longest - shortest) <= 2.0 * (SCALE as real * weight) * shortest
  }

  lemma RoundingGain(coefficient: real, x: real, shortest: real, longest: real, weight: real)
    requires coefficient <= x + 0.5 && 0.0 <= shortest <= longest && longest > 0.0
    requires Times(x, longest) == SCALE as real * weight && MakesUp(weight, shortest, longest)
    ensures Times(coefficient, longest - shortest) <= SCALE as real * weight
  {
    var spread, scaled := longest - shortest, SCALE as real * weight;
    ProductNonNegative(x + 0.5 - coefficient, spread);
    assert coefficient * spread <= x * spread + spread / 2.0;
    assert x * spread == scaled - x * shortest;
    if spread / 2.0 > x * shortest {
      ProductPositive(longest, spread / 2.0 - x * shortest);
      assert longest * (x * shortest) == scaled * shortest;
    }
  }

  lemma ProductPositive(a: real, b: real)
    requires a > 0.0 && b > 0.0
    ensures a * b > 0.0
  {
  }

  /** While the shortest trip makes up for the rounding the penalty dominates. */
  lemma ShortestTripSuffices(weight: real, shortest: int, longest: int, pairs: nat)
    requires weight > 0.0 && 0 <= shortest <= longest && longest >= 1
    requires MakesUp(weight, shortest as real, longest as real)
    ensures WithinPenalty(weight, shortest, longest, pairs)
  {
    var c, w := Coefficient(weight, longest), Weights(0.0, 0.0, weight);
    var x := RoundedUp(weight, longest);
    assert w.Valid() && w.Sum() == weight;
    CastProduct(c, longest - shortest);
    assert c * (longest - shortest) < BigM(w, pairs) ==> WithinPenalty(weight, shortest, longest, pairs);
    hide *;
    BigMPositive(w, pairs);
    RoundingGain(c as real, x, shortest as real, longest as real, weight);
  }

  lemma RoundedUp(weight: real, longest: int) returns (x: real)
    requires longest >= 1
    ensures Coefficient(weight, longest) as real <= x + 0.5 && Times(x, longest as real) == SCALE as real * weight
  {
    x := Ratio(SCALE as real * weight, longest as real);
  }

  /** No trip below the default within a district: with weight 1 the penalty dominates up to
      a longest trip of 42000 seconds, more than eleven hours. */
  lemma DefaultTripSuffices(longest: int, pairs: nat)
    requires 900 <= longest <= 42000
    ensures WithinPenalty(1.0, 900, longest, pairs)
  {
    var l := longest as real;
    assert l * (l - 900.0) <= 42000.0 * 41100.0 by {
      ProductNonNegative(42000.0 - l, 41100.0);
      ProductNonNegative(l, 42000.0 - l);
    }
    ShortestTripSuffices(1.0, 900, longest, pairs);
  }

  /** With the weight 0.001, which asks for the same assignments, it does not: the coefficient
      rounds 0.50025 up to 1. */
  lemma SmallWeightFails()
    ensures !WithinPenalty(0.001, 900, 1999, 3)
    ensures var p := Limit(3, 0.001, 900, 1999);
            WellFormed(p) && NeedsDemotion(p) && !SlackFirst(p)
  {
    var x := Ratio(1000.0, 1999.0);
    assert 0.5 < x < 1.0;
    assert Coefficient(0.001, 1999) == 1;
    LimitFails(0.001, 900, 1999, 3);
  }
}
