/** What the reach is worth. For mixed weights too an objective that reaches big-M can cost a
    C3 requirement: with two people wanted the condition that puts slack first is exact. */
module PenaltyTrade {
  import opened Agreement
  import opened Counting
  import opened CpSat
  import opened Diagnosis
  import opened Domain
  import opened Dominance
  import opened Guarantees
  import opened Model
  import opened Objective
  import opened Optima
  import opened PenaltyLimit
  import opened PenaltyReach
  import opened Scaling
  import opened SolverPort
  import opened Validation

  // ----- When a problem trades a requirement for a cheaper objective -----

  /** B costs nothing but its shortfalls, nothing is cheaper, and A leaves fewer people missing. */
  ghost predicate Trades(p: Problem, A: set<Pair>, B: set<Pair>) {
    var c3, bigM := AllC3(p.facilities, p.availableStaff), BigM(p.parameters.weights, PairCount(p));
    && SetHard(p, A) && SetPins(p, A) && SetHard(p, B) && SetPins(p, B)
    && ShortTotal(c3, A) < ShortTotal(c3, B)
    && (forall ps: seq<Pair> :: NoDup(ps) && Elements(ps) == B ==> ScaledObjective(p, ps) == 0)
    && (forall ps: seq<Pair> :: NoDup(ps) && SetHard(p, Elements(ps)) ==>
          ScaledObjective(p, ps) + bigM * Missing(p, ps) >= bigM * ShortTotal(c3, B))
  }

  /** Any solution costs at least its objective plus big-M for everybody missing. */
  lemma SolutionCost(p: Problem, v: Valuation)
    requires WellFormed(p) && NonNegativeTravel(p)
    requires WellFormedModel(ModelOf(p, true, true)) && Program(ModelOf(p, true, true), v)
    ensures CpSat.Objective(ModelOf(p, true, true), v)
         >= ScaledObjective(p, Picked(p, v)) + BigM(p.parameters.weights, PairCount(p)) * Missing(p, Picked(p, v))
    ensures NoDup(Picked(p, v)) && SetHard(p, Elements(Picked(p, v)))
  {
    var m := ModelOf(p, true, true);
    ObjectiveSplit(p, true, true, v);
    CheapestSlack(p, v);
    PickedIsChoice(p, v);
    ChosenHard(p, true, true, v);
    CheapestMissing(p, Chosen(m.pairs, v));
    BigMPositive(p.parameters.weights, |m.pairs|);
    IntTimes(m.bigM, Missing(p, Picked(p, v)), SlackTotal(|m.c3|, v));
  }

  lemma CheapestCost(p: Problem, B: set<Pair>)
    requires WellFormed(p) && NonNegativeTravel(p) && NonNegativeCounts(p)
    requires SetHard(p, B) && SetPins(p, B)
    requires forall ps: seq<Pair> :: NoDup(ps) && Elements(ps) == B ==> ScaledObjective(p, ps) == 0
    ensures WellFormedModel(ModelOf(p, true, true))
    ensures var m := ModelOf(p, true, true);
            && Program(m, Cheapest(p, m, B))
            && CpSat.Objective(m, Cheapest(p, m, B))
               == BigM(p.parameters.weights, PairCount(p)) * ShortTotal(AllC3(p.facilities, p.availableStaff), B)
  {
    var m := ModelOf(p, true, true);
    CheapestSolves(p, true, true, B);
    CheapestMissing(p, B);
    PickedIsChoice(p, Cheapest(p, m, B));
  }

  lemma TradesOff(p: Problem, A: set<Pair>, B: set<Pair>)
    requires WellFormed(p) && NonNegativeTravel(p) && NonNegativeCounts(p) && Trades(p, A, B)
    ensures !SlackFirst(p)
  {
    var m := ModelOf(p, true, true);
    CheapestCost(p, B);
    CheapestSolves(p, true, true, A);
    CheapestMissing(p, A);
    CheapestMissing(p, B);
    var u := Cheapest(p, m, B);
    forall x: Valuation | Program(m, x)
      ensures CpSat.Objective(m, u) <= CpSat.Objective(m, x)
    {
      SolutionCost(p, x);
    }
    assert Optimum(m, u);
  }

  // ----- A problem that trades -----
  //
  // Two facilities for one person each. The first wants a qualification only person 0 has,
  // the second one nobody has. Person 0 lives near the second, person 1 near the first;
  // everything else is far. Putting person 0 where they are wanted makes both trips long.

  const FIRST := Facility("F", "R", 1, [QualificationRequirement(NeedsQualification(FAR), 1)])
  const SECOND := Facility("G", "R", 1, [QualificationRequirement(NeedsQualification(NOBODY), 1)])

  predicate Near(pr: Pair) { pr == (Id(0), "G") || pr == (Id(1), "F") }

  function Trip(pr: Pair, longest: int): TravelMetrics {
    if Near(pr) then TravelMetrics(0.0, 0, 0.0) else TravelMetrics(0.0, longest, 1.0)
  }

  function Swap(w: Weights, longest: int, n: nat): Problem {
    Problem("E", [FIRST, SECOND], Crowd(n),
      map pr | pr in AllPairs(Crowd(n), [FIRST, SECOND]) :: Trip(pr, longest),
      Parameters(w, 2), [])
  }

  ghost function Wanted0(): set<Pair> { {(Id(0), "F"), (Id(1), "G")} }

  ghost function Home(): set<Pair> { {(Id(0), "G"), (Id(1), "F")} }

  lemma {:induction false} TwoColumns(staff: seq<Staff>, f: Facility, g: Facility)
    ensures |AllPairs(staff, [f, g])| == 2 * |staff|
  {
    if staff != [] {
      TwoColumns(staff[..|staff| - 1], f, g);
    }
  }

  lemma SwapPair(n: nat, pr: Pair)
    ensures pr in AllPairs(Crowd(n), [FIRST, SECOND]) <==>
              (pr.1 == "F" || pr.1 == "G") && exists i :: 0 <= i < n && pr.0 == Id(i)
  {
    AllPairsMembers(Crowd(n), [FIRST, SECOND], pr);
    assert FIRST in [FIRST, SECOND] && SECOND in [FIRST, SECOND];
    if i :| 0 <= i < n && pr.0 == Id(i) {
      assert Crowd(n)[i] in Crowd(n);
    }
  }

  lemma SwapIsWellFormed(w: Weights, longest: int, n: nat)
    requires w.Valid() && longest >= 0 && n >= 2
    ensures WellFormed(Swap(w, longest, n)) && NonNegativeCounts(Swap(w, longest, n))
  {
    var p := Swap(w, longest, n);
    forall i, j | 0 <= i < j < n
      ensures p.availableStaff[i].id != p.availableStaff[j].id
    {
      IdsDiffer(i, j);
    }
    forall s | s in p.availableStaff
      ensures CompleteRow(p, s)
    {
      var i :| 0 <= i < n && p.availableStaff[i] == s;
      SwapPair(n, (s.id, "F"));
      SwapPair(n, (s.id, "G"));
    }
  }

  lemma SwapTravel(w: Weights, longest: int, n: nat)
    requires w.Valid() && longest >= 0 && n >= 2
    ensures NonNegativeTravel(Swap(w, longest, n))
    ensures IsMaxTime(Swap(w, longest, n).travel, longest) && IsMaxCost(Swap(w, longest, n).travel, 1.0)
  {
    var p := Swap(w, longest, n);
    SwapPair(n, (Id(0), "F"));
    IdsDiffer(0, 1);
    assert p.travel[(Id(0), "F")] == TravelMetrics(0.0, longest, 1.0);
  }

  lemma SwapIsInFamily(w: Weights, longest: int, n: nat)
    requires w.Valid() && longest >= 0 && n >= 2
    ensures Family(Swap(w, longest, n), w, longest, 2, 2 * n) && NonNegativeCounts(Swap(w, longest, n))
    ensures NormOf(Swap(w, longest, n)) == NormalisationFrom(2, longest, 1.0)
  {
    var p := Swap(w, longest, n);
    SwapIsWellFormed(w, longest, n);
    SwapTravel(w, longest, n);
    TwoColumns(Crowd(n), FIRST, SECOND);
    assert [FIRST, SECOND][..1] == [FIRST] && [FIRST][..0] == [];
    assert TotalRequired([FIRST]) == 1;
    assert TotalRequired(p.facilities) == 2 && PairCount(p) == 2 * n;
    hide WellFormed, NonNegativeTravel, NonNegativeCounts, IsMaxTime, IsMaxCost, AllPairs, TotalRequired, PairCount,
         NormOf;
    assert IsNormalisation(p, NormalisationFrom(2, longest, 1.0));
    NormalisationUnique(p, NormOf(p), NormalisationFrom(2, longest, 1.0));
  }

  lemma TwoPlacesAreHard(w: Weights, longest: int, n: nat, i: nat, j: nat)
    requires w.Valid() && longest >= 0 && i < n && j < n && i != j
    ensures var S := {(Id(i), "F"), (Id(j), "G")};
            SetHard(Swap(w, longest, n), S) && SetPins(Swap(w, longest, n), S)
  {
    var p := Swap(w, longest, n);
    var a, b := (Id(i), "F"), (Id(j), "G");
    var S := {a, b};
    IdsDiffer(i, j);
    SwapPair(n, a);
    SwapPair(n, b);
    assert Where(S, AtFacility("F")) == {a} && Where(S, AtFacility("G")) == {b};
    forall s: StaffId ensures |Where(S, OfStaff(s))| <= 1 {
      if s == Id(i) {
        assert Where(S, OfStaff(s)) == {a};
      } else if s == Id(j) {
        assert Where(S, OfStaff(s)) == {b};
      } else {
        assert Where(S, OfStaff(s)) == {};
      }
    }
    forall d: DepartmentId ensures |Where(S, InDepartment(Directory(p.availableStaff), d))| <= 2 {
      SubsetSize(Where(S, InDepartment(Directory(p.availableStaff), d)), S);
    }
  }

  function SwapC3(): seq<C3Requirement> {
    [C3Requirement("F", {Id(0)}, 1), C3Requirement("G", {}, 1)]
  }

  lemma SwapWants(n: nat)
    requires n >= 2
    ensures AllC3([FIRST, SECOND], Crowd(n)) == SwapC3()
  {
    assert [FIRST, SECOND][..1] == [FIRST] && [FIRST][..0] == [];
    assert AllC3([FIRST], Crowd(n)) == C3For("F", FIRST.requirements, Crowd(n));
    assert AllC3([FIRST, SECOND], Crowd(n))
        == C3For("F", FIRST.requirements, Crowd(n)) + C3For("G", SECOND.requirements, Crowd(n));
    assert Crowd(n)[0] in Crowd(n);
    assert EligibleIds(Crowd(n), NeedsQualification(FAR)) == {Id(0)};
    assert EligibleIds(Crowd(n), NeedsQualification(NOBODY)) == {};
  }

  lemma SwapShort(S: set<Pair>)
    ensures ShortTotal(SwapC3(), S) == if (Id(0), "F") in S then 1 else 2
  {
    var c3 := SwapC3();
    assert c3[..1] == [C3Requirement("F", {Id(0)}, 1)] && c3[..1][..0] == [];
    assert Where(S, Meets(c3[1])) == {};
    if (Id(0), "F") in S {
      assert Where(S, Meets(c3[0])) == {(Id(0), "F")};
    } else {
      assert Where(S, Meets(c3[0])) == {};
    }
    assert ShortTotal(c3[..1], S) == ShortTotal([], S) + Max(0, 1 - |Where(S, Meets(c3[0]))|);
  }

  // ----- Its costs -----

  lemma NearIsFree(w: Weights, longest: int, n: nat, ps: seq<Pair>)
    requires w.Valid() && longest >= 0 && n >= 2 && NoDup(ps) && Elements(ps) == Home()
    ensures ScaledObjective(Swap(w, longest, n), ps) == 0
  {
    var p := Swap(w, longest, n);
    TmaxNonNegative(p);
    forall pr | pr in ps
      ensures CoeffOf(p, NormOf(p))(pr) == 0 && SecondsOf(p)(pr) == 0
    {
      assert pr in Elements(ps);
      SwapPair(n, pr);
      TimeCostAdds(w, NormOf(p), 0.0, 0.0, 0.0, 0.0);
    }
    AllTop(p, ps, 0, 0);
  }

  /** With person 0 at the first facility both pairs are far. */
  lemma BothAreFar(w: Weights, longest: int, n: nat, S: set<Pair>, pr: Pair)
    requires w.Valid() && longest >= 0 && n >= 2
    requires SetHard(Swap(w, longest, n), S) && (Id(0), "F") in S && pr in S
    ensures !Near(pr)
  {
    var p := Swap(w, longest, n);
    IdsDiffer(0, 1);
    if pr == (Id(0), "G") {
      TwoPlaces(S, (Id(0), "F"), pr);
    }
    if pr == (Id(1), "F") {
      assert FIRST in p.facilities;
      assert ExactAt(p, S, FIRST);
      SubsetSize({(Id(0), "F"), pr}, Where(S, AtFacility("F")));
    }
  }

  lemma FarReaches(w: Weights, longest: int, n: nat, ps: seq<Pair>)
    requires w.Valid() && longest >= 0 && n >= 2 && NoDup(ps)
    requires SetHard(Swap(w, longest, n), Elements(ps)) && (Id(0), "F") in Elements(ps)
    ensures ScaledObjective(Swap(w, longest, n), ps) == Reach(w, longest, 2)
  {
    var p := Swap(w, longest, n);
    SwapIsInFamily(w, longest, n);
    RequiredBounds(p, ps);
    forall pr | pr in ps
      ensures pr in p.travel && p.travel[pr] == TravelMetrics(0.0, longest, 1.0)
    {
      assert pr in Elements(ps) && pr in PairSet(p);
      BothAreFar(w, longest, n, Elements(ps), pr);
    }
    TopReaches(p, longest, 2, ps);
  }

  /** Anything costs two penalties at least: two people missing, or one and two far trips. */
  lemma SwapCosts(w: Weights, longest: int, n: nat, ps: seq<Pair>)
    requires w.Valid() && longest >= 0 && n >= 2 && !WithinReach(w, longest, 2, 2 * n)
    requires NoDup(ps) && SetHard(Swap(w, longest, n), Elements(ps))
    ensures ScaledObjective(Swap(w, longest, n), ps) + BigM(w, 2 * n) * Missing(Swap(w, longest, n), ps)
         >= BigM(w, 2 * n) * 2
  {
    var p := Swap(w, longest, n);
    SwapIsInFamily(w, longest, n);
    assert WellFormed(p) && NonNegativeTravel(p);
    SwapWants(n);
    assert Missing(p, ps) == ShortTotal(SwapC3(), Elements(ps));
    assert Reach(w, longest, 2) >= BigM(w, 2 * n);
    hide *;
    SwapShort(Elements(ps));
    ScaledNonNegative(p, ps);
    if (Id(0), "F") in Elements(ps) {
      FarReaches(w, longest, n, ps);
    }
  }

  lemma SwapOptions(w: Weights, longest: int, n: nat)
    requires w.Valid() && longest >= 0 && n >= 2
    ensures var p := Swap(w, longest, n);
            && SetHard(p, Wanted0()) && SetPins(p, Wanted0()) && SetHard(p, Home()) && SetPins(p, Home())
    ensures ShortTotal(SwapC3(), Wanted0()) == 1 && ShortTotal(SwapC3(), Home()) == 2
  {
    IdsDiffer(0, 1);
    TwoPlacesAreHard(w, longest, n, 0, 1);
    TwoPlacesAreHard(w, longest, n, 1, 0);
    assert Home() == {(Id(1), "F"), (Id(0), "G")};
    assert (Id(0), "F") in Wanted0() && (Id(0), "F") !in Home();
    hide *;
    SwapShort(Wanted0());
    SwapShort(Home());
  }

  lemma SwapNumbers(w: Weights, longest: int, n: nat)
    requires w.Valid() && longest >= 0 && n >= 2
    ensures var p := Swap(w, longest, n);
            && AllC3(p.facilities, p.availableStaff) == SwapC3()
            && BigM(p.parameters.weights, PairCount(p)) == BigM(w, 2 * n)
  {
    SwapIsInFamily(w, longest, n);
    SwapWants(n);
    hide AllC3, SwapC3, BigM, PairCount;
  }

  lemma SwapTrades(w: Weights, longest: int, n: nat)
    requires w.Valid() && longest >= 0 && n >= 2 && !WithinReach(w, longest, 2, 2 * n)
    ensures Trades(Swap(w, longest, n), Wanted0(), Home())
  {
    var p := Swap(w, longest, n);
    hide Swap, SetHard, SetPins, Wanted0, Home, AllC3, SwapC3, ShortTotal, BigM, PairCount, ScaledObjective, Elements,
         WithinReach, NoDup, Missing;
    SwapOptions(w, longest, n);
    SwapNumbers(w, longest, n);
    forall ps: seq<Pair> | NoDup(ps) && Elements(ps) == Home()
      ensures ScaledObjective(p, ps) == 0
    {
      NearIsFree(w, longest, n, ps);
    }
    forall ps: seq<Pair> | NoDup(ps) && SetHard(p, Elements(ps))
      ensures ScaledObjective(p, ps) + BigM(w, 2 * n) * Missing(p, ps) >= BigM(w, 2 * n) * 2
    {
      SwapCosts(w, longest, n, ps);
    }
  }

  /** Complete assignments exist, but nobody meets the second requirement. */
  lemma SwapNeedsDemotion(w: Weights, longest: int, n: nat)
    requires w.Valid() && longest >= 0 && n >= 2
    ensures NeedsDemotion(Swap(w, longest, n))
  {
    var p := Swap(w, longest, n);
    TwoPlacesAreHard(w, longest, n, 0, 1);
    forall S: set<Pair>
      ensures !SetC3(p, S)
    {
      NobodySecond(p, S);
    }
  }

  lemma NobodySecond(p: Problem, S: set<Pair>)
    requires SECOND in p.facilities && forall s :: s in p.availableStaff ==> NOBODY !in s.qualifications
    ensures !SetC3(p, S)
  {
    var q := SECOND.requirements[0];
    assert q in SECOND.requirements;
    assert Where(S, Fills(Directory(p.availableStaff), "G", q.requirement)) == {};
    assert !SetFilled(p, S, "G", q);
  }

  /** The condition for slack first is the best there is. For all weights and any longest
      trip, with two people wanted and 2 n pairs: every problem that gets to the demoted
      stage minimises slack first if and only if big-M exceeds the reach. */
  lemma SlackFirstIsExact(w: Weights, longest: int, n: nat)
    requires w.Valid() && longest >= 0 && n >= 2
    ensures (forall p: Problem :: Family(p, w, longest, 2, 2 * n) && NeedsDemotion(p) ==> SlackFirst(p))
            <==> WithinReach(w, longest, 2, 2 * n)
  {
    if WithinReach(w, longest, 2, 2 * n) {
      forall p: Problem | Family(p, w, longest, 2, 2 * n) && NeedsDemotion(p)
        ensures SlackFirst(p)
      {
        ReachDominates(p);
      }
    } else {
      SwapIsInFamily(w, longest, n);
      SwapNeedsDemotion(w, longest, n);
      SwapTrades(w, longest, n);
      TradesOff(Swap(w, longest, n), Wanted0(), Home());
    }
  }

  /** Mixed weights, an hour's longest trip, two people for two facilities: a requirement is
      given up for shorter trips. */
  lemma MixedWeightsTrade()
    ensures var w := Weights(0.5, 0.3, 0.2);
            var p := Swap(w, 3600, 2);
            w.Valid() && WellFormed(p) && NeedsDemotion(p) && !SlackFirst(p)
  {
    var w := Weights(0.5, 0.3, 0.2);
    assert Ratio(TimeWeight(w, 3600) + w.travelCost, 2.0) == 0.4;
    var x := Ratio(SCALE as real * w.inequity, 3600.0);
    assert 55.5 < x < 56.0;
    assert Round(x) == 56;
    assert TopCoeff(w, 3600, 2) == 400000;
    SwapIsInFamily(w, 3600, 2);
    SwapNeedsDemotion(w, 3600, 2);
    SwapTrades(w, 3600, 2);
    TradesOff(Swap(w, 3600, 2), Wanted0(), Home());
  }
}
