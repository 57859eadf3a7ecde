/** The documented claim about the penalty - big-M is a strict upper bound on the scaled
    objective - for all weights: where it holds, where it does not, by one closed formula. */
module PenaltyReach {
  import opened Agreement
  import opened Counting
  import opened Diagnosis
  import opened Domain
  import opened Dominance
  import opened Model
  import opened Objective
  import opened PenaltyLimit
  import opened Scaling
  import opened Validation

  /** The problems of given weights, longest trip, required headcount and number of pairs. */
  ghost predicate Family(p: Problem, w: Weights, longest: int, required: int, pairs: int) {
    && WellFormed(p) && NonNegativeTravel(p)
    && p.parameters.weights == w
    && NormOf(p).maxTravelSeconds == longest
    && TotalRequired(p.facilities) == required
    && PairCount(p) == pairs
  }

  // ----- A problem that reaches as far as its numbers allow -----
  //
  // One facility, everybody exactly the longest trip and one yen away, no cap in the way.

  function Hall(required: int): Facility { Facility("F", "R", required, []) }

  function Farthest(w: Weights, longest: int, required: int, n: nat): Problem {
    Problem("E", [Hall(required)], Crowd(n),
      map pr | pr in AllPairs(Crowd(n), [Hall(required)]) :: TravelMetrics(0.0, longest, 1.0),
      Parameters(w, n), [])
  }

  /** The first `required` people. */
  function First(required: nat): (ps: seq<Pair>)
    ensures |ps| == required
    ensures forall i :: 0 <= i < required ==> ps[i] == (Id(i), "F")
  {
    seq(required, i requires 0 <= i => (Id(i), "F"))
  }

  lemma IdsDiffer(i: nat, j: nat)
    requires i != j
    ensures Id(i) != Id(j)
  {
    assert |Id(i)| != |Id(j)|;
  }

  lemma HallPair(required: int, n: nat, i: nat)
    requires i < n
    ensures (Id(i), "F") in AllPairs(Crowd(n), [Hall(required)])
  {
    AllPairsMembers(Crowd(n), [Hall(required)], (Id(i), "F"));
    assert Crowd(n)[i] in Crowd(n) && Hall(required) in [Hall(required)];
  }

  lemma FarthestIsInFamily(w: Weights, longest: int, required: int, n: nat)
    requires w.Valid() && longest >= 0 && 1 <= required <= n
    ensures Family(Farthest(w, longest, required, n), w, longest, required, n)
  {
    var p := Farthest(w, longest, required, n);
    forall i, j | 0 <= i < j < n
      ensures p.availableStaff[i].id != p.availableStaff[j].id
    {
      IdsDiffer(i, j);
    }
    forall s | s in p.availableStaff
      ensures CompleteRow(p, s)
    {
      var i :| 0 <= i < n && p.availableStaff[i] == s;
      HallPair(required, n, i);
    }
    OneColumn(Crowd(n), Hall(required));
    assert [Hall(required)][..0] == [];
    FarthestNorm(w, longest, required, n);
  }

  lemma FirstNoDup(required: nat)
    ensures NoDup(First(required))
  {
    forall i, j | 0 <= i < j < required
      ensures First(required)[i] != First(required)[j]
    {
      IdsDiffer(i, j);
    }
  }

  lemma FirstIsHard(w: Weights, longest: int, required: int, n: nat)
    requires w.Valid() && longest >= 0 && 1 <= required <= n
    ensures SetHard(Farthest(w, longest, required, n), Elements(First(required)))
  {
    var p, S := Farthest(w, longest, required, n), Elements(First(required));
    FirstNoDup(required);
    ElementsSize(First(required));
    forall pr | pr in S
      ensures pr in PairSet(p)
    {
      var i :| 0 <= i < required && First(required)[i] == pr;
      HallPair(required, n, i);
    }
    assert Where(S, AtFacility("F")) == S;
    forall s: StaffId ensures |Where(S, OfStaff(s))| <= 1 {
      OneOf(required, s);
    }
    forall d: DepartmentId ensures |Where(S, InDepartment(Directory(p.availableStaff), d))| <= n {
      SubsetSize(Where(S, InDepartment(Directory(p.availableStaff), d)), S);
    }
  }

  lemma OneOf(required: nat, s: StaffId)
    ensures |Where(Elements(First(required)), OfStaff(s))| <= 1
  {
    assert Where(Elements(First(required)), OfStaff(s)) <= {(s, "F")};
    SubsetSize(Where(Elements(First(required)), OfStaff(s)), {(s, "F")});
  }

  // ----- ... and does -----

  lemma FarthestValue(w: Weights, norm: Normalisation, longest: int, required: int)
    requires required >= 1 && longest >= 0
    requires norm.nTime == Times(required as real, Max(longest, 1) as real)
    requires norm.nCost == Times(required as real, 1.0)
    ensures norm.nTime > 0.0 && norm.nCost > 0.0
    ensures PairValue(w, norm, TravelMetrics(0.0, longest, 1.0))
         == Ratio(TimeWeight(w, longest) + w.travelCost, required as real)
  {
    var r := required as real;
    PartOfScale(longest as real, Max(longest, 1) as real, r);
    RatioSum(TimeWeight(w, longest), w.travelCost, r);
    WholePart(w.travelCost, 1.0, r);
    if longest >= 1 {
      WholePart(w.travelTime, longest as real, r);
    } else {
      ZeroTrip(w.travelTime, norm.nTime, r);
    }
  }

  lemma WholePart(w: real, m: real, r: real)
    requires m > 0.0 && r >= 1.0
    ensures Times(r, m) != 0.0 && Times(w, Ratio(m, Times(r, m))) == Ratio(w, r)
  {
    PartOfScale(m, m, r);
    assert Ratio(m, Times(r, m)) == Ratio(1.0, r);
    assert Times(w, Ratio(1.0, r)) == Ratio(w, r);
  }

  lemma {:induction false} AllTop(p: Problem, ps: seq<Pair>, top: int, longest: int)
    requires Positive(NormOf(p)) && longest >= 0
    requires forall pr :: pr in ps ==> CoeffOf(p, NormOf(p))(pr) == top && SecondsOf(p)(pr) == longest
    ensures Sum(ps, CoeffOf(p, NormOf(p))) == |ps| * top
    ensures MaxSeconds(p, ps) == if ps == [] then 0 else longest
  {
    if ps != [] {
      var n := |ps| - 1;
      assert ps[n] in ps;
      AllTop(p, ps[..n], top, longest);
      OneMoreTop(n, top);
    }
  }

  /** A pair of the longest trip and one yen has the largest coefficient. */
  lemma TopPair(p: Problem, longest: int, required: int, pr: Pair)
    requires required >= 1 && longest >= 0
    requires NormOf(p) == NormalisationFrom(required, longest, 1.0)
    requires pr in p.travel && p.travel[pr] == TravelMetrics(0.0, longest, 1.0)
    ensures Positive(NormOf(p))
    ensures CoeffOf(p, NormOf(p))(pr) == TopCoeff(p.parameters.weights, longest, required)
    ensures SecondsOf(p)(pr) == longest
  {
    CastProduct(required, Max(longest, 1));
    FarthestValue(p.parameters.weights, NormOf(p), longest, required);
    NormalisationPositive(p, NormOf(p));
  }

  /** Only such pairs: the encoded objective is the whole reach. */
  lemma TopReaches(p: Problem, longest: int, required: int, ps: seq<Pair>)
    requires required >= 1 && longest >= 0 && |ps| == required
    requires NormOf(p) == NormalisationFrom(required, longest, 1.0)
    requires forall pr :: pr in ps ==> pr in p.travel && p.travel[pr] == TravelMetrics(0.0, longest, 1.0)
    ensures ScaledObjective(p, ps) == Reach(p.parameters.weights, longest, required)
  {
    NormalisationPositive(p, NormOf(p));
    forall pr | pr in ps
      ensures CoeffOf(p, NormOf(p))(pr) == TopCoeff(p.parameters.weights, longest, required)
              && SecondsOf(p)(pr) == longest
    {
      TopPair(p, longest, required, pr);
    }
    AllTop(p, ps, TopCoeff(p.parameters.weights, longest, required), longest);
  }

  lemma FarthestNorm(w: Weights, longest: int, required: int, n: nat)
    requires w.Valid() && longest >= 0 && 1 <= required <= n
    ensures NormOf(Farthest(w, longest, required, n)) == NormalisationFrom(required, longest, 1.0)
  {
    var p := Farthest(w, longest, required, n);
    HallPair(required, n, 0);
    assert p.travel[(Id(0), "F")] == TravelMetrics(0.0, longest, 1.0);
    assert [Hall(required)][..0] == [];
    assert TotalRequired(p.facilities) == required;
    assert IsMaxTime(p.travel, longest) && IsMaxCost(p.travel, 1.0);
    assert IsNormalisation(p, NormalisationFrom(required, longest, 1.0));
    NormalisationUnique(p, NormOf(p), NormalisationFrom(required, longest, 1.0));
  }

  lemma FarthestReaches(w: Weights, longest: int, required: int, n: nat)
    requires w.Valid() && longest >= 0 && 1 <= required <= n
    ensures ScaledObjective(Farthest(w, longest, required, n), First(required)) == Reach(w, longest, required)
  {
    var p, ps := Farthest(w, longest, required, n), First(required);
    FarthestNorm(w, longest, required, n);
    forall pr | pr in ps
      ensures pr in p.travel && p.travel[pr] == TravelMetrics(0.0, longest, 1.0)
    {
      var i :| 0 <= i < required && ps[i] == pr;
      HallPair(required, n, i);
    }
    TopReaches(p, longest, required, ps);
  }

  /** Beyond its reach the penalty is no upper bound. */
  lemma FarthestFails(w: Weights, longest: int, required: int, n: nat)
    requires w.Valid() && longest >= 0 && 1 <= required <= n && !WithinReach(w, longest, required, n)
    ensures Family(Farthest(w, longest, required, n), w, longest, required, n)
    ensures !RangeBelowPenalty(Farthest(w, longest, required, n))
  {
    FarthestIsInFamily(w, longest, required, n);
    FirstNoDup(required);
    FirstIsHard(w, longest, required, n);
    FarthestReaches(w, longest, required, n);
  }

  /** The exact condition, for all weights. In every problem of given weights, longest trip,
      headcount and number of pairs big-M exceeds every encoded objective of a complete
      assignment if and only if it exceeds
        required * round(SCALE * (w_time + w_cost) / required)
        + round(SCALE * w_inequity / longest) * longest
      - or there is no complete assignment to speak of. */
  lemma ReachIsExact(w: Weights, longest: int, required: int, pairs: int)
    requires w.Valid() && longest >= 0 && required >= 0 && pairs >= 0
    ensures (forall p: Problem :: Family(p, w, longest, required, pairs) ==> RangeBelowPenalty(p))
            <==> WithinReach(w, longest, required, pairs)
  {
    if WithinReach(w, longest, required, pairs) {
      forall p: Problem | Family(p, w, longest, required, pairs)
        ensures RangeBelowPenalty(p)
      {
        ReachMeansRange(p);
      }
    } else {
      FarthestFails(w, longest, required, pairs);
    }
  }

  /** With inequity as the only weight and a trip of no time the formula is the limit beyond
      which slack no longer comes first. */
  lemma ReachOfInequity(weight: real, longest: int, required: int, pairs: int)
    requires 1 <= required <= pairs
    ensures WithinReach(Weights(0.0, 0.0, weight), longest, required, pairs) <==>
              WithinPenalty(weight, 0, longest, pairs)
  {
    assert Ratio(0.0, required as real) == 0.0;
    assert TopCoeff(Weights(0.0, 0.0, weight), longest, required) == 0;
  }

  /** Mixed weights miss it too: weights 0.5, 0.3 and 0.2, three pairs, one of them taken,
      everybody one hour away. The coefficient rounds 55.56 up to 56, and the encoded objective
      of any complete assignment exceeds big-M. */
  lemma MixedWeightsFail()
    ensures var w := Weights(0.5, 0.3, 0.2);
            var p := Farthest(w, 3600, 1, 3);
            && w.Valid() && WellFormed(p) && NonNegativeTravel(p)
            && !WithinReach(w, 3600, 1, 3) && !RangeBelowPenalty(p)
  {
    var w := Weights(0.5, 0.3, 0.2);
    assert Ratio(TimeWeight(w, 3600) + w.travelCost, 1.0) == 0.8;
    var x := Ratio(SCALE as real * w.inequity, 3600.0);
    assert 55.5 < x < 56.0;
    assert Round(x) == 56;
    FarthestFails(w, 3600, 1, 3);
  }
}
