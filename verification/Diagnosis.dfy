/** Why a problem cannot be solved. The classification, and the counting argument that
    says exactly when the program without C3 has a solution. */
module Diagnosis {
  import opened Domain
  import opened Counting
  import opened Scaling
  import opened Validation
  import opened Model
  import opened CpSat
  import opened Agreement

  datatype Cause = TotalShortage | HardConstraint

  datatype InfeasibilityDiagnosis = InfeasibilityDiagnosis(
    cause: Cause,
    shortageCount: Option<int>,
    affectedFacilities: seq<FacilityId>,
    blocking: seq<ConstraintId>)

  function Shortage(p: Problem): int {
    Max(0, TotalRequired(p.facilities) - |p.availableStaff|)
  }

  function Classify(p: Problem): InfeasibilityDiagnosis {
    if Shortage(p) > 0 then
      InfeasibilityDiagnosis(TotalShortage, Some(Shortage(p)), FacilityIds(p.facilities), [])
    else
      InfeasibilityDiagnosis(HardConstraint, None, [], [C1, C2, C5])
  }

  // ----- The staff a department can contribute -----

  function DepartmentKeys(staff: seq<Staff>): seq<DepartmentId> {
    Uniq(DepartmentNames(staff))
  }

  function DepartmentNames(staff: seq<Staff>): (r: seq<DepartmentId>)
    ensures |r| == |staff|
    ensures forall i :: 0 <= i < |r| ==> r[i] == staff[i].department
  {
    seq(|staff|, i requires 0 <= i < |staff| => staff[i].department)
  }

  function Contribution(p: Problem): DepartmentId -> int {
    (d: DepartmentId) => Min(p.parameters.departmentCap, |Members(p.availableStaff, d)|)
  }

  /** Sum over departments of min(cap, department size). */
  function CappedCapacity(p: Problem): int {
    Sum(DepartmentKeys(p.availableStaff), Contribution(p))
  }

  // ----- Counting a set of pairs two ways -----

  function FacilityOfPair(): Pair -> FacilityId { (pr: Pair) => pr.1 }

  function DepartmentOfPair(dir: map<StaffId, Staff>): Pair -> DepartmentId {
    (pr: Pair) => if pr.0 in dir then dir[pr.0].department else ""
  }

  function HeadcountById(p: Problem): FacilityId -> int {
    (id: FacilityId) => if id in Capacities(p.facilities) then Capacities(p.facilities)[id] else 0
  }

  lemma {:induction false} RequiredIsSum(facilities: seq<Facility>, g: FacilityId -> int)
    requires forall f :: f in facilities ==> g(f.id) == f.headcount
    ensures TotalRequired(facilities) == Sum(FacilityIds(facilities), g)
  {
    if facilities != [] {
      var rest, last := facilities[..|facilities| - 1], facilities[|facilities| - 1];
      assert facilities == rest + [last];
      RequiredIsSum(rest, g);
      assert FacilityIds(facilities)[..|facilities| - 1] == FacilityIds(rest);
    }
  }

  lemma FacilityIdsNoDup(facilities: seq<Facility>)
    requires DistinctFacilities(facilities)
    ensures NoDup(FacilityIds(facilities))
  {
  }

  lemma SizeByFacility(p: Problem, S: set<Pair>)
    requires WellFormed(p) && S <= PairSet(p)
    ensures |S| == Sum(FacilityIds(p.facilities), FiberSize(S, FacilityOfPair()))
    ensures TotalRequired(p.facilities) == Sum(FacilityIds(p.facilities), HeadcountById(p))
    ensures forall f :: f in p.facilities ==> HeadcountById(p)(f.id) == f.headcount
    ensures forall f: FacilityId :: FiberSize(S, FacilityOfPair())(f) == |Where(S, AtFacility(f))|
  {
    forall f | f in p.facilities
      ensures HeadcountById(p)(f.id) == f.headcount
    {
      CapacityLookup(p.facilities, f);
    }
    RequiredIsSum(p.facilities, HeadcountById(p));
    FacilityIdsNoDup(p.facilities);
    forall pr | pr in S
      ensures FacilityOfPair()(pr) in FacilityIds(p.facilities)
    {
      MemberIsVariable(p, pr);
    }
    SumOfFibers(S, FacilityOfPair(), FacilityIds(p.facilities));
    forall f: FacilityId
      ensures FiberSize(S, FacilityOfPair())(f) == |Where(S, AtFacility(f))|
    {
      assert Fiber(S, FacilityOfPair(), f) == Where(S, AtFacility(f));
    }
  }

  lemma PairDepartment(p: Problem, pr: Pair)
    requires pr in PairSet(p)
    ensures pr.0 in Directory(p.availableStaff)
    ensures DepartmentOfPair(Directory(p.availableStaff))(pr) in DepartmentKeys(p.availableStaff)
  {
    MemberIsVariable(p, pr);
    var s := Directory(p.availableStaff)[pr.0];
    var i :| 0 <= i < |p.availableStaff| && p.availableStaff[i] == s;
    assert DepartmentNames(p.availableStaff)[i] == s.department;
  }

  lemma DepartmentFiber(dir: map<StaffId, Staff>, S: set<Pair>, d: DepartmentId)
    requires forall pr :: pr in S ==> pr.0 in dir
    ensures FiberSize(S, DepartmentOfPair(dir))(d) == |Where(S, InDepartment(dir, d))|
  {
    assert Fiber(S, DepartmentOfPair(dir), d) == Where(S, InDepartment(dir, d));
  }

  lemma SizeByDepartment(p: Problem, S: set<Pair>)
    requires WellFormed(p) && S <= PairSet(p)
    ensures |S| == Sum(DepartmentKeys(p.availableStaff), FiberSize(S, DepartmentOfPair(Directory(p.availableStaff))))
    ensures forall d: DepartmentId :: FiberSize(S, DepartmentOfPair(Directory(p.availableStaff)))(d)
                                   == |Where(S, InDepartment(Directory(p.availableStaff), d))|
  {
    var dir := Directory(p.availableStaff);
    assert NoDup(DepartmentKeys(p.availableStaff));
    hide *;
    forall pr | pr in S
      ensures pr.0 in dir && DepartmentOfPair(dir)(pr) in DepartmentKeys(p.availableStaff)
    {
      PairDepartment(p, pr);
    }
    SumOfFibers(S, DepartmentOfPair(dir), DepartmentKeys(p.availableStaff));
    forall d: DepartmentId
      ensures FiberSize(S, DepartmentOfPair(dir))(d) == |Where(S, InDepartment(dir, d))|
    {
      DepartmentFiber(dir, S, d);
    }
  }

  /** With one place per person, pairs and their people are equally many. */
  ghost function People(S: set<Pair>): set<StaffId> {
    set pr | pr in S :: pr.0
  }

  lemma {:induction false} PeopleSize(S: set<Pair>)
    ensures |People(S)| <= |S|
    ensures SetC2(S) ==> |People(S)| == |S|
    decreases |S|
  {
    if S != {} {
      var pr :| pr in S;
      var rest := S - {pr};
      PeopleSize(rest);
      assert People(S) == People(rest) + {pr.0};
      if SetC2(S) {
        SubsetC2(S, rest);
        if pr.0 in People(rest) {
          var other :| other in rest && other.0 == pr.0;
          TwoPlaces(S, pr, other);
        }
      }
    }
  }

  lemma WhereSmaller(S: set<Pair>, T: set<Pair>, p: Pair -> bool)
    requires T <= S
    ensures |Where(T, p)| <= |Where(S, p)|
  {
    SubsetSize(Where(T, p), Where(S, p));
  }

  lemma {:induction false} SubsetSize<T>(A: set<T>, B: set<T>)
    requires A <= B
    ensures |A| <= |B|
  {
    assert B == A + (B - A);
  }

  lemma SubsetC2(S: set<Pair>, T: set<Pair>)
    requires T <= S && SetC2(S)
    ensures SetC2(T)
  {
    forall s: StaffId ensures |Where(T, OfStaff(s))| <= 1 {
      WhereSmaller(S, T, OfStaff(s));
      assert |Where(S, OfStaff(s))| <= 1;
    }
  }

  lemma TwoPlaces(S: set<Pair>, a: Pair, b: Pair)
    requires a in S && b in S && a != b && a.0 == b.0
    ensures !SetC2(S)
  {
    SubsetSize({a, b}, Where(S, OfStaff(a.0)));
  }

  lemma {:induction false} MembersNoDup(staff: seq<Staff>, d: DepartmentId)
    requires DistinctStaff(staff)
    ensures NoDup(Members(staff, d))
  {
    if staff != [] {
      var rest, last := staff[..|staff| - 1], staff[|staff| - 1];
      MembersNoDup(rest, d);
      MembersLookup(rest, d, last.id);
      assert forall x :: x in rest ==> x.id != last.id;
      NoDupConcat(Members(rest, d), [last.id]);
    }
  }

  lemma DepartmentPeople(p: Problem, S: set<Pair>, d: DepartmentId)
    requires WellFormed(p) && S <= PairSet(p) && SetC2(S)
    ensures |Where(S, InDepartment(Directory(p.availableStaff), d))| <= |Members(p.availableStaff, d)|
    ensures |Where(S, InDepartment(Directory(p.availableStaff), d))| < |Members(p.availableStaff, d)| ==>
              exists s :: s in Members(p.availableStaff, d) && s !in People(S)
  {
    GroupAgrees(p, S, d);
    MembersNoDup(p.availableStaff, d);
    GroupPeople(S, Members(p.availableStaff, d));
  }

  lemma GroupPeople(S: set<Pair>, members: seq<StaffId>)
    requires SetC2(S) && NoDup(members)
    ensures |Where(S, InGroup(members))| <= |members|
    ensures |Where(S, InGroup(members))| < |members| ==> exists s :: s in members && s !in People(S)
  {
    var here := Where(S, InGroup(members));
    SubsetC2(S, here);
    PeopleSize(here);
    ElementsSize(members);
    SubsetSize(People(here), Elements(members));
    if |here| < |members| {
      if Elements(members) <= People(here) {
        SubsetSize(Elements(members), People(here));
      }
      var s :| s in Elements(members) && s !in People(here);
      assert forall pr :: pr in S && pr.0 == s ==> pr in here;
    }
  }

  lemma SizeIsRequired(p: Problem, S: set<Pair>)
    requires WellFormed(p) && S <= PairSet(p) && SetC1(p, S)
    ensures |S| == TotalRequired(p.facilities)
  {
    SizeByFacility(p, S);
    assert SetC1(p, S) ==> forall f :: f in p.facilities ==> |Where(S, AtFacility(f.id))| == f.headcount by {
      assert forall f :: f in p.facilities && SetC1(p, S) ==> ExactAt(p, S, f);
    }
    hide *;
    forall id | id in FacilityIds(p.facilities)
      ensures FiberSize(S, FacilityOfPair())(id) == HeadcountById(p)(id)
    {
      FacilityIdMember(p.facilities, id);
      var f :| f in p.facilities && f.id == id;
    }
    SumEq(FacilityIds(p.facilities), FiberSize(S, FacilityOfPair()), HeadcountById(p));
  }

  lemma ShareOf(p: Problem, S: set<Pair>, d: DepartmentId)
    requires WellFormed(p) && S <= PairSet(p) && SetC2(S) && SetC5(p, S)
    ensures |Where(S, InDepartment(Directory(p.availableStaff), d))| <= Contribution(p)(d)
  {
    DepartmentPeople(p, S, d);
  }

  /** One way: a solution uses at most min(cap, size) people of each department. */
  lemma Pigeonhole(p: Problem, S: set<Pair>)
    requires WellFormed(p) && SetHard(p, S)
    ensures |S| == TotalRequired(p.facilities) <= CappedCapacity(p)
  {
    var dir := Directory(p.availableStaff);
    SizeIsRequired(p, S);
    SizeByDepartment(p, S);
    assert CappedCapacity(p) == Sum(DepartmentKeys(p.availableStaff), Contribution(p));
    assert S <= PairSet(p) && SetC2(S) && SetC5(p, S);
    hide *;
    forall d | d in DepartmentKeys(p.availableStaff)
      ensures FiberSize(S, DepartmentOfPair(dir))(d) <= Contribution(p)(d)
    {
      ShareOf(p, S, d);
    }
    SumLe(DepartmentKeys(p.availableStaff), FiberSize(S, DepartmentOfPair(dir)), Contribution(p));
  }

  /** Everything a set of pins that passed validation satisfies. */
  ghost predicate Partial(p: Problem, S: set<Pair>) {
    && S <= PairSet(p) && SetC2(S) && SetC5(p, S)
    && forall f :: f in p.facilities ==> |Where(S, AtFacility(f.id))| <= f.headcount
  }

  lemma WhereAdd(S: set<Pair>, x: Pair, p: Pair -> bool)
    requires x !in S
    ensures |Where(S + {x}, p)| == |Where(S, p)| + if p(x) then 1 else 0
  {
    if p(x) {
      assert Where(S + {x}, p) == Where(S, p) + {x};
    } else {
      assert Where(S + {x}, p) == Where(S, p);
    }
  }

  lemma OpenFacility(p: Problem, S: set<Pair>) returns (f: Facility)
    requires WellFormed(p) && S <= PairSet(p) && |S| < TotalRequired(p.facilities)
    ensures f in p.facilities && |Where(S, AtFacility(f.id))| < f.headcount
  {
    SizeByFacility(p, S);
    var id := SumWitness(FacilityIds(p.facilities), FiberSize(S, FacilityOfPair()), HeadcountById(p));
    FacilityIdMember(p.facilities, id);
    f :| f in p.facilities && f.id == id;
  }

  lemma OpenDepartment(p: Problem, S: set<Pair>) returns (d: DepartmentId)
    requires WellFormed(p) && S <= PairSet(p) && |S| < CappedCapacity(p)
    ensures |Where(S, InDepartment(Directory(p.availableStaff), d))| < Contribution(p)(d)
  {
    SizeByDepartment(p, S);
    d := SumWitness(DepartmentKeys(p.availableStaff), FiberSize(S, DepartmentOfPair(Directory(p.availableStaff))),
                    Contribution(p));
  }

  /** While people are missing, somebody free still fits somewhere. */
  lemma FreePlace(p: Problem, S: set<Pair>) returns (s: StaffId, d: DepartmentId, f: Facility)
    requires WellFormed(p) && Partial(p, S)
    requires |S| < TotalRequired(p.facilities) <= CappedCapacity(p)
    ensures s in Members(p.availableStaff, d) && s !in People(S)
    ensures |Where(S, InDepartment(Directory(p.availableStaff), d))| < p.parameters.departmentCap
    ensures f in p.facilities && |Where(S, AtFacility(f.id))| < f.headcount
  {
    f := OpenFacility(p, S);
    d := OpenDepartment(p, S);
    assert Contribution(p)(d) <= p.parameters.departmentCap && Contribution(p)(d) <= |Members(p.availableStaff, d)|;
    DepartmentPeople(p, S, d);
    s :| s in Members(p.availableStaff, d) && s !in People(S);
  }

  lemma Seat(p: Problem, S: set<Pair>, s: StaffId, d: DepartmentId, f: Facility)
    requires WellFormed(p) && Partial(p, S)
    requires s in Members(p.availableStaff, d) && s !in People(S)
    requires |Where(S, InDepartment(Directory(p.availableStaff), d))| < p.parameters.departmentCap
    requires f in p.facilities && |Where(S, AtFacility(f.id))| < f.headcount
    ensures (s, f.id) !in S && Partial(p, S + {(s, f.id)})
  {
    var dir, pr := Directory(p.availableStaff), (s, f.id);
    MembersLookup(p.availableStaff, d, s);
    var member :| member in p.availableStaff && member.id == s && member.department == d;
    DirectoryLookup(p.availableStaff, member);
    AllPairsMembers(p.availableStaff, p.facilities, pr);
    assert pr !in S;
    forall t: StaffId ensures |Where(S + {pr}, OfStaff(t))| <= 1 {
      WhereAdd(S, pr, OfStaff(t));
      assert |Where(S, OfStaff(t))| <= 1;
      if t == s {
        assert Where(S, OfStaff(s)) == {};
      }
    }
    forall e: DepartmentId ensures |Where(S + {pr}, InDepartment(dir, e))| <= p.parameters.departmentCap {
      WhereAdd(S, pr, InDepartment(dir, e));
      assert |Where(S, InDepartment(dir, e))| <= p.parameters.departmentCap;
    }
    forall g | g in p.facilities ensures |Where(S + {pr}, AtFacility(g.id))| <= g.headcount {
      WhereAdd(S, pr, AtFacility(g.id));
      if g.id == f.id { SameFacility(p.facilities, g, f); }
    }
  }

  lemma SameFacility(facilities: seq<Facility>, f: Facility, g: Facility)
    requires DistinctFacilities(facilities)
    requires f in facilities && g in facilities && f.id == g.id
    ensures f == g
  {
    var i :| 0 <= i < |facilities| && facilities[i] == f;
    var j :| 0 <= j < |facilities| && facilities[j] == g;
  }

  lemma FullIsExact(p: Problem, S: set<Pair>)
    requires WellFormed(p) && Partial(p, S) && |S| >= TotalRequired(p.facilities)
    ensures SetHard(p, S)
  {
    SizeByFacility(p, S);
    var ids := FacilityIds(p.facilities);
    forall f | f in p.facilities ensures ExactAt(p, S, f) {
      if |Where(S, AtFacility(f.id))| < f.headcount {
        forall id | id in ids
          ensures FiberSize(S, FacilityOfPair())(id) <= HeadcountById(p)(id)
        {
          FacilityIdMember(p.facilities, id);
          var g :| g in p.facilities && g.id == id;
        }
        FacilityIdMember(p.facilities, f.id);
        SumStrict(ids, FiberSize(S, FacilityOfPair()), HeadcountById(p), f.id);
      }
    }
  }

  lemma {:induction false} SumStrict<T>(s: seq<T>, f: T -> int, g: T -> int, x: T)
    requires forall y :: y in s ==> f(y) <= g(y)
    requires x in s && f(x) < g(x)
    ensures Sum(s, f) < Sum(s, g)
  {
    var rest, last := s[..|s| - 1], s[|s| - 1];
    assert s == rest + [last];
    if x in rest {
      SumStrict(rest, f, g, x);
    } else {
      SumLe(rest, f, g);
    }
  }

  /** The other way: pins that passed validation can always be extended, one free person
      and one open place at a time, when the capped sum suffices. */
  lemma {:induction false} Fill(p: Problem, S: set<Pair>) returns (full: set<Pair>)
    requires WellFormed(p) && Partial(p, S)
    requires TotalRequired(p.facilities) <= CappedCapacity(p)
    ensures S <= full && SetHard(p, full)
    decreases TotalRequired(p.facilities) - |S|
  {
    if |S| >= TotalRequired(p.facilities) {
      FullIsExact(p, S);
      full := S;
    } else {
      var s, d, f := FreePlace(p, S);
      Seat(p, S, s, d, f);
      full := Fill(p, S + {(s, f.id)});
    }
  }

  lemma CleanIsPartial(p: Problem, ps: seq<Pair>)
    requires Clean(p, ps, false, false) && NoDup(ps) && Elements(ps) <= PairSet(p)
    ensures Partial(p, Elements(ps))
  {
    var S, dir := Elements(ps), Directory(p.availableStaff);
    forall s: StaffId ensures |Where(S, OfStaff(s))| <= 1 {
      CountIsSize(ps, OfStaff(s));
      assert CountIf(ps, OfStaff(s)) <= 1;
    }
    forall d: DepartmentId ensures |Where(S, InDepartment(dir, d))| <= p.parameters.departmentCap {
      CountIsSize(ps, InDepartment(dir, d));
      assert CountIf(ps, InDepartment(dir, d)) <= p.parameters.departmentCap;
    }
    forall f | f in p.facilities ensures |Where(S, AtFacility(f.id))| <= f.headcount {
      CountIsSize(ps, AtFacility(f.id));
      assert HeadcountOk(f, ps, false);
    }
  }

  lemma PinsArePairs(pins: seq<Assignment>)
    ensures forall a :: a in pins ==> a.Pair() in Elements(PairsOf(pins))
  {
    var ps := PairsOf(pins);
    forall a | a in pins ensures a.Pair() in Elements(ps) {
      var i :| 0 <= i < |pins| && pins[i] == a;
      assert ps[i] == a.Pair();
    }
  }

  lemma CleanMeans(p: Problem, ps: seq<Pair>)
    requires Clean(p, ps, false, false)
    ensures OnePlaceEach(ps) && MembersOnly(Directory(p.availableStaff), FacilityIds(p.facilities), ps)
  {
  }

  lemma PinsArePartial(p: Problem)
    requires WellFormed(p) && Check(p, p.pins, false, false) == []
    ensures Partial(p, Elements(PairsOf(p.pins)))
    ensures forall a :: a in p.pins ==> a.Pair() in Elements(PairsOf(p.pins))
    ensures forall a :: a in p.pins ==> a.Pair() in PairSet(p)
  {
    var ps := PairsOf(p.pins);
    assert p.parameters.Valid() && Check(p, p.pins, false, false) == CheckPairs(p, ps, false, false);
    hide *;
    CheckIsClean(p, ps, false, false);
    CleanMeans(p, ps);
    OnePlaceNoDup(ps);
    MembersAreVariables(p, ps);
    CleanIsPartial(p, ps);
    PinsArePairs(p.pins);
  }

  /** Some set of pairs meets C1, C2, C4, C5 and the pins. */
  ghost predicate Fillable(p: Problem) {
    exists S: set<Pair> :: SetHard(p, S) && SetPins(p, S)
  }

  /** Without C3 the problem can be filled iff the departments, each capped, hold enough
      people - whatever pins passed validation. */
  lemma FillableIffCapped(p: Problem)
    requires WellFormed(p) && Check(p, p.pins, false, false) == []
    ensures Fillable(p) <==> TotalRequired(p.facilities) <= CappedCapacity(p)
  {
    if S: set<Pair> :| SetHard(p, S) && SetPins(p, S) {
      Pigeonhole(p, S);
    }
    if TotalRequired(p.facilities) <= CappedCapacity(p) {
      PinsArePartial(p);
      var full := Fill(p, Elements(PairsOf(p.pins)));
      assert SetPins(p, full);
    }
  }

  function StaffDepartment(dir: map<StaffId, Staff>): StaffId -> DepartmentId {
    (s: StaffId) => if s in dir then dir[s].department else ""
  }

  lemma StaffByDepartment(p: Problem, i: nat)
    requires WellFormed(p) && i < |p.availableStaff|
    ensures StaffDepartment(Directory(p.availableStaff))(p.availableStaff[i].id) == p.availableStaff[i].department
    ensures p.availableStaff[i].department in DepartmentKeys(p.availableStaff)
  {
    DirectoryLookup(p.availableStaff, p.availableStaff[i]);
    assert DepartmentNames(p.availableStaff)[i] == p.availableStaff[i].department;
  }

  lemma EveryoneHasDepartment(p: Problem)
    requires WellFormed(p)
    ensures forall s :: s in Elements(StaffIds(p.availableStaff)) ==>
              StaffDepartment(Directory(p.availableStaff))(s) in DepartmentKeys(p.availableStaff)
  {
    forall s | s in Elements(StaffIds(p.availableStaff))
      ensures StaffDepartment(Directory(p.availableStaff))(s) in DepartmentKeys(p.availableStaff)
    {
      var i :| 0 <= i < |p.availableStaff| && StaffIds(p.availableStaff)[i] == s;
      StaffByDepartment(p, i);
    }
  }

  lemma DepartmentSize(p: Problem, d: DepartmentId)
    requires WellFormed(p)
    ensures |Members(p.availableStaff, d)|
         <= FiberSize(Elements(StaffIds(p.availableStaff)), StaffDepartment(Directory(p.availableStaff)))(d)
  {
    var ids, key := Elements(StaffIds(p.availableStaff)), StaffDepartment(Directory(p.availableStaff));
    var members := Members(p.availableStaff, d);
    MembersNoDup(p.availableStaff, d);
    ElementsSize(members);
    forall s | s in members ensures s in Fiber(ids, key, d) {
      MembersLookup(p.availableStaff, d, s);
      var x :| x in p.availableStaff && x.id == s && x.department == d;
      var i :| 0 <= i < |p.availableStaff| && p.availableStaff[i] == x;
      StaffByDepartment(p, i);
      assert StaffIds(p.availableStaff)[i] == s;
    }
    SubsetSize(Elements(members), Fiber(ids, key, d));
  }

  /** A total shortage is never the smaller problem: the capped sum is at most the head count. */
  lemma CappedAtMostStaff(p: Problem)
    requires WellFormed(p)
    ensures CappedCapacity(p) <= |p.availableStaff|
  {
    var ids, key := Elements(StaffIds(p.availableStaff)), StaffDepartment(Directory(p.availableStaff));
    ElementsSize(StaffIds(p.availableStaff));
    EveryoneHasDepartment(p);
    SumOfFibers(ids, key, DepartmentKeys(p.availableStaff));
    forall d | d in DepartmentKeys(p.availableStaff)
      ensures Contribution(p)(d) <= FiberSize(ids, key)(d)
    {
      DepartmentSize(p, d);
    }
    SumLe(DepartmentKeys(p.availableStaff), Contribution(p), FiberSize(ids, key));
  }
}
