/** The abstract integer program and its builder. */
module Model {
  import opened Domain
  import opened Counting
  import opened Scaling

  datatype C3Requirement = C3Requirement(facility: FacilityId, eligible: set<StaffId>, count: int)

  datatype MilpModel = MilpModel(
    event: EventId,
    staffIds: seq<StaffId>,
    facilityIds: seq<FacilityId>,
    pairs: seq<Pair>,
    objectiveCoeff: map<Pair, int>,
    tmaxCoeff: int,
    travelSeconds: map<Pair, int>,
    maxTravelSeconds: int,
    capacity: map<FacilityId, int>,
    c3: seq<C3Requirement>,
    departmentMembers: map<DepartmentId, seq<StaffId>>,
    departmentCap: int,
    pinned: set<Pair>,
    bigM: int,
    demoteC3: bool)

  datatype ModelError = MissingTravelEntry(pair: Pair)

  function PairsFor(s: Staff, facilities: seq<Facility>): (r: seq<Pair>)
    ensures |r| == |facilities|
    ensures forall i :: 0 <= i < |r| ==> r[i] == (s.id, facilities[i].id)
  {
    seq(|facilities|, i requires 0 <= i < |facilities| => (s.id, facilities[i].id))
  }

  function AllPairs(staff: seq<Staff>, facilities: seq<Facility>): seq<Pair> {
    if staff == [] then []
    else AllPairs(staff[..|staff| - 1], facilities) + PairsFor(staff[|staff| - 1], facilities)
  }

  function EligibleIds(staff: seq<Staff>, r: Requirement): set<StaffId> {
    set s | s in staff && IsEligible(s, r) :: s.id
  }

  function C3For(f: FacilityId, reqs: seq<QualificationRequirement>, staff: seq<Staff>): (r: seq<C3Requirement>)
    ensures |r| == |reqs|
    ensures forall i :: 0 <= i < |r| ==>
              r[i] == C3Requirement(f, EligibleIds(staff, reqs[i].requirement), reqs[i].count)
  {
    seq(|reqs|, i requires 0 <= i < |reqs| =>
      C3Requirement(f, EligibleIds(staff, reqs[i].requirement), reqs[i].count))
  }

  function AllC3(facilities: seq<Facility>, staff: seq<Staff>): seq<C3Requirement> {
    if facilities == [] then []
    else
      var last := facilities[|facilities| - 1];
      AllC3(facilities[..|facilities| - 1], staff) + C3For(last.id, last.requirements, staff)
  }

  function Members(staff: seq<Staff>, d: DepartmentId): seq<StaffId> {
    if staff == [] then []
    else
      var last := staff[|staff| - 1];
      Members(staff[..|staff| - 1], d) + if last.department == d then [last.id] else []
  }

  function Departments(staff: seq<Staff>): set<DepartmentId> {
    set s | s in staff :: s.department
  }

  function Capacities(facilities: seq<Facility>): (m: map<FacilityId, int>) {
    if facilities == [] then map[]
    else
      var last := facilities[|facilities| - 1];
      Capacities(facilities[..|facilities| - 1])[last.id := last.headcount]
  }

  function StaffIds(staff: seq<Staff>): (r: seq<StaffId>)
    ensures |r| == |staff|
    ensures forall i :: 0 <= i < |r| ==> r[i] == staff[i].id
  {
    seq(|staff|, i requires 0 <= i < |staff| => staff[i].id)
  }

  function PinnedSet(pins: seq<Assignment>): set<Pair> {
    set a | a in pins :: a.Pair()
  }

  lemma {:induction false} AllPairsMembers(staff: seq<Staff>, facilities: seq<Facility>, pr: Pair)
    ensures pr in AllPairs(staff, facilities) <==>
            exists s, f :: s in staff && f in facilities && pr == (s.id, f.id)
  {
    if staff != [] {
      var rest, last := staff[..|staff| - 1], staff[|staff| - 1];
      assert staff == rest + [last];
      AllPairsMembers(rest, facilities, pr);
      assert pr in PairsFor(last, facilities) <==> exists f :: f in facilities && pr == (last.id, f.id);
    }
  }

  lemma {:induction false} AllPairsNoDup(staff: seq<Staff>, facilities: seq<Facility>)
    requires DistinctStaff(staff) && DistinctFacilities(facilities)
    ensures NoDup(AllPairs(staff, facilities))
  {
    if staff != [] {
      var rest, last := staff[..|staff| - 1], staff[|staff| - 1];
      AllPairsNoDup(rest, facilities);
      assert rest + [last] == staff;
      assert DistinctStaff(rest);
      assert NoDup(PairsFor(last, facilities));
      forall pr | pr in PairsFor(last, facilities)
        ensures pr !in AllPairs(rest, facilities)
      {
        AllPairsMembers(rest, facilities, pr);
      }
      NoDupConcat(AllPairs(rest, facilities), PairsFor(last, facilities));
    }
  }

  lemma PairsHaveTravel(p: Problem)
    requires CompleteMatrix(p)
    ensures forall pr :: pr in AllPairs(p.availableStaff, p.facilities) ==> pr in p.travel
  {
    forall pr | pr in AllPairs(p.availableStaff, p.facilities)
      ensures pr in p.travel
    {
      AllPairsMembers(p.availableStaff, p.facilities, pr);
      var s, f :| s in p.availableStaff && f in p.facilities && pr == (s.id, f.id);
      assert CompleteRow(p, s);
    }
  }

  function Coefficients(p: Problem, norm: Normalisation, pairs: seq<Pair>): map<Pair, int>
    requires norm.nTime != 0.0 && norm.nCost != 0.0
    requires forall pr :: pr in pairs ==> pr in p.travel
  {
    map pr | pr in pairs :: PairCoeff(p.parameters.weights, norm, p.travel[pr])
  }

  function Seconds(p: Problem, pairs: seq<Pair>): map<Pair, int>
    requires forall pr :: pr in pairs ==> pr in p.travel
  {
    map pr | pr in pairs :: p.travel[pr].timeSeconds
  }

  /** The program the builder is meant to produce, for a complete travel matrix. */
  ghost function ModelOf(p: Problem, demoteC3: bool, includeC3: bool): MilpModel
    requires CompleteMatrix(p)
  {
    var norm := NormOf(p);
    var w := p.parameters.weights;
    var pairs := AllPairs(p.availableStaff, p.facilities);
    NormalisationPositive(p, norm);
    PairsHaveTravel(p);
    MilpModel(
      p.event,
      StaffIds(p.availableStaff),
      FacilityIds(p.facilities),
      pairs,
      Coefficients(p, norm, pairs),
      TmaxCoeff(w, norm),
      Seconds(p, pairs),
      norm.maxTravelSeconds,
      Capacities(p.facilities),
      if includeC3 then AllC3(p.facilities, p.availableStaff) else [],
      map d | d in Departments(p.availableStaff) :: Members(p.availableStaff, d),
      p.parameters.departmentCap,
      PinnedSet(p.pins),
      BigM(w, |pairs|),
      demoteC3)
  }

  lemma GroupStep(staff: seq<Staff>, member: Staff)
    ensures Departments(staff + [member]) == Departments(staff) + {member.department}
    ensures forall d :: Members(staff + [member], d)
                     == Members(staff, d) + if member.department == d then [member.id] else []
  {
    assert (staff + [member])[..|staff|] == staff;
  }

  lemma {:induction false} NoMembers(staff: seq<Staff>, d: DepartmentId)
    ensures d in Departments(staff) <==> Members(staff, d) != []
  {
    if staff != [] {
      var rest, last := staff[..|staff| - 1], staff[|staff| - 1];
      assert staff == rest + [last];
      GroupStep(rest, last);
      NoMembers(rest, d);
    }
  }

  method GroupByDepartment(staff: seq<Staff>) returns (members: map<DepartmentId, seq<StaffId>>)
    ensures members == map d | d in Departments(staff) :: Members(staff, d)
  {
    members := map[];
    for i := 0 to |staff|
      invariant members.Keys == Departments(staff[..i])
      invariant forall d :: d in members ==> members[d] == Members(staff[..i], d)
    {
      var member := staff[i];
      assert staff[..i + 1] == staff[..i] + [member];
      GroupStep(staff[..i], member);
      NoMembers(staff[..i], member.department);
      var before := if member.department in members then members[member.department] else [];
      members := members[member.department := before + [member.id]];
    }
    assert staff[..|staff|] == staff;
  }

  method BuildCapacities(facilities: seq<Facility>) returns (capacity: map<FacilityId, int>)
    ensures capacity == Capacities(facilities)
  {
    capacity := map[];
    for i := 0 to |facilities|
      invariant capacity == Capacities(facilities[..i])
    {
      assert facilities[..i + 1][..i] == facilities[..i];
      capacity := capacity[facilities[i].id := facilities[i].headcount];
    }
    assert facilities[..|facilities|] == facilities;
  }

  /** The builder's double loop: one variable, one coefficient and one travel time per pair. */
  method FillPairs(p: Problem, norm: Normalisation)
    returns (missing: Option<Pair>, pairs: seq<Pair>, coeff: map<Pair, int>, seconds: map<Pair, int>)
    requires norm.nTime != 0.0 && norm.nCost != 0.0
    ensures missing.None? <==> CompleteMatrix(p)
    ensures missing.None? ==> pairs == AllPairs(p.availableStaff, p.facilities)
    ensures missing.None? ==> Filled(p, norm, pairs, coeff, seconds)
  {
    missing, pairs, coeff, seconds := None, [], map[], map[];
    for i := 0 to |p.availableStaff|
      invariant missing.None?
      invariant pairs == AllPairs(p.availableStaff[..i], p.facilities)
      invariant Filled(p, norm, pairs, coeff, seconds)
      invariant forall k :: 0 <= k < i ==> CompleteRow(p, p.availableStaff[k])
    {
      missing, pairs, coeff, seconds := FillRow(p, norm, p.availableStaff[i], pairs, coeff, seconds);
      if missing.Some? {
        assert p.availableStaff[i] in p.availableStaff;
        return;
      }
      assert p.availableStaff[..i + 1][..i] == p.availableStaff[..i];
    }
    assert p.availableStaff[..|p.availableStaff|] == p.availableStaff;
  }

  method FillRow(
      p: Problem, norm: Normalisation, member: Staff,
      pairs0: seq<Pair>, coeff0: map<Pair, int>, seconds0: map<Pair, int>)
    returns (missing: Option<Pair>, pairs: seq<Pair>, coeff: map<Pair, int>, seconds: map<Pair, int>)
    requires norm.nTime != 0.0 && norm.nCost != 0.0
    requires Filled(p, norm, pairs0, coeff0, seconds0)
    ensures missing.None? <==> CompleteRow(p, member)
    ensures missing.None? ==> pairs == pairs0 + PairsFor(member, p.facilities)
    ensures missing.None? ==> Filled(p, norm, pairs, coeff, seconds)
  {
    missing, pairs, coeff, seconds := None, pairs0, coeff0, seconds0;
    for j := 0 to |p.facilities|
      invariant missing.None?
      invariant pairs == pairs0 + PairsFor(member, p.facilities[..j])
      invariant Filled(p, norm, pairs, coeff, seconds)
      invariant forall k :: 0 <= k < j ==> (member.id, p.facilities[k].id) in p.travel
    {
      var key := (member.id, p.facilities[j].id);
      if key !in p.travel {
        missing := Some(key);
        assert p.facilities[j] in p.facilities;
        return;
      }
      assert PairsFor(member, p.facilities[..j + 1]) == PairsFor(member, p.facilities[..j]) + [key];
      FilledOneMore(p, norm, pairs, coeff, seconds, key);
      pairs := pairs + [key];
      coeff := coeff[key := PairCoeff(p.parameters.weights, norm, p.travel[key])];
      seconds := seconds[key := p.travel[key].timeSeconds];
    }
    assert p.facilities[..|p.facilities|] == p.facilities;
  }

  ghost predicate Filled(
      p: Problem, norm: Normalisation, pairs: seq<Pair>, coeff: map<Pair, int>, seconds: map<Pair, int>)
    requires norm.nTime != 0.0 && norm.nCost != 0.0
  {
    && (forall pr :: pr in pairs ==> pr in p.travel)
    && coeff == Coefficients(p, norm, pairs)
    && seconds == Seconds(p, pairs)
  }

  lemma FilledOneMore(
      p: Problem, norm: Normalisation, pairs: seq<Pair>, coeff: map<Pair, int>, seconds: map<Pair, int>, key: Pair)
    requires norm.nTime != 0.0 && norm.nCost != 0.0
    requires Filled(p, norm, pairs, coeff, seconds) && key in p.travel
    ensures Filled(p, norm, pairs + [key],
                   coeff[key := PairCoeff(p.parameters.weights, norm, p.travel[key])],
                   seconds[key := p.travel[key].timeSeconds])
  {
  }

  /** `build_model`: refuses exactly the problems whose travel matrix is incomplete. */
  method BuildModel(p: Problem, demoteC3: bool, includeC3: bool) returns (r: Result<MilpModel, ModelError>)
    ensures r.Ok? <==> CompleteMatrix(p)
    ensures r.Ok? ==> r.value == ModelOf(p, demoteC3, includeC3)
  {
    hide Coefficients, Seconds, AllPairs, AllC3, Departments, Members, Capacities, NormalisationFrom;
    var norm := ComputeNormalisation(p);
    NormalisationUnique(p, norm, NormOf(p));
    NormalisationPositive(p, norm);
    var missing, pairs, coeff, seconds := FillPairs(p, norm);
    if missing.Some? {
      return Err(MissingTravelEntry(missing.value));
    }
    var capacity := BuildCapacities(p.facilities);
    var members := GroupByDepartment(p.availableStaff);
    var w := p.parameters.weights;
    r := Ok(MilpModel(p.event, StaffIds(p.availableStaff), FacilityIds(p.facilities), pairs, coeff,
                      TmaxCoeff(w, norm), seconds,
      norm.maxTravelSeconds, capacity, if includeC3 then AllC3(p.facilities, p.availableStaff) else [], members,
      p.parameters.departmentCap, PinnedSet(p.pins), BigM(w, |pairs|), demoteC3));
  }
}
