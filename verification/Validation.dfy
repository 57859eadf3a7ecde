/** The checker: every hard-constraint violation of a given assignment list, either as a
    complete assignment or as a set of pins. */
module Validation {
  import opened Domain
  import opened Counting

  /** The dictionary {s.id: s}: a later entry with the same id wins. */
  function Directory(staff: seq<Staff>): (d: map<StaffId, Staff>)
    ensures forall k :: k in d ==> d[k] in staff && d[k].id == k
    ensures forall s :: s in staff ==> s.id in d
  {
    if staff == [] then map[]
    else
      var last := staff[|staff| - 1];
      assert staff == staff[..|staff| - 1] + [last];
      Directory(staff[..|staff| - 1])[last.id := last]
  }

  // What each constraint counts.

  function OfStaff(s: StaffId): Pair -> bool { (pr: Pair) => pr.0 == s }

  function AtFacility(f: FacilityId): Pair -> bool { (pr: Pair) => pr.1 == f }

  function InDepartment(dir: map<StaffId, Staff>, d: DepartmentId): Pair -> bool {
    (pr: Pair) => pr.0 in dir && dir[pr.0].department == d
  }

  function Fills(dir: map<StaffId, Staff>, f: FacilityId, r: Requirement): Pair -> bool {
    (pr: Pair) => pr.1 == f && pr.0 in dir && IsEligible(dir[pr.0], r)
  }

  // The violations each constraint contributes, in the order they are reported.

  function FlagMembership(dir: map<StaffId, Staff>, fids: seq<FacilityId>, ps: seq<Pair>): seq<Violation> {
    if ps == [] then []
    else
      var last := ps[|ps| - 1];
      FlagMembership(dir, fids, ps[..|ps| - 1])
      + (if last.0 in dir then [] else [Violation(C4, StaffNotAvailable, None, Some(last.0))])
      + (if last.1 in fids then [] else [Violation(C1, FacilityNotInEvent, Some(last.1), None)])
  }

  function StaffOf(ps: seq<Pair>): (r: seq<StaffId>)
    ensures |r| == |ps|
    ensures forall i :: 0 <= i < |r| ==> r[i] == ps[i].0
  {
    seq(|ps|, i requires 0 <= i < |ps| => ps[i].0)
  }

  function FlagStaff(keys: seq<StaffId>, ps: seq<Pair>): seq<Violation> {
    if keys == [] then []
    else
      var last := keys[|keys| - 1];
      FlagStaff(keys[..|keys| - 1], ps)
      + if CountIf(ps, OfStaff(last)) > 1
        then [Violation(C2, StaffAtSeveralFacilities, None, Some(last))] else []
  }

  function HeadcountFlag(f: Facility, ps: seq<Pair>, exact: bool): seq<Violation> {
    var count := CountIf(ps, AtFacility(f.id));
    if count > f.headcount then [Violation(C1, AboveHeadcount(count, f.headcount), Some(f.id), None)]
    else if exact && count < f.headcount then [Violation(C1, BelowHeadcount(count, f.headcount), Some(f.id), None)]
    else []
  }

  function FlagHeadcounts(facilities: seq<Facility>, ps: seq<Pair>, exact: bool): seq<Violation> {
    if facilities == [] then []
    else
      FlagHeadcounts(facilities[..|facilities| - 1], ps, exact)
      + HeadcountFlag(facilities[|facilities| - 1], ps, exact)
  }

  function DepartmentsOf(dir: map<StaffId, Staff>, ps: seq<Pair>): (r: seq<DepartmentId>)
    ensures forall pr :: pr in ps && pr.0 in dir ==> dir[pr.0].department in r
  {
    if ps == [] then []
    else
      var last := ps[|ps| - 1];
      assert ps == ps[..|ps| - 1] + [last];
      DepartmentsOf(dir, ps[..|ps| - 1]) + if last.0 in dir then [dir[last.0].department] else []
  }

  function FlagDepartments(dir: map<StaffId, Staff>, cap: int, keys: seq<DepartmentId>, ps: seq<Pair>): seq<Violation> {
    if keys == [] then []
    else
      var count := CountIf(ps, InDepartment(dir, keys[|keys| - 1]));
      FlagDepartments(dir, cap, keys[..|keys| - 1], ps)
      + if count > cap then [Violation(C5, DepartmentOverCap(count, cap), None, None)] else []
  }

  function FlagRequirements(
      dir: map<StaffId, Staff>, f: FacilityId, reqs: seq<QualificationRequirement>, ps: seq<Pair>): seq<Violation> {
    if reqs == [] then []
    else
      var last := reqs[|reqs| - 1];
      var matching := CountIf(ps, Fills(dir, f, last.requirement));
      FlagRequirements(dir, f, reqs[..|reqs| - 1], ps)
      + if matching < last.count
        then [Violation(C3, RequirementShort(matching, last.count, last.requirement), Some(f), None)] else []
  }

  function FlagQualifications(dir: map<StaffId, Staff>, facilities: seq<Facility>, ps: seq<Pair>): seq<Violation> {
    if facilities == [] then []
    else
      var last := facilities[|facilities| - 1];
      FlagQualifications(dir, facilities[..|facilities| - 1], ps)
      + FlagRequirements(dir, last.id, last.requirements, ps)
  }

  function CheckPairs(p: Problem, ps: seq<Pair>, exact: bool, qualifications: bool): seq<Violation> {
    var dir := Directory(p.availableStaff);
    FlagMembership(dir, FacilityIds(p.facilities), ps)
    + FlagStaff(Uniq(StaffOf(ps)), ps)
    + FlagHeadcounts(p.facilities, ps, exact)
    + FlagDepartments(dir, p.parameters.departmentCap, Uniq(DepartmentsOf(dir, ps)), ps)
    + if qualifications then FlagQualifications(dir, p.facilities, ps) else []
  }

  /** The checker's whole answer: C4 and foreign facilities, C2, C1, C5, then C3. */
  function Check(p: Problem, assignments: seq<Assignment>, exact: bool, qualifications: bool): seq<Violation> {
    CheckPairs(p, PairsOf(assignments), exact, qualifications)
  }

  function Validate(p: Problem, assignments: seq<Assignment>): seq<Violation> {
    Check(p, assignments, true, true)
  }

  /** `check_assignments`: one pass per constraint, appending to one list. */
  method CheckAssignments(p: Problem, assignments: seq<Assignment>, exact: bool, qualifications: bool)
    returns (violations: seq<Violation>)
    ensures violations == Check(p, assignments, exact, qualifications)
  {
    var dir := Directory(p.availableStaff);
    var ps := PairsOf(assignments);
    violations := CheckMembership(dir, FacilityIds(p.facilities), ps);
    var more := CheckStaff(Uniq(StaffOf(ps)), ps);
    violations := violations + more;
    more := CheckHeadcounts(p.facilities, ps, exact);
    violations := violations + more;
    more := CheckDepartments(dir, p.parameters.departmentCap, Uniq(DepartmentsOf(dir, ps)), ps);
    violations := violations + more;
    if qualifications {
      more := CheckQualifications(dir, p.facilities, ps);
      violations := violations + more;
    }
  }

  method CheckMembership(dir: map<StaffId, Staff>, fids: seq<FacilityId>, ps: seq<Pair>)
    returns (violations: seq<Violation>)
    ensures violations == FlagMembership(dir, fids, ps)
  {
    violations := [];
    for i := 0 to |ps|
      invariant violations == FlagMembership(dir, fids, ps[..i])
    {
      assert ps[..i + 1][..i] == ps[..i];
      if ps[i].0 !in dir {
        violations := violations + [Violation(C4, StaffNotAvailable, None, Some(ps[i].0))];
      }
      if ps[i].1 !in fids {
        violations := violations + [Violation(C1, FacilityNotInEvent, Some(ps[i].1), None)];
      }
    }
    assert ps[..|ps|] == ps;
  }

  method CheckStaff(keys: seq<StaffId>, ps: seq<Pair>) returns (violations: seq<Violation>)
    ensures violations == FlagStaff(keys, ps)
  {
    violations := [];
    for i := 0 to |keys|
      invariant violations == FlagStaff(keys[..i], ps)
    {
      assert keys[..i + 1][..i] == keys[..i];
      if CountIf(ps, OfStaff(keys[i])) > 1 {
        violations := violations + [Violation(C2, StaffAtSeveralFacilities, None, Some(keys[i]))];
      }
    }
    assert keys[..|keys|] == keys;
  }

  method CheckHeadcounts(facilities: seq<Facility>, ps: seq<Pair>, exact: bool) returns (violations: seq<Violation>)
    ensures violations == FlagHeadcounts(facilities, ps, exact)
  {
    violations := [];
    for i := 0 to |facilities|
      invariant violations == FlagHeadcounts(facilities[..i], ps, exact)
    {
      var f := facilities[i];
      var count := CountIf(ps, AtFacility(f.id));
      assert facilities[..i + 1][..i] == facilities[..i];
      if count > f.headcount {
        violations := violations + [Violation(C1, AboveHeadcount(count, f.headcount), Some(f.id), None)];
      } else if exact && count < f.headcount {
        violations := violations + [Violation(C1, BelowHeadcount(count, f.headcount), Some(f.id), None)];
      }
    }
    assert facilities[..|facilities|] == facilities;
  }

  method CheckDepartments(dir: map<StaffId, Staff>, cap: int, keys: seq<DepartmentId>, ps: seq<Pair>)
    returns (violations: seq<Violation>)
    ensures violations == FlagDepartments(dir, cap, keys, ps)
  {
    violations := [];
    for i := 0 to |keys|
      invariant violations == FlagDepartments(dir, cap, keys[..i], ps)
    {
      var count := CountIf(ps, InDepartment(dir, keys[i]));
      assert keys[..i + 1][..i] == keys[..i];
      if count > cap {
        violations := violations + [Violation(C5, DepartmentOverCap(count, cap), None, None)];
      }
    }
    assert keys[..|keys|] == keys;
  }

  method CheckQualifications(dir: map<StaffId, Staff>, facilities: seq<Facility>, ps: seq<Pair>)
    returns (violations: seq<Violation>)
    ensures violations == FlagQualifications(dir, facilities, ps)
  {
    hide CountIf, Fills;
    violations := [];
    for i := 0 to |facilities|
      invariant violations == FlagQualifications(dir, facilities[..i], ps)
    {
      var f := facilities[i];
      ghost var done := violations;
      for k := 0 to |f.requirements|
        invariant violations == done + FlagRequirements(dir, f.id, f.requirements[..k], ps)
      {
        var req := f.requirements[k];
        var matching := CountIf(ps, Fills(dir, f.id, req.requirement));
        assert f.requirements[..k + 1][..k] == f.requirements[..k];
        if matching < req.count {
          violations := violations
          + [Violation(C3, RequirementShort(matching, req.count, req.requirement), Some(f.id), None)];
        }
      }
      assert f.requirements[..|f.requirements|] == f.requirements;
      assert facilities[..i + 1][..i] == facilities[..i];
    }
    assert facilities[..|facilities|] == facilities;
  }

  // What an empty answer means.

  ghost predicate MembersOnly(dir: map<StaffId, Staff>, fids: seq<FacilityId>, ps: seq<Pair>) {
    forall pr :: pr in ps ==> pr.0 in dir && pr.1 in fids
  }

  ghost predicate OnePlaceEach(ps: seq<Pair>) {
    forall s: StaffId :: CountIf(ps, OfStaff(s)) <= 1
  }

  ghost predicate HeadcountOk(f: Facility, ps: seq<Pair>, exact: bool) {
    var count := CountIf(ps, AtFacility(f.id));
    count <= f.headcount && (exact ==> count == f.headcount)
  }

  ghost predicate RequirementMet(dir: map<StaffId, Staff>, f: FacilityId, q: QualificationRequirement, ps: seq<Pair>) {
    CountIf(ps, Fills(dir, f, q.requirement)) >= q.count
  }

  ghost predicate RequirementsMet(dir: map<StaffId, Staff>, facilities: seq<Facility>, ps: seq<Pair>) {
    forall f, q :: f in facilities && q in f.requirements ==> RequirementMet(dir, f.id, q, ps)
  }

  ghost predicate WithinCap(dir: map<StaffId, Staff>, cap: int, ps: seq<Pair>) {
    forall d: DepartmentId :: CountIf(ps, InDepartment(dir, d)) <= cap
  }

  ghost predicate Clean(p: Problem, ps: seq<Pair>, exact: bool, qualifications: bool) {
    var dir := Directory(p.availableStaff);
    && MembersOnly(dir, FacilityIds(p.facilities), ps)
    && OnePlaceEach(ps)
    && (forall f :: f in p.facilities ==> HeadcountOk(f, ps, exact))
    && WithinCap(dir, p.parameters.departmentCap, ps)
    && (qualifications ==> RequirementsMet(dir, p.facilities, ps))
  }

  lemma {:induction false} MembershipFlags(dir: map<StaffId, Staff>, fids: seq<FacilityId>, ps: seq<Pair>)
    ensures FlagMembership(dir, fids, ps) == [] <==> MembersOnly(dir, fids, ps)
  {
    if ps != [] {
      assert ps == ps[..|ps| - 1] + [ps[|ps| - 1]];
      MembershipFlags(dir, fids, ps[..|ps| - 1]);
    }
  }

  lemma {:induction false} StaffFlags(keys: seq<StaffId>, ps: seq<Pair>)
    ensures FlagStaff(keys, ps) == [] <==> forall s :: s in keys ==> CountIf(ps, OfStaff(s)) <= 1
  {
    if keys != [] {
      assert keys == keys[..|keys| - 1] + [keys[|keys| - 1]];
      StaffFlags(keys[..|keys| - 1], ps);
    }
  }

  lemma {:induction false} HeadcountFlags(facilities: seq<Facility>, ps: seq<Pair>, exact: bool)
    ensures FlagHeadcounts(facilities, ps, exact) == [] <==>
            forall f :: f in facilities ==> HeadcountOk(f, ps, exact)
  {
    if facilities != [] {
      var rest, last := facilities[..|facilities| - 1], facilities[|facilities| - 1];
      assert facilities == rest + [last];
      HeadcountFlags(rest, ps, exact);
      assert HeadcountFlag(last, ps, exact) == [] <==> HeadcountOk(last, ps, exact);
    }
  }

  lemma {:induction false} DepartmentFlags(dir: map<StaffId, Staff>, cap: int, keys: seq<DepartmentId>, ps: seq<Pair>)
    ensures FlagDepartments(dir, cap, keys, ps) == [] <==>
            forall d :: d in keys ==> CountIf(ps, InDepartment(dir, d)) <= cap
  {
    if keys != [] {
      assert keys == keys[..|keys| - 1] + [keys[|keys| - 1]];
      DepartmentFlags(dir, cap, keys[..|keys| - 1], ps);
    }
  }

  lemma {:induction false} RequirementFlags(
      dir: map<StaffId, Staff>, f: FacilityId, reqs: seq<QualificationRequirement>, ps: seq<Pair>)
    ensures FlagRequirements(dir, f, reqs, ps) == [] <==>
            forall q :: q in reqs ==> RequirementMet(dir, f, q, ps)
  {
    if reqs != [] {
      var rest, last := reqs[..|reqs| - 1], reqs[|reqs| - 1];
      assert reqs == rest + [last];
      RequirementFlags(dir, f, rest, ps);
      assert RequirementMet(dir, f, last, ps) <==> CountIf(ps, Fills(dir, f, last.requirement)) >= last.count;
    }
  }

  lemma {:induction false} QualificationFlags(dir: map<StaffId, Staff>, facilities: seq<Facility>, ps: seq<Pair>)
    ensures FlagQualifications(dir, facilities, ps) == [] <==> RequirementsMet(dir, facilities, ps)
  {
    if facilities != [] {
      var rest, last := facilities[..|facilities| - 1], facilities[|facilities| - 1];
      assert facilities == rest + [last];
      QualificationFlags(dir, rest, ps);
      RequirementFlags(dir, last.id, last.requirements, ps);
    }
  }

  lemma StaffFlagsAll(ps: seq<Pair>)
    ensures FlagStaff(Uniq(StaffOf(ps)), ps) == [] <==> OnePlaceEach(ps)
  {
    StaffFlags(Uniq(StaffOf(ps)), ps);
    forall s: StaffId | s !in StaffOf(ps)
      ensures CountIf(ps, OfStaff(s)) <= 1
    {
      CountPositive(ps, OfStaff(s));
    }
  }

  lemma DepartmentFlagsAll(dir: map<StaffId, Staff>, cap: int, ps: seq<Pair>)
    requires cap >= 0
    ensures FlagDepartments(dir, cap, Uniq(DepartmentsOf(dir, ps)), ps) == [] <==> WithinCap(dir, cap, ps)
  {
    DepartmentFlags(dir, cap, Uniq(DepartmentsOf(dir, ps)), ps);
    forall d: DepartmentId | d !in DepartmentsOf(dir, ps)
      ensures CountIf(ps, InDepartment(dir, d)) <= cap
    {
      CountPositive(ps, InDepartment(dir, d));
    }
  }

  /** An empty answer is exactly the conjunction of the five constraints. */
  lemma CheckIsClean(p: Problem, ps: seq<Pair>, exact: bool, qualifications: bool)
    requires p.parameters.Valid()
    ensures CheckPairs(p, ps, exact, qualifications) == [] <==> Clean(p, ps, exact, qualifications)
  {
    var dir := Directory(p.availableStaff);
    MembershipFlags(dir, FacilityIds(p.facilities), ps);
    StaffFlagsAll(ps);
    HeadcountFlags(p.facilities, ps, exact);
    DepartmentFlagsAll(dir, p.parameters.departmentCap, ps);
    QualificationFlags(dir, p.facilities, ps);
  }

  /** The pin check's conditions only shrink under removing assignments. */
  lemma CleanMonotone(p: Problem, ps: seq<Pair>, qs: seq<Pair>)
    requires multiset(ps) <= multiset(qs)
    requires Clean(p, qs, true, true)
    ensures Clean(p, ps, false, false)
  {
    var dir := Directory(p.availableStaff);
    forall pr | pr in ps
      ensures pr in qs
    {
      assert pr in multiset(ps);
      assert pr in multiset(qs);
    }
    forall s: StaffId ensures CountIf(ps, OfStaff(s)) <= 1 {
      CountMonotone(ps, qs, OfStaff(s));
    }
    forall f | f in p.facilities ensures HeadcountOk(f, ps, false) {
      CountMonotone(ps, qs, AtFacility(f.id));
      assert HeadcountOk(f, qs, true);
    }
    forall d: DepartmentId ensures CountIf(ps, InDepartment(dir, d)) <= p.parameters.departmentCap {
      CountMonotone(ps, qs, InDepartment(dir, d));
    }
  }

  /** Rejected pins are hopeless: no complete assignment that contains them, counted with
      repetition, passes the checker. */
  lemma PinSoundness(p: Problem, pins: seq<Assignment>, complete: seq<Assignment>)
    requires p.parameters.Valid()
    requires Check(p, pins, false, false) != []
    requires multiset(PairsOf(pins)) <= multiset(PairsOf(complete))
    ensures Validate(p, complete) != []
  {
    CheckIsClean(p, PairsOf(complete), true, true);
    CheckIsClean(p, PairsOf(pins), false, false);
    if Validate(p, complete) == [] {
      CleanMonotone(p, PairsOf(pins), PairsOf(complete));
    }
  }
}
