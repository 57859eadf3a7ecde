/** The two readings of C1..C5 - the integer program handed to the solver and the checker
    applied to a finished assignment - are the same predicate. */
module Agreement {
  import opened Domain
  import opened Counting
  import opened Scaling
  import opened Validation
  import opened Model
  import opened CpSat

  // ----- Directory and capacity lookups when ids are distinct -----

  lemma {:induction false} DirectoryLookup(staff: seq<Staff>, s: Staff)
    requires DistinctStaff(staff) && s in staff
    ensures Directory(staff)[s.id] == s
  {
    var k :| 0 <= k < |staff| && staff[k] == s;
    var d := Directory(staff)[s.id];
    var j :| 0 <= j < |staff| && staff[j] == d;
    assert staff[j].id == staff[k].id;
  }

  lemma {:induction false} CapacityLookup(facilities: seq<Facility>, f: Facility)
    requires DistinctFacilities(facilities) && f in facilities
    ensures f.id in Capacities(facilities) && Capacities(facilities)[f.id] == f.headcount
  {
    var rest, last := facilities[..|facilities| - 1], facilities[|facilities| - 1];
    assert facilities == rest + [last];
    if f != last {
      assert f in rest;
      CapacityLookup(rest, f);
      assert f.id != last.id;
    }
  }

  lemma {:induction false} MembersLookup(staff: seq<Staff>, d: DepartmentId, s: StaffId)
    ensures s in Members(staff, d) <==> exists x :: x in staff && x.id == s && x.department == d
  {
    if staff != [] {
      var rest, last := staff[..|staff| - 1], staff[|staff| - 1];
      assert staff == rest + [last];
      MembersLookup(rest, d, s);
      if last.department == d && last.id == s {
        assert last in staff;
      }
    }
  }

  lemma {:induction false} C3Lookup(facilities: seq<Facility>, staff: seq<Staff>, r: C3Requirement)
    ensures r in AllC3(facilities, staff) <==>
            exists f, q :: f in facilities && q in f.requirements
                           && r == C3Requirement(f.id, EligibleIds(staff, q.requirement), q.count)
  {
    if facilities != [] {
      var rest, last := facilities[..|facilities| - 1], facilities[|facilities| - 1];
      assert facilities == rest + [last];
      C3Lookup(rest, staff, r);
      assert r in C3For(last.id, last.requirements, staff) <==>
             exists q :: q in last.requirements
                          && r == C3Requirement(last.id, EligibleIds(staff, q.requirement), q.count);
    }
  }

  lemma ModelWellFormed(p: Problem, demoteC3: bool, includeC3: bool)
    requires WellFormed(p)
    ensures WellFormedModel(ModelOf(p, demoteC3, includeC3))
  {
    AllPairsNoDup(p.availableStaff, p.facilities);
    forall f | f in p.facilities
      ensures f.id in Capacities(p.facilities)
    {
      CapacityLookup(p.facilities, f);
    }
  }

  // ----- The constraints of a problem, on sets of pairs -----

  ghost function PairSet(p: Problem): set<Pair> {
    Elements(AllPairs(p.availableStaff, p.facilities))
  }

  ghost predicate ExactAt(p: Problem, S: set<Pair>, f: Facility) {
    |Where(S, AtFacility(f.id))| == f.headcount
  }

  ghost predicate SetC1(p: Problem, S: set<Pair>) {
    forall f :: f in p.facilities ==> ExactAt(p, S, f)
  }

  ghost predicate SetC2(S: set<Pair>) {
    forall s: StaffId :: |Where(S, OfStaff(s))| <= 1
  }

  ghost predicate SetC5(p: Problem, S: set<Pair>) {
    forall d: DepartmentId :: |Where(S, InDepartment(Directory(p.availableStaff), d))| <= p.parameters.departmentCap
  }

  ghost predicate SetFilled(p: Problem, S: set<Pair>, f: FacilityId, q: QualificationRequirement) {
    |Where(S, Fills(Directory(p.availableStaff), f, q.requirement))| >= q.count
  }

  ghost predicate SetC3(p: Problem, S: set<Pair>) {
    forall f, q :: f in p.facilities && q in f.requirements ==> SetFilled(p, S, f.id, q)
  }

  /** C1, C2, C4 and C5 of a complete assignment. */
  ghost predicate SetHard(p: Problem, S: set<Pair>) {
    S <= PairSet(p) && SetC1(p, S) && SetC2(S) && SetC5(p, S)
  }

  ghost predicate SetPins(p: Problem, S: set<Pair>) {
    forall a :: a in p.pins && a.Pair() in PairSet(p) ==> a.Pair() in S
  }

  lemma C1Agrees(p: Problem, m: MilpModel, S: set<Pair>)
    requires WellFormed(p) && WellFormedModel(m)
    requires m.facilityIds == FacilityIds(p.facilities) && m.capacity == Capacities(p.facilities)
    ensures HeadcountsExact(m, S) <==> SetC1(p, S)
  {
    forall f | f in p.facilities
      ensures f.id in m.facilityIds && m.capacity[f.id] == f.headcount
    {
      var i :| 0 <= i < |p.facilities| && p.facilities[i] == f;
      assert m.facilityIds[i] == f.id;
      CapacityLookup(p.facilities, f);
    }
    forall id | id in m.facilityIds
      ensures exists f :: f in p.facilities && f.id == id
    {
      var i :| 0 <= i < |m.facilityIds| && m.facilityIds[i] == id;
      assert p.facilities[i] in p.facilities;
    }
    if SetC1(p, S) {
      forall id | id in m.facilityIds
        ensures |Where(S, AtFacility(id))| == m.capacity[id]
      {
        var f :| f in p.facilities && f.id == id;
        assert ExactAt(p, S, f);
      }
    }
  }

  lemma PairMember(p: Problem, pr: Pair) returns (s: Staff, f: Facility)
    requires pr in PairSet(p)
    ensures s in p.availableStaff && f in p.facilities && pr == (s.id, f.id)
  {
    AllPairsMembers(p.availableStaff, p.facilities, pr);
    s, f :| s in p.availableStaff && f in p.facilities && pr == (s.id, f.id);
  }

  lemma C2Agrees(p: Problem, m: MilpModel, S: set<Pair>)
    requires S <= PairSet(p)
    requires m.staffIds == StaffIds(p.availableStaff)
    ensures AtMostOnePlace(m, S) <==> SetC2(S)
  {
    forall s: StaffId | s !in m.staffIds
      ensures Where(S, OfStaff(s)) == {}
    {
      forall pr | pr in S ensures pr.0 != s {
        var x, _ := PairMember(p, pr);
        var i :| 0 <= i < |p.availableStaff| && p.availableStaff[i] == x;
        assert m.staffIds[i] == x.id;
      }
    }
  }

  lemma GroupAgrees(p: Problem, S: set<Pair>, d: DepartmentId)
    requires DistinctStaff(p.availableStaff) && S <= PairSet(p)
    ensures Where(S, InGroup(Members(p.availableStaff, d))) == Where(S, InDepartment(Directory(p.availableStaff), d))
  {
    forall pr | pr in S
      ensures InGroup(Members(p.availableStaff, d))(pr) <==> InDepartment(Directory(p.availableStaff), d)(pr)
    {
      var s, _ := PairMember(p, pr);
      DirectoryLookup(p.availableStaff, s);
      MembersLookup(p.availableStaff, d, pr.0);
      if x :| x in p.availableStaff && x.id == pr.0 && x.department == d {
        DirectoryLookup(p.availableStaff, x);
      }
    }
  }

  lemma C5Agrees(p: Problem, m: MilpModel, S: set<Pair>)
    requires WellFormed(p) && S <= PairSet(p)
    requires m.departmentMembers == map d | d in Departments(p.availableStaff) :: Members(p.availableStaff, d)
    requires m.departmentCap == p.parameters.departmentCap
    ensures CapsKept(m, S) <==> SetC5(p, S)
  {
    forall d: DepartmentId
      ensures Where(S, InGroup(Members(p.availableStaff, d))) == Where(S, InDepartment(Directory(p.availableStaff), d))
      ensures d !in Departments(p.availableStaff) ==> Where(S, InDepartment(Directory(p.availableStaff), d)) == {}
    {
      GroupAgrees(p, S, d);
      NoMembers(p.availableStaff, d);
    }
    if CapsKept(m, S) {
      forall d: DepartmentId
        ensures |Where(S, InDepartment(Directory(p.availableStaff), d))| <= p.parameters.departmentCap
      {
        if d in Departments(p.availableStaff) {
          assert d in m.departmentMembers;
        }
      }
    }
  }

  lemma FillsAgrees(p: Problem, S: set<Pair>, f: FacilityId, q: QualificationRequirement)
    requires DistinctStaff(p.availableStaff)
    ensures Where(S, Meets(C3Requirement(f, EligibleIds(p.availableStaff, q.requirement), q.count)))
         == Where(S, Fills(Directory(p.availableStaff), f, q.requirement))
  {
    forall pr | pr in S
      ensures pr.0 in EligibleIds(p.availableStaff, q.requirement) <==>
              pr.0 in Directory(p.availableStaff) && IsEligible(Directory(p.availableStaff)[pr.0], q.requirement)
    {
      if s :| s in p.availableStaff && IsEligible(s, q.requirement) && s.id == pr.0 {
        DirectoryLookup(p.availableStaff, s);
      }
    }
  }

  lemma C3Agrees(p: Problem, m: MilpModel, S: set<Pair>)
    requires WellFormed(p)
    requires m.c3 == AllC3(p.facilities, p.availableStaff)
    ensures C3Met(m, S) <==> SetC3(p, S)
  {
    if C3Met(m, S) {
      forall f, q | f in p.facilities && q in f.requirements
        ensures SetFilled(p, S, f.id, q)
      {
        C3Lookup(p.facilities, p.availableStaff,
                 C3Requirement(f.id, EligibleIds(p.availableStaff, q.requirement), q.count));
        FillsAgrees(p, S, f.id, q);
      }
    }
    if SetC3(p, S) {
      forall r | r in m.c3
        ensures |Where(S, Meets(r))| >= r.count
      {
        C3Lookup(p.facilities, p.availableStaff, r);
        var f, q :| f in p.facilities && q in f.requirements
                    && r == C3Requirement(f.id, EligibleIds(p.availableStaff, q.requirement), q.count);
        FillsAgrees(p, S, f.id, q);
        assert SetFilled(p, S, f.id, q);
      }
    }
  }

  lemma PinsAgree(p: Problem, demoteC3: bool, includeC3: bool, S: set<Pair>)
    requires WellFormed(p)
    ensures PinsKept(ModelOf(p, demoteC3, includeC3), S) <==> SetPins(p, S)
  {
    var m := ModelOf(p, demoteC3, includeC3);
    assert forall a :: a in p.pins ==> a.Pair() in m.pinned;
    assert forall pr :: pr in m.pairs <==> pr in PairSet(p);
  }

  /** Whatever is done about C3, the rest of the program is C1, C2, C4, C5 and the pins. */
  lemma CoreAgrees(p: Problem, demoteC3: bool, includeC3: bool, S: set<Pair>)
    requires WellFormed(p) && S <= PairSet(p)
    ensures WellFormedModel(ModelOf(p, demoteC3, includeC3))
    ensures Core(ModelOf(p, demoteC3, includeC3), S) <==> SetHard(p, S) && SetPins(p, S)
  {
    var m := ModelOf(p, demoteC3, includeC3);
    ModelWellFormed(p, demoteC3, includeC3);
    PinsAgree(p, demoteC3, includeC3, S);
    PartsAgree(p, m, S);
  }

  lemma PartsAgree(p: Problem, m: MilpModel, S: set<Pair>)
    requires WellFormed(p) && S <= PairSet(p) && WellFormedModel(m)
    requires m.facilityIds == FacilityIds(p.facilities) && m.capacity == Capacities(p.facilities)
    requires m.staffIds == StaffIds(p.availableStaff)
    requires m.departmentMembers == map d | d in Departments(p.availableStaff) :: Members(p.availableStaff, d)
    requires m.departmentCap == p.parameters.departmentCap
    ensures HeadcountsExact(m, S) && AtMostOnePlace(m, S) && CapsKept(m, S) <==> SetHard(p, S)
  {
    C1Agrees(p, m, S);
    C2Agrees(p, m, S);
    C5Agrees(p, m, S);
  }

  // ----- Valuations from sets -----

  ghost function Indicator(S: set<Pair>, slack: int -> int, time: int): Valuation {
    (x: Var) => match x
      case X(pr) => if pr in S then 1 else 0
      case Slack(i) => slack(i)
      case TMax => time
  }

  lemma IndicatorChooses(p: Problem, S: set<Pair>, slack: int -> int, time: int)
    requires S <= PairSet(p)
    ensures Chosen(AllPairs(p.availableStaff, p.facilities), Indicator(S, slack, time)) == S
  {
  }

  lemma TimesWithinMax(p: Problem)
    requires WellFormed(p)
    ensures forall pr :: pr in PairSet(p) ==> pr in p.travel && p.travel[pr].timeSeconds <= NormOf(p).maxTravelSeconds
  {
    PairsHaveTravel(p);
    var norm := NormOf(p);
    var t, c :| IsMaxTime(p.travel, t) && IsMaxCost(p.travel, c)
                && norm == NormalisationFrom(TotalRequired(p.facilities), t, c);
  }

  /** A set that meets the core constraints is the choice of some solution of the full
      program exactly when it meets C3 too. */
  lemma FullProgramOnSets(p: Problem, S: set<Pair>)
    requires WellFormed(p)
    ensures WellFormedModel(ModelOf(p, false, true))
    ensures (exists v: Valuation ::
              Program(ModelOf(p, false, true), v) && Chosen(AllPairs(p.availableStaff, p.facilities), v) == S)
            <==> SetHard(p, S) && SetPins(p, S) && SetC3(p, S)
  {
    var m := ModelOf(p, false, true);
    ModelWellFormed(p, false, true);
    if v: Valuation :| Program(m, v) && Chosen(m.pairs, v) == S {
      CoreAgrees(p, false, true, S);
      C3Agrees(p, m, S);
    }
    if SetHard(p, S) && SetPins(p, S) && SetC3(p, S) {
      CoreAgrees(p, false, true, S);
      C3Agrees(p, m, S);
      var v := Indicator(S, i => 0, m.maxTravelSeconds);
      IndicatorChooses(p, S, i => 0, m.maxTravelSeconds);
      LongestCovers(p, S, v);
      assert Chosen(m.pairs, v) == S && IsBool(m, v) && !m.demoteC3;
      hide *;
      ProgramFromParts(m, S, v);
    }
  }

  lemma LongestCovers(p: Problem, S: set<Pair>, v: Valuation)
    requires WellFormed(p) && WellFormedModel(ModelOf(p, false, true))
    requires v(TMax) == NormOf(p).maxTravelSeconds
    ensures TimesCovered(ModelOf(p, false, true), S, v)
  {
    TimesWithinMax(p);
  }

  // ----- The checker, on sets -----

  lemma {:induction false} OnePlaceNoDup(ps: seq<Pair>)
    requires OnePlaceEach(ps)
    ensures NoDup(ps)
  {
    if ps != [] {
      var rest, last := ps[..|ps| - 1], ps[|ps| - 1];
      assert ps == rest + [last];
      forall s: StaffId ensures CountIf(rest, OfStaff(s)) <= 1 {
        assert CountIf(ps, OfStaff(s)) <= 1;
      }
      OnePlaceNoDup(rest);
      assert CountIf(ps, OfStaff(last.0)) == CountIf(rest, OfStaff(last.0)) + 1;
      CountPositive(rest, OfStaff(last.0));
      forall i | 0 <= i < |rest| ensures ps[i] != last {
        assert rest[i] in rest;
        assert !OfStaff(last.0)(rest[i]);
      }
    }
  }

  lemma FacilityIdMember(facilities: seq<Facility>, id: FacilityId)
    ensures id in FacilityIds(facilities) <==> exists f :: f in facilities && f.id == id
  {
    if f :| f in facilities && f.id == id {
      var i :| 0 <= i < |facilities| && facilities[i] == f;
      assert FacilityIds(facilities)[i] == id;
    }
    if id in FacilityIds(facilities) {
      var i :| 0 <= i < |facilities| && FacilityIds(facilities)[i] == id;
      assert facilities[i] in facilities;
    }
  }

  lemma MemberIsVariable(p: Problem, pr: Pair)
    ensures pr in PairSet(p) <==> pr.0 in Directory(p.availableStaff) && pr.1 in FacilityIds(p.facilities)
  {
    AllPairsMembers(p.availableStaff, p.facilities, pr);
    FacilityIdMember(p.facilities, pr.1);
    if pr.0 in Directory(p.availableStaff) && pr.1 in FacilityIds(p.facilities) {
      var s := Directory(p.availableStaff)[pr.0];
      var f :| f in p.facilities && f.id == pr.1;
      assert pr == (s.id, f.id);
    }
  }

  lemma MembersAreVariables(p: Problem, ps: seq<Pair>)
    ensures MembersOnly(Directory(p.availableStaff), FacilityIds(p.facilities), ps) <==> Elements(ps) <= PairSet(p)
  {
    forall pr: Pair
      ensures pr in PairSet(p) <==> pr.0 in Directory(p.availableStaff) && pr.1 in FacilityIds(p.facilities)
    {
      MemberIsVariable(p, pr);
    }
    assert forall pr :: pr in ps <==> pr in Elements(ps);
  }

  lemma CleanOnSets(p: Problem, ps: seq<Pair>, qualifications: bool)
    requires NoDup(ps)
    ensures Clean(p, ps, true, qualifications) <==>
              SetHard(p, Elements(ps)) && (qualifications ==> SetC3(p, Elements(ps)))
  {
    var S, dir := Elements(ps), Directory(p.availableStaff);
    MembersAreVariables(p, ps);
    forall s: StaffId ensures CountIf(ps, OfStaff(s)) == |Where(S, OfStaff(s))| {
      CountIsSize(ps, OfStaff(s));
    }
    HeadcountsOnSets(p, ps);
    forall d: DepartmentId ensures CountIf(ps, InDepartment(dir, d)) == |Where(S, InDepartment(dir, d))| {
      CountIsSize(ps, InDepartment(dir, d));
    }
    RequirementsOnSets(p, ps);
  }

  lemma HeadcountsOnSets(p: Problem, ps: seq<Pair>)
    requires NoDup(ps)
    ensures (forall f :: f in p.facilities ==> HeadcountOk(f, ps, true)) <==> SetC1(p, Elements(ps))
  {
    forall f | f in p.facilities
      ensures HeadcountOk(f, ps, true) <==> ExactAt(p, Elements(ps), f)
    {
      CountIsSize(ps, AtFacility(f.id));
    }
  }

  lemma RequirementsOnSets(p: Problem, ps: seq<Pair>)
    requires NoDup(ps)
    ensures RequirementsMet(Directory(p.availableStaff), p.facilities, ps) <==> SetC3(p, Elements(ps))
  {
    var dir := Directory(p.availableStaff);
    forall f, q | f in p.facilities && q in f.requirements
      ensures RequirementMet(dir, f.id, q, ps) <==> SetFilled(p, Elements(ps), f.id, q)
    {
      CountIsSize(ps, Fills(dir, f.id, q.requirement));
    }
  }

  /** For every assignment list: the checker is silent exactly when the list has no repeats
      and its pairs meet C1..C5 as sets. */
  lemma CheckerOnSets(p: Problem, assignments: seq<Assignment>)
    requires WellFormed(p)
    ensures Validate(p, assignments) == [] <==>
            && NoDup(PairsOf(assignments))
            && SetHard(p, Elements(PairsOf(assignments)))
            && SetC3(p, Elements(PairsOf(assignments)))
  {
    var ps := PairsOf(assignments);
    CheckIsClean(p, ps, true, true);
    if NoDup(ps) {
      CleanOnSets(p, ps, true);
    } else if OnePlaceEach(ps) {
      OnePlaceNoDup(ps);
    }
  }

  /** The encoder and the checker are the same predicate: an assignment list without
      repeats is (as a set of pairs) the choice of a solution of the hard program iff it
      contains the pins and the checker finds nothing. */
  lemma EncoderIsChecker(p: Problem, assignments: seq<Assignment>)
    requires WellFormed(p)
    requires NoDup(PairsOf(assignments))
    ensures WellFormedModel(ModelOf(p, false, true))
    ensures (exists v: Valuation ::
               && Program(ModelOf(p, false, true), v)
               && Chosen(AllPairs(p.availableStaff, p.facilities), v) == Elements(PairsOf(assignments)))
            <==> SetPins(p, Elements(PairsOf(assignments))) && Validate(p, assignments) == []
  {
    FullProgramOnSets(p, Elements(PairsOf(assignments)));
    CheckerOnSets(p, assignments);
  }
}
