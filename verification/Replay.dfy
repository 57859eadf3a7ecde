/** Replaying a past event: its actual headcounts become the requirement, its available
    declarers the candidates, and the optimiser is compared with what really happened. */
module Replay {
  import opened Domain
  import opened Counting
  import opened DistanceCache
  import opened TravelCost
  import opened Validation
  import opened Objective
  import opened Model
  import opened Agreement
  import opened Optima
  import opened Service
  import opened Guarantees

  datatype Master = Master(
    staff: map<StaffId, Staff>, facilities: map<FacilityId, Facility>, districts: map<DistrictId, Point>)
  {
    /** The dictionaries are keyed by their values' own ids. */
    ghost predicate Keyed() {
      && (forall k :: k in staff ==> staff[k].id == k)
      && (forall k :: k in facilities ==> facilities[k].id == k)
    }
  }

  datatype Declared = Declared(staff: StaffId, available: bool)

  datatype HistoricalRecord = HistoricalRecord(actual: seq<Assignment>, declarations: seq<Declared>)

  /** A facility cannot need more qualified people than it holds; every lookup can miss. */
  datatype ReplayError = RequirementsExceedHeadcount(facility: FacilityId) | LookupFails(pair: Pair)

  /** The shared metrics of a pair; None stands for a failing lookup. */
  type MetricsFor = Pair -> Option<TravelMetrics>

  /** `make_metrics_for`: staff, facility and both districts are looked up in the master. */
  function MakeMetricsFor(master: Master, dist: Distance, travel: TravelParameters): MetricsFor
    requires travel.Valid() && NonNegative(dist)
  {
    (pr: Pair) =>
      if pr.0 in master.staff && pr.1 in master.facilities
         && master.staff[pr.0].residence in master.districts && master.facilities[pr.1].district in master.districts
      then
        var home, place := master.staff[pr.0].residence, master.facilities[pr.1].district;
        Some(Metrics(home, place, dist(master.districts[home], master.districts[place]), travel))
      else None
  }

  ghost predicate MetricsNonNegative(metrics: MetricsFor) {
    forall pr :: metrics(pr).Some? ==> metrics(pr).value.timeSeconds >= 0 && metrics(pr).value.costYen >= 0.0
  }

  lemma MadeMetricsNonNegative(master: Master, dist: Distance, travel: TravelParameters)
    requires travel.Valid() && NonNegative(dist)
    ensures MetricsNonNegative(MakeMetricsFor(master, dist, travel))
  {
    var metrics := MakeMetricsFor(master, dist, travel);
    forall pr | metrics(pr).Some?
      ensures metrics(pr).value.timeSeconds >= 0 && metrics(pr).value.costYen >= 0.0
    {
      var home, place := master.staff[pr.0].residence, master.facilities[pr.1].district;
      MetricsSane(home, place, dist(master.districts[home], master.districts[place]), travel);
    }
  }

  function FacilityKeys(ps: seq<Pair>): (r: seq<FacilityId>)
    ensures |r| == |ps|
    ensures forall i :: 0 <= i < |r| ==> r[i] == ps[i].1
  {
    seq(|ps|, i requires 0 <= i < |ps| => ps[i].1)
  }

  /** The facilities actually used, in first-use order, each with its actual headcount. */
  function ReplayFacilities(keys: seq<FacilityId>, ps: seq<Pair>, master: Master): seq<Facility> {
    if keys == [] then []
    else
      var last := keys[|keys| - 1];
      ReplayFacilities(keys[..|keys| - 1], ps, master)
      + if last in master.facilities then [master.facilities[last].(headcount := CountIf(ps, AtFacility(last)))] else []
  }

  function AvailableIds(declarations: seq<Declared>): set<StaffId> {
    set d | d in declarations && d.available :: d.staff
  }

  function TravelOf(pairs: seq<Pair>, metrics: MetricsFor): map<Pair, TravelMetrics> {
    map pr | pr in pairs && metrics(pr).Some? :: metrics(pr).value
  }

  ghost predicate IsReplay(
      p: Problem, record: HistoricalRecord, master: Master, params: Parameters, metrics: MetricsFor) {
    var ps := PairsOf(record.actual);
    && p.facilities == ReplayFacilities(Uniq(FacilityKeys(ps)), ps, master)
    && (forall f :: f in p.facilities ==> TotalCount(f.requirements) <= f.headcount)
    && DistinctStaff(p.availableStaff)
    && (forall s :: s in p.availableStaff <==>
          s.id in AvailableIds(record.declarations) && s.id in master.staff && s == master.staff[s.id])
    && (forall pr :: pr in AllPairs(p.availableStaff, p.facilities) ==> metrics(pr).Some?)
    && p.travel == TravelOf(AllPairs(p.availableStaff, p.facilities), metrics)
    && p.parameters == params
    && p.pins == []
  }

  method SelectStaff(ids: set<StaffId>, master: Master) returns (staff: seq<Staff>)
    requires master.Keyed()
    ensures DistinctStaff(staff)
    ensures forall s :: s in staff <==> s.id in ids && s.id in master.staff && s == master.staff[s.id]
  {
    staff := [];
    var rest := ids;
    while rest != {}
      invariant rest <= ids
      invariant DistinctStaff(staff)
      invariant forall s :: s in staff <==>
                  s.id in ids && s.id !in rest && s.id in master.staff && s == master.staff[s.id]
      decreases rest
    {
      var id :| id in rest;
      if id in master.staff {
        assert forall s :: s in staff ==> s.id != id;
        staff := staff + [master.staff[id]];
      }
      rest := rest - {id};
    }
  }

  /** Some actual headcount is below its facility's own qualification requirements. */
  predicate Understaffed(facilities: seq<Facility>) {
    exists f :: f in facilities && TotalCount(f.requirements) > f.headcount
  }

  /** A lookup fails for some candidate and some facility of the replay. */
  ghost predicate Unmeasured(ids: set<StaffId>, master: Master, facilities: seq<Facility>, metrics: MetricsFor) {
    exists id, f :: id in ids && id in master.staff && f in facilities && metrics((id, f.id)).None?
  }

  method FindUnderstaffed(facilities: seq<Facility>) returns (found: Option<FacilityId>)
    ensures found.Some? <==> Understaffed(facilities)
  {
    for i := 0 to |facilities|
      invariant forall k :: 0 <= k < i ==> TotalCount(facilities[k].requirements) <= facilities[k].headcount
    {
      if TotalCount(facilities[i].requirements) > facilities[i].headcount {
        assert facilities[i] in facilities;
        return Some(facilities[i].id);
      }
    }
    found := None;
  }

  method FindUnmeasured(pairs: seq<Pair>, metrics: MetricsFor) returns (found: Option<Pair>)
    ensures found.Some? <==> exists pr :: pr in pairs && metrics(pr).None?
  {
    for i := 0 to |pairs|
      invariant forall k :: 0 <= k < i ==> metrics(pairs[k]).Some?
    {
      if metrics(pairs[i]).None? {
        assert pairs[i] in pairs;
        return Some(pairs[i]);
      }
    }
    found := None;
  }

  /** `build_replay`: fails if and only if an actual headcount is below its facility's
      requirements or a lookup for some candidate and facility misses. */
  method BuildReplay(record: HistoricalRecord, event: EventId, master: Master, params: Parameters, metrics: MetricsFor)
    returns (r: Result<Problem, ReplayError>)
    requires master.Keyed()
    ensures r.Ok? ==> IsReplay(r.value, record, master, params, metrics)
    ensures var ps := PairsOf(record.actual);
            var facilities := ReplayFacilities(Uniq(FacilityKeys(ps)), ps, master);
            r.Err? <==>
              Understaffed(facilities) || Unmeasured(AvailableIds(record.declarations), master, facilities, metrics)
  {
    var ps := PairsOf(record.actual);
    var facilities := ReplayFacilities(Uniq(FacilityKeys(ps)), ps, master);
    var short := FindUnderstaffed(facilities);
    if short.Some? {
      return Err(RequirementsExceedHeadcount(short.value));
    }
    var staff := SelectStaff(AvailableIds(record.declarations), master);
    var pairs := AllPairs(staff, facilities);
    MeasuredPairs(AvailableIds(record.declarations), master, staff, facilities, metrics);
    var missing := FindUnmeasured(pairs, metrics);
    if missing.Some? {
      return Err(LookupFails(missing.value));
    }
    r := Ok(Problem(event, facilities, staff, TravelOf(pairs, metrics), params, []));
  }

  lemma MeasuredPairs(
      ids: set<StaffId>, master: Master, staff: seq<Staff>, facilities: seq<Facility>, metrics: MetricsFor)
    requires master.Keyed()
    requires forall s :: s in staff <==> s.id in ids && s.id in master.staff && s == master.staff[s.id]
    ensures Unmeasured(ids, master, facilities, metrics) <==>
              exists pr :: pr in AllPairs(staff, facilities) && metrics(pr).None?
  {
    if id, f :| id in ids && id in master.staff && f in facilities && metrics((id, f.id)).None? {
      AllPairsMembers(staff, facilities, (id, f.id));
      assert master.staff[id] in staff;
      assert (id, f.id) in AllPairs(staff, facilities);
    }
    if pr :| pr in AllPairs(staff, facilities) && metrics(pr).None? {
      AllPairsMembers(staff, facilities, pr);
      var s, f :| s in staff && f in facilities && pr == (s.id, f.id);
      assert s.id in ids && s.id in master.staff && metrics((s.id, f.id)).None?;
    }
  }

  // ----- The replay is a well-formed problem whose headcounts are the actual ones -----

  lemma {:induction false} ReplayFacilityIs(keys: seq<FacilityId>, ps: seq<Pair>, master: Master, f: Facility)
    requires master.Keyed()
    ensures f in ReplayFacilities(keys, ps, master) <==>
            f.id in keys && f.id in master.facilities
            && f == master.facilities[f.id].(headcount := CountIf(ps, AtFacility(f.id)))
  {
    if keys != [] {
      var rest, last := keys[..|keys| - 1], keys[|keys| - 1];
      assert keys == rest + [last];
      ReplayFacilityIs(rest, ps, master, f);
    }
  }

  lemma {:induction false} ReplayFacilitiesDistinct(keys: seq<FacilityId>, ps: seq<Pair>, master: Master)
    requires master.Keyed() && NoDup(keys)
    ensures DistinctFacilities(ReplayFacilities(keys, ps, master))
  {
    if keys != [] {
      var rest, last := keys[..|keys| - 1], keys[|keys| - 1];
      NoDupInit(keys);
      ReplayFacilitiesDistinct(rest, ps, master);
      forall f | f in ReplayFacilities(rest, ps, master)
        ensures f.id != last
      {
        ReplayFacilityIs(rest, ps, master, f);
      }
    }
  }

  lemma UsedFacility(ps: seq<Pair>, id: FacilityId)
    ensures id in Uniq(FacilityKeys(ps)) <==> CountIf(ps, AtFacility(id)) > 0
  {
    CountPositive(ps, AtFacility(id));
    if id in FacilityKeys(ps) {
      var i :| 0 <= i < |ps| && FacilityKeys(ps)[i] == id;
      assert ps[i] in ps && AtFacility(id)(ps[i]);
    }
    if pr :| pr in ps && AtFacility(id)(pr) {
      var i :| 0 <= i < |ps| && ps[i] == pr;
      assert FacilityKeys(ps)[i] == id;
    }
    assert id in Uniq(FacilityKeys(ps)) <==> id in FacilityKeys(ps);
  }

  lemma ReplayWellFormed(p: Problem, record: HistoricalRecord, master: Master, params: Parameters, metrics: MetricsFor)
    requires master.Keyed() && params.Valid()
    requires IsReplay(p, record, master, params, metrics)
    ensures WellFormed(p)
    ensures MetricsNonNegative(metrics) ==> NonNegativeTravel(p)
  {
    var ps := PairsOf(record.actual);
    var keys := Uniq(FacilityKeys(ps));
    ReplayFacilitiesDistinct(keys, ps, master);
    forall f | f in p.facilities
      ensures f.headcount >= 1
    {
      ReplayFacilityIs(keys, ps, master, f);
      UsedFacility(ps, f.id);
    }
    forall s | s in p.availableStaff
      ensures CompleteRow(p, s)
    {
      forall f | f in p.facilities
        ensures (s.id, f.id) in p.travel
      {
        AllPairsMembers(p.availableStaff, p.facilities, (s.id, f.id));
      }
    }
  }

  ghost predicate AllInMaster(record: HistoricalRecord, master: Master) {
    forall a :: a in record.actual ==> a.facility in master.facilities
  }

  lemma {:induction false} MembershipKinds(dir: map<StaffId, Staff>, fids: seq<FacilityId>, ps: seq<Pair>)
    requires forall pr :: pr in ps ==> pr.1 in fids
    ensures forall x :: x in FlagMembership(dir, fids, ps) ==> x.constraint == C4
  {
    if ps != [] {
      var rest, last := ps[..|ps| - 1], ps[|ps| - 1];
      assert ps == rest + [last];
      MembershipKinds(dir, fids, rest);
    }
  }

  lemma {:induction false} DepartmentKinds(dir: map<StaffId, Staff>, cap: int, keys: seq<DepartmentId>, ps: seq<Pair>)
    ensures forall x :: x in FlagDepartments(dir, cap, keys, ps) ==> x.constraint == C5
  {
    if keys != [] {
      DepartmentKinds(dir, cap, keys[..|keys| - 1], ps);
    }
  }

  lemma {:induction false} RequirementKinds(
      dir: map<StaffId, Staff>, f: FacilityId, reqs: seq<QualificationRequirement>, ps: seq<Pair>)
    ensures forall x :: x in FlagRequirements(dir, f, reqs, ps) ==> x.constraint == C3
  {
    if reqs != [] {
      RequirementKinds(dir, f, reqs[..|reqs| - 1], ps);
    }
  }

  lemma {:induction false} QualificationKinds(dir: map<StaffId, Staff>, facilities: seq<Facility>, ps: seq<Pair>)
    ensures forall x :: x in FlagQualifications(dir, facilities, ps) ==> x.constraint == C3
  {
    if facilities != [] {
      var last := facilities[|facilities| - 1];
      QualificationKinds(dir, facilities[..|facilities| - 1], ps);
      RequirementKinds(dir, last.id, last.requirements, ps);
    }
  }

  lemma ActualHeadcounts(p: Problem, record: HistoricalRecord, master: Master, params: Parameters, metrics: MetricsFor)
    requires master.Keyed() && IsReplay(p, record, master, params, metrics)
    ensures FlagHeadcounts(p.facilities, PairsOf(record.actual), true) == []
  {
    var ps := PairsOf(record.actual);
    forall f | f in p.facilities
      ensures HeadcountOk(f, ps, true)
    {
      ReplayFacilityIs(Uniq(FacilityKeys(ps)), ps, master, f);
    }
    HeadcountFlags(p.facilities, ps, true);
  }

  lemma ActualFacilities(p: Problem, record: HistoricalRecord, master: Master, params: Parameters, metrics: MetricsFor)
    requires master.Keyed() && IsReplay(p, record, master, params, metrics) && AllInMaster(record, master)
    ensures forall pr :: pr in PairsOf(record.actual) ==> pr.1 in FacilityIds(p.facilities)
  {
    var ps := PairsOf(record.actual);
    forall pr | pr in ps
      ensures pr.1 in FacilityIds(p.facilities)
    {
      var i :| 0 <= i < |ps| && ps[i] == pr;
      assert record.actual[i] in record.actual;
      var f := master.facilities[pr.1].(headcount := CountIf(ps, AtFacility(pr.1)));
      assert AtFacility(pr.1)(pr);
      CountPositive(ps, AtFacility(pr.1));
      UsedFacility(ps, pr.1);
      ReplayFacilityIs(Uniq(FacilityKeys(ps)), ps, master, f);
      FacilityIdMember(p.facilities, pr.1);
    }
  }

  lemma {:induction false} DistinctMeansOnePlace(ps: seq<Pair>)
    requires forall i, j :: 0 <= i < j < |ps| ==> ps[i].0 != ps[j].0
    ensures OnePlaceEach(ps)
  {
    if ps != [] {
      var rest, last := ps[..|ps| - 1], ps[|ps| - 1];
      DistinctMeansOnePlace(rest);
      CountPositive(rest, OfStaff(last.0));
      assert forall pr :: pr in rest ==> !OfStaff(last.0)(pr);
      assert CountIf(rest, OfStaff(last.0)) == 0;
    }
  }

  /** The baseline meets C1 and C2 of its own replay by construction: the checker can only
      object to it under C3, C4 or C5. */
  lemma BaselineMeetsHeadcounts(
      p: Problem, record: HistoricalRecord, master: Master, params: Parameters, metrics: MetricsFor)
    requires master.Keyed() && params.Valid()
    requires IsReplay(p, record, master, params, metrics)
    requires AllInMaster(record, master) && StaffOnce(record.actual)
    ensures forall x :: x in Validate(p, record.actual) ==> x.constraint in {C3, C4, C5}
  {
    var ps, dir := PairsOf(record.actual), Directory(p.availableStaff);
    ActualFacilities(p, record, master, params, metrics);
    MembershipKinds(dir, FacilityIds(p.facilities), ps);
    DistinctMeansOnePlace(ps);
    StaffFlagsAll(ps);
    ActualHeadcounts(p, record, master, params, metrics);
    DepartmentKinds(dir, p.parameters.departmentCap, Uniq(DepartmentsOf(dir, ps)), ps);
    QualificationKinds(dir, p.facilities, ps);
  }

  lemma SomeViolation(vs: seq<Violation>)
    ensures vs == [] || exists v :: v in vs
  {
    if vs != [] {
      assert vs[0] in vs;
    }
  }

  /** Replay dominance: if the baseline also meets C3, C4 and C5, the optimised objective
      exceeds the baseline's by rounding error at most. */
  lemma ReplayDominance(
    p: Problem, record: HistoricalRecord, master: Master, params: Parameters, metrics: MetricsFor,
    r: Result<Answer, Refusal>)
    requires master.Keyed() && params.Valid()
    requires MetricsNonNegative(metrics)
    requires IsReplay(p, record, master, params, metrics)
    requires AllInMaster(record, master) && StaffOnce(record.actual)
    requires forall x :: x in Validate(p, record.actual) ==> x.constraint !in {C3, C4, C5}
    requires WellFormed(p) && Staged(p, r)
    ensures r.Ok? && r.value.Assigned? && r.value.result.violations == []
    ensures r.value.result.objectiveValue <= ObjectiveOf(p, PairsOf(record.actual)) + ErrorBound(p)
  {
    BaselineMeetsHeadcounts(p, record, master, params, metrics);
    ReplayWellFormed(p, record, master, params, metrics);
    SomeViolation(Validate(p, record.actual));
    CheckerOnSets(p, record.actual);
    NoPinsNoViolation(p);
    FullSolvable(p);
    FullAnswer(p, r);
    NearOptimal(p, r, record.actual);
  }
}
