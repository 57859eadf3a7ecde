/** From stored data to an assignment problem: what the engine takes for granted is
    established here. */
module ProblemBuilder {
  import opened Availability
  import opened Counting
  import opened DistanceCache
  import opened Domain
  import opened MasterData
  import opened Scaling
  import opened TravelCost

  datatype BuildError = EventNotFound

  /** Declared available, by the declaration in force. */
  predicate IsAvailable(all: seq<Declaration>, staff: StaffId, event: EventId) {
    var d := EffectiveDeclarationFor(staff, event, all);
    d.Ok? && d.value.Some? && d.value.value.available
  }

  function FindStaff(staff: seq<Staff>, id: StaffId): Option<Staff> {
    if staff == [] then None
    else if staff[|staff| - 1].id == id then Some(staff[|staff| - 1])
    else FindStaff(staff[..|staff| - 1], id)
  }

  function FindDistrict(master: seq<District>, id: DistrictId): Option<District> {
    if master == [] then None
    else if master[|master| - 1].id == id then Some(master[|master| - 1])
    else FindDistrict(master[..|master| - 1], id)
  }

  lemma {:induction false} FindStaffFinds(staff: seq<Staff>, id: StaffId)
    ensures FindStaff(staff, id).Some? <==> id in KnownStaff(staff)
    ensures FindStaff(staff, id).Some? ==> FindStaff(staff, id).value in staff && FindStaff(staff, id).value.id == id
  {
    if staff != [] {
      FindStaffFinds(staff[..|staff| - 1], id);
      assert staff == staff[..|staff| - 1] + [staff[|staff| - 1]];
    }
  }

  lemma {:induction false} FindDistrictFinds(master: seq<District>, id: DistrictId)
    ensures FindDistrict(master, id).Some? <==> id in DistrictIds(master)
    ensures FindDistrict(master, id).Some? ==>
              FindDistrict(master, id).value in master && FindDistrict(master, id).value.id == id
  {
    if master != [] {
      FindDistrictFinds(master[..|master| - 1], id);
      assert master == master[..|master| - 1] + [master[|master| - 1]];
    }
  }

  lemma SameStaff(staff: seq<Staff>, s: Staff, t: Staff)
    requires DistinctStaff(staff) && s in staff && t in staff && s.id == t.id
    ensures s == t
  {
  }

  /** The available declarers, looked up in the master. */
  function AvailableStaff(staff: seq<Staff>, effective: seq<Declaration>): seq<Staff> {
    if effective == [] then []
    else
      var d := effective[|effective| - 1];
      var found := FindStaff(staff, d.staff);
      AvailableStaff(staff, effective[..|effective| - 1]) + if d.available && found.Some? then [found.value] else []
  }

  lemma {:induction false} AvailableStaffAre(staff: seq<Staff>, effective: seq<Declaration>)
    requires DistinctStaff(staff)
    ensures forall s :: s in AvailableStaff(staff, effective) <==>
              s in staff && exists d :: d in effective && d.staff == s.id && d.available
  {
    if effective != [] {
      var rest, d := effective[..|effective| - 1], effective[|effective| - 1];
      AvailableStaffAre(staff, rest);
      FindStaffFinds(staff, d.staff);
      assert forall x :: x in effective <==> x in rest || x == d by { assert effective == rest + [d]; }
      forall s | s in staff && s.id == d.staff
        ensures FindStaff(staff, d.staff) == Some(s)
      {
        SameStaff(staff, s, FindStaff(staff, d.staff).value);
      }
    }
  }

  lemma {:induction false} AvailableStaffDistinct(staff: seq<Staff>, effective: seq<Declaration>)
    requires DistinctStaff(staff)
    requires forall i, j :: 0 <= i < j < |effective| ==> effective[i].staff != effective[j].staff
    ensures DistinctStaff(AvailableStaff(staff, effective))
  {
    if effective != [] {
      var rest, d := effective[..|effective| - 1], effective[|effective| - 1];
      AvailableStaffDistinct(staff, rest);
      AvailableStaffAre(staff, rest);
      FindStaffFinds(staff, d.staff);
      forall i | 0 <= i < |AvailableStaff(staff, rest)|
        ensures AvailableStaff(staff, rest)[i].id != d.staff
      {
        assert AvailableStaff(staff, rest)[i] in AvailableStaff(staff, rest);
      }
    }
  }

  /** Exactly the staff whose declaration in force is available, each once. */
  lemma EffectiveMeansAvailable(all: seq<Declaration>, event: EventId, s: StaffId)
    requires UniqueInstants(all)
    ensures (exists d :: d in EffectiveDeclarations(all, event) && d.staff == s && d.available)
            <==> IsAvailable(all, s, event)
  {
    var effective, found := EffectiveDeclarations(all, event), EffectiveDeclarationFor(s, event, all);
    assert IsAvailable(all, s, event) <==> found.Ok? && found.value.Some? && found.value.value.available;
    hide *;
    if d :| d in effective && d.staff == s && d.available {
      QueryRefinesFunction(all, event, d);
    }
    if IsAvailable(all, s, event) {
      EffectiveIsForPair(all, s, event);
      QueryRefinesFunction(all, event, found.value.value);
    }
  }

  lemma AvailableMeansEffective(t: Tables, event: EventId)
    requires Sound(t)
    ensures var available := AvailableStaff(t.staff, EffectiveDeclarations(t.declarations, event));
            && DistinctStaff(available)
            && (forall s :: s in available <==> s in t.staff && IsAvailable(t.declarations, s.id, event))
  {
    var effective := EffectiveDeclarations(t.declarations, event);
    assert DistinctStaff(t.staff) && UniqueInstants(t.declarations);
    hide *;
    QueryOncePerStaff(t.declarations, event);
    AvailableStaffDistinct(t.staff, effective);
    AvailableStaffAre(t.staff, effective);
    forall s | s in t.staff
      ensures (exists d :: d in effective && d.staff == s.id && d.available) <==>
                IsAvailable(t.declarations, s.id, event)
    {
      EffectiveMeansAvailable(t.declarations, event, s.id);
    }
  }

  lemma EffectiveIsForPair(all: seq<Declaration>, staff: StaffId, event: EventId)
    requires EffectiveDeclarationFor(staff, event, all).Ok? && EffectiveDeclarationFor(staff, event, all).value.Some?
    ensures var d := EffectiveDeclarationFor(staff, event, all).value.value;
            d in all && d.staff == staff && d.event == event
  {
    var matching := Filter(all, ForPair(staff, event));
    var candidates := Filter(matching, AtInstant(LatestOf(matching)));
    assert candidates[0] in candidates && candidates[0] in matching;
  }

  // ----- The travel matrix -----

  /** The metrics from a staff member's home district to a facility's. */
  function Between(
      master: seq<District>, dist: Distance, s: Staff, f: Facility, travel: TravelParameters): TravelMetrics
    requires FindDistrict(master, s.residence).Some? && FindDistrict(master, f.district).Some?
    requires travel.Valid() && NonNegative(dist)
  {
    Metrics(s.residence, f.district,
            dist(FindDistrict(master, s.residence).value.point, FindDistrict(master, f.district).value.point), travel)
  }

  ghost predicate Located(master: seq<District>, staff: seq<Staff>, facilities: seq<Facility>) {
    && (forall s :: s in staff ==> FindDistrict(master, s.residence).Some?)
    && (forall f :: f in facilities ==> FindDistrict(master, f.district).Some?)
  }

  type Measure = (Staff, Facility) --> TravelMetrics

  function MeasureOf(master: seq<District>, dist: Distance, travel: TravelParameters): Measure
    requires travel.Valid() && NonNegative(dist)
  {
    (s: Staff, f: Facility)
      requires FindDistrict(master, s.residence).Some? && FindDistrict(master, f.district).Some? =>
      Between(master, dist, s, f, travel)
  }

  ghost predicate Entered(matrix: map<Pair, TravelMetrics>, s: Staff, f: Facility, measure: Measure) {
    && (s.id, f.id) in matrix
    && measure.requires(s, f) && matrix[(s.id, f.id)] == measure(s, f)
  }

  ghost predicate RowEntered(
      matrix: map<Pair, TravelMetrics>, s: Staff, facilities: seq<Facility>, n: nat, measure: Measure)
    requires n <= |facilities|
  {
    forall l :: 0 <= l < n ==> Entered(matrix, s, facilities[l], measure)
  }

  ghost predicate KeyOfPair(staff: seq<Staff>, facilities: seq<Facility>, k: Pair) {
    exists s, f :: s in staff && f in facilities && k == (s.id, f.id)
  }

  /** Keys exactly staff x facilities, each entry the metrics between the two. */
  ghost predicate FullMatrix(
      staff: seq<Staff>, facilities: seq<Facility>, measure: Measure, matrix: map<Pair, TravelMetrics>) {
    && (forall s, f :: s in staff && f in facilities ==> Entered(matrix, s, f, measure))
    && (forall k :: k in matrix ==> KeyOfPair(staff, facilities, k))
  }

  lemma RowKept(
      matrix: map<Pair, TravelMetrics>, s: Staff, facilities: seq<Facility>, n: nat, measure: Measure, k: Pair,
      t: TravelMetrics)
    requires n <= |facilities| && RowEntered(matrix, s, facilities, n, measure)
    requires forall l :: 0 <= l < n ==> k != (s.id, facilities[l].id)
    ensures RowEntered(matrix[k := t], s, facilities, n, measure)
  {
    forall l | 0 <= l < n
      ensures Entered(matrix[k := t], s, facilities[l], measure)
    {
      assert Entered(matrix, s, facilities[l], measure);
    }
  }

  lemma RowsAreFull(staff: seq<Staff>, facilities: seq<Facility>, measure: Measure, matrix: map<Pair, TravelMetrics>)
    requires forall h :: 0 <= h < |staff| ==> RowEntered(matrix, staff[h], facilities, |facilities|, measure)
    requires forall k :: k in matrix ==> KeyOfPair(staff, facilities, k)
    ensures FullMatrix(staff, facilities, measure, matrix)
  {
    hide Entered, KeyOfPair;
    forall s, f | s in staff && f in facilities
      ensures Entered(matrix, s, f, measure)
    {
      var h :| 0 <= h < |staff| && staff[h] == s;
      var l :| 0 <= l < |facilities| && facilities[l] == f;
      assert RowEntered(matrix, staff[h], facilities, |facilities|, measure);
    }
  }

  method FillRow(
      matrix: map<Pair, TravelMetrics>, staff: seq<Staff>, i: nat, facilities: seq<Facility>, measure: Measure)
    returns (filled: map<Pair, TravelMetrics>)
    requires i < |staff| && DistinctStaff(staff) && DistinctFacilities(facilities)
    requires forall l :: 0 <= l < |facilities| ==> measure.requires(staff[i], facilities[l])
    requires forall h :: 0 <= h < i ==> RowEntered(matrix, staff[h], facilities, |facilities|, measure)
    requires forall k :: k in matrix ==> KeyOfPair(staff, facilities, k)
    ensures forall h :: 0 <= h <= i ==> RowEntered(filled, staff[h], facilities, |facilities|, measure)
    ensures forall k :: k in filled ==> KeyOfPair(staff, facilities, k)
  {
    filled := matrix;
    var s := staff[i];
    var j := 0;
    while j < |facilities|
      invariant 0 <= j <= |facilities|
      invariant forall h :: 0 <= h < i ==> RowEntered(filled, staff[h], facilities, |facilities|, measure)
      invariant RowEntered(filled, s, facilities, j, measure)
      invariant forall k :: k in filled ==> KeyOfPair(staff, facilities, k)
    {
      var f := facilities[j];
      var k, t := (s.id, f.id), measure(s, f);
      forall h | 0 <= h < i
        ensures RowEntered(filled[k := t], staff[h], facilities, |facilities|, measure)
      {
        RowKept(filled, staff[h], facilities, |facilities|, measure, k, t);
      }
      RowKept(filled, s, facilities, j, measure, k, t);
      assert KeyOfPair(staff, facilities, k);
      filled := filled[k := t];
      assert Entered(filled, s, f, measure);
      j := j + 1;
    }
  }

  /** The two nested loops over staff and facilities. */
  method BuildMatrix(
      staff: seq<Staff>, facilities: seq<Facility>, measure: Measure) returns (matrix: map<Pair, TravelMetrics>)
    requires DistinctStaff(staff) && DistinctFacilities(facilities)
    requires forall i, l :: 0 <= i < |staff| && 0 <= l < |facilities| ==> measure.requires(staff[i], facilities[l])
    ensures FullMatrix(staff, facilities, measure, matrix)
  {
    matrix := map[];
    var i := 0;
    while i < |staff|
      invariant 0 <= i <= |staff|
      invariant forall h :: 0 <= h < i ==> RowEntered(matrix, staff[h], facilities, |facilities|, measure)
      invariant forall k :: k in matrix ==> KeyOfPair(staff, facilities, k)
    {
      matrix := FillRow(matrix, staff, i, facilities, measure);
      i := i + 1;
    }
    RowsAreFull(staff, facilities, measure, matrix);
  }

  lemma SoundIsLocated(t: Tables, master: seq<District>, available: seq<Staff>)
    requires Sound(t) && t.districts == DistrictIds(master)
    requires forall s :: s in available ==> s in t.staff
    ensures Located(master, available, t.facilities)
  {
    forall s | s in available
      ensures FindDistrict(master, s.residence).Some?
    {
      FindDistrictFinds(master, s.residence);
    }
    forall f | f in t.facilities
      ensures FindDistrict(master, f.district).Some?
    {
      FindDistrictFinds(master, f.district);
    }
  }

  lemma BetweenNonNegative(master: seq<District>, dist: Distance, s: Staff, f: Facility, travel: TravelParameters)
    requires FindDistrict(master, s.residence).Some? && FindDistrict(master, f.district).Some?
    requires travel.Valid() && NonNegative(dist)
    ensures Between(master, dist, s, f, travel).timeSeconds >= 0 && Between(master, dist, s, f, travel).costYen >= 0.0
  {
    MetricsSane(s.residence, f.district,
                dist(FindDistrict(master, s.residence).value.point, FindDistrict(master, f.district).value.point),
                travel);
  }

  lemma EntryNonNegative(
      master: seq<District>, dist: Distance, travel: TravelParameters, matrix: map<Pair, TravelMetrics>, s: Staff,
      f: Facility)
    requires travel.Valid() && NonNegative(dist)
    requires FindDistrict(master, s.residence).Some? && FindDistrict(master, f.district).Some?
    requires Entered(matrix, s, f, MeasureOf(master, dist, travel))
    ensures matrix[(s.id, f.id)].timeSeconds >= 0 && matrix[(s.id, f.id)].costYen >= 0.0
  {
    BetweenNonNegative(master, dist, s, f, travel);
  }

  lemma MatrixNonNegative(
    master: seq<District>, dist: Distance, staff: seq<Staff>, facilities: seq<Facility>, travel: TravelParameters,
    measure: Measure, matrix: map<Pair, TravelMetrics>)
    requires travel.Valid() && NonNegative(dist) && measure == MeasureOf(master, dist, travel)
    requires Located(master, staff, facilities) && FullMatrix(staff, facilities, measure, matrix)
    ensures forall k :: k in matrix ==> matrix[k].timeSeconds >= 0 && matrix[k].costYen >= 0.0
  {
    forall s, f | s in staff && f in facilities
      ensures (s.id, f.id) in matrix && matrix[(s.id, f.id)].timeSeconds >= 0 && matrix[(s.id, f.id)].costYen >= 0.0
    {
      assert Entered(matrix, s, f, measure);
      EntryNonNegative(master, dist, travel, matrix, s, f);
    }
    assert forall k :: k in matrix ==> KeyOfPair(staff, facilities, k);
  }

  /** Pins are the previous assignments, marked, on an incremental run only. */
  function Pins(incremental: bool, previous: seq<Assignment>): (pins: seq<Assignment>)
    ensures incremental ==> PairsOf(pins) == PairsOf(previous) && forall a :: a in pins ==> a.pinned
  {
    if incremental then seq(|previous|, i requires 0 <= i < |previous| => previous[i].(pinned := true)) else []
  }

  lemma BuiltIsWellFormed(p: Problem, t: Tables, measure: Measure)
    requires Sound(t) && p.parameters.Valid() && p.facilities == t.facilities
    requires DistinctStaff(p.availableStaff) && FullMatrix(p.availableStaff, p.facilities, measure, p.travel)
    ensures WellFormed(p)
  {
    forall s | s in p.availableStaff
      ensures CompleteRow(p, s)
    {
      assert forall f :: f in p.facilities ==> Entered(p.travel, s, f, measure);
    }
  }

  /** Whatever the store went through, the problem built from it is well formed, its matrix
      complete and non-negative, and its staff exactly those available by the declaration
      in force. */
  method BuildProblem(db: Database, event: EventId, parameters: Parameters, travel: TravelParameters,
                      incremental: bool, previous: seq<Assignment>)
    returns (r: Result<Problem, BuildError>)
    requires db.Valid() && NonNegative(db.distances.dist)
    requires parameters.Valid() && travel.Valid()
    ensures r.Err? <==> event !in db.events
    ensures r.Ok? ==> WellFormed(r.value) && NonNegativeTravel(r.value)
    ensures r.Ok? ==>
              forall s :: s in r.value.availableStaff <==> s in db.staff && IsAvailable(db.declarations, s.id, event)
    ensures r.Ok? ==> r.value.event == event && r.value.facilities == db.facilities
                      && r.value.parameters == parameters && r.value.pins == Pins(incremental, previous)
    ensures r.Ok? ==> FullMatrix(r.value.availableStaff, db.facilities,
                                 MeasureOf(db.distances.master, db.distances.dist, travel), r.value.travel)
  {
    if event !in db.events {
      return Err(EventNotFound);
    }
    var master, dist := db.distances.master, db.distances.dist;
    ghost var t := db.View();
    var available := AvailableStaff(db.staff, EffectiveDeclarations(db.declarations, event));
    AvailableMeansEffective(t, event);
    SoundIsLocated(t, master, available);
    var measure := MeasureOf(master, dist, travel);
    var matrix := BuildMatrix(available, db.facilities, measure);
    MatrixNonNegative(master, dist, available, db.facilities, travel, measure, matrix);
    var p := Problem(event, db.facilities, available, matrix, parameters, Pins(incremental, previous));
    BuiltIsWellFormed(p, t, measure);
    r := Ok(p);
  }

  /** The matrix, measured directly, and the distance cache tell the same story. */
  lemma MatrixAgreesWithCache(
      master: seq<District>, cache: map<CacheKey, real>, dist: Distance, s: Staff, f: Facility,
      travel: TravelParameters)
    requires Coherent(master, cache, dist) && Symmetric(dist) && NonNegative(dist) && travel.Valid()
    requires FindDistrict(master, s.residence).Some? && FindDistrict(master, f.district).Some?
    requires s.residence != f.district
    ensures Lookup(cache, s.residence, f.district).Some?
    ensures Between(master, dist, s, f, travel).distanceKm
         == Times(Lookup(cache, s.residence, f.district).value, travel.detour)
  {
    FindDistrictFinds(master, s.residence);
    FindDistrictFinds(master, f.district);
    CacheAnswers(master, cache, dist, s.residence, f.district);
  }
}
