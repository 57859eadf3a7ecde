/** The stored master data, events and declarations, and every operation that changes them.
    Tables keep their primary keys, foreign keys, UNIQUE and CHECK constraints; a transaction
    either stores everything or nothing. */
module MasterData {
  import opened Availability
  import opened Counting
  import opened CsvImport
  import opened DistanceCache
  import opened Domain

  datatype EventStatus = Draft | CollectingDeclarations | Optimized | Confirmed

  function Allowed(status: EventStatus): set<EventStatus> {
    match status
    case Draft => {CollectingDeclarations}
    case CollectingDeclarations => {Optimized}
    case Optimized => {CollectingDeclarations, Confirmed}
    case Confirmed => {}
  }

  // ----- Rows as parsed from a CSV file: None stands for a cell that does not parse -----

  datatype StaffRow = StaffRow(
    id: StaffId, department: DepartmentId, residence: DistrictId, nameGiven: bool,
    jobType: Option<JobType>, position: Option<Position>, qualifications: Option<set<Qualification>>)

  datatype FacilityRow = FacilityRow(
    id: FacilityId, district: DistrictId, headcount: Option<int>, requirements: Option<seq<QualificationRequirement>>)

  datatype DeclarationRow = DeclarationRow(staff: StaffId, at: Option<int>, answer: Option<bool>, reasonFits: bool)

  /** What constructing a facility checks. */
  predicate FacilityFits(headcount: int, qs: seq<QualificationRequirement>) {
    && headcount >= 1
    && (forall i, j :: 0 <= i < j < |qs| ==> qs[i].requirement != qs[j].requirement)
    && TotalCount(qs) <= headcount
  }

  function StaffKey(r: StaffRow): Option<StaffId> { Some(r.id) }

  function FacilityKey(r: FacilityRow): Option<FacilityId> { Some(r.id) }

  function BuildStaff(departments: set<DepartmentId>, districts: set<DistrictId>): StaffRow -> Option<Staff> {
    (r: StaffRow) =>
      if r.residence in districts && r.department in departments && r.nameGiven
         && r.jobType.Some? && r.position.Some? && r.qualifications.Some?
      then Some(Staff(r.id, r.department, r.jobType.value, r.position.value, r.residence, r.qualifications.value))
      else None
  }

  function BuildFacility(districts: set<DistrictId>): FacilityRow -> Option<Facility> {
    (r: FacilityRow) =>
      if r.district in districts && r.requirements.Some? && r.headcount.Some?
         && FacilityFits(r.headcount.value, r.requirements.value)
      then Some(Facility(r.id, r.district, r.headcount.value, r.requirements.value))
      else None
  }

  /** A declaration row is looked at only if its staff member is known and its time parses. */
  function DeclarationKey(staff: set<StaffId>): DeclarationRow -> Option<(StaffId, int)> {
    (r: DeclarationRow) => if r.staff in staff && r.at.Some? then Some((r.staff, r.at.value)) else None
  }

  function BuildDeclaration(event: EventId): DeclarationRow -> Option<Declaration> {
    (r: DeclarationRow) =>
      if r.at.Some? && r.answer.Some? && r.reasonFits
      then Some(Declaration(r.staff, event, r.answer.value, r.at.value))
      else None
  }

  // ----- The tables -----

  datatype Tables = Tables(
    departments: set<DepartmentId>,
    districts: set<DistrictId>,
    staff: seq<Staff>,
    facilities: seq<Facility>,
    events: map<EventId, EventStatus>,
    declarations: seq<Declaration>,
    assignments: map<EventId, seq<Assignment>>)

  function KnownStaff(staff: seq<Staff>): set<StaffId> { set s | s in staff :: s.id }

  function DistrictIds(master: seq<District>): set<DistrictId> { set d | d in master :: d.id }

  ghost predicate StaffSound(t: Tables) {
    && DistinctStaff(t.staff)
    && (forall s :: s in t.staff ==> s.department in t.departments && s.residence in t.districts)
  }

  ghost predicate FacilitiesSound(t: Tables) {
    && DistinctFacilities(t.facilities)
    && (forall f :: f in t.facilities ==> f.district in t.districts && FacilityFits(f.headcount, f.requirements))
  }

  ghost predicate DeclarationsSound(t: Tables) {
    && UniqueInstants(t.declarations)
    && (forall d :: d in t.declarations ==> d.staff in KnownStaff(t.staff) && d.event in t.events)
  }

  /** The primary key of the assignments: one row per event and staff member. */
  predicate OneRowPerStaff(rows: seq<Assignment>) {
    forall i, j :: 0 <= i < j < |rows| ==> rows[i].staff != rows[j].staff
  }

  predicate References(t: Tables, event: EventId, rows: seq<Assignment>) {
    && (rows == [] || event in t.events)
    && forall a :: a in rows ==> a.staff in KnownStaff(t.staff) && HasFacility(t.facilities, a.facility)
  }

  predicate HasFacility(facilities: seq<Facility>, id: FacilityId) {
    exists f :: f in facilities && f.id == id
  }

  /** An event's stored rows; events without rows have no entry. */
  ghost predicate RowsSound(t: Tables, event: EventId)
    requires event in t.assignments
  {
    event in t.events && OneRowPerStaff(t.assignments[event]) && References(t, event, t.assignments[event])
  }

  ghost predicate AssignmentsSound(t: Tables) {
    forall e :: e in t.assignments ==> RowsSound(t, e)
  }

  /** What every reachable store satisfies. */
  ghost predicate Sound(t: Tables) {
    StaffSound(t) && FacilitiesSound(t) && DeclarationsSound(t) && AssignmentsSound(t)
  }

  predicate StaffClash(stored: seq<Staff>, members: seq<Staff>) {
    exists i, j :: 0 <= i < |stored| && 0 <= j < |members| && stored[i].id == members[j].id
  }

  predicate FacilityClash(stored: seq<Facility>, fs: seq<Facility>) {
    exists i, j :: 0 <= i < |stored| && 0 <= j < |fs| && stored[i].id == fs[j].id
  }

  predicate InstantClash(stored: seq<Declaration>, ds: seq<Declaration>) {
    exists i, j :: 0 <= i < |stored| && 0 <= j < |ds|
                   && stored[i].staff == ds[j].staff && stored[i].event == ds[j].event && stored[i].at == ds[j].at
  }

  // ----- Each insertion keeps the tables sound -----

  lemma BuiltStaff(rows: seq<StaffRow>, departments: set<DepartmentId>, districts: set<DistrictId>)
    requires GoodRows(rows, StaffKey, BuildStaff(departments, districts))
    ensures var members := Built(rows, BuildStaff(departments, districts));
            && |members| == |rows| && DistinctStaff(members)
            && (forall s :: s in members ==> s.department in departments && s.residence in districts)
  {
    var build := BuildStaff(departments, districts);
    GoodRowsMean(rows, StaffKey, build);
    BuiltAll(rows, build);
    forall i, j | 0 <= i < j < |rows|
      ensures Built(rows, build)[i].id != Built(rows, build)[j].id
    {
      assert StaffKey(rows[i]) != StaffKey(rows[j]);
      assert Some(Built(rows, build)[i]) == build(rows[i]) && Some(Built(rows, build)[j]) == build(rows[j]);
    }
    forall i | 0 <= i < |rows|
      ensures Built(rows, build)[i].department in departments && Built(rows, build)[i].residence in districts
    {
      assert Some(Built(rows, build)[i]) == build(rows[i]);
    }
  }

  lemma BuiltFacilities(rows: seq<FacilityRow>, districts: set<DistrictId>)
    requires GoodRows(rows, FacilityKey, BuildFacility(districts))
    ensures var fs := Built(rows, BuildFacility(districts));
            && |fs| == |rows| && DistinctFacilities(fs)
            && (forall f :: f in fs ==> f.district in districts && FacilityFits(f.headcount, f.requirements))
  {
    var build := BuildFacility(districts);
    GoodRowsMean(rows, FacilityKey, build);
    BuiltAll(rows, build);
    forall i, j | 0 <= i < j < |rows|
      ensures Built(rows, build)[i].id != Built(rows, build)[j].id
    {
      assert FacilityKey(rows[i]) != FacilityKey(rows[j]);
      assert Some(Built(rows, build)[i]) == build(rows[i]) && Some(Built(rows, build)[j]) == build(rows[j]);
    }
    forall i | 0 <= i < |rows|
      ensures var f := Built(rows, build)[i]; f.district in districts && FacilityFits(f.headcount, f.requirements)
    {
      assert Some(Built(rows, build)[i]) == build(rows[i]);
    }
  }

  lemma BuiltDeclarations(rows: seq<DeclarationRow>, staff: set<StaffId>, event: EventId)
    requires GoodRows(rows, DeclarationKey(staff), BuildDeclaration(event))
    ensures var ds := Built(rows, BuildDeclaration(event));
            && |ds| == |rows| && UniqueInstants(ds)
            && (forall d :: d in ds ==> d.staff in staff && d.event == event)
  {
    var key, build := DeclarationKey(staff), BuildDeclaration(event);
    GoodRowsMean(rows, key, build);
    BuiltAll(rows, build);
    var ds := Built(rows, build);
    forall i, j | 0 <= i < j < |rows|
      ensures !(ds[i].staff == ds[j].staff && ds[i].event == ds[j].event && ds[i].at == ds[j].at)
    {
      assert key(rows[i]) != key(rows[j]);
      assert Some(ds[i]) == build(rows[i]) && Some(ds[j]) == build(rows[j]);
    }
    forall i | 0 <= i < |rows|
      ensures ds[i].staff in staff && ds[i].event == event
    {
      assert Some(ds[i]) == build(rows[i]) && key(rows[i]).Some?;
    }
  }

  lemma StaffInserted(t: Tables, members: seq<Staff>)
    requires Sound(t) && DistinctStaff(members) && !StaffClash(t.staff, members)
    requires forall s :: s in members ==> s.department in t.departments && s.residence in t.districts
    ensures Sound(t.(staff := t.staff + members))
  {
    assert KnownStaff(t.staff) <= KnownStaff(t.staff + members);
    var u := t.(staff := t.staff + members);
    forall e | e in u.assignments ensures RowsSound(u, e) {
      assert RowsSound(t, e);
    }
  }

  lemma KeepsFacilities(facilities: seq<Facility>, fs: seq<Facility>)
    ensures forall id :: HasFacility(facilities, id) ==> HasFacility(facilities + fs, id)
  {
    forall id | HasFacility(facilities, id)
      ensures HasFacility(facilities + fs, id)
    {
      var f :| f in facilities && f.id == id;
      assert f in facilities + fs;
    }
  }

  lemma FacilitiesInserted(t: Tables, fs: seq<Facility>)
    requires Sound(t) && DistinctFacilities(fs) && !FacilityClash(t.facilities, fs)
    requires forall f :: f in fs ==> f.district in t.districts && FacilityFits(f.headcount, f.requirements)
    ensures Sound(t.(facilities := t.facilities + fs))
  {
    var u := t.(facilities := t.facilities + fs);
    forall e | e in u.assignments ensures RowsSound(u, e) {
      assert RowsSound(t, e);
      KeepsFacilities(t.facilities, fs);
    }
  }

  /** Rows stay sound while people and facilities stay and their events are not deleted. */
  lemma OthersKept(t: Tables, u: Tables)
    requires AssignmentsSound(t) && u.staff == t.staff && u.facilities == t.facilities
    requires forall e :: e in u.assignments ==>
               e in t.assignments && u.assignments[e] == t.assignments[e] && e in u.events
    ensures AssignmentsSound(u)
  {
    forall e | e in u.assignments ensures RowsSound(u, e) {
      assert RowsSound(t, e);
    }
  }

  lemma DeclarationsInserted(t: Tables, ds: seq<Declaration>)
    requires Sound(t) && UniqueInstants(ds) && !InstantClash(t.declarations, ds)
    requires forall d :: d in ds ==> d.staff in KnownStaff(t.staff) && d.event in t.events
    ensures Sound(t.(declarations := t.declarations + ds))
  {
    OthersKept(t, t.(declarations := t.declarations + ds));
  }

  /** Deleting an event takes its declarations and assignments along. */
  function OfOthers(ds: seq<Declaration>, event: EventId): (r: seq<Declaration>)
    ensures forall d :: d in r <==> d in ds && d.event != event
  {
    if ds == [] then []
    else
      var last := ds[|ds| - 1];
      assert ds == ds[..|ds| - 1] + [last];
      OfOthers(ds[..|ds| - 1], event) + if last.event != event then [last] else []
  }

  lemma {:induction false} OfOthersUnique(ds: seq<Declaration>, event: EventId)
    requires UniqueInstants(ds)
    ensures UniqueInstants(OfOthers(ds, event))
  {
    if ds != [] {
      var rest, last := ds[..|ds| - 1], ds[|ds| - 1];
      OfOthersUnique(rest, event);
      forall i | 0 <= i < |OfOthers(rest, event)|
        ensures var d := OfOthers(rest, event)[i];
                !(d.staff == last.staff && d.event == last.event && d.at == last.at)
      {
        assert OfOthers(rest, event)[i] in OfOthers(rest, event);
        var k :| 0 <= k < |rest| && rest[k] == OfOthers(rest, event)[i];
        assert ds[k] == rest[k];
      }
    }
  }

  function WithoutEvent(t: Tables, event: EventId): Tables {
    t.(events := t.events - {event},
       declarations := OfOthers(t.declarations, event),
       assignments := t.assignments - {event})
  }

  lemma EventDeleted(t: Tables, event: EventId)
    requires Sound(t)
    ensures Sound(WithoutEvent(t, event))
  {
    forall e | e in t.assignments ensures e in t.events {
      assert RowsSound(t, e);
    }
    OthersKept(t, WithoutEvent(t, event));
    OfOthersUnique(t.declarations, event);
  }

  // ----- The store -----

  class Database {
    const distances: DistanceStore
    var departments: set<DepartmentId>
    var staff: seq<Staff>
    var facilities: seq<Facility>
    var events: map<EventId, EventStatus>
    var declarations: seq<Declaration>
    var assignments: map<EventId, seq<Assignment>>

    function View(): Tables
      reads this, distances
    {
      Tables(departments, DistrictIds(distances.master), staff, facilities, events, declarations, assignments)
    }

    ghost predicate Valid()
      reads this, distances
    {
      distances.Valid() && Sound(View())
    }

    constructor (dist: Distance)
      ensures Valid() && fresh(distances) && distances.dist == dist
      ensures View() == Tables({}, {}, [], [], map[], [], map[])
    {
      distances := new DistanceStore(dist);
      departments, staff, facilities, events, declarations, assignments := {}, [], [], map[], [], map[];
    }

    method SaveDepartments(ids: seq<DepartmentId>) returns (saved: bool)
      requires Valid()
      modifies this`departments
      ensures Valid()
      ensures saved <==> && (forall i, j :: 0 <= i < j < |ids| ==> ids[i] != ids[j])
                         && forall i :: 0 <= i < |ids| ==> ids[i] !in old(departments)
      ensures departments == if saved then old(departments) + (set d | d in ids) else old(departments)
    {
      saved := (forall i, j :: 0 <= i < j < |ids| ==> ids[i] != ids[j])
               && forall i :: 0 <= i < |ids| ==> ids[i] !in departments;
      if saved {
        departments := departments + set d | d in ids;
      }
    }

    method ImportDistricts(rows: seq<DistrictRow>, fails: bool) returns (outcome: Outcome)
      requires Valid()
      modifies distances`master, distances`cache
      ensures Valid()
      ensures outcome.Rejected? <==> !GoodRows(rows, RowId, BuildDistrict)
      ensures outcome.Imported? <==>
                GoodRows(rows, RowId, BuildDistrict) && !fails
                && !IdsClash(old(distances.master), Built(rows, BuildDistrict))
      ensures outcome.Imported? ==> distances.master == old(distances.master) + Built(rows, BuildDistrict)
      ensures !outcome.Imported? ==>
                distances.master == old(distances.master) && distances.cache == old(distances.cache)
    {
      outcome := distances.Import(rows, fails);
      assert DistrictIds(old(distances.master)) <= DistrictIds(distances.master);
    }

    method ImportStaff(rows: seq<StaffRow>) returns (outcome: Outcome)
      requires Valid()
      modifies this`staff
      ensures Valid()
      ensures var build := BuildStaff(departments, DistrictIds(distances.master));
              && (outcome.Rejected? <==> !GoodRows(rows, StaffKey, build))
              && (outcome.Imported? <==> GoodRows(rows, StaffKey, build) && !StaffClash(old(staff), Built(rows, build)))
              && staff == if outcome.Imported? then old(staff) + Built(rows, build) else old(staff)
    {
      var build := BuildStaff(departments, DistrictIds(distances.master));
      var members, errors := CheckRows(rows, StaffKey, build);
      if errors != [] {
        return Rejected(errors);
      }
      if StaffClash(staff, members) {
        return RolledBack;
      }
      BuiltStaff(rows, departments, DistrictIds(distances.master));
      StaffInserted(View(), members);
      staff := staff + members;
      outcome := Imported(|members|);
    }

    method ImportFacilities(rows: seq<FacilityRow>) returns (outcome: Outcome)
      requires Valid()
      modifies this`facilities
      ensures Valid()
      ensures var build := BuildFacility(DistrictIds(distances.master));
              && (outcome.Rejected? <==> !GoodRows(rows, FacilityKey, build))
              && (outcome.Imported? <==>
                   GoodRows(rows, FacilityKey, build) && !FacilityClash(old(facilities), Built(rows, build)))
              && facilities == if outcome.Imported? then old(facilities) + Built(rows, build) else old(facilities)
    {
      var build := BuildFacility(DistrictIds(distances.master));
      var fs, errors := CheckRows(rows, FacilityKey, build);
      if errors != [] {
        return Rejected(errors);
      }
      if FacilityClash(facilities, fs) {
        return RolledBack;
      }
      BuiltFacilities(rows, DistrictIds(distances.master));
      FacilitiesInserted(View(), fs);
      facilities := facilities + fs;
      outcome := Imported(|fs|);
    }

    /** An event id used before starts empty: deletion left nothing behind. */
    method CreateEvent(event: EventId) returns (created: bool)
      requires Valid()
      modifies this`events
      ensures Valid()
      ensures created <==> event !in old(events)
      ensures events == if created then old(events)[event := Draft] else old(events)
      ensures created ==> event !in assignments && forall d :: d in declarations ==> d.event != event
    {
      created := event !in events;
      assert event in assignments ==> RowsSound(View(), event);
      if created {
        events := events[event := Draft];
      }
    }

    method Transition(event: EventId, target: EventStatus) returns (changed: bool)
      requires Valid()
      modifies this`events
      ensures Valid()
      ensures changed <==> event in old(events) && target in Allowed(old(events)[event])
                           && !(old(events)[event].Draft? && target.CollectingDeclarations? && facilities == [])
      ensures events == if changed then old(events)[event := target] else old(events)
    {
      if event !in events {
        return false;
      }
      var status := events[event];
      if status == Draft && target == CollectingDeclarations && |facilities| < 1 {
        return false;
      }
      changed := target in Allowed(status);
      if changed {
        events := events[event := target];
      }
    }

    /** A confirmed event stays; any other takes its declarations and assignments with it. */
    method DeleteEvent(event: EventId) returns (refused: bool)
      requires Valid()
      modifies this`events, this`declarations, this`assignments
      ensures Valid()
      ensures refused <==> event in old(events) && old(events)[event] == Confirmed
      ensures View() == if refused then old(View()) else WithoutEvent(old(View()), event)
    {
      if event !in events {
        NothingToDelete(declarations, event);
        assert event in assignments ==> RowsSound(View(), event);
        assert events - {event} == events && assignments - {event} == assignments;
        return false;
      }
      refused := events[event] == Confirmed;
      if !refused {
        EventDeleted(View(), event);
        events := events - {event};
        declarations := OfOthers(declarations, event);
        assignments := assignments - {event};
      }
    }

    method ImportDeclarations(event: EventId, rows: seq<DeclarationRow>) returns (outcome: Outcome)
      requires Valid()
      modifies this`declarations
      ensures Valid()
      ensures var key, build := DeclarationKey(KnownStaff(staff)), BuildDeclaration(event);
              && (outcome.Rejected? <==> !GoodRows(rows, key, build))
              && (outcome.Imported? <==> GoodRows(rows, key, build) && (rows == [] || event in events)
                                         && !InstantClash(old(declarations), Built(rows, build)))
              && declarations == if outcome.Imported? then old(declarations) + Built(rows, build) else old(declarations)
    {
      var key, build := DeclarationKey(KnownStaff(staff)), BuildDeclaration(event);
      var ds, errors := CheckRows(rows, key, build);
      if errors != [] {
        return Rejected(errors);
      }
      if (ds != [] && event !in events) || InstantClash(declarations, ds) {
        BuiltDeclarations(rows, KnownStaff(staff), event);
        return RolledBack;
      }
      BuiltDeclarations(rows, KnownStaff(staff), event);
      DeclarationsInserted(View(), ds);
      declarations := declarations + ds;
      outcome := Imported(|ds|);
    }
  }

  lemma {:induction false} NothingToDelete(ds: seq<Declaration>, event: EventId)
    requires forall d :: d in ds ==> d.event != event
    ensures OfOthers(ds, event) == ds
  {
    if ds != [] {
      TakeOneMore(ds, |ds|);
      TakeAll(ds);
      assert ds[|ds| - 1] in ds;
      NothingToDelete(ds[..|ds| - 1], event);
    }
  }
}
