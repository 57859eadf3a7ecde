/** The manual edit of a stored assignment: remove, add, validate, save. */
module ManualEdit {
  import opened Agreement
  import opened Counting
  import opened DistanceCache
  import opened Domain
  import opened MasterData
  import opened Model
  import opened ProblemBuilder
  import opened TravelCost
  import opened Validation

  function Without(rows: seq<Assignment>, staff: StaffId): seq<Assignment> {
    if rows == [] then []
    else
      var last := rows[|rows| - 1];
      Without(rows[..|rows| - 1], staff) + if last.staff != staff then [last] else []
  }

  /** The stored rows with one staff member's row replaced; a pin is lost on the way. */
  function Edited(rows: seq<Assignment>, event: EventId, staff: StaffId, facility: FacilityId): seq<Assignment> {
    Without(rows, staff) + [Assignment(event, staff, facility, false)]
  }

  function Replaced(
      stored: map<EventId, seq<Assignment>>, event: EventId, rows: seq<Assignment>): map<EventId, seq<Assignment>> {
    if rows == [] then stored - {event} else stored[event := rows]
  }

  lemma RowsReplaced(t: Tables, event: EventId, rows: seq<Assignment>)
    requires Sound(t) && OneRowPerStaff(rows) && References(t, event, rows)
    ensures Sound(t.(assignments := Replaced(t.assignments, event, rows)))
  {
    var u := t.(assignments := Replaced(t.assignments, event, rows));
    forall e | e in u.assignments ensures RowsSound(u, e) {
      assert e != event ==> RowsSound(t, e);
    }
  }

  lemma EditedIsStored(
      stored: map<EventId, seq<Assignment>>, rows: seq<Assignment>, event: EventId, staff: StaffId,
      facility: FacilityId)
    ensures var edited := Edited(rows, event, staff, facility);
            Replaced(stored, event, edited) == stored[event := edited]
  {
  }

  datatype EditError = NoEvent | Violates(violations: seq<Violation>) | SaveFailed

  class EditService {
    const db: Database

    constructor (db: Database)
      ensures this.db == db
    {
      this.db := db;
    }

    function Load(event: EventId): seq<Assignment>
      reads this, db
    {
      if event in db.assignments then db.assignments[event] else []
    }

    ghost predicate Valid()
      reads this, db, db.distances
    {
      db.Valid()
    }

    /** Replace an event's rows in one transaction: key and references are checked. */
    method Save(event: EventId, rows: seq<Assignment>) returns (saved: bool)
      requires Valid()
      modifies db`assignments
      ensures Valid()
      ensures saved <==> OneRowPerStaff(rows) && References(db.View(), event, rows)
      ensures db.assignments == if saved then Replaced(old(db.assignments), event, rows) else old(db.assignments)
    {
      saved := OneRowPerStaff(rows) && References(db.View(), event, rows);
      if saved {
        RowsReplaced(db.View(), event, rows);
        db.assignments := Replaced(db.assignments, event, rows);
      }
    }

    /** Hold an edited set to every hard constraint of the problem rebuilt from the store. */
    method Judge(event: EventId, edited: seq<Assignment>, parameters: Parameters, travel: TravelParameters)
      returns (problem: Option<Problem>, violations: seq<Violation>)
      requires Valid() && NonNegative(db.distances.dist) && parameters.Valid() && travel.Valid()
      ensures problem.Some? <==> event in db.events
      ensures problem.Some? ==> WellFormed(problem.value) && problem.value.facilities == db.facilities
      ensures problem.Some? ==> violations == Validate(problem.value, edited)
      ensures problem.Some? && violations == [] ==> OneRowPerStaff(edited) && References(db.View(), event, edited)
    {
      var built := BuildProblem(db, event, parameters, travel, false, []);
      if built.Err? {
        return None, [];
      }
      problem := Some(built.value);
      violations := CheckAssignments(built.value, edited, true, true);
      if violations == [] {
        CheckIsClean(built.value, PairsOf(edited), true, true);
        CleanIsStorable(built.value, db.View(), event, edited);
      }
    }

    /** `patch_assignment`: an accepted edit can always be saved, and what is stored then
        violates nothing. */
    method Patch(event: EventId, staff: StaffId, facility: FacilityId, parameters: Parameters, travel: TravelParameters)
      returns (r: Result<seq<Assignment>, EditError>, ghost problem: Option<Problem>)
      requires Valid() && NonNegative(db.distances.dist) && parameters.Valid() && travel.Valid()
      modifies db`assignments
      ensures Valid()
      ensures problem.Some? <==> event in db.events
      ensures problem.Some? ==> WellFormed(problem.value) && problem.value.facilities == db.facilities
      ensures r.Ok? <==>
                problem.Some? && Validate(problem.value, Edited(old(Load(event)), event, staff, facility)) == []
      ensures r.Ok? ==> r.value == Edited(old(Load(event)), event, staff, facility)
      ensures r.Ok? ==> Validate(problem.value, r.value) == []
      ensures r.Ok? ==> db.assignments == old(db.assignments)[event := r.value]
      ensures r.Err? ==> db.assignments == old(db.assignments) && r.error != SaveFailed
    {
      hide *;
      var edited := Edited(Load(event), event, staff, facility);
      EditedIsStored(db.assignments, Load(event), event, staff, facility);
      var built, violations := Judge(event, edited, parameters, travel);
      problem := built;
      if built.None? {
        return Err(NoEvent), problem;
      }
      if violations != [] {
        return Err(Violates(violations)), problem;
      }
      var saved := Save(event, edited);
      r := if saved then Ok(edited) else Err(SaveFailed);
    }
  }

  // ----- A clean set can be stored -----

  lemma {:induction false} RepeatIsCounted(ps: seq<Pair>, i: nat, j: nat)
    requires i < j < |ps| && ps[i].0 == ps[j].0
    ensures CountIf(ps, OfStaff(ps[i].0)) > 1
  {
    var rest := ps[..|ps| - 1];
    if j < |rest| {
      RepeatIsCounted(rest, i, j);
    } else {
      CountPositive(rest, OfStaff(ps[i].0));
      assert rest[i] in rest;
    }
  }

  lemma CleanIsStorable(p: Problem, t: Tables, event: EventId, rows: seq<Assignment>)
    requires Clean(p, PairsOf(rows), true, true)
    requires p.facilities == t.facilities && event in t.events
    requires forall s :: s in p.availableStaff ==> s in t.staff
    ensures OneRowPerStaff(rows) && References(t, event, rows)
  {
    var ps := PairsOf(rows);
    forall i, j | 0 <= i < j < |rows|
      ensures rows[i].staff != rows[j].staff
    {
      assert CountIf(ps, OfStaff(ps[i].0)) <= 1;
      if ps[i].0 == ps[j].0 {
        RepeatIsCounted(ps, i, j);
      }
    }
    forall a | a in rows
      ensures a.staff in KnownStaff(t.staff) && HasFacility(t.facilities, a.facility)
    {
      var i :| 0 <= i < |rows| && rows[i] == a;
      assert ps[i] in ps;
      var k :| 0 <= k < |p.facilities| && FacilityIds(p.facilities)[k] == a.facility;
      assert p.facilities[k] in t.facilities;
    }
  }

  // ----- What an edit can change once every headcount is met -----

  ghost predicate AllFilled(facilities: seq<Facility>, ps: seq<Pair>) {
    forall f :: f in facilities ==> HeadcountOk(f, ps, true)
  }

  lemma PairsOfAppend(rows: seq<Assignment>, a: Assignment)
    ensures PairsOf(rows + [a]) == PairsOf(rows) + [a.Pair()]
  {
  }

  /** Removing a staff member who is not at f leaves f's count alone. */
  lemma {:induction false} RemovalElsewhere(rows: seq<Assignment>, staff: StaffId, f: FacilityId)
    requires (staff, f) !in PairsOf(rows)
    ensures CountIf(PairsOf(Without(rows, staff)), AtFacility(f)) == CountIf(PairsOf(rows), AtFacility(f))
  {
    if rows != [] {
      var rest, last := rows[..|rows| - 1], rows[|rows| - 1];
      PairsOfLast(rows);
      RemovalElsewhere(rest, staff, f);
      CountAppend(PairsOf(rest), last.Pair(), AtFacility(f));
      if last.staff == staff {
        assert Without(rows, staff) == Without(rest, staff);
        assert last.facility != f by { assert PairsOf(rows)[|rows| - 1] == last.Pair(); }
      } else {
        PairsOfAppend(Without(rest, staff), last);
        CountAppend(PairsOf(Without(rest, staff)), last.Pair(), AtFacility(f));
      }
    }
  }

  lemma PairsOfLast(rows: seq<Assignment>)
    requires rows != []
    ensures PairsOf(rows) == PairsOf(rows[..|rows| - 1]) + [rows[|rows| - 1].Pair()]
    ensures forall pr :: pr in PairsOf(rows[..|rows| - 1]) ==> pr in PairsOf(rows)
  {
  }

  lemma CountAppend(ps: seq<Pair>, x: Pair, p: Pair -> bool)
    ensures CountIf(ps + [x], p) == CountIf(ps, p) + if p(x) then 1 else 0
  {
    assert (ps + [x])[..|ps|] == ps;
  }

  lemma {:induction false} WithoutAbsent(rows: seq<Assignment>, staff: StaffId)
    requires forall a :: a in rows ==> a.staff != staff
    ensures Without(rows, staff) == rows
  {
    if rows != [] {
      var rest, last := rows[..|rows| - 1], rows[|rows| - 1];
      assert Without(rows, staff) == Without(rest, staff) + if last.staff != staff then [last] else [];
      hide *;
      assert rows == rest + [last];
      assert last in rows && forall a :: a in rest ==> a in rows;
      WithoutAbsent(rest, staff);
    }
  }

  /** Putting a staff member back where they were only reorders the pairs. */
  lemma {:induction false} ReplacingInPlace(rows: seq<Assignment>, staff: StaffId, f: FacilityId)
    requires OneRowPerStaff(rows) && (staff, f) in PairsOf(rows)
    ensures multiset(PairsOf(Without(rows, staff)) + [(staff, f)]) == multiset(PairsOf(rows))
  {
    var rest, last := rows[..|rows| - 1], rows[|rows| - 1];
    PairsOfLast(rows);
    if last.staff == staff {
      LastIsReplaced(rows, staff, f);
    } else {
      assert Without(rows, staff) == Without(rest, staff) + [last];
      hide *;
      ReplacingInPlace(rest, staff, f);
      PairsOfAppend(Without(rest, staff), last);
      SwapLast(PairsOf(Without(rest, staff)), last.Pair(), (staff, f), PairsOf(rest));
    }
  }

  lemma LastIsReplaced(rows: seq<Assignment>, staff: StaffId, f: FacilityId)
    requires OneRowPerStaff(rows) && (staff, f) in PairsOf(rows) && rows[|rows| - 1].staff == staff
    ensures PairsOf(Without(rows, staff)) + [(staff, f)] == PairsOf(rows)
  {
    var rest := rows[..|rows| - 1];
    PairsOfLast(rows);
    WithoutAbsent(rest, staff);
    assert Without(rows, staff) == rest;
    var i :| 0 <= i < |rows| && PairsOf(rows)[i] == (staff, f);
    assert rows[i].staff == staff;
    assert i == |rows| - 1;
  }

  lemma SwapLast(ps: seq<Pair>, x: Pair, y: Pair, qs: seq<Pair>)
    requires multiset(ps + [y]) == multiset(qs)
    ensures multiset(ps + [x] + [y]) == multiset(qs + [x])
  {
  }

  /** Constraints count pairs, so their order does not matter. */
  lemma CleanReorder(p: Problem, ps: seq<Pair>, qs: seq<Pair>)
    requires multiset(ps) == multiset(qs) && Clean(p, ps, true, true)
    ensures Clean(p, qs, true, true)
  {
    var dir := Directory(p.availableStaff);
    SameCounts(ps, qs);
    forall pr | pr in qs
      ensures pr in ps
    {
      assert pr in multiset(qs);
    }
    forall f | f in p.facilities
      ensures HeadcountOk(f, qs, true)
    {
      assert HeadcountOk(f, ps, true);
      assert CountIf(ps, AtFacility(f.id)) == CountIf(qs, AtFacility(f.id));
    }
    forall s: StaffId ensures CountIf(qs, OfStaff(s)) <= 1 {
      assert CountIf(ps, OfStaff(s)) == CountIf(qs, OfStaff(s));
    }
    forall d: DepartmentId ensures CountIf(qs, InDepartment(dir, d)) <= p.parameters.departmentCap {
      assert CountIf(ps, InDepartment(dir, d)) == CountIf(qs, InDepartment(dir, d));
    }
    forall f, q | f in p.facilities && q in f.requirements
      ensures RequirementMet(dir, f.id, q, qs)
    {
      assert RequirementMet(dir, f.id, q, ps);
      assert CountIf(ps, Fills(dir, f.id, q.requirement)) == CountIf(qs, Fills(dir, f.id, q.requirement));
    }
  }

  lemma SameCounts(ps: seq<Pair>, qs: seq<Pair>)
    requires multiset(ps) == multiset(qs)
    ensures forall p: Pair -> bool {:trigger CountIf(ps, p)} {:trigger CountIf(qs, p)} ::
              CountIf(ps, p) == CountIf(qs, p)
  {
    forall p: Pair -> bool
      ensures CountIf(ps, p) == CountIf(qs, p)
    {
      CountMonotone(ps, qs, p);
      CountMonotone(qs, ps, p);
    }
  }

  /** From exact headcounts an edit is accepted if and only if it puts the staff member where
      they already are and nothing was violated: it never moves anybody. */
  lemma ExactHeadcountsFreeze(p: Problem, rows: seq<Assignment>, event: EventId, staff: StaffId, facility: FacilityId)
    requires p.parameters.Valid() && OneRowPerStaff(rows)
    requires AllFilled(p.facilities, PairsOf(rows))
    ensures Validate(p, Edited(rows, event, staff, facility)) == [] <==>
              (staff, facility) in PairsOf(rows) && Validate(p, rows) == []
    ensures Validate(p, Edited(rows, event, staff, facility)) == [] ==>
              multiset(PairsOf(Edited(rows, event, staff, facility))) == multiset(PairsOf(rows))
  {
    var edited := Edited(rows, event, staff, facility);
    var a := Assignment(event, staff, facility, false);
    PairsOfAppend(Without(rows, staff), a);
    CheckIsClean(p, PairsOf(edited), true, true);
    CheckIsClean(p, PairsOf(rows), true, true);
    if (staff, facility) in PairsOf(rows) {
      ReplacingInPlace(rows, staff, facility);
      if Validate(p, rows) == [] {
        CleanReorder(p, PairsOf(rows), PairsOf(edited));
      }
      if Validate(p, edited) == [] {
        CleanReorder(p, PairsOf(edited), PairsOf(rows));
      }
    } else {
      MoveOverfills(p, rows, event, staff, facility);
    }
  }

  lemma MoveOverfills(p: Problem, rows: seq<Assignment>, event: EventId, staff: StaffId, facility: FacilityId)
    requires AllFilled(p.facilities, PairsOf(rows)) && (staff, facility) !in PairsOf(rows)
    ensures !Clean(p, PairsOf(Edited(rows, event, staff, facility)), true, true)
  {
    var a := Assignment(event, staff, facility, false);
    var edited := PairsOf(Edited(rows, event, staff, facility));
    PairsOfAppend(Without(rows, staff), a);
    RemovalElsewhere(rows, staff, facility);
    CountAppend(PairsOf(Without(rows, staff)), a.Pair(), AtFacility(facility));
    assert a.Pair() in edited by { assert edited[|edited| - 1] == a.Pair(); }
    if facility in FacilityIds(p.facilities) {
      var k :| 0 <= k < |p.facilities| && FacilityIds(p.facilities)[k] == facility;
      assert HeadcountOk(p.facilities[k], PairsOf(rows), true);
      assert !HeadcountOk(p.facilities[k], edited, true);
    }
  }

  // ----- Runs of edits -----

  /** One edit request and the problem in force when it arrives. */
  datatype Request = Request(problem: Problem, staff: StaffId, facility: FacilityId)

  function AfterEdits(rows: seq<Assignment>, event: EventId, edits: seq<Request>): seq<Assignment> {
    if edits == [] then rows
    else
      var before, e := AfterEdits(rows, event, edits[..|edits| - 1]), edits[|edits| - 1];
      var edited := Edited(before, event, e.staff, e.facility);
      if Validate(e.problem, edited) == [] then edited else before
  }

  lemma {:induction false} WithoutKeepsOneRow(rows: seq<Assignment>, staff: StaffId)
    requires OneRowPerStaff(rows)
    ensures OneRowPerStaff(Without(rows, staff))
    ensures forall a :: a in Without(rows, staff) <==> a in rows && a.staff != staff
  {
    if rows != [] {
      var rest, last := rows[..|rows| - 1], rows[|rows| - 1];
      assert rows == rest + [last];
      WithoutKeepsOneRow(rest, staff);
      forall i | 0 <= i < |Without(rest, staff)|
        ensures Without(rest, staff)[i].staff != last.staff
      {
        assert Without(rest, staff)[i] in Without(rest, staff);
      }
    }
  }

  lemma EditedKeepsOneRow(rows: seq<Assignment>, event: EventId, staff: StaffId, facility: FacilityId)
    requires OneRowPerStaff(rows)
    ensures OneRowPerStaff(Edited(rows, event, staff, facility))
  {
    WithoutKeepsOneRow(rows, staff);
    assert forall i :: 0 <= i < |Without(rows, staff)| ==> Without(rows, staff)[i] in Without(rows, staff);
  }

  // ----- ... however declarations change and facilities are added in between -----

  /** Imports only add facilities. */
  ghost predicate PartOf(some: seq<Facility>, all: seq<Facility>) {
    forall f :: f in some ==> f in all
  }

  /** A complete assignment of these facilities: everybody at one of them, every headcount met. */
  ghost predicate Settled(facilities: seq<Facility>, rows: seq<Assignment>) {
    && OneRowPerStaff(rows)
    && AllFilled(facilities, PairsOf(rows))
    && forall pr :: pr in PairsOf(rows) ==> pr.1 in FacilityIds(facilities)
  }

  lemma PartIds(some: seq<Facility>, all: seq<Facility>, id: FacilityId) returns (f: Facility)
    requires PartOf(some, all) && id in FacilityIds(some)
    ensures f in some && f in all && f.id == id
  {
    var k :| 0 <= k < |some| && FacilityIds(some)[k] == id;
    f := some[k];
  }

  /** Taking a staff member away from where they are lowers that count by one. */
  lemma RemovalHere(rows: seq<Assignment>, staff: StaffId, f: FacilityId)
    requires OneRowPerStaff(rows) && (staff, f) in PairsOf(rows)
    ensures CountIf(PairsOf(Without(rows, staff)), AtFacility(f)) == CountIf(PairsOf(rows), AtFacility(f)) - 1
  {
    ReplacingInPlace(rows, staff, f);
    SameCounts(PairsOf(Without(rows, staff)) + [(staff, f)], PairsOf(rows));
    CountAppend(PairsOf(Without(rows, staff)), (staff, f), AtFacility(f));
    assert CountIf(PairsOf(Without(rows, staff)) + [(staff, f)], AtFacility(f))
        == CountIf(PairsOf(rows), AtFacility(f));
  }

  lemma EditedCount(rows: seq<Assignment>, event: EventId, staff: StaffId, facility: FacilityId, f: FacilityId)
    ensures CountIf(PairsOf(Edited(rows, event, staff, facility)), AtFacility(f))
         == CountIf(PairsOf(Without(rows, staff)), AtFacility(f)) + if f == facility then 1 else 0
  {
    PairsOfAppend(Without(rows, staff), Assignment(event, staff, facility, false));
    CountAppend(PairsOf(Without(rows, staff)), (staff, facility), AtFacility(f));
  }

  /** A facility that was exactly filled and still is has the same count. */
  lemma CountKept(base: seq<Facility>, all: seq<Facility>, ps: seq<Pair>, qs: seq<Pair>, id: FacilityId)
    requires PartOf(base, all) && id in FacilityIds(base)
    requires AllFilled(base, ps) && AllFilled(all, qs)
    ensures CountIf(qs, AtFacility(id)) == CountIf(ps, AtFacility(id))
  {
    var f := PartIds(base, all, id);
    assert HeadcountOk(f, ps, true) && HeadcountOk(f, qs, true);
  }

  /** A new pair can only be somebody unassigned at a facility that was not there before. */
  lemma NewPairIsNewPlace(
      p: Problem, base: seq<Facility>, rows: seq<Assignment>, event: EventId, staff: StaffId, facility: FacilityId)
    requires Settled(base, rows) && PartOf(base, p.facilities)
    requires (staff, facility) !in PairsOf(rows)
    requires AllFilled(p.facilities, PairsOf(Edited(rows, event, staff, facility)))
    ensures facility !in FacilityIds(base)
    ensures forall a :: a in rows ==> a.staff != staff
  {
    var edited := PairsOf(Edited(rows, event, staff, facility));
    if facility in FacilityIds(base) {
      RemovalElsewhere(rows, staff, facility);
      EditedCount(rows, event, staff, facility, facility);
      CountKept(base, p.facilities, PairsOf(rows), edited, facility);
    }
    forall i | 0 <= i < |rows|
      ensures rows[i].staff != staff
    {
      if rows[i].staff == staff {
        assert PairsOf(rows)[i] in PairsOf(rows);
        RemovalHere(rows, staff, rows[i].facility);
        EditedCount(rows, event, staff, facility, rows[i].facility);
        CountKept(base, p.facilities, PairsOf(rows), edited, rows[i].facility);
      }
    }
  }

  /** From a complete assignment an accepted edit leaves everybody where they are, even if
      facilities were added since; at most it puts somebody unassigned at an added one. */
  lemma EditMovesNobody(
      p: Problem, base: seq<Facility>, rows: seq<Assignment>, event: EventId, staff: StaffId, facility: FacilityId)
    requires p.parameters.Valid() && Settled(base, rows) && PartOf(base, p.facilities)
    requires Validate(p, Edited(rows, event, staff, facility)) == []
    ensures Settled(p.facilities, Edited(rows, event, staff, facility))
    ensures var ps, qs := PairsOf(rows), PairsOf(Edited(rows, event, staff, facility));
            && multiset(ps) <= multiset(qs)
            && (facility in FacilityIds(base) ==> multiset(ps) == multiset(qs))
            && (forall pr :: pr in qs ==> pr in ps || pr.1 !in FacilityIds(base))
  {
    var edited := Edited(rows, event, staff, facility);
    CheckIsClean(p, PairsOf(edited), true, true);
    assert AllFilled(p.facilities, PairsOf(edited));
    assert MembersOnly(Directory(p.availableStaff), FacilityIds(p.facilities), PairsOf(edited));
    EditedKeepsOneRow(rows, event, staff, facility);
    PairsOfAppend(Without(rows, staff), Assignment(event, staff, facility, false));
    if (staff, facility) in PairsOf(rows) {
      ReplacingInPlace(rows, staff, facility);
      SameMembers(PairsOf(rows), PairsOf(edited));
    } else {
      NewPairIsNewPlace(p, base, rows, event, staff, facility);
      WithoutAbsent(rows, staff);
    }
  }

  lemma SameMembers(ps: seq<Pair>, qs: seq<Pair>)
    requires multiset(ps) == multiset(qs)
    ensures forall pr :: pr in qs ==> pr in ps
  {
    forall pr | pr in qs ensures pr in ps {
      assert pr in multiset(qs);
    }
  }

  /** The facility lists of a run: each contains those before it. */
  ghost predicate Growing(facilities: seq<Facility>, edits: seq<Request>) {
    && (forall i :: 0 <= i < |edits| ==> PartOf(facilities, edits[i].problem.facilities))
    && (forall i, j :: 0 <= i < j < |edits| ==> PartOf(edits[i].problem.facilities, edits[j].problem.facilities))
  }

  /** The facility list of the last accepted edit. */
  function SettledList(
      rows: seq<Assignment>, event: EventId, facilities: seq<Facility>, edits: seq<Request>): seq<Facility> {
    if edits == [] then facilities
    else
      var before, e := AfterEdits(rows, event, edits[..|edits| - 1]), edits[|edits| - 1];
      if Validate(e.problem, Edited(before, event, e.staff, e.facility)) == [] then e.problem.facilities
      else SettledList(rows, event, facilities, edits[..|edits| - 1])
  }

  lemma {:induction false} SettledListIsEarlier(
      rows: seq<Assignment>, event: EventId, facilities: seq<Facility>, edits: seq<Request>)
    ensures var list := SettledList(rows, event, facilities, edits);
            list == facilities || exists i :: 0 <= i < |edits| && list == edits[i].problem.facilities
  {
    if edits != [] {
      SettledListIsEarlier(rows, event, facilities, edits[..|edits| - 1]);
    }
  }

  lemma SettledListWithin(rows: seq<Assignment>, event: EventId, facilities: seq<Facility>, edits: seq<Request>)
    requires edits != [] && Growing(facilities, edits)
    ensures Growing(facilities, edits[..|edits| - 1])
    ensures PartOf(SettledList(rows, event, facilities, edits[..|edits| - 1]), edits[|edits| - 1].problem.facilities)
    ensures PartOf(facilities, SettledList(rows, event, facilities, edits[..|edits| - 1]))
  {
    hide SettledList, AfterEdits, Validate, Edited;
    SettledListIsEarlier(rows, event, facilities, edits[..|edits| - 1]);
  }

  /** However declarations change and facilities are added between edits, everybody of a
      complete assignment stays where they were; only at an added facility can somebody be
      new, and without added facilities nobody is. */
  lemma {:induction false} NoRunOfEditsMovesAnyone(
      rows: seq<Assignment>, event: EventId, facilities: seq<Facility>, edits: seq<Request>)
    requires Settled(facilities, rows) && Growing(facilities, edits)
    requires forall e :: e in edits ==> e.problem.parameters.Valid()
    ensures var after := AfterEdits(rows, event, edits);
            && Settled(SettledList(rows, event, facilities, edits), after)
            && multiset(PairsOf(rows)) <= multiset(PairsOf(after))
            && (forall pr :: pr in PairsOf(after) ==> pr in PairsOf(rows) || pr.1 !in FacilityIds(facilities))
    ensures (forall e :: e in edits ==> e.problem.facilities == facilities) ==>
              multiset(PairsOf(AfterEdits(rows, event, edits))) == multiset(PairsOf(rows))
  {
    if edits != [] {
      var earlier, e := edits[..|edits| - 1], edits[|edits| - 1];
      var before, base := AfterEdits(rows, event, earlier), SettledList(rows, event, facilities, earlier);
      assert e in edits && forall d :: d in earlier ==> d in edits;
      SettledListWithin(rows, event, facilities, edits);
      NoRunOfEditsMovesAnyone(rows, event, facilities, earlier);
      if Validate(e.problem, Edited(before, event, e.staff, e.facility)) == [] {
        EditMovesNobody(e.problem, base, before, event, e.staff, e.facility);
        MoreIds(facilities, base);
        LastIsKnown(e.problem, before, event, e.staff, e.facility);
      }
      SettledListIsEarlier(rows, event, facilities, earlier);
    }
  }

  lemma MoreIds(some: seq<Facility>, all: seq<Facility>)
    requires PartOf(some, all)
    ensures forall id :: id in FacilityIds(some) ==> id in FacilityIds(all)
  {
    forall id | id in FacilityIds(some)
      ensures id in FacilityIds(all)
    {
      var f := PartIds(some, all, id);
      FacilityIdMember(all, id);
    }
  }

  lemma LastIsKnown(p: Problem, rows: seq<Assignment>, event: EventId, staff: StaffId, facility: FacilityId)
    requires p.parameters.Valid() && Validate(p, Edited(rows, event, staff, facility)) == []
    ensures facility in FacilityIds(p.facilities)
  {
    var edited := PairsOf(Edited(rows, event, staff, facility));
    CheckIsClean(p, edited, true, true);
    assert edited[|edited| - 1] == (staff, facility);
    assert (staff, facility) in edited;
  }

  // ----- It does happen: an added facility for one person takes somebody unassigned -----

  const HALL := Facility("G", "R", 1, [])
  const PLACE := Facility("F", "R", 1, [])
  const RESIDENT := Staff("b", "D", Clerical, General, "R", {})
  const PERSON := Staff("a", "D", Clerical, General, "R", {})

  function AtHall(): seq<Assignment> { [Assignment("E", "b", "G", false)] }

  function Added(): Problem {
    Problem("E", [HALL, PLACE], [RESIDENT, PERSON],
      map pr | pr in AllPairs([RESIDENT, PERSON], [HALL, PLACE]) :: TravelMetrics(0.0, 0, 0.0),
      Parameters(Weights(1.0, 0.0, 0.0), 2), [])
  }

  lemma OneCount(x: Pair, q: Pair -> bool)
    ensures CountIf([x], q) == if q(x) then 1 else 0
  {
    CountAppend([], x, q);
    assert [] + [x] == [x];
  }

  lemma TwoCount(x: Pair, y: Pair, q: Pair -> bool)
    ensures CountIf([x, y], q) == (if q(x) then 1 else 0) + if q(y) then 1 else 0
  {
    OneCount(x, q);
    CountAppend([x], y, q);
    assert [x] + [y] == [x, y];
  }

  lemma AddedIsComplete()
    ensures CompleteMatrix(Added())
  {
    var p := Added();
    forall s, f | s in p.availableStaff && f in p.facilities
      ensures (s.id, f.id) in p.travel
    {
      AllPairsMembers(p.availableStaff, p.facilities, (s.id, f.id));
    }
  }

  lemma AddedIsWellFormed()
    ensures WellFormed(Added()) && Added().parameters.Valid()
  {
    var p := Added();
    assert RESIDENT.id != PERSON.id && HALL.id != PLACE.id by {
      assert "b"[0] != "a"[0] && "G"[0] != "F"[0];
    }
    AddedIsComplete();
    hide CompleteMatrix, AllPairs;
  }

  lemma HallIsSettled()
    ensures Settled([HALL], AtHall())
  {
    assert PairsOf(AtHall()) == [("b", "G")];
    OneCount(("b", "G"), AtFacility("G"));
    assert FacilityIds([HALL])[0] == "G";
  }

  lemma AddedCounts(dir: map<StaffId, Staff>)
    ensures OnePlaceEach([("b", "G"), ("a", "F")]) && WithinCap(dir, 2, [("b", "G"), ("a", "F")])
    ensures HeadcountOk(HALL, [("b", "G"), ("a", "F")], true) && HeadcountOk(PLACE, [("b", "G"), ("a", "F")], true)
  {
    var ps := [("b", "G"), ("a", "F")];
    assert "b"[0] != "a"[0] && "G"[0] != "F"[0];
    hide CountIf;
    forall s: StaffId ensures CountIf(ps, OfStaff(s)) <= 1 {
      TwoCount(("b", "G"), ("a", "F"), OfStaff(s));
    }
    forall d: DepartmentId ensures CountIf(ps, InDepartment(dir, d)) <= 2 {
      TwoCount(("b", "G"), ("a", "F"), InDepartment(dir, d));
    }
    TwoCount(("b", "G"), ("a", "F"), AtFacility("G"));
    TwoCount(("b", "G"), ("a", "F"), AtFacility("F"));
  }

  lemma AddedMembers()
    ensures MembersOnly(Directory(Added().availableStaff), FacilityIds(Added().facilities), [("b", "G"), ("a", "F")])
  {
    var p := Added();
    assert RESIDENT in p.availableStaff && PERSON in p.availableStaff;
    assert FacilityIds(p.facilities)[0] == "G" && FacilityIds(p.facilities)[1] == "F";
  }

  lemma AddedIsClean()
    ensures Clean(Added(), [("b", "G"), ("a", "F")], true, true)
  {
    AddedMembers();
    AddedCounts(Directory(Added().availableStaff));
    hide MembersOnly, OnePlaceEach, WithinCap, HeadcountOk;
  }

  /** One hall, filled, with its person stored; a place for one is imported; the edit that
      sends somebody there is accepted. */
  lemma AddedPlaceIsTaken()
    ensures Settled([HALL], AtHall()) && PartOf([HALL], Added().facilities) && WellFormed(Added())
    ensures Validate(Added(), Edited(AtHall(), "E", "a", "F")) == []
  {
    HallIsSettled();
    AddedIsWellFormed();
    assert PartOf([HALL], Added().facilities);
    EditedHall();
    ValidateIsCheck(Added(), Edited(AtHall(), "E", "a", "F"));
    hide *;
    AddedIsClean();
    CheckIsClean(Added(), [("b", "G"), ("a", "F")], true, true);
  }

  lemma EditedHall()
    ensures PairsOf(Edited(AtHall(), "E", "a", "F")) == [("b", "G"), ("a", "F")]
  {
    assert "b"[0] != "a"[0];
    WithoutAbsent(AtHall(), "a");
  }

  lemma ValidateIsCheck(p: Problem, rows: seq<Assignment>)
    ensures Validate(p, rows) == CheckPairs(p, PairsOf(rows), true, true)
  {
  }
}
