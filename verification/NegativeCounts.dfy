/** A negative required count, imported: the staged solve then ends in a diagnosis although a
    complete assignment exists and one shortfall would do. */
module NegativeCounts {
  import opened Agreement
  import opened Counting
  import opened CpSat
  import opened CsvCells
  import opened CsvImport
  import opened Decimals
  import opened Diagnosis
  import opened Domain
  import opened Guarantees
  import opened MasterData
  import opened Model
  import opened Optima
  import opened Scaling
  import opened Service
  import opened SolverPort
  import opened Validation

  const REQUIREMENTS := [
    QualificationRequirement(NeedsQualification(DisasterPreventionSpecialist), 1),
    QualificationRequirement(NeedsPosition(Manager), -1)]

  const POST := Facility("F", "R", 1, REQUIREMENTS)
  const CLERK := Staff("a", "D", Clerical, General, "R", {})

  /** The facility as a row of a CSV file. */
  function Row(table: DigitTable): FacilityRow {
    FacilityRow("F", "R", Some(1), ParseItems(SplitList(RequirementCell(REQUIREMENTS)), table))
  }

  lemma RequirementsFit()
    ensures FacilityFits(1, REQUIREMENTS)
  {
    assert REQUIREMENTS[..1][..0] == [];
    assert TotalCount(REQUIREMENTS[..1]) == 1;
  }

  /** The import takes the row as it is: its cell reads back and the facility is built. */
  lemma NegativeCountIsImported(table: DigitTable)
    requires IsDigitTable(table)
    ensures GoodRows([Row(table)], FacilityKey, BuildFacility({"R"}))
    ensures Built([Row(table)], BuildFacility({"R"})) == [POST]
  {
    var build := BuildFacility({"R"});
    RequirementsFit();
    RequirementCellRoundTrip(REQUIREMENTS, table);
    hide RequirementCell, SplitList, ParseItems;
    assert build(Row(table)) == Some(POST);
    assert GoodRow([Row(table)], FacilityKey, build, 0);
    assert [Row(table)][..0] == [];
  }

  /** That facility and one clerk without qualifications. */
  function Stuck(): Problem {
    Problem("E", [POST], [CLERK], map[("a", "F") := TravelMetrics(0.0, 0, 0.0)],
      Parameters(Weights(1.0, 0.0, 0.0), 1), [])
  }

  lemma StuckIsWellFormed()
    ensures WellFormed(Stuck()) && NonNegativeTravel(Stuck()) && !NonNegativeCounts(Stuck())
    ensures Check(Stuck(), Stuck().pins, false, false) == []
  {
    var p := Stuck();
    assert POST in p.facilities && REQUIREMENTS[1] in POST.requirements;
    assert WellFormed(p) && NonNegativeTravel(p) && !NonNegativeCounts(p);
    assert p.pins == [] && p.parameters.Valid() && forall f :: f in p.facilities ==> f.headcount >= 1;
    hide *;
    NoPinsNoViolation(p);
  }

  lemma StuckIsFillable()
    ensures Fillable(Stuck())
  {
    var p, S := Stuck(), {("a", "F")};
    AllPairsMembers([CLERK], [POST], ("a", "F"));
    assert CLERK in [CLERK] && POST in [POST];
    assert Where(S, AtFacility("F")) == S;
    forall s: StaffId ensures |Where(S, OfStaff(s))| <= 1 {
      SubsetSize(Where(S, OfStaff(s)), S);
    }
    forall d: DepartmentId ensures |Where(S, InDepartment(Directory(p.availableStaff), d))| <= 1 {
      SubsetSize(Where(S, InDepartment(Directory(p.availableStaff), d)), S);
    }
    assert SetHard(p, S) && SetPins(p, S);
  }

  lemma StuckIsNotFull()
    ensures !FullyFillable(Stuck())
  {
    var p := Stuck();
    forall S: set<Pair>
      ensures !SetC3(p, S)
    {
      assert POST in p.facilities && REQUIREMENTS[0] in POST.requirements;
      assert Where(S, Fills(Directory(p.availableStaff), "F", REQUIREMENTS[0].requirement)) == {};
      assert !SetFilled(p, S, "F", REQUIREMENTS[0]);
    }
  }

  /** Dropping C3 rescues the problem, demoting it does not. */
  lemma DemotionCanFail()
    ensures WellFormed(Stuck()) && NonNegativeTravel(Stuck()) && Fillable(Stuck()) && !FullyFillable(Stuck())
    ensures WellFormedModel(ModelOf(Stuck(), true, true)) && WellFormedModel(ModelOf(Stuck(), false, false))
    ensures Solvable(ModelOf(Stuck(), false, false)) && !Solvable(ModelOf(Stuck(), true, true))
  {
    StuckIsWellFormed();
    StuckIsFillable();
    StuckIsNotFull();
    hide *;
    DemotedSolvable(Stuck());
    RelaxedSolvable(Stuck());
  }

  /** The solve blames a hard constraint although the capped departments cover the
      requirement: there are enough people and no cap is in the way. */
  lemma StuckIsDiagnosed(r: Result<Answer, Refusal>)
    requires WellFormed(Stuck()) && Staged(Stuck(), r)
    ensures r.Ok? && r.value.Diagnosed? && r.value.diagnosis.cause.HardConstraint?
    ensures TotalRequired(Stuck().facilities) <= CappedCapacity(Stuck()) <= |Stuck().availableStaff|
  {
    StuckIsWellFormed();
    StuckIsFillable();
    StuckIsNotFull();
    hide *;
    FillableIffCapped(Stuck());
    CappedAtMostStaff(Stuck());
    DiagnosisMeans(Stuck(), r);
  }
}
