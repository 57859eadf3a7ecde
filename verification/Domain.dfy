/** The shared vocabulary: staff, facilities, one event's assignment problem, and the
    violations a proposed assignment can have. */
module Domain {

  datatype Option<+T> = None | Some(value: T)

  datatype Result<+T, +E> = Ok(value: T) | Err(error: E)

  type StaffId = string
  type FacilityId = string
  type DepartmentId = string
  type DistrictId = string
  type EventId = string

  /** A decision variable's name: this staff member at this facility. */
  type Pair = (StaffId, FacilityId)

  datatype Qualification = DisasterPreventionSpecialist | EmergencyLifesavingTechnician

  datatype Position = Manager | General

  datatype JobType = Clerical | Technical | NurseryTeacher | PublicHealthNurse

  datatype Requirement =
    | NeedsQualification(qualification: Qualification)
    | NeedsPosition(position: Position)
    | NeedsJobType(jobType: JobType)

  /** The application sets `count` no lower bound: a negative count is representable. */
  datatype QualificationRequirement = QualificationRequirement(requirement: Requirement, count: int)

  datatype Staff = Staff(
    id: StaffId,
    department: DepartmentId,
    jobType: JobType,
    position: Position,
    residence: DistrictId,
    qualifications: set<Qualification>)

  datatype Facility = Facility(
    id: FacilityId,
    district: DistrictId,
    headcount: int,
    requirements: seq<QualificationRequirement>)

  datatype TravelMetrics = TravelMetrics(distanceKm: real, timeSeconds: int, costYen: real)

  datatype Weights = Weights(travelTime: real, travelCost: real, inequity: real)
  {
    predicate Valid() {
      && travelTime >= 0.0 && travelCost >= 0.0 && inequity >= 0.0
      && !(travelTime == 0.0 && travelCost == 0.0 && inequity == 0.0)
    }

    function Sum(): real { travelTime + travelCost + inequity }
  }

  datatype Parameters = Parameters(weights: Weights, departmentCap: int)
  {
    predicate Valid() {
      weights.Valid() && departmentCap > 0
    }
  }

  datatype Assignment = Assignment(event: EventId, staff: StaffId, facility: FacilityId, pinned: bool)
  {
    function Pair(): Pair { (staff, facility) }
  }

  datatype Problem = Problem(
    event: EventId,
    facilities: seq<Facility>,
    availableStaff: seq<Staff>,
    travel: map<Pair, TravelMetrics>,
    parameters: Parameters,
    pins: seq<Assignment>)

  datatype ConstraintId = C1 | C2 | C3 | C4 | C5

  datatype Detail =
    | StaffNotAvailable
    | FacilityNotInEvent
    | StaffAtSeveralFacilities
    | AboveHeadcount(count: int, headcount: int)
    | BelowHeadcount(count: int, headcount: int)
    | DepartmentOverCap(count: int, cap: int)
    | RequirementShort(matching: int, required: int, requirement: Requirement)
    | QualificationShortfall

  datatype Violation = Violation(
    constraint: ConstraintId,
    detail: Detail,
    facility: Option<FacilityId>,
    staff: Option<StaffId>)

  /** Who may fill a requirement: holding the qualification, the position or the job type. */
  predicate IsEligible(s: Staff, r: Requirement) {
    match r
    case NeedsQualification(q) => q in s.qualifications
    case NeedsPosition(p) => s.position == p
    case NeedsJobType(j) => s.jobType == j
  }

  function TotalCount(qs: seq<QualificationRequirement>): int {
    if qs == [] then 0 else TotalCount(qs[..|qs| - 1]) + qs[|qs| - 1].count
  }

  function PairsOf(assignments: seq<Assignment>): (ps: seq<Pair>)
    ensures |ps| == |assignments|
    ensures forall i :: 0 <= i < |ps| ==> ps[i] == assignments[i].Pair()
  {
    seq(|assignments|, i requires 0 <= i < |assignments| => assignments[i].Pair())
  }

  function FacilityIds(facilities: seq<Facility>): (ids: seq<FacilityId>)
    ensures |ids| == |facilities|
    ensures forall i :: 0 <= i < |ids| ==> ids[i] == facilities[i].id
  {
    seq(|facilities|, i requires 0 <= i < |facilities| => facilities[i].id)
  }

  ghost predicate DistinctStaff(staff: seq<Staff>) {
    forall i, j :: 0 <= i < j < |staff| ==> staff[i].id != staff[j].id
  }

  ghost predicate DistinctFacilities(facilities: seq<Facility>) {
    forall i, j :: 0 <= i < j < |facilities| ==> facilities[i].id != facilities[j].id
  }

  ghost predicate CompleteRow(p: Problem, s: Staff) {
    forall f :: f in p.facilities ==> (s.id, f.id) in p.travel
  }

  ghost predicate CompleteMatrix(p: Problem) {
    forall s :: s in p.availableStaff ==> CompleteRow(p, s)
  }

  /** What a stored problem always satisfies: see `ProblemBuilder.BuildProblem`. */
  ghost predicate WellFormed(p: Problem) {
    && DistinctStaff(p.availableStaff)
    && DistinctFacilities(p.facilities)
    && CompleteMatrix(p)
    && p.parameters.Valid()
    && (forall f :: f in p.facilities ==> f.headcount >= 1)
  }

  ghost predicate NonNegativeTravel(p: Problem) {
    forall k :: k in p.travel ==> p.travel[k].timeSeconds >= 0 && p.travel[k].costYen >= 0.0
  }

  ghost predicate NonNegativeCounts(p: Problem) {
    forall f, q :: f in p.facilities && q in f.requirements ==> q.count >= 0
  }
}
