/** The optimisation job queue: its tables, the short transactions on them, and every
    interleaving of any number of workers that may crash between any two of them. */
module JobQueue {
  import opened Domain

  type JobId = string
  type ResultId = string
  type WorkerId = nat

  datatype JobState = QUEUED | RUNNING | SUCCEEDED | INFEASIBLE | FAILED

  predicate Terminal(s: JobState) {
    s.SUCCEEDED? || s.INFEASIBLE? || s.FAILED?
  }

  /** `createdAt` is in microseconds since the epoch. */
  datatype Job = Job(event: EventId, state: JobState, createdAt: int, result: Option<ResultId>, detail: Option<string>)

  type Jobs = map<JobId, Job>

  /** Events, jobs, result rows by id, and the (event, staff) keys of the assignment rows. */
  datatype Tables = Tables(
    events: set<EventId>,
    jobs: Jobs,
    results: map<ResultId, EventId>,
    placed: set<(EventId, StaffId)>)

  /** The foreign keys on events, all with cascading deletion. */
  ghost predicate Referenced(t: Tables) {
    && (forall id :: id in t.jobs ==> t.jobs[id].event in t.events)
    && (forall r :: r in t.results ==> t.results[r] in t.events)
    && (forall k :: k in t.placed ==> k.0 in t.events)
  }

  predicate Queued(jobs: Jobs, id: JobId) {
    id in jobs && jobs[id].state.QUEUED?
  }

  ghost predicate Oldest(jobs: Jobs, id: JobId) {
    Queued(jobs, id) && forall k :: Queued(jobs, k) ==> jobs[id].createdAt <= jobs[k].createdAt
  }

  function WithState(jobs: Jobs, id: JobId, state: JobState): Jobs {
    if id in jobs then jobs[id := jobs[id].(state := state)] else jobs
  }

  /** The effect of `_finish`: no status guard, only the fields it was given. */
  function Finished(jobs: Jobs, id: JobId, state: JobState, result: Option<ResultId>, detail: Option<string>): Jobs {
    if id !in jobs then jobs
    else
      var row := jobs[id].(state := state);
      var row := if result.Some? then row.(result := result) else row;
      jobs[id := if detail.Some? then row.(detail := detail) else row]
  }

  function ResultOf(id: JobId): ResultId { "R-" + id }

  /** Whether the three inserts of a result go through: they only insert, so the result row
      and every (event, staff) key must be new. */
  predicate CanSave(t: Tables, id: JobId, event: EventId, staff: seq<StaffId>) {
    && event in t.events
    && ResultOf(id) !in t.results
    && (forall i, j :: 0 <= i < j < |staff| ==> staff[i] != staff[j])
    && (forall s :: s in staff ==> (event, s) !in t.placed)
  }

  function WithResult(t: Tables, id: JobId, event: EventId, staff: seq<StaffId>): Tables {
    t.(results := t.results[ResultOf(id) := event], placed := t.placed + set s | s in staff :: (event, s))
  }

  /** The tables as the queue and the worker see them. */
  class JobTable {
    var events: set<EventId>
    var jobs: Jobs
    var results: map<ResultId, EventId>
    var placed: set<(EventId, StaffId)>

    function View(): Tables
      reads this
    {
      Tables(events, jobs, results, placed)
    }

    ghost predicate Valid()
      reads this
    {
      Referenced(View())
    }

    constructor (events: set<EventId>)
      ensures Valid() && View() == Tables(events, map[], map[], {})
    {
      this.events, jobs, results, placed := events, map[], map[], {};
    }

    /** INSERT: the primary key refuses an id already present, the foreign key an unknown event. */
    method Enqueue(id: JobId, event: EventId, createdAt: int) returns (ok: bool)
      requires Valid()
      modifies this`jobs
      ensures Valid()
      ensures ok <==> id !in old(jobs) && event in events
      ensures jobs == if ok then old(jobs)[id := Job(event, QUEUED, createdAt, None, None)] else old(jobs)
    {
      ok := id !in jobs && event in events;
      if ok {
        jobs := jobs[id := Job(event, QUEUED, createdAt, None, None)];
      }
    }

    /** SELECT ... WHERE status = QUEUED ORDER BY created_at LIMIT 1 */
    method SelectOldest() returns (candidate: Option<JobId>)
      ensures candidate.None? <==> forall k :: !Queued(jobs, k)
      ensures candidate.Some? ==> Oldest(jobs, candidate.value)
    {
      candidate := None;
      var rest := jobs.Keys;
      while rest != {}
        invariant rest <= jobs.Keys
        invariant candidate.None? ==> forall k :: k !in rest ==> !Queued(jobs, k)
        invariant candidate.Some? ==> Queued(jobs, candidate.value)
        invariant candidate.Some? ==>
                    forall k :: k !in rest && Queued(jobs, k) ==> jobs[candidate.value].createdAt <= jobs[k].createdAt
        decreases rest
      {
        var k :| k in rest;
        if Queued(jobs, k) && (candidate.None? || jobs[k].createdAt < jobs[candidate.value].createdAt) {
          candidate := Some(k);
        }
        rest := rest - {k};
      }
    }

    /** UPDATE ... SET status = RUNNING WHERE id = ? AND status = QUEUED */
    method GuardedUpdate(id: JobId) returns (rowcount: nat)
      requires Valid()
      modifies this`jobs
      ensures Valid()
      ensures rowcount == if Queued(old(jobs), id) then 1 else 0
      ensures jobs == if Queued(old(jobs), id) then WithState(old(jobs), id, RUNNING) else old(jobs)
    {
      if Queued(jobs, id) {
        jobs := jobs[id := jobs[id].(state := RUNNING)];
        rowcount := 1;
      } else {
        rowcount := 0;
      }
    }

    /** `claim_next`, undisturbed: the oldest queued job, now RUNNING. */
    method ClaimNext() returns (claimed: Option<JobId>)
      requires Valid()
      modifies this`jobs
      ensures Valid()
      ensures claimed.None? <==> forall k :: !Queued(old(jobs), k)
      ensures claimed.Some? ==> Oldest(old(jobs), claimed.value) && jobs == WithState(old(jobs), claimed.value, RUNNING)
      ensures claimed.None? ==> jobs == old(jobs)
    {
      claimed := SelectOldest();
      if claimed.Some? {
        var rowcount := GuardedUpdate(claimed.value);
        if rowcount != 1 {
          claimed := None;
        }
      }
    }

    method Finish(id: JobId, state: JobState, result: Option<ResultId>, detail: Option<string>)
      requires Valid()
      modifies this`jobs
      ensures Valid()
      ensures jobs == Finished(old(jobs), id, state, result, detail)
    {
      if id in jobs {
        var row := jobs[id].(state := state);
        if result.Some? { row := row.(result := result); }
        if detail.Some? { row := row.(detail := detail); }
        jobs := jobs[id := row];
      }
    }

    method MarkSucceeded(id: JobId, result: ResultId)
      requires Valid()
      modifies this`jobs
      ensures Valid()
      ensures jobs == Finished(old(jobs), id, SUCCEEDED, Some(result), None)
    {
      Finish(id, SUCCEEDED, Some(result), None);
    }

    method MarkInfeasible(id: JobId, detail: string)
      requires Valid()
      modifies this`jobs
      ensures Valid()
      ensures jobs == Finished(old(jobs), id, INFEASIBLE, None, Some(detail))
    {
      Finish(id, INFEASIBLE, None, Some(detail));
    }

    method MarkFailed(id: JobId, detail: string)
      requires Valid()
      modifies this`jobs
      ensures Valid()
      ensures jobs == Finished(old(jobs), id, FAILED, None, Some(detail))
    {
      Finish(id, FAILED, None, Some(detail));
    }

    /** `save_assignment_result`: three inserts in one transaction. */
    method SaveResult(id: JobId, event: EventId, staff: seq<StaffId>) returns (ok: bool)
      requires Valid()
      modifies this`results, this`placed
      ensures Valid()
      ensures ok <==> CanSave(old(View()), id, event, staff)
      ensures View() == if ok then WithResult(old(View()), id, event, staff) else old(View())
    {
      ok := event in events && ResultOf(id) !in results;
      var rows := placed;
      var i := 0;
      while ok && i < |staff|
        invariant 0 <= i <= |staff|
        invariant ok ==> event in events && ResultOf(id) !in results
        invariant ok ==> rows == placed + set k | 0 <= k < i :: (event, staff[k])
        invariant ok ==> (forall h, k :: 0 <= h < k < i ==> staff[h] != staff[k])
                         && forall k :: 0 <= k < i ==> (event, staff[k]) !in placed
        invariant !ok ==> !CanSave(View(), id, event, staff)
      {
        ok := (event, staff[i]) !in rows;
        rows := rows + {(event, staff[i])};
        i := i + 1;
      }
      if ok {
        assert rows == placed + set s | s in staff :: (event, s);
        results, placed := results[ResultOf(id) := event], rows;
      }
    }
  }

  /** What building and solving a claimed job comes to. */
  datatype Outcome =
    | BuildError(message: string)
    | SolveError(name: string)
    | Infeasible(cause: string)
    | Solution(staff: seq<StaffId>)

  datatype StepResult = Nothing | Processed(id: JobId) | Raised(id: JobId)

  /** The tables after one job was claimed and came to an outcome. A result that cannot be
      saved raises and leaves its job RUNNING. */
  function AfterOutcome(t: Tables, id: JobId, o: Outcome): Tables
    requires id in t.jobs
  {
    var row := t.jobs[id];
    match o
    case BuildError(m) => t.(jobs := t.jobs[id := row.(state := FAILED, detail := Some(m))])
    case SolveError(n) => t.(jobs := t.jobs[id := row.(state := FAILED, detail := Some(n))])
    case Infeasible(c) => t.(jobs := t.jobs[id := row.(state := INFEASIBLE, detail := Some(c))])
    case Solution(staff) =>
      if CanSave(t, id, row.event, staff)
      then WithResult(t, id, row.event, staff).(
        jobs := t.jobs[id := row.(state := SUCCEEDED, result := Some(ResultOf(id)))])
      else t.(jobs := t.jobs[id := row.(state := RUNNING)])
  }

  /** Being claimed first makes no difference to where the outcome leads. */
  lemma OutcomeOfClaimed(t: Tables, id: JobId, o: Outcome)
    requires id in t.jobs
    ensures AfterOutcome(t.(jobs := WithState(t.jobs, id, RUNNING)), id, o) == AfterOutcome(t, id, o)
  {
  }

  class Worker {
    const table: JobTable

    constructor (table: JobTable)
      ensures this.table == table
    {
      this.table := table;
    }

    /** `step`, undisturbed: claim, solve, record. It raises if and only if the solution
        cannot be saved: its result row exists, or somebody it assigns already has a row for
        the event - as after an earlier optimisation of the same event. */
    method Step(outcome: JobId -> Outcome) returns (r: StepResult)
      requires table.Valid()
      modifies table
      ensures table.Valid()
      ensures r.Nothing? <==> forall k :: !Queued(old(table.jobs), k)
      ensures r.Nothing? ==> table.View() == old(table.View())
      ensures !r.Nothing? ==>
                Oldest(old(table.jobs), r.id) && table.View() == AfterOutcome(old(table.View()), r.id, outcome(r.id))
      ensures !r.Nothing? ==>
                (r.Raised? <==> outcome(r.id).Solution?
                                && !CanSave(old(table.View()), r.id, old(table.jobs)[r.id].event, outcome(r.id).staff))
    {
      var claimed := table.ClaimNext();
      if claimed.None? {
        return Nothing;
      }
      var id := claimed.value;
      OutcomeOfClaimed(old(table.View()), id, outcome(id));
      var raised := Record(id, outcome(id));
      r := if raised then Raised(id) else Processed(id);
    }

    /** What is written once a claimed job has come to an outcome. */
    method Record(id: JobId, o: Outcome) returns (raised: bool)
      requires table.Valid() && id in table.jobs && table.jobs[id].state.RUNNING?
      modifies table
      ensures table.Valid() && table.View() == AfterOutcome(old(table.View()), id, o)
      ensures raised <==> o.Solution? && !CanSave(old(table.View()), id, old(table.jobs)[id].event, o.staff)
    {
      raised := false;
      match o {
        case BuildError(m) => table.MarkFailed(id, m);
        case SolveError(n) => table.MarkFailed(id, n);
        case Infeasible(c) => table.MarkInfeasible(id, c);
        case Solution(staff) =>
          var saved := table.SaveResult(id, table.jobs[id].event, staff);
          if !saved {
            return true;
          }
          table.MarkSucceeded(id, ResultOf(id));
      }
    }
  }

  /** Two jobs of one event, both solved, each of which could be saved on its own. Done one
      after the other the first succeeds; the second is never recorded, and stays RUNNING, if
      and only if both assign somebody in common. */
  lemma SecondOptimisationRaises(t: Tables, a: JobId, b: JobId, x: seq<StaffId>, y: seq<StaffId>)
    requires a in t.jobs && b in t.jobs && a != b && t.jobs[a].event == t.jobs[b].event
    requires CanSave(t, a, t.jobs[a].event, x) && CanSave(t, b, t.jobs[b].event, y)
    ensures var first := AfterOutcome(t, a, Solution(x));
            var second := AfterOutcome(first, b, Solution(y));
            && first.jobs[a].state.SUCCEEDED?
            && (second.jobs[b].state.RUNNING? <==> exists s :: s in x && s in y)
            && (second.jobs[b].state.SUCCEEDED? <==> ResultOf(b) in second.results)
            && (second.jobs[b].state.RUNNING? ==> second == first.(jobs := WithState(first.jobs, b, RUNNING)))
  {
    var event, first := t.jobs[a].event, AfterOutcome(t, a, Solution(x));
    if ResultOf(a) == ResultOf(b) {
      ResultInjective(a, b);
    }
    assert first.jobs[b] == t.jobs[b];
    if s :| s in x && s in y {
      assert (event, s) in first.placed;
    } else {
      assert forall s :: s in y ==> (event, s) !in first.placed;
    }
  }

  // ----- Workers as program counters between transactions -----

  /** Idle; between the SELECT and the guarded UPDATE; claimed and building or solving; a
      result in hand; the result committed but the job not yet marked. */
  datatype Pc =
    | Idle
    | Selected(job: JobId)
    | Holding(job: JobId, event: EventId)
    | Solved(job: JobId, event: EventId, staff: seq<StaffId>)
    | Saved(job: JobId, event: EventId)
  {
    predicate Holds() { Holding? || Solved? || Saved? }
  }

  datatype State = State(t: Tables, workers: map<WorkerId, Pc>)
  {
    function At(w: WorkerId): Pc {
      if w in workers then workers[w] else Idle
    }

    function Move(w: WorkerId, pc: Pc): State {
      this.(workers := workers[w := pc])
    }

    function WithJobs(jobs: Jobs): State {
      this.(t := t.(jobs := jobs))
    }
  }

  datatype Step =
    | CreateEvent(event: EventId)
    | DeleteEvent(event: EventId)
    | EditAssignments(event: EventId, people: set<StaffId>)
    | Enqueue(id: JobId, event: EventId, at: int)
    | Select(w: WorkerId, id: JobId)
    | Claim(w: WorkerId)
    | BuildFails(w: WorkerId, detail: string)
    | SolveFails(w: WorkerId, detail: string)
    | SolveInfeasible(w: WorkerId, detail: string)
    | SolveSucceeds(w: WorkerId, staff: seq<StaffId>)
    | SaveResult(w: WorkerId)
    | SaveRaises(w: WorkerId)
    | MarkDone(w: WorkerId)
    | Crash(w: WorkerId)

  /** What the tables' constraints and the worker's position allow; nothing more. */
  ghost predicate Possible(s: State, step: Step) {
    match step
    case CreateEvent(e) => e !in s.t.events
    case DeleteEvent(e) => e in s.t.events
    case EditAssignments(e, _) => e in s.t.events
    case Enqueue(id, e, at) => e in s.t.events && id !in s.t.jobs
    case Select(w, id) => s.At(w).Idle? && Oldest(s.t.jobs, id)
    case Claim(w) => s.At(w).Selected?
    case BuildFails(w, _) => s.At(w).Holding?
    case SolveFails(w, _) => s.At(w).Holding?
    case SolveInfeasible(w, _) => s.At(w).Holding?
    case SolveSucceeds(w, _) => s.At(w).Holding?
    case SaveResult(w) => s.At(w).Solved? && CanSave(s.t, s.At(w).job, s.At(w).event, s.At(w).staff)
    case SaveRaises(w) => s.At(w).Solved? && !CanSave(s.t, s.At(w).job, s.At(w).event, s.At(w).staff)
    case MarkDone(w) => s.At(w).Saved?
    case Crash(w) => true
  }

  ghost function Apply(s: State, step: Step): State
    requires Possible(s, step)
  {
    match step
    case CreateEvent(e) => s.(t := s.t.(events := s.t.events + {e}))
    case DeleteEvent(e) => s.(t := Tables(
      s.t.events - {e},
      map k | k in s.t.jobs && s.t.jobs[k].event != e :: s.t.jobs[k],
      map k | k in s.t.results && s.t.results[k] != e :: s.t.results[k],
      set k | k in s.t.placed && k.0 != e))
    case EditAssignments(e, people) =>
      s.(t := s.t.(placed := (set k | k in s.t.placed && k.0 != e) + set p | p in people :: (e, p)))
    case Enqueue(id, e, at) => s.WithJobs(s.t.jobs[id := Job(e, QUEUED, at, None, None)])
    case Select(w, id) => s.Move(w, Selected(id))
    case Claim(w) =>
      var id := s.At(w).job;
      if Queued(s.t.jobs, id)
      then s.WithJobs(WithState(s.t.jobs, id, RUNNING)).Move(w, Holding(id, s.t.jobs[id].event))
      else s.Move(w, Idle)
    case BuildFails(w, d) => s.WithJobs(Finished(s.t.jobs, s.At(w).job, FAILED, None, Some(d))).Move(w, Idle)
    case SolveFails(w, d) => s.WithJobs(Finished(s.t.jobs, s.At(w).job, FAILED, None, Some(d))).Move(w, Idle)
    case SolveInfeasible(w, d) => s.WithJobs(Finished(s.t.jobs, s.At(w).job, INFEASIBLE, None, Some(d))).Move(w, Idle)
    case SolveSucceeds(w, staff) => s.Move(w, Solved(s.At(w).job, s.At(w).event, staff))
    case SaveResult(w) =>
      s.(t := WithResult(s.t, s.At(w).job, s.At(w).event, s.At(w).staff)).Move(w, Saved(s.At(w).job, s.At(w).event))
    case SaveRaises(w) => s.Move(w, Idle)
    case MarkDone(w) =>
      s.WithJobs(Finished(s.t.jobs, s.At(w).job, SUCCEEDED, Some(ResultOf(s.At(w).job)), None)).Move(w, Idle)
    case Crash(w) => s.Move(w, Idle)
  }

  // ----- What every step keeps -----

  ghost predicate HolderOk(s: State, w: WorkerId) {
    s.At(w).Holds() && s.At(w).job in s.t.jobs ==>
      && s.t.jobs[s.At(w).job].state.RUNNING? && s.t.jobs[s.At(w).job].event == s.At(w).event
      && (s.At(w).Saved? ==>
            ResultOf(s.At(w).job) in s.t.results && s.t.results[ResultOf(s.At(w).job)] == s.At(w).event)
  }

  /** No job is ever in two workers' hands. */
  ghost predicate Exclusive(s: State) {
    forall w, x :: w != x && s.At(w).Holds() && s.At(x).Holds() ==> s.At(w).job != s.At(x).job
  }

  /** A succeeded job names its result row, and the row is committed. */
  ghost predicate SuccessRecorded(s: State, id: JobId) {
    id in s.t.jobs && s.t.jobs[id].state.SUCCEEDED? ==>
      && s.t.jobs[id].result == Some(ResultOf(id))
      && ResultOf(id) in s.t.results && s.t.results[ResultOf(id)] == s.t.jobs[id].event
  }

  ghost predicate Inv(s: State) {
    && (forall w :: HolderOk(s, w))
    && Exclusive(s)
    && (forall id :: SuccessRecorded(s, id))
    && Referenced(s.t)
  }

  /** Some worker still has this job in hand, whatever became of its row. */
  ghost predicate Held(s: State, id: JobId) {
    exists w :: s.At(w).Holds() && s.At(w).job == id
  }

  /** A job id is enqueued only while no worker holds it. */
  ghost predicate Guarded(s: State, step: Step) {
    step.Enqueue? ==> !Held(s, step.id)
  }

  lemma ResultInjective(a: JobId, b: JobId)
    requires ResultOf(a) == ResultOf(b)
    ensures a == b
  {
    assert a == ResultOf(a)[2..];
    assert b == ResultOf(b)[2..];
  }

  function Actor(step: Step): Option<WorkerId> {
    match step
    case CreateEvent(_) => None
    case DeleteEvent(_) => None
    case EditAssignments(_, _) => None
    case Enqueue(_, _, _) => None
    case Select(w, _) => Some(w)
    case Claim(w) => Some(w)
    case BuildFails(w, _) => Some(w)
    case SolveFails(w, _) => Some(w)
    case SolveInfeasible(w, _) => Some(w)
    case SolveSucceeds(w, _) => Some(w)
    case SaveResult(w) => Some(w)
    case SaveRaises(w) => Some(w)
    case MarkDone(w) => Some(w)
    case Crash(w) => Some(w)
  }

  lemma KeepsOwn(s: State, step: Step, w: WorkerId)
    requires Inv(s) && Possible(s, step) && Actor(step) == Some(w)
    ensures HolderOk(Apply(s, step), w)
  {
    assert HolderOk(s, w);
  }

  lemma KeepsUnderOther(s: State, step: Step, w: WorkerId, x: WorkerId)
    requires Inv(s) && Possible(s, step) && Actor(step) == Some(x) && x != w
    ensures HolderOk(Apply(s, step), w)
  {
    assert HolderOk(s, w) && HolderOk(s, x);
  }

  lemma KeepsUnderEvent(s: State, step: Step, w: WorkerId)
    requires Inv(s) && Possible(s, step) && Guarded(s, step) && Actor(step) == None
    ensures HolderOk(Apply(s, step), w)
  {
    assert HolderOk(s, w);
  }

  lemma KeepsHolders(s: State, step: Step, w: WorkerId)
    requires Inv(s) && Possible(s, step) && Guarded(s, step)
    ensures HolderOk(Apply(s, step), w)
  {
    hide *;
    if Actor(step) == Some(w) {
      KeepsOwn(s, step, w);
    } else if Actor(step).Some? {
      KeepsUnderOther(s, step, w, Actor(step).value);
    } else {
      KeepsUnderEvent(s, step, w);
    }
  }

  lemma KeepsExclusive(s: State, step: Step, w: WorkerId, x: WorkerId)
    requires Inv(s) && Possible(s, step)
    requires w != x && Apply(s, step).At(w).Holds() && Apply(s, step).At(x).Holds()
    ensures Apply(s, step).At(w).job != Apply(s, step).At(x).job
  {
    assert HolderOk(s, w) && HolderOk(s, x);
  }

  lemma KeepsRecord(s: State, step: Step, id: JobId)
    requires Inv(s) && Possible(s, step)
    ensures SuccessRecorded(Apply(s, step), id)
  {
    assert SuccessRecorded(s, id);
    if Actor(step).Some? {
      assert HolderOk(s, Actor(step).value);
    }
    if step.SaveResult? && ResultOf(s.At(step.w).job) == ResultOf(id) {
      ResultInjective(s.At(step.w).job, id);
    }
  }

  lemma KeepsReferences(s: State, step: Step)
    requires Referenced(s.t) && Possible(s, step)
    ensures Referenced(Apply(s, step).t)
  {
  }

  /** The exact condition, step by step: from a good state every possible step keeps the
      state good - one worker per job at most, held jobs RUNNING, succeeded jobs recorded -
      if and only if no worker still holds an id that is being enqueued. */
  lemma StepKeepsInvIff(s: State, step: Step)
    requires Inv(s) && Possible(s, step)
    ensures Inv(Apply(s, step)) <==> Guarded(s, step)
  {
    var t := Apply(s, step);
    if Guarded(s, step) {
      forall w ensures HolderOk(t, w) { KeepsHolders(s, step, w); }
      forall w, x | w != x && t.At(w).Holds() && t.At(x).Holds()
        ensures t.At(w).job != t.At(x).job
      {
        KeepsExclusive(s, step, w, x);
      }
      forall id ensures SuccessRecorded(t, id) { KeepsRecord(s, step, id); }
      KeepsReferences(s, step);
    } else {
      var w :| s.At(w).Holds() && s.At(w).job == step.id;
      assert !HolderOk(t, w);
    }
  }

  // ----- Sequences of steps from a state -----

  ghost predicate AllPossible(s: State, steps: seq<Step>)
    decreases |steps|
  {
    steps == [] || (Possible(s, steps[0]) && AllPossible(Apply(s, steps[0]), steps[1..]))
  }

  ghost function Follow(s: State, steps: seq<Step>): State
    requires AllPossible(s, steps)
    decreases |steps|
  {
    if steps == [] then s else Follow(Apply(s, steps[0]), steps[1..])
  }

  lemma FollowOne(s: State, step: Step, rest: seq<Step>)
    requires Possible(s, step) && AllPossible(Apply(s, step), rest)
    ensures AllPossible(s, [step] + rest) && Follow(s, [step] + rest) == Follow(Apply(s, step), rest)
  {
    assert ([step] + rest)[1..] == rest;
  }

  /** What a worker does with a claimed job, transaction by transaction. */
  function Ending(w: WorkerId, o: Outcome, canSave: bool): seq<Step> {
    match o
    case BuildError(m) => [BuildFails(w, m)]
    case SolveError(n) => [SolveFails(w, n)]
    case Infeasible(c) => [SolveInfeasible(w, c)]
    case Solution(staff) =>
      if canSave then [SolveSucceeds(w, staff), SaveResult(w), MarkDone(w)]
      else [SolveSucceeds(w, staff), SaveRaises(w)]
  }

  function Plan(t: Tables, w: WorkerId, id: JobId, o: Outcome): seq<Step>
    requires id in t.jobs
  {
    [Select(w, id)] + ([Claim(w)] + Ending(w, o, o.Solution? && CanSave(t, id, t.jobs[id].event, o.staff)))
  }

  lemma OneStepIsRun(s: State, step: Step)
    requires Possible(s, step)
    ensures AllPossible(s, [step]) && Follow(s, [step]) == Apply(s, step)
  {
    FollowOne(s, step, []);
    assert [step] + [] == [step];
  }

  lemma SolutionIsRun(s: State, w: WorkerId, staff: seq<StaffId>)
    requires s.At(w).Holding?
    ensures var canSave := CanSave(s.t, s.At(w).job, s.At(w).event, staff);
            var steps := Ending(w, Solution(staff), canSave);
            && AllPossible(s, steps)
            && Follow(s, steps).t == (
              if canSave
              then var t := WithResult(s.t, s.At(w).job, s.At(w).event, staff);
                   t.(jobs := Finished(t.jobs, s.At(w).job, SUCCEEDED, Some(ResultOf(s.At(w).job)), None))
              else s.t)
            && Follow(s, steps).workers == s.workers[w := Idle]
  {
    var solved := Apply(s, SolveSucceeds(w, staff));
    if CanSave(s.t, s.At(w).job, s.At(w).event, staff) {
      var saved := Apply(solved, SaveResult(w));
      OneStepIsRun(saved, MarkDone(w));
      FollowOne(solved, SaveResult(w), [MarkDone(w)]);
      FollowOne(s, SolveSucceeds(w, staff), [SaveResult(w)] + [MarkDone(w)]);
      assert [SolveSucceeds(w, staff)] + ([SaveResult(w)] + [MarkDone(w)])
          == [SolveSucceeds(w, staff), SaveResult(w), MarkDone(w)];
    } else {
      OneStepIsRun(solved, SaveRaises(w));
      FollowOne(s, SolveSucceeds(w, staff), [SaveRaises(w)]);
      assert [SolveSucceeds(w, staff)] + [SaveRaises(w)] == [SolveSucceeds(w, staff), SaveRaises(w)];
    }
  }

  lemma EndingIsRun(t: Tables, s: State, w: WorkerId, id: JobId, o: Outcome)
    requires Queued(t.jobs, id)
    requires s.t == t.(jobs := WithState(t.jobs, id, RUNNING)) && s.At(w) == Holding(id, t.jobs[id].event)
    ensures var steps := Ending(w, o, o.Solution? && CanSave(t, id, t.jobs[id].event, o.staff));
            && AllPossible(s, steps)
            && Follow(s, steps).t == AfterOutcome(t, id, o)
            && Follow(s, steps).workers == s.workers[w := Idle]
  {
    match o {
      case BuildError(m) => OneStepIsRun(s, BuildFails(w, m));
      case SolveError(n) => OneStepIsRun(s, SolveFails(w, n));
      case Infeasible(c) => OneStepIsRun(s, SolveInfeasible(w, c));
      case Solution(staff) =>
        SolutionIsRun(s, w, staff);
        assert CanSave(s.t, id, t.jobs[id].event, staff) == CanSave(t, id, t.jobs[id].event, staff);
    }
  }

  /** A worker that is idle again is where it was. */
  lemma IdleAgain(s: State, t: State, w: WorkerId, a: Pc, b: Pc)
    requires s.At(w).Idle? && t.workers == s.workers[w := a][w := b][w := Idle]
    ensures forall x :: t.At(x) == s.At(x)
  {
  }

  /** One worker undisturbed is one run of the state machine: the tables `Worker.Step` leaves
      are those after Select, Claim and the steps of the outcome. */
  lemma StepIsPlan(s: State, w: WorkerId, id: JobId, o: Outcome)
    requires s.At(w).Idle? && Oldest(s.t.jobs, id)
    ensures AllPossible(s, Plan(s.t, w, id, o))
    ensures Follow(s, Plan(s.t, w, id, o)).t == AfterOutcome(s.t, id, o)
    ensures forall x :: Follow(s, Plan(s.t, w, id, o)).At(x) == s.At(x)
  {
    var selected := Apply(s, Select(w, id));
    var claimed := Apply(selected, Claim(w));
    var holding := Holding(id, s.t.jobs[id].event);
    var rest := Ending(w, o, o.Solution? && CanSave(s.t, id, s.t.jobs[id].event, o.staff));
    assert Possible(s, Select(w, id)) && Possible(selected, Claim(w)) && Queued(s.t.jobs, id);
    assert claimed.t == s.t.(jobs := WithState(s.t.jobs, id, RUNNING)) && claimed.At(w) == holding;
    assert claimed.workers == s.workers[w := Selected(id)][w := holding];
    assert Plan(s.t, w, id, o) == [Select(w, id)] + ([Claim(w)] + rest);
    hide *;
    EndingIsRun(s.t, claimed, w, id, o);
    FollowOne(selected, Claim(w), rest);
    FollowOne(s, Select(w, id), [Claim(w)] + rest);
    IdleAgain(s, Follow(s, Plan(s.t, w, id, o)), w, Selected(id), holding);
  }

  // ----- Whole runs -----

  function Start(): State { State(Tables({}, map[], map[], {}), map[]) }

  /** states[i + 1] is states[i] after steps[i]; only the tables' constraints limit the steps. */
  ghost predicate Run(states: seq<State>, steps: seq<Step>) {
    && |states| == |steps| + 1
    && states[0] == Start()
    && forall i :: 0 <= i < |steps| ==> Possible(states[i], steps[i]) && states[i + 1] == Apply(states[i], steps[i])
  }

  ghost predicate GuardedRun(states: seq<State>, steps: seq<Step>) {
    Run(states, steps) && forall i :: 0 <= i < |steps| ==> Guarded(states[i], steps[i])
  }

  /** In every state of every guarded run: one worker per job at most, and every succeeded
      job has its committed result. */
  lemma {:induction false} RunKeepsInv(states: seq<State>, steps: seq<Step>, i: nat)
    requires GuardedRun(states, steps) && i < |states|
    ensures Inv(states[i])
  {
    if i > 0 {
      RunKeepsInv(states, steps, i - 1);
      StepKeepsInvIff(states[i - 1], steps[i - 1]);
    }
  }

  lemma TerminalKeptByStep(s: State, step: Step, id: JobId)
    requires Inv(s) && Possible(s, step)
    requires id in s.t.jobs && Terminal(s.t.jobs[id].state)
    ensures id in Apply(s, step).t.jobs ==> Apply(s, step).t.jobs[id] == s.t.jobs[id]
  {
    if Actor(step).Some? {
      assert HolderOk(s, Actor(step).value);
    }
  }

  /** Terminal states are never left, although `_finish` itself would overwrite any state: a
      terminal row keeps its contents for as long as it exists. */
  lemma {:induction false} TerminalWhilePresent(states: seq<State>, steps: seq<Step>, id: JobId, a: nat, b: nat)
    requires GuardedRun(states, steps) && a <= b < |states|
    requires forall i :: a <= i <= b ==> id in states[i].t.jobs
    requires Terminal(states[a].t.jobs[id].state)
    ensures states[b].t.jobs[id] == states[a].t.jobs[id]
  {
    if a < b {
      TerminalWhilePresent(states, steps, id, a, b - 1);
      RunKeepsInv(states, steps, b - 1);
      TerminalKeptByStep(states[b - 1], steps[b - 1], id);
    }
  }

  // ----- Runs that never use an id twice -----

  ghost predicate NoReuse(steps: seq<Step>) {
    forall i, j :: 0 <= i < j < |steps| && steps[i].Enqueue? && steps[j].Enqueue? ==> steps[i].id != steps[j].id
  }

  ghost predicate EnqueuedBefore(steps: seq<Step>, n: nat, id: JobId) {
    exists i :: 0 <= i < n && i < |steps| && steps[i].Enqueue? && steps[i].id == id
  }

  /** Every id in the table or in a worker's hands was enqueued. */
  ghost predicate Traced(s: State, steps: seq<Step>, n: nat) {
    && (forall id :: id in s.t.jobs ==> EnqueuedBefore(steps, n, id))
    && (forall w :: !s.At(w).Idle? ==> EnqueuedBefore(steps, n, s.At(w).job))
  }

  lemma TracedStep(s: State, steps: seq<Step>, n: nat)
    requires n < |steps| && Traced(s, steps, n) && Possible(s, steps[n])
    ensures Traced(Apply(s, steps[n]), steps, n + 1)
  {
    var t, step := Apply(s, steps[n]), steps[n];
    forall id | EnqueuedBefore(steps, n, id)
      ensures EnqueuedBefore(steps, n + 1, id)
    {
      var i :| 0 <= i < n && i < |steps| && steps[i].Enqueue? && steps[i].id == id;
    }
    forall id | id in t.t.jobs
      ensures EnqueuedBefore(steps, n + 1, id)
    {
      if id !in s.t.jobs {
        assert step.Enqueue? && step.id == id;
      }
    }
    forall w | !t.At(w).Idle?
      ensures EnqueuedBefore(steps, n + 1, t.At(w).job)
    {
      if s.At(w).Idle? {
        assert t.At(w).job in s.t.jobs;
      } else {
        assert t.At(w).job == s.At(w).job;
      }
    }
  }

  lemma {:induction false} RunTraced(states: seq<State>, steps: seq<Step>, i: nat)
    requires Run(states, steps) && i < |states|
    ensures Traced(states[i], steps, i)
  {
    if i > 0 {
      RunTraced(states, steps, i - 1);
      TracedStep(states[i - 1], steps, i - 1);
    }
  }

  /** Without reuse the guard holds at every step. */
  lemma NoReuseIsGuarded(states: seq<State>, steps: seq<Step>)
    requires Run(states, steps) && NoReuse(steps)
    ensures GuardedRun(states, steps)
  {
    forall i | 0 <= i < |steps|
      ensures Guarded(states[i], steps[i])
    {
      RunTraced(states, steps, i);
      assert steps[i].Enqueue? ==> !EnqueuedBefore(steps, i, steps[i].id);
    }
  }

  /** A job leaves QUEUED at most once: having left it, it is never queued again. */
  lemma {:induction false} LeavesQueuedOnce(states: seq<State>, steps: seq<Step>, id: JobId, a: nat, b: nat)
    requires Run(states, steps) && NoReuse(steps) && a <= b < |states|
    requires EnqueuedBefore(steps, a, id) && !Queued(states[a].t.jobs, id)
    ensures !Queued(states[b].t.jobs, id)
  {
    assert |states| == |steps| + 1;
    hide *;
    if a < b {
      LeavesQueuedOnce(states, steps, id, a, b - 1);
      NotEnqueuedAgain(steps, a, b - 1, id);
      RunStep(states, steps, b - 1);
      StaysUnqueued(states[b - 1], steps[b - 1], id);
    }
  }

  lemma StaysUnqueued(s: State, step: Step, id: JobId)
    requires Possible(s, step) && !Queued(s.t.jobs, id) && !(step.Enqueue? && step.id == id)
    ensures !Queued(Apply(s, step).t.jobs, id)
  {
  }

  /** Two claims by guarded update never win the same job, whoever makes them. */
  lemma ClaimedOnce(states: seq<State>, steps: seq<Step>, a: nat, b: nat)
    requires Run(states, steps) && NoReuse(steps) && a < b < |steps|
    requires steps[a].Claim? && Queued(states[a].t.jobs, states[a].At(steps[a].w).job)
    requires steps[b].Claim? && Queued(states[b].t.jobs, states[b].At(steps[b].w).job)
    ensures states[a].At(steps[a].w).job != states[b].At(steps[b].w).job
  {
    RunTraced(states, steps, a + 1);
    var id := states[a].At(steps[a].w).job;
    assert id in states[a + 1].t.jobs && !Queued(states[a + 1].t.jobs, id);
    LeavesQueuedOnce(states, steps, id, a + 1, b);
  }

  /** Without reuse a terminal row is only ever deleted, with its event, never changed. */
  lemma {:induction false} TerminalForever(states: seq<State>, steps: seq<Step>, id: JobId, a: nat, b: nat)
    requires Run(states, steps) && NoReuse(steps) && a <= b < |states|
    requires id in states[a].t.jobs && Terminal(states[a].t.jobs[id].state)
    ensures AtMostRow(states[b], id, states[a].t.jobs[id])
  {
    assert |states| == |steps| + 1 && AtMostRow(states[a], id, states[a].t.jobs[id]);
    hide *;
    if a < b {
      RunStep(states, steps, b - 1);
      TerminalForever(states, steps, id, a, b - 1);
      NoReuseIsGuarded(states, steps);
      RunKeepsInv(states, steps, b - 1);
      PresentWasEnqueued(states, steps, id, a);
      NotEnqueuedAgain(steps, a, b - 1, id);
      KeepsTerminalRow(states[b - 1], steps[b - 1], id, states[a].t.jobs[id]);
    }
  }

  ghost predicate AtMostRow(s: State, id: JobId, row: Job) {
    id in s.t.jobs ==> s.t.jobs[id] == row
  }

  lemma KeepsTerminalRow(s: State, step: Step, id: JobId, row: Job)
    requires Inv(s) && Possible(s, step) && !(step.Enqueue? && step.id == id)
    requires Terminal(row.state) && AtMostRow(s, id, row)
    ensures AtMostRow(Apply(s, step), id, row)
  {
    if id in s.t.jobs {
      TerminalKeptByStep(s, step, id);
    }
  }

  lemma RunStep(states: seq<State>, steps: seq<Step>, i: nat)
    requires Run(states, steps) && i < |steps|
    ensures |states| == |steps| + 1 && Possible(states[i], steps[i]) && states[i + 1] == Apply(states[i], steps[i])
  {
  }

  lemma PresentWasEnqueued(states: seq<State>, steps: seq<Step>, id: JobId, i: nat)
    requires Run(states, steps) && i < |states| && id in states[i].t.jobs
    ensures EnqueuedBefore(steps, i, id)
  {
    RunTraced(states, steps, i);
  }

  lemma NotEnqueuedAgain(steps: seq<Step>, a: nat, b: nat, id: JobId)
    requires NoReuse(steps) && a <= b < |steps| && EnqueuedBefore(steps, a, id)
    ensures !(steps[b].Enqueue? && steps[b].id == id)
  {
  }

  // ----- Oldest first -----

  /** Every enqueue time is at least that of every job in the table. */
  ghost predicate InTimeOrder(s: State, step: Step) {
    step.Enqueue? ==> forall k :: k in s.t.jobs ==> s.t.jobs[k].createdAt <= step.at
  }

  /** What a worker selected is, while still queued, still the oldest queued job. */
  ghost predicate SelectionFresh(s: State, w: WorkerId) {
    s.At(w).Selected? && Queued(s.t.jobs, s.At(w).job) ==> Oldest(s.t.jobs, s.At(w).job)
  }

  lemma StepKeepsSelection(s: State, step: Step, w: WorkerId)
    requires Possible(s, step) && InTimeOrder(s, step)
    requires s.At(w).Selected? && step.Enqueue? ==> step.id != s.At(w).job
    requires SelectionFresh(s, w)
    ensures SelectionFresh(Apply(s, step), w)
  {
    var t := Apply(s, step);
    if t.At(w).Selected? && Queued(t.t.jobs, t.At(w).job) {
      var id := t.At(w).job;
      assert Queued(s.t.jobs, id);
      assert Oldest(s.t.jobs, id);
      forall k | Queued(t.t.jobs, k)
        ensures t.t.jobs[id].createdAt <= t.t.jobs[k].createdAt
      {
        if !Queued(s.t.jobs, k) {
          assert step.Enqueue? && step.id == k;
        }
      }
    }
  }

  lemma {:induction false} SelectionsFresh(states: seq<State>, steps: seq<Step>, i: nat, w: WorkerId)
    requires Run(states, steps) && NoReuse(steps) && i < |states|
    requires forall j :: 0 <= j < i ==> InTimeOrder(states[j], steps[j])
    ensures SelectionFresh(states[i], w)
  {
    if i > 0 {
      SelectionsFresh(states, steps, i - 1, w);
      RunTraced(states, steps, i - 1);
      StepKeepsSelection(states[i - 1], steps[i - 1], w);
    }
  }

  /** With non-decreasing enqueue times every successful claim takes an oldest queued job,
      even when other workers and enqueues came between its select and its update. */
  lemma ClaimTakesOldest(states: seq<State>, steps: seq<Step>, i: nat)
    requires Run(states, steps) && NoReuse(steps) && i < |steps|
    requires forall j :: 0 <= j < i ==> InTimeOrder(states[j], steps[j])
    requires steps[i].Claim? && Queued(states[i].t.jobs, states[i].At(steps[i].w).job)
    ensures Oldest(states[i].t.jobs, states[i].At(steps[i].w).job)
  {
    SelectionsFresh(states, steps, i, steps[i].w);
  }
}
