/** Job ids: when exclusivity needs them not to be reused, and when they are not. */
module JobIds {
  import opened Decimals
  import opened Domain
  import opened JobQueue

  // ----- The guard is necessary: reuse of a held id can always be driven to a double claim -----

  ghost predicate NoEnqueue(steps: seq<Step>) {
    forall i :: 0 <= i < |steps| ==> !steps[i].Enqueue?
  }

  lemma {:induction false} FollowKeepsInv(s: State, steps: seq<Step>)
    requires Inv(s) && NoEnqueue(steps) && AllPossible(s, steps)
    ensures Inv(Follow(s, steps))
    decreases |steps|
  {
    if steps != [] {
      StepKeepsInvIff(s, steps[0]);
      FollowKeepsInv(Apply(s, steps[0]), steps[1..]);
    }
  }

  lemma {:induction false} SomeWorkerAbove(keys: set<WorkerId>) returns (x: WorkerId)
    ensures forall k :: k in keys ==> k < x
  {
    if keys == {} {
      return 0;
    }
    var k :| k in keys;
    var y := SomeWorkerAbove(keys - {k});
    x := if y > k then y else k + 1;
    assert forall j :: j in keys ==> j == k || j in keys - {k};
  }

  ghost function QueuedIds(jobs: Jobs): set<JobId> {
    set k | k in jobs && Queued(jobs, k)
  }

  lemma {:induction false} LeastOf(jobs: Jobs, ids: set<JobId>) returns (id: JobId)
    requires ids != {} && ids <= jobs.Keys
    ensures id in ids && forall k :: k in ids ==> jobs[id].createdAt <= jobs[k].createdAt
  {
    id :| id in ids;
    if ids != {id} {
      var other := LeastOf(jobs, ids - {id});
      if jobs[other].createdAt < jobs[id].createdAt {
        id := other;
      }
    }
  }

  /** While a held id is queued again, idle workers claiming job after job come to it. */
  lemma {:induction false} DrainToDouble(s: State, w: WorkerId, id: JobId) returns (steps: seq<Step>)
    requires s.At(w).Holds() && s.At(w).job == id && Queued(s.t.jobs, id)
    ensures NoEnqueue(steps) && AllPossible(s, steps) && !Exclusive(Follow(s, steps))
    decreases |QueuedIds(s.t.jobs)|
  {
    var x := SomeWorkerAbove(s.workers.Keys);
    assert id in QueuedIds(s.t.jobs);
    var oldest := LeastOf(s.t.jobs, QueuedIds(s.t.jobs));
    assert Oldest(s.t.jobs, oldest);
    var selected := Apply(s, Select(x, oldest));
    var claimed := Apply(selected, Claim(x));
    assert claimed.At(w) == s.At(w) && claimed.At(x) == Holding(oldest, s.t.jobs[oldest].event);
    var rest := [];
    if oldest != id {
      assert QueuedIds(claimed.t.jobs) == QueuedIds(s.t.jobs) - {oldest};
      rest := DrainToDouble(claimed, w, id);
    }
    FollowOne(selected, Claim(x), rest);
    FollowOne(s, Select(x, oldest), [Claim(x)] + rest);
    steps := [Select(x, oldest)] + ([Claim(x)] + rest);
  }

  ghost predicate StaysExclusive(s: State) {
    forall rest :: NoEnqueue(rest) && AllPossible(s, rest) ==> Exclusive(Follow(s, rest))
  }

  /** The exact condition for exclusivity: after a possible step from a good state no
      continuation without further enqueues gives a job to two workers, if and only if the
      step does not enqueue an id some worker still holds. */
  lemma GuardIsExact(s: State, step: Step)
    requires Inv(s) && Possible(s, step)
    ensures StaysExclusive(Apply(s, step)) <==> Guarded(s, step)
  {
    var t := Apply(s, step);
    if Guarded(s, step) {
      StepKeepsInvIff(s, step);
      forall rest | NoEnqueue(rest) && AllPossible(t, rest)
        ensures Exclusive(Follow(t, rest))
      {
        FollowKeepsInv(t, rest);
      }
    } else {
      var w :| s.At(w).Holds() && s.At(w).job == step.id;
      assert t.At(w) == s.At(w);
      var rest := DrainToDouble(t, w, step.id);
      assert !StaysExclusive(t);
    }
  }

  // ----- The ids the service makes -----

  /** `int(moment.timestamp())`, of a time in microseconds: towards zero. */
  function SecondOf(at: int): int {
    if at >= 0 then at / 1_000_000 else -((-at) / 1_000_000)
  }

  /** J-{event}-{second} */
  function JobIdOf(event: EventId, second: int): JobId {
    "J-" + (event + ("-" + Decimal(second)))
  }

  lemma SameTail(a: string, b: string, x: string, y: string)
    requires a + x == b + y && |x| == |y|
    ensures a == b && x == y
  {
    assert |a| == |b|;
    assert a == (a + x)[..|a|] && b == (b + y)[..|b|];
    assert x == (a + x)[|a|..] && y == (b + y)[|b|..];
  }

  /** Only one number's text can end in a dash and another number's text. */
  lemma LongerTail(e: EventId, m: int, f: EventId, n: int)
    requires e + ("-" + Decimal(m)) == f + ("-" + Decimal(n)) && |Decimal(m)| < |Decimal(n)|
    ensures n < 0 && m == -n && e == f + "-"
  {
    DecimalDashes(n);
    DashPosition(e, Decimal(m), f, Decimal(n));
    assert Decimal(n)[0] == '-';
    hide *;
    SameTail("-", "-", Decimal(m), Decimal(-n));
    DecimalInjective(m, -n);
  }

  /** In a text that can be split in two ways at a dash, the longer tail holds the later dash. */
  lemma DashPosition(e: string, x: string, f: string, y: string)
    requires e + ("-" + x) == f + ("-" + y) && |x| < |y|
    requires forall i :: 0 <= i < |y| && y[i] == '-' ==> i == 0
    ensures e == f + "-" && y == "-" + x
  {
    var a, d := e + ("-" + x), |y| - |x| - 1;
    assert a[|e|] == '-' && a[|e|] == y[d];
    assert |e| == |f| + 1;
    assert e == a[..|e|] && a[..|e|] == f + "-";
    assert a[|e|..] == "-" + x && a[|e|..] == y;
  }

  lemma DecimalDashes(n: int)
    ensures forall i :: 0 <= i < |Decimal(n)| && Decimal(n)[i] == '-' ==> i == 0 && n < 0
    ensures n < 0 ==> Decimal(n) == "-" + Decimal(-n)
  {
    var digits := Digits(if n < 0 then -n else n);
    DigitsShape(if n < 0 then -n else n);
    assert forall i :: 0 <= i < |digits| ==> digits[i] in digits;
  }

  /** Two ids are equal only for the same event and second - or for a negative second and an
      event id ending in a dash. */
  lemma JobIdIff(e: EventId, m: int, f: EventId, n: int)
    ensures JobIdOf(e, m) == JobIdOf(f, n) <==>
              || (e == f && m == n)
              || (n < 0 && m == -n && e == f + "-")
              || (m < 0 && n == -m && f == e + "-")
  {
    var x, y := "-" + Decimal(m), "-" + Decimal(n);
    DecimalDashes(m);
    DecimalDashes(n);
    if JobIdOf(e, m) == JobIdOf(f, n) {
      SameTail("J-", "J-", e + x, f + y);
      if |x| == |y| {
        SameTail(e, f, x, y);
        SameTail("-", "-", Decimal(m), Decimal(n));
        DecimalInjective(m, n);
      } else if |x| < |y| {
        LongerTail(e, m, f, n);
      } else {
        LongerTail(f, n, e, m);
      }
    }
    if n < 0 && m == -n && e == f + "-" {
      assert e + x == f + y;
    }
    if m < 0 && n == -m && f == e + "-" {
      assert e + x == f + y;
    }
  }

  // ----- ... are not reused within a run, but for one case -----

  /** Jobs are enqueued as the service does it, from the epoch on. */
  ghost predicate RealIds(steps: seq<Step>) {
    forall i :: 0 <= i < |steps| && steps[i].Enqueue? ==>
      steps[i].at >= 0 && steps[i].id == JobIdOf(steps[i].event, SecondOf(steps[i].at))
  }

  ghost predicate OncePerSecond(steps: seq<Step>) {
    forall i, j :: 0 <= i < j < |steps| && steps[i].Enqueue? && steps[j].Enqueue? ==>
      !(steps[i].event == steps[j].event && SecondOf(steps[i].at) == SecondOf(steps[j].at))
  }

  /** Ids are reused exactly when one event is enqueued twice in one second. */
  lemma NoReuseIff(steps: seq<Step>)
    requires RealIds(steps)
    ensures NoReuse(steps) <==> OncePerSecond(steps)
  {
    forall i, j | 0 <= i < j < |steps| && steps[i].Enqueue? && steps[j].Enqueue?
      ensures steps[i].id == steps[j].id <==>
                steps[i].event == steps[j].event && SecondOf(steps[i].at) == SecondOf(steps[j].at)
    {
      JobIdIff(steps[i].event, SecondOf(steps[i].at), steps[j].event, SecondOf(steps[j].at));
    }
  }

  ghost predicate Deleted(steps: seq<Step>, event: EventId, a: nat, b: nat) {
    exists k :: a <= k < b && k < |steps| && steps[k].DeleteEvent? && steps[k].event == event
  }

  lemma StaysUnlessDeleted(s: State, step: Step, id: JobId, event: EventId)
    requires Possible(s, step) && id in s.t.jobs && s.t.jobs[id].event == event
    requires !(step.DeleteEvent? && step.event == event)
    ensures id in Apply(s, step).t.jobs && Apply(s, step).t.jobs[id].event == event
  {
  }

  lemma {:induction false} StaysUntilDeleted(
      states: seq<State>, steps: seq<Step>, id: JobId, event: EventId, a: nat, b: nat)
    requires Run(states, steps) && a <= b < |states|
    requires id in states[a].t.jobs && states[a].t.jobs[id].event == event
    ensures Deleted(steps, event, a, b) || (id in states[b].t.jobs && states[b].t.jobs[id].event == event)
  {
    assert |states| == |steps| + 1;
    if a < b {
      StaysUntilDeleted(states, steps, id, event, a, b - 1);
      if Deleted(steps, event, a, b - 1) {
        var k :| a <= k < b - 1 && k < |steps| && steps[k].DeleteEvent? && steps[k].event == event;
        assert Deleted(steps, event, a, b);
      } else if steps[b - 1].DeleteEvent? && steps[b - 1].event == event {
        assert Deleted(steps, event, a, b);
      } else {
        hide *;
        RunStep(states, steps, b - 1);
        StaysUnlessDeleted(states[b - 1], steps[b - 1], id, event);
      }
    }
  }

  /** The primary key sees to the rest: a second enqueue of an event in the same second gets
      through only if the event was deleted in between. */
  lemma ReuseNeedsDeletion(states: seq<State>, steps: seq<Step>, i: nat, j: nat)
    requires Run(states, steps) && i < j < |steps|
    requires steps[i].Enqueue? && steps[j].Enqueue? && steps[i].id == steps[j].id
    ensures Deleted(steps, steps[i].event, i + 1, j)
  {
    StaysUntilDeleted(states, steps, steps[i].id, steps[i].event, i + 1, j);
  }

  /** The service's runs: while no event is enqueued twice in one second, every state has one
      worker per job at most and every succeeded job its committed result. */
  lemma RealRunsAreSafe(states: seq<State>, steps: seq<Step>, i: nat)
    requires Run(states, steps) && RealIds(steps) && OncePerSecond(steps) && i < |states|
    ensures NoReuse(steps) && GuardedRun(states, steps) && Inv(states[i])
  {
    NoReuseIff(steps);
    NoReuseIsGuarded(states, steps);
    RunKeepsInv(states, steps, i);
  }

  // ----- ... and in that case exclusivity is lost -----

  function FirstSteps(id: JobId, rest: seq<Step>): seq<Step> {
    [CreateEvent("E")] + ([Enqueue(id, "E", 0)] + ([Select(0, id)] + ([Claim(0)] + ([DeleteEvent("E")] + rest))))
  }

  function LastSteps(id: JobId): seq<Step> {
    [CreateEvent("E")] + ([Enqueue(id, "E", 0)] + ([Select(1, id)] + ([Claim(1)] + [])))
  }

  lemma LastStepsDouble(s: State, id: JobId)
    requires s.t == Tables({}, map[], map[], {}) && s.workers == map[0 := Holding(id, "E")]
    ensures AllPossible(s, LastSteps(id)) && !Exclusive(Follow(s, LastSteps(id)))
  {
    var s1 := Apply(s, CreateEvent("E"));
    var s2 := Apply(s1, Enqueue(id, "E", 0));
    assert s2.t.jobs == map[id := Job("E", QUEUED, 0, None, None)];
    var s3 := Apply(s2, Select(1, id));
    var s4 := Apply(s3, Claim(1));
    assert s4.At(0) == s4.At(1) == Holding(id, "E");
    FollowOne(s3, Claim(1), []);
    FollowOne(s2, Select(1, id), [Claim(1)] + []);
    FollowOne(s1, Enqueue(id, "E", 0), [Select(1, id)] + ([Claim(1)] + []));
    FollowOne(s, CreateEvent("E"), [Enqueue(id, "E", 0)] + ([Select(1, id)] + ([Claim(1)] + [])));
  }

  lemma FirstStepsHold(id: JobId, rest: seq<Step>) returns (s: State)
    ensures s.t == Tables({}, map[], map[], {}) && s.workers == map[0 := Holding(id, "E")]
    ensures AllPossible(s, rest) ==>
              AllPossible(Start(), FirstSteps(id, rest)) && Follow(Start(), FirstSteps(id, rest)) == Follow(s, rest)
  {
    var s1 := Apply(Start(), CreateEvent("E"));
    var s2 := Apply(s1, Enqueue(id, "E", 0));
    assert s2.t.jobs == map[id := Job("E", QUEUED, 0, None, None)];
    var s3 := Apply(s2, Select(0, id));
    var s4 := Apply(s3, Claim(0));
    assert s4.t.jobs == map[id := Job("E", RUNNING, 0, None, None)];
    s := Apply(s4, DeleteEvent("E"));
    assert s.t.jobs == map[] && s.t.results == map[] && s.t.placed == {} && s.t.events == {};
    if AllPossible(s, rest) {
      FollowOne(s4, DeleteEvent("E"), rest);
      FollowOne(s3, Claim(0), [DeleteEvent("E")] + rest);
      FollowOne(s2, Select(0, id), [Claim(0)] + ([DeleteEvent("E")] + rest));
      FollowOne(s1, Enqueue(id, "E", 0), [Select(0, id)] + ([Claim(0)] + ([DeleteEvent("E")] + rest)));
      FollowOne(Start(), CreateEvent("E"),
                [Enqueue(id, "E", 0)] + ([Select(0, id)] + ([Claim(0)] + ([DeleteEvent("E")] + rest))));
    }
  }

  lemma DoubleClaimIsReal()
    ensures RealIds(FirstSteps(JobIdOf("E", 0), LastSteps(JobIdOf("E", 0))))
  {
    hide JobIdOf;
    assert SecondOf(0) == 0;
  }

  /** From the empty tables on, nine possible steps give one job to two workers: within one
      second the event is deleted under a running job, created anew and enqueued again. */
  lemma ReuseBreaksExclusion()
    ensures var steps := FirstSteps(JobIdOf("E", 0), LastSteps(JobIdOf("E", 0)));
            && RealIds(steps) && AllPossible(Start(), steps) && !Exclusive(Follow(Start(), steps))
  {
    hide *;
    var id := JobIdOf("E", 0);
    DoubleClaimIsReal();
    var s := FirstStepsHold(id, LastSteps(id));
    LastStepsDouble(s, id);
  }
}
