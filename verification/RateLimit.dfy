/** The fixed-window rate limiter: counts per (source, kind, minute), pruned on every call. */
module RateLimit {
  import opened Scaling

  datatype Limits = Limits(login: int, general: int)

  function LimitFor(limits: Limits, kind: string): int {
    if kind == "login" then limits.login else limits.general
  }

  datatype Key = Key(source: string, kind: string, window: int)

  datatype Request = Request(source: string, kind: string, at: real)

  /** Conversion to an integer drops the fraction, towards zero. */
  function Truncate(x: real): int {
    if x >= 0.0 then x.Floor else -((-x).Floor)
  }

  function WindowOf(at: real): int { Truncate(at) / 60 }

  function KeyOf(r: Request): Key { Key(r.source, r.kind, WindowOf(r.at)) }

  function Get(counts: map<Key, int>, k: Key): int {
    if k in counts then counts[k] else 0
  }

  function Kept(counts: map<Key, int>, current: int): map<Key, int> {
    map k | k in counts && k.window >= current - 1 :: counts[k]
  }

  function Counted(counts: map<Key, int>, r: Request): map<Key, int> {
    var kept := Kept(counts, WindowOf(r.at));
    kept[KeyOf(r) := Get(kept, KeyOf(r)) + 1]
  }

  /** What the limiter stores after a run of requests. */
  function Stored(run: seq<Request>): map<Key, int> {
    if run == [] then map[] else Counted(Stored(run[..|run| - 1]), run[|run| - 1])
  }

  /** Is the last request of the run let through? */
  predicate Accepted(run: seq<Request>, limits: Limits)
    requires run != []
  {
    Get(Stored(run), KeyOf(run[|run| - 1])) <= LimitFor(limits, run[|run| - 1].kind)
  }

  class RateLimiter {
    const limits: Limits
    var counts: map<Key, int>
    ghost var history: seq<Request>

    ghost predicate Valid()
      reads this
    {
      counts == Stored(history)
    }

    constructor (limits: Limits)
      ensures Valid() && history == [] && this.limits == limits
    {
      this.limits, counts, history := limits, map[], [];
    }

    method Prune(current: int)
      modifies this`counts
      ensures counts == Kept(old(counts), current)
    {
      var stale := set k | k in counts && k.window < current - 1;
      ghost var before := counts;
      while stale != {}
        invariant forall k :: k in stale <==> k in counts && k.window < current - 1
        invariant Kept(counts, current) == Kept(before, current)
        invariant counts.Keys <= before.Keys
        decreases |stale|
      {
        var k :| k in stale;
        counts := counts - {k};
        stale := stale - {k};
      }
      assert forall k :: k in counts ==> k !in stale;
      assert counts == Kept(counts, current);
    }

    /** Every request is counted, the refused ones too. */
    method Check(source: string, kind: string, at: real) returns (accepted: bool)
      requires Valid()
      modifies this
      ensures Valid() && history == old(history) + [Request(source, kind, at)]
      ensures accepted <==> Accepted(history, limits)
      ensures forall k :: k in counts ==> k.window >= WindowOf(at) - 1
    {
      var window := WindowOf(at);
      Prune(window);
      var key := Key(source, kind, window);
      counts := counts[key := Get(counts, key) + 1];
      accepted := counts[key] <= LimitFor(limits, kind);
      history := history + [Request(source, kind, at)];
    }
  }

  // ----- The unpruned history -----

  /** How often k has been asked for, ever. */
  function Occurrences(run: seq<Request>, k: Key): nat {
    if run == [] then 0
    else Occurrences(run[..|run| - 1], k) + if KeyOf(run[|run| - 1]) == k then 1 else 0
  }

  /** Some request for k was followed by one more than a window later. */
  ghost predicate Forgotten(run: seq<Request>, k: Key) {
    exists i, j :: 0 <= i < j < |run| && KeyOf(run[i]) == k && WindowOf(run[j].at) > k.window + 1
  }

  ghost predicate Asked(run: seq<Request>, k: Key) {
    exists i :: 0 <= i < |run| && KeyOf(run[i]) == k
  }

  lemma {:induction false} AskedIsCounted(run: seq<Request>, k: Key)
    ensures Asked(run, k) <==> Occurrences(run, k) > 0
  {
    if run != [] {
      var rest := run[..|run| - 1];
      AskedIsCounted(rest, k);
      if Asked(rest, k) {
        var i :| 0 <= i < |rest| && KeyOf(rest[i]) == k;
        assert KeyOf(run[i]) == k;
      }
    }
  }

  lemma ForgottenStep(run: seq<Request>, k: Key)
    requires run != []
    ensures Forgotten(run, k) <==>
              || Forgotten(run[..|run| - 1], k)
              || (Asked(run[..|run| - 1], k) && WindowOf(run[|run| - 1].at) > k.window + 1)
  {
    var rest := run[..|run| - 1];
    if Forgotten(rest, k) {
      var i, j :| 0 <= i < j < |rest| && KeyOf(rest[i]) == k && WindowOf(rest[j].at) > k.window + 1;
      assert KeyOf(run[i]) == k && WindowOf(run[j].at) > k.window + 1;
    }
    if Asked(rest, k) && WindowOf(run[|run| - 1].at) > k.window + 1 {
      var i :| 0 <= i < |rest| && KeyOf(rest[i]) == k;
      assert KeyOf(run[i]) == k;
    }
  }

  /** Pruning loses a count exactly when some request for the key was followed by one more
      than a window later; then the stored count is too small. */
  lemma {:induction false} PruningExact(run: seq<Request>, k: Key)
    ensures Get(Stored(run), k) <= Occurrences(run, k)
    ensures Get(Stored(run), k) == Occurrences(run, k) <==> !Forgotten(run, k)
  {
    if run != [] {
      var rest, r := run[..|run| - 1], run[|run| - 1];
      PruningExact(rest, k);
      ForgottenStep(run, k);
      AskedIsCounted(rest, k);
      assert Get(Kept(Stored(rest), WindowOf(r.at)), k) ==
             if WindowOf(r.at) > k.window + 1 then 0 else Get(Stored(rest), k);
    }
  }

  /** No request's window is earlier than (highest window so far) - 1. */
  ghost predicate Steady(run: seq<Request>) {
    forall i, j :: 0 <= i < j < |run| ==> WindowOf(run[j].at) >= WindowOf(run[i].at) - 1
  }

  /** Pruning never changes a decision: on a steady run the last request is accepted exactly
      when fewer than `limit` earlier ones, over the whole history, had its key. */
  lemma PruningIsInvisible(run: seq<Request>, limits: Limits)
    requires run != [] && Steady(run)
    ensures Accepted(run, limits) <==>
              Occurrences(run[..|run| - 1], KeyOf(run[|run| - 1])) < LimitFor(limits, run[|run| - 1].kind)
  {
    PruningExact(run, KeyOf(run[|run| - 1]));
    var k := KeyOf(run[|run| - 1]);
    assert forall j :: 0 <= j < |run| ==> WindowOf(run[j].at) <= k.window + 1;
  }

  /** With a clock that jumps back further, a spent limit comes back. */
  lemma ClockJumpForgets()
    ensures var a, b := Request("s", "login", 0.0), Request("s", "login", 120.0);
            var limits := Limits(1, 60);
            && !Steady([a, b, a])
            && Accepted([a, b, a], limits) && Occurrences([a, b], KeyOf(a)) == 1
  {
    var a, b := Request("s", "login", 0.0), Request("s", "login", 120.0);
    var run := [a, b, a];
    var k := KeyOf(a);
    assert run[..2] == [a, b] && [a, b][..1] == [a] && [a][..0] == [];
    assert Stored([a]) == map[k := 1];
    assert Kept(Stored([a]), WindowOf(b.at)) == map[];
    assert Stored([a, b]) == map[KeyOf(b) := 1];
    assert WindowOf(run[2].at) < WindowOf(run[1].at) - 1;
    assert Occurrences([a], k) == 1;
  }

  // ----- How much gets through an interval -----

  /** Accepted requests of a run for one key. */
  function AcceptedFor(run: seq<Request>, k: Key, limits: Limits): nat {
    if run == [] then 0
    else AcceptedFor(run[..|run| - 1], k, limits) + if KeyOf(run[|run| - 1]) == k && Accepted(run, limits) then 1 else 0
  }

  lemma SteadyEarlier(run: seq<Request>)
    requires run != [] && Steady(run)
    ensures Steady(run[..|run| - 1])
  {
  }

  /** On a steady run exactly the first `limit` requests for a key are accepted. */
  lemma {:induction false} FirstLimitAccepted(run: seq<Request>, k: Key, limits: Limits)
    requires Steady(run) && LimitFor(limits, k.kind) >= 0
    ensures AcceptedFor(run, k, limits) == Min(LimitFor(limits, k.kind), Occurrences(run, k))
  {
    if run != [] {
      SteadyEarlier(run);
      FirstLimitAccepted(run[..|run| - 1], k, limits);
      PruningIsInvisible(run, limits);
    }
  }

  predicate Within(r: Request, source: string, kind: string, start: real, span: real) {
    r.source == source && r.kind == kind && start <= r.at < start + span
  }

  /** Accepted requests of one source and kind whose time lies in [start, start + span). */
  function AcceptedWithin(
      run: seq<Request>, source: string, kind: string, start: real, span: real, limits: Limits): nat {
    if run == [] then 0
    else AcceptedWithin(run[..|run| - 1], source, kind, start, span, limits)
         + if Within(run[|run| - 1], source, kind, start, span) && Accepted(run, limits) then 1 else 0
  }

  /** Accepted requests over the windows first .. first + n. */
  function OverWindows(run: seq<Request>, source: string, kind: string, first: int, n: nat, limits: Limits): nat {
    AcceptedFor(run, Key(source, kind, first + n), limits)
    + if n == 0 then 0 else OverWindows(run, source, kind, first, n - 1, limits)
  }

  lemma OneMoreLimit(limit: int, n: int)
    ensures limit * (n + 1) == limit * n + limit
  {
  }

  lemma {:induction false} OverWindowsBound(
      run: seq<Request>, source: string, kind: string, first: int, n: nat, limits: Limits)
    requires Steady(run) && LimitFor(limits, kind) >= 0
    ensures OverWindows(run, source, kind, first, n, limits) <= LimitFor(limits, kind) * (n + 1)
  {
    FirstLimitAccepted(run, Key(source, kind, first + n), limits);
    if n > 0 {
      OverWindowsBound(run, source, kind, first, n - 1, limits);
      OneMoreLimit(LimitFor(limits, kind), n);
    }
  }

  lemma {:induction false} OverWindowsStep(
      run: seq<Request>, source: string, kind: string, first: int, n: nat, limits: Limits)
    requires run != []
    ensures OverWindows(run, source, kind, first, n, limits)
         >= OverWindows(run[..|run| - 1], source, kind, first, n, limits)
          + if run[|run| - 1].source == source && run[|run| - 1].kind == kind
               && first <= WindowOf(run[|run| - 1].at) <= first + n && Accepted(run, limits) then 1 else 0
  {
    if n > 0 {
      OverWindowsStep(run, source, kind, first, n - 1, limits);
    }
  }

  lemma {:induction false} OverWindowsEmpty(source: string, kind: string, first: int, n: nat, limits: Limits)
    ensures OverWindows([], source, kind, first, n, limits) == 0
  {
    if n > 0 {
      OverWindowsEmpty(source, kind, first, n - 1, limits);
    }
  }

  /** Half-open intervals of at most 60 n seconds meet at most n + 1 windows. */
  lemma WindowsMet(start: real, at: real, n: nat)
    requires start <= at < start + (60 * n) as real
    ensures WindowOf(start) <= WindowOf(at) <= WindowOf(start) + n
  {
    var a, b := Truncate(start), Truncate(at);
    assert a <= b && b - a < 60 * n + 1;
  }

  lemma {:induction false} IntervalMeetsWindows(
    run: seq<Request>, source: string, kind: string, start: real, span: real, n: nat, limits: Limits)
    requires span <= (60 * n) as real
    ensures AcceptedWithin(run, source, kind, start, span, limits)
         <= OverWindows(run, source, kind, WindowOf(start), n, limits)
  {
    if run == [] {
      OverWindowsEmpty(source, kind, WindowOf(start), n, limits);
    } else {
      IntervalMeetsWindows(run[..|run| - 1], source, kind, start, span, n, limits);
      OverWindowsStep(run, source, kind, WindowOf(start), n, limits);
      if Within(run[|run| - 1], source, kind, start, span) {
        WindowsMet(start, run[|run| - 1].at, n);
      }
    }
  }

  /** Any interval of `span` seconds lets through at most limit * (ceil(span / 60) + 1)
      requests of one source and kind. */
  lemma IntervalBound(run: seq<Request>, source: string, kind: string, start: real, span: real, limits: Limits)
    requires Steady(run) && LimitFor(limits, kind) >= 0 && span >= 0.0
    ensures AcceptedWithin(run, source, kind, start, span, limits) <= LimitFor(limits, kind) * (Ceil(span / 60.0) + 1)
  {
    var n := Ceil(span / 60.0);
    assert 0.0 <= span / 60.0 <= n as real;
    IntervalMeetsWindows(run, source, kind, start, span, n, limits);
    OverWindowsBound(run, source, kind, WindowOf(start), n, limits);
  }
}
