/** Who has declared what for an event. The history is kept; the latest declaration counts,
    read once by a pure function and once by a query with a correlated maximum. */
module Availability {
  import opened Counting
  import opened Domain

  /** `at` is the UTC instant of declaring. */
  datatype Declaration = Declaration(staff: StaffId, event: EventId, available: bool, at: int)

  datatype Ambiguous = Ambiguous

  function ForPair(staff: StaffId, event: EventId): Declaration -> bool {
    (d: Declaration) => d.staff == staff && d.event == event
  }

  function AtInstant(at: int): Declaration -> bool {
    (d: Declaration) => d.at == at
  }

  /** The greatest instant of a non-empty list. */
  function LatestOf(ds: seq<Declaration>): (at: int)
    requires ds != []
    ensures exists d :: d in ds && d.at == at
    ensures forall d :: d in ds ==> d.at <= at
  {
    var last := ds[|ds| - 1];
    var rest := ds[..|ds| - 1];
    assert ds == rest + [last];
    assert last in ds;
    if rest == [] then last.at
    else if LatestOf(rest) >= last.at then LatestOf(rest) else last.at
  }

  /** The declaration in force: none, the latest one, or a refusal to choose. */
  function EffectiveDeclarationFor(
      staff: StaffId, event: EventId, history: seq<Declaration>): Result<Option<Declaration>, Ambiguous> {
    var matching := Filter(history, ForPair(staff, event));
    if matching == [] then Ok(None)
    else
      var candidates := Filter(matching, AtInstant(LatestOf(matching)));
      assert candidates != [] by {
        var d :| d in matching && d.at == LatestOf(matching);
        assert d in candidates;
      }
      if |candidates| > 1 then Err(Ambiguous) else Ok(Some(candidates[0]))
  }

  function IsLatest(all: seq<Declaration>, event: EventId): Declaration -> bool {
    (d: Declaration) => d.event == event
                        && Filter(all, ForPair(d.staff, d.event)) != []
                        && d.at == LatestOf(Filter(all, ForPair(d.staff, d.event)))
  }

  /** The query: every row of the event whose instant is the maximum for its staff member. */
  function EffectiveDeclarations(all: seq<Declaration>, event: EventId): seq<Declaration> {
    Filter(all, IsLatest(all, event))
  }

  /** The table's UNIQUE constraint: one declaration per staff member, event and instant. */
  ghost predicate UniqueInstants(all: seq<Declaration>) {
    forall i, j :: 0 <= i < j < |all| ==>
      !(all[i].staff == all[j].staff && all[i].event == all[j].event && all[i].at == all[j].at)
  }

  /** Two rows of a filtered list come from two rows of the original, in order. */
  lemma {:induction false} FilterPositions(
      s: seq<Declaration>, p: Declaration -> bool, i: nat, j: nat) returns (k: nat, l: nat)
    requires i < j < |Filter(s, p)|
    ensures k < l < |s| && s[k] == Filter(s, p)[i] && s[l] == Filter(s, p)[j]
  {
    var rest := s[..|s| - 1];
    if j < |Filter(rest, p)| {
      k, l := FilterPositions(rest, p, i, j);
    } else {
      assert Filter(rest, p)[i] in Filter(rest, p);
      k :| 0 <= k < |rest| && rest[k] == Filter(rest, p)[i];
      l := |s| - 1;
    }
  }

  /** Without the constraint the function refuses: exactly when two rows share the latest instant. */
  lemma AmbiguousIff(all: seq<Declaration>, staff: StaffId, event: EventId)
    ensures EffectiveDeclarationFor(staff, event, all).Err? <==>
              exists i, j :: 0 <= i < j < |all| && TiedForLatest(all, staff, event, i, j)
  {
    var matching := Filter(all, ForPair(staff, event));
    if EffectiveDeclarationFor(staff, event, all).Err? {
      var latest := LatestOf(matching);
      var candidates := Filter(matching, AtInstant(latest));
      var k, l := FilterPositions(matching, AtInstant(latest), 0, 1);
      var k', l' := FilterPositions(all, ForPair(staff, event), k, l);
      assert candidates[0] in candidates && candidates[1] in candidates;
      assert candidates[0] in matching && candidates[1] in matching;
      TiedCandidates(all, staff, event, k', l');
    }
    if exists i, j :: 0 <= i < j < |all| && TiedForLatest(all, staff, event, i, j) {
      var i, j :| 0 <= i < j < |all| && TiedForLatest(all, staff, event, i, j);
      TiedIsAmbiguous(all, staff, event, i, j);
    }
  }

  ghost predicate TiedForLatest(all: seq<Declaration>, staff: StaffId, event: EventId, i: nat, j: nat)
    requires i < |all| && j < |all|
  {
    && ForPair(staff, event)(all[i]) && ForPair(staff, event)(all[j])
    && all[i].at == all[j].at
    && (forall d :: d in all && ForPair(staff, event)(d) ==> d.at <= all[i].at)
  }

  lemma TiedCandidates(all: seq<Declaration>, staff: StaffId, event: EventId, i: nat, j: nat)
    requires i < |all| && j < |all|
    requires all[i] in Filter(all, ForPair(staff, event)) && all[j] in Filter(all, ForPair(staff, event))
    requires all[i].at == LatestOf(Filter(all, ForPair(staff, event))) == all[j].at
    ensures TiedForLatest(all, staff, event, i, j)
  {
    assert forall d :: d in all && ForPair(staff, event)(d) ==> d in Filter(all, ForPair(staff, event));
  }

  lemma TiedIsAmbiguous(all: seq<Declaration>, staff: StaffId, event: EventId, i: nat, j: nat)
    requires i < j < |all| && TiedForLatest(all, staff, event, i, j)
    ensures EffectiveDeclarationFor(staff, event, all).Err?
  {
    var matching := Filter(all, ForPair(staff, event));
    assert all[i] in matching && all[j] in matching;
    assert LatestOf(matching) == all[i].at;
    FilterCounts(all, ForPair(staff, event), i, j, AtInstant(all[i].at));
  }

  /** Two kept positions give at least two rows of the doubly filtered list. */
  lemma {:induction false} FilterCounts(
      s: seq<Declaration>, p: Declaration -> bool, i: nat, j: nat, q: Declaration -> bool)
    requires i < j < |s| && p(s[i]) && p(s[j]) && q(s[i]) && q(s[j])
    ensures |Filter(Filter(s, p), q)| > 1
  {
    var rest := s[..|s| - 1];
    FilterAppend(Filter(rest, p), s[|s| - 1], q);
    assert Filter(s, p) == Filter(rest, p) || Filter(s, p) == Filter(rest, p) + [s[|s| - 1]];
    if j < |rest| {
      FilterCounts(rest, p, i, j, q);
    } else {
      assert rest[i] in rest;
      assert rest[i] in Filter(Filter(rest, p), q);
    }
  }

  lemma FilterAppend(s: seq<Declaration>, x: Declaration, q: Declaration -> bool)
    ensures Filter(s + [x], q) == Filter(s, q) + if q(x) then [x] else []
  {
    assert (s + [x])[..|s|] == s;
  }

  /** Unique instants leave nothing to choose between. */
  lemma NeverAmbiguous(all: seq<Declaration>, staff: StaffId, event: EventId)
    requires UniqueInstants(all)
    ensures EffectiveDeclarationFor(staff, event, all).Ok?
    ensures EffectiveDeclarationFor(staff, event, all).value.None? <==>
              forall d :: d in all ==> !(d.staff == staff && d.event == event)
  {
    AmbiguousIff(all, staff, event);
    var matching := Filter(all, ForPair(staff, event));
    assert forall d :: d in all && d.staff == staff && d.event == event ==> d in matching;
    if matching != [] {
      var d :| d in matching && d.at == LatestOf(matching);
      assert d in Filter(matching, AtInstant(LatestOf(matching))) && d in all;
    }
  }

  /** The query returns exactly the declarations in force, read one staff member at a time. */
  lemma QueryRefinesFunction(all: seq<Declaration>, event: EventId, d: Declaration)
    requires UniqueInstants(all)
    ensures d in EffectiveDeclarations(all, event) <==>
              d.event == event && EffectiveDeclarationFor(d.staff, event, all) == Ok(Some(d))
  {
    NeverAmbiguous(all, d.staff, event);
    var matching := Filter(all, ForPair(d.staff, event));
    if matching != [] {
      var candidates := Filter(matching, AtInstant(LatestOf(matching)));
      assert candidates != [] ==> candidates[0] in candidates;
      assert d in candidates <==> d in all && d.staff == d.staff && d.event == event && d.at == LatestOf(matching);
      assert |candidates| <= 1;
      assert d in candidates ==> candidates == [d];
    }
    if d in EffectiveDeclarations(all, event) {
      assert d in all && ForPair(d.staff, event)(d);
      assert d in matching;
    }
  }

  /** ... and at most one row per staff member. */
  lemma QueryOncePerStaff(all: seq<Declaration>, event: EventId)
    requires UniqueInstants(all)
    ensures forall i, j :: 0 <= i < j < |EffectiveDeclarations(all, event)| ==>
              EffectiveDeclarations(all, event)[i].staff != EffectiveDeclarations(all, event)[j].staff
  {
    var rows := EffectiveDeclarations(all, event);
    forall i, j | 0 <= i < j < |rows|
      ensures rows[i].staff != rows[j].staff
    {
      var k, l := FilterPositions(all, IsLatest(all, event), i, j);
      assert rows[i] in rows && rows[j] in rows;
    }
  }
}
