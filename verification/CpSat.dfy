/** The CP-SAT adapter: the constraint model it builds, what that model means, and the
    outcome it reads back. The solver itself is a function from constraint models to
    responses, known only through a contract. */
module CpSat {
  import opened Domain
  import opened Counting
  import opened Validation
  import opened Model

  datatype Var = X(pair: Pair) | Slack(index: nat) | TMax

  type Valuation = Var -> int

  datatype Constraint =
    | Equal(vars: seq<Var>, bound: int)
    | AtMostOne(vars: seq<Var>)
    | AtLeast(vars: seq<Var>, bound: int)
    | AtMost(vars: seq<Var>, bound: int)
    | BoundIf(literal: Var, lhs: Var, bound: int)

  datatype Term = Term(coeff: int, v: Var)

  datatype CpModel = CpModel(domains: map<Var, (int, int)>, constraints: seq<Constraint>, objective: seq<Term>)

  ghost predicate Holds(c: Constraint, v: Valuation) {
    match c
    case Equal(vars, bound) => Sum(vars, v) == bound
    case AtMostOne(vars) => Sum(vars, v) <= 1
    case AtLeast(vars, bound) => Sum(vars, v) >= bound
    case AtMost(vars, bound) => Sum(vars, v) <= bound
    case BoundIf(literal, lhs, bound) => v(literal) == 1 ==> v(lhs) >= bound
  }

  ghost predicate AllHold(cs: seq<Constraint>, v: Valuation) {
    forall c :: c in cs ==> Holds(c, v)
  }

  ghost predicate InDomains(domains: map<Var, (int, int)>, v: Valuation) {
    forall x :: x in domains ==> domains[x].0 <= v(x) <= domains[x].1
  }

  ghost predicate Feasible(cp: CpModel, v: Valuation) {
    InDomains(cp.domains, v) && AllHold(cp.constraints, v)
  }

  function TermValue(v: Valuation): Term -> int {
    (t: Term) => t.coeff * v(t.v)
  }

  function ObjectiveValue(terms: seq<Term>, v: Valuation): int {
    Sum(terms, TermValue(v))
  }

  // ----- What the program means, on the set of chosen pairs -----

  ghost predicate IsBool(m: MilpModel, v: Valuation) {
    forall pr :: pr in m.pairs ==> 0 <= v(X(pr)) <= 1
  }

  ghost function Chosen(ps: seq<Pair>, v: Valuation): set<Pair> {
    set pr | pr in ps && v(X(pr)) == 1
  }

  function InGroup(members: seq<StaffId>): Pair -> bool { (pr: Pair) => pr.0 in members }

  function Meets(r: C3Requirement): Pair -> bool { (pr: Pair) => pr.1 == r.facility && pr.0 in r.eligible }

  ghost predicate PinsKept(m: MilpModel, S: set<Pair>) {
    forall pr :: pr in m.pinned && pr in m.pairs ==> pr in S
  }

  ghost predicate HeadcountsExact(m: MilpModel, S: set<Pair>)
    requires forall f :: f in m.facilityIds ==> f in m.capacity
  {
    forall f :: f in m.facilityIds ==> |Where(S, AtFacility(f))| == m.capacity[f]
  }

  ghost predicate AtMostOnePlace(m: MilpModel, S: set<Pair>) {
    forall s :: s in m.staffIds ==> |Where(S, OfStaff(s))| <= 1
  }

  ghost predicate CapsKept(m: MilpModel, S: set<Pair>) {
    forall d :: d in m.departmentMembers ==> |Where(S, InGroup(m.departmentMembers[d]))| <= m.departmentCap
  }

  /** Pins, C1, C2 and C5. */
  ghost predicate Core(m: MilpModel, S: set<Pair>)
    requires WellFormedModel(m)
  {
    PinsKept(m, S) && HeadcountsExact(m, S) && AtMostOnePlace(m, S) && CapsKept(m, S)
  }

  ghost predicate C3Met(m: MilpModel, S: set<Pair>) {
    forall r :: r in m.c3 ==> |Where(S, Meets(r))| >= r.count
  }

  ghost predicate SlackOk(m: MilpModel, S: set<Pair>, v: Valuation, i: nat)
    requires i < |m.c3|
  {
    0 <= v(Slack(i)) <= m.c3[i].count && |Where(S, Meets(m.c3[i]))| + v(Slack(i)) >= m.c3[i].count
  }

  ghost predicate SlacksCover(m: MilpModel, S: set<Pair>, v: Valuation) {
    forall i :: 0 <= i < |m.c3| ==> SlackOk(m, S, v, i)
  }

  predicate TimeActive(m: MilpModel) {
    m.tmaxCoeff > 0 && m.maxTravelSeconds > 0
  }

  ghost predicate TimesCovered(m: MilpModel, S: set<Pair>, v: Valuation)
    requires WellFormedModel(m)
  {
    TimeActive(m) ==>
      && 0 <= v(TMax) <= m.maxTravelSeconds
      && forall pr :: pr in S && pr in m.pairs ==> m.travelSeconds[pr] <= v(TMax)
  }

  ghost predicate WellFormedModel(m: MilpModel) {
    && NoDup(m.pairs)
    && (forall f :: f in m.facilityIds ==> f in m.capacity)
    && (forall pr :: pr in m.pairs ==> pr in m.objectiveCoeff && pr in m.travelSeconds)
    && m.departmentCap >= 0
  }

  /** The integer program, read on a valuation of its variables. */
  ghost predicate Program(m: MilpModel, v: Valuation)
    requires WellFormedModel(m)
  {
    var S := Chosen(m.pairs, v);
    && IsBool(m, v)
    && Core(m, S)
    && (if m.demoteC3 then SlacksCover(m, S, v) else C3Met(m, S))
    && TimesCovered(m, S, v)
  }

  lemma ProgramFromParts(m: MilpModel, S: set<Pair>, v: Valuation)
    requires WellFormedModel(m) && Chosen(m.pairs, v) == S && IsBool(m, v)
    requires Core(m, S) && TimesCovered(m, S, v)
    requires if m.demoteC3 then SlacksCover(m, S, v) else C3Met(m, S)
    ensures Program(m, v)
  {
  }

  function PairCost(m: MilpModel, v: Valuation): Pair -> int {
    (pr: Pair) => if pr in m.objectiveCoeff then m.objectiveCoeff[pr] * v(X(pr)) else 0
  }

  function SlackTotal(n: nat, v: Valuation): int {
    if n == 0 then 0 else SlackTotal(n - 1, v) + v(Slack(n - 1))
  }

  function SlackCost(penalty: int, n: nat, v: Valuation): int {
    if n == 0 then 0 else SlackCost(penalty, n - 1, v) + penalty * v(Slack(n - 1))
  }

  lemma {:induction false} SlackCostIsPenalty(penalty: int, n: nat, v: Valuation)
    ensures SlackCost(penalty, n, v) == penalty * SlackTotal(n, v)
  {
    if n > 0 {
      SlackCostIsPenalty(penalty, n - 1, v);
      assert penalty * (SlackTotal(n - 1, v) + v(Slack(n - 1)))
          == penalty * SlackTotal(n - 1, v) + penalty * v(Slack(n - 1));
    }
  }

  function Objective(m: MilpModel, v: Valuation): int {
    Sum(m.pairs, PairCost(m, v))
    + (if TimeActive(m) then m.tmaxCoeff * v(TMax) else 0)
    + (if m.demoteC3 then SlackCost(m.bigM, |m.c3|, v) else 0)
  }

  // ----- Sums of literals count chosen pairs -----

  function Literals(ps: seq<Pair>): (r: seq<Var>)
    ensures |r| == |ps|
    ensures forall i :: 0 <= i < |r| ==> r[i] == X(ps[i])
  {
    seq(|ps|, i requires 0 <= i < |ps| => X(ps[i]))
  }

  lemma {:induction false} LiteralSum(ps: seq<Pair>, v: Valuation)
    requires NoDup(ps)
    requires forall pr :: pr in ps ==> 0 <= v(X(pr)) <= 1
    ensures Sum(Literals(ps), v) == |Chosen(ps, v)|
  {
    if ps == [] {
      assert Chosen(ps, v) == {};
    } else {
      assert ps[|ps| - 1] in ps;
      hide *;
      NoDupInit(ps);
      LiteralsLast(ps, v);
      ChosenSize(ps, v);
      LiteralSum(ps[..|ps| - 1], v);
    }
  }

  lemma LiteralsLast(ps: seq<Pair>, v: Valuation)
    requires ps != []
    ensures Sum(Literals(ps), v) == Sum(Literals(ps[..|ps| - 1]), v) + v(X(ps[|ps| - 1]))
  {
    assert Literals(ps)[..|ps| - 1] == Literals(ps[..|ps| - 1]);
  }

  lemma ChosenSize(ps: seq<Pair>, v: Valuation)
    requires ps != [] && ps[|ps| - 1] !in ps[..|ps| - 1]
    ensures |Chosen(ps, v)| == |Chosen(ps[..|ps| - 1], v)| + if v(X(ps[|ps| - 1])) == 1 then 1 else 0
  {
    ChosenLast(ps, v);
  }

  lemma ChosenLast(ps: seq<Pair>, v: Valuation)
    requires ps != []
    ensures var rest, last := ps[..|ps| - 1], ps[|ps| - 1];
            Chosen(ps, v) == Chosen(rest, v) + if v(X(last)) == 1 then {last} else {}
  {
    var rest, last := ps[..|ps| - 1], ps[|ps| - 1];
    assert forall pr :: pr in ps <==> pr in rest || pr == last by { assert ps == rest + [last]; }
  }

  /** A linear expression over the pairs that satisfy p counts the chosen ones. */
  lemma FilterSum(m: MilpModel, p: Pair -> bool, v: Valuation)
    requires NoDup(m.pairs) && IsBool(m, v)
    ensures Sum(Literals(Filter(m.pairs, p)), v) == |Where(Chosen(m.pairs, v), p)|
  {
    NoDupFilter(m.pairs, p);
    LiteralSum(Filter(m.pairs, p), v);
    assert Chosen(Filter(m.pairs, p), v) == Where(Chosen(m.pairs, v), p);
  }

  // ----- The encoder, one constraint family at a time -----

  method EncodePins(m: MilpModel) returns (cs: seq<Constraint>)
    ensures forall v: Valuation :: AllHold(cs, v) <==> forall pr :: pr in m.pinned && pr in m.pairs ==> v(X(pr)) == 1
  {
    cs := [];
    var rest := m.pinned;
    while rest != {}
      invariant rest <= m.pinned
      invariant forall v: Valuation :: AllHold(cs, v) <==>
                            forall pr :: pr in m.pinned && pr !in rest && pr in m.pairs ==> v(X(pr)) == 1
      decreases rest
    {
      var pr :| pr in rest;
      if pr in m.pairs {
        ghost var before := cs;
        cs := cs + [Equal([X(pr)], 1)];
        forall v: Valuation ensures AllHold(cs, v) <==> AllHold(before, v) && v(X(pr)) == 1 {
          AppendHolds(before, Equal([X(pr)], 1), v);
          SumOne(X(pr), v);
        }
      }
      rest := rest - {pr};
    }
  }

  lemma AppendHolds(cs: seq<Constraint>, c: Constraint, v: Valuation)
    ensures AllHold(cs + [c], v) <==> AllHold(cs, v) && Holds(c, v)
  {
    assert c in cs + [c];
    assert forall d :: d in cs ==> d in cs + [c];
  }

  lemma ConcatHolds(cs: seq<Constraint>, ds: seq<Constraint>, v: Valuation)
    ensures AllHold(cs + ds, v) <==> AllHold(cs, v) && AllHold(ds, v)
  {
    assert forall d :: d in cs ==> d in cs + ds;
    assert forall d :: d in ds ==> d in cs + ds;
  }

  lemma SumOne(x: Var, v: Valuation)
    ensures Sum([x], v) == v(x)
  {
    assert [x][..0] == [];
  }

  method EncodeHeadcounts(m: MilpModel) returns (cs: seq<Constraint>)
    requires WellFormedModel(m)
    ensures forall v: Valuation :: IsBool(m, v) ==> (AllHold(cs, v) <==> HeadcountsExact(m, Chosen(m.pairs, v)))
  {
    cs := [];
    for i := 0 to |m.facilityIds|
      invariant forall v: Valuation :: IsBool(m, v) ==>
                  (AllHold(cs, v) <==>
                   forall k :: 0 <= k < i ==>
                     |Where(Chosen(m.pairs, v), AtFacility(m.facilityIds[k]))| == m.capacity[m.facilityIds[k]])
    {
      var f := m.facilityIds[i];
      var c := Equal(Literals(Filter(m.pairs, AtFacility(f))), m.capacity[f]);
      forall v: Valuation | IsBool(m, v)
        ensures AllHold(cs + [c], v) <==> AllHold(cs, v) && |Where(Chosen(m.pairs, v), AtFacility(f))| == m.capacity[f]
      {
        AppendHolds(cs, c, v);
        FilterSum(m, AtFacility(f), v);
      }
      cs := cs + [c];
    }
  }

  lemma AtMostOnceMore(m: MilpModel, cs: seq<Constraint>, p: Pair -> bool)
    requires NoDup(m.pairs)
    ensures forall v: Valuation :: IsBool(m, v) ==>
              (AllHold(cs + [AtMostOne(Literals(Filter(m.pairs, p)))], v)
               <==> AllHold(cs, v) && |Where(Chosen(m.pairs, v), p)| <= 1)
  {
    forall v: Valuation | IsBool(m, v)
      ensures AllHold(cs + [AtMostOne(Literals(Filter(m.pairs, p)))], v)
              <==> AllHold(cs, v) && |Where(Chosen(m.pairs, v), p)| <= 1
    {
      AppendHolds(cs, AtMostOne(Literals(Filter(m.pairs, p))), v);
      FilterSum(m, p, v);
    }
  }

  /** A cap over no literals is left out: it would hold anyway. */
  lemma CapOnceMore(m: MilpModel, cs: seq<Constraint>, p: Pair -> bool)
    requires NoDup(m.pairs) && m.departmentCap >= 0
    ensures var terms := Literals(Filter(m.pairs, p));
            forall v: Valuation :: IsBool(m, v) ==>
              (AllHold(if terms == [] then cs else cs + [AtMost(terms, m.departmentCap)], v)
               <==> AllHold(cs, v) && |Where(Chosen(m.pairs, v), p)| <= m.departmentCap)
  {
    var terms := Literals(Filter(m.pairs, p));
    forall v: Valuation | IsBool(m, v)
      ensures AllHold(if terms == [] then cs else cs + [AtMost(terms, m.departmentCap)], v)
              <==> AllHold(cs, v) && |Where(Chosen(m.pairs, v), p)| <= m.departmentCap
    {
      AppendHolds(cs, AtMost(terms, m.departmentCap), v);
      FilterSum(m, p, v);
    }
  }

  /** Of the first i staff members nobody is at two places. */
  ghost predicate StaffEncoded(m: MilpModel, cs: seq<Constraint>, i: nat)
    requires i <= |m.staffIds|
  {
    forall v: Valuation :: IsBool(m, v) ==>
      (AllHold(cs, v) <==> forall k :: 0 <= k < i ==> |Where(Chosen(m.pairs, v), OfStaff(m.staffIds[k]))| <= 1)
  }

  lemma OneMoreStaff(m: MilpModel, cs: seq<Constraint>, i: nat)
    requires WellFormedModel(m) && i < |m.staffIds| && StaffEncoded(m, cs, i)
    ensures StaffEncoded(m, cs + [AtMostOne(Literals(Filter(m.pairs, OfStaff(m.staffIds[i]))))], i + 1)
  {
    hide IsBool, AllHold, Literals, Filter, Chosen, Where;
    AtMostOnceMore(m, cs, OfStaff(m.staffIds[i]));
  }

  method EncodeStaff(m: MilpModel) returns (cs: seq<Constraint>)
    requires WellFormedModel(m)
    ensures forall v: Valuation :: IsBool(m, v) ==> (AllHold(cs, v) <==> AtMostOnePlace(m, Chosen(m.pairs, v)))
  {
    cs := [];
    assert StaffEncoded(m, cs, 0);
    for i := 0 to |m.staffIds|
      invariant StaffEncoded(m, cs, i)
    {
      hide StaffEncoded;
      var c := AtMostOne(Literals(Filter(m.pairs, OfStaff(m.staffIds[i]))));
      OneMoreStaff(m, cs, i);
      cs := cs + [c];
    }
    hide IsBool, AllHold, Literals, Filter, Chosen, Where;
  }

  method EncodeCaps(m: MilpModel) returns (cs: seq<Constraint>)
    requires WellFormedModel(m)
    ensures forall v: Valuation :: IsBool(m, v) ==> (AllHold(cs, v) <==> CapsKept(m, Chosen(m.pairs, v)))
  {
    cs := [];
    var rest := m.departmentMembers.Keys;
    while rest != {}
      invariant rest <= m.departmentMembers.Keys
      invariant forall v: Valuation :: IsBool(m, v) ==>
                  (AllHold(cs, v) <==>
                   forall d :: d in m.departmentMembers && d !in rest ==>
                     |Where(Chosen(m.pairs, v), InGroup(m.departmentMembers[d]))| <= m.departmentCap)
      decreases rest
    {
      var d :| d in rest;
      var terms := Literals(Filter(m.pairs, InGroup(m.departmentMembers[d])));
      CapOnceMore(m, cs, InGroup(m.departmentMembers[d]));
      if terms != [] {
        cs := cs + [AtMost(terms, m.departmentCap)];
      }
      rest := rest - {d};
    }
  }

  /** The literals of one C3 requirement: a walk over a set, in no particular order. */
  method EligibleLiterals(m: MilpModel, r: C3Requirement) returns (ps: seq<Pair>)
    ensures NoDup(ps)
    ensures forall pr :: pr in ps <==> pr in m.pairs && Meets(r)(pr)
  {
    ps := [];
    var rest := r.eligible;
    while rest != {}
      invariant rest <= r.eligible
      invariant NoDup(ps)
      invariant forall pr :: pr in ps <==> pr in m.pairs && Meets(r)(pr) && pr.0 !in rest
      decreases rest
    {
      var s :| s in rest;
      if (s, r.facility) in m.pairs {
        ps := ps + [(s, r.facility)];
      }
      rest := rest - {s};
    }
  }

  lemma EligibleSum(m: MilpModel, r: C3Requirement, ps: seq<Pair>, v: Valuation)
    requires NoDup(ps) && IsBool(m, v)
    requires forall pr :: pr in ps <==> pr in m.pairs && Meets(r)(pr)
    ensures Sum(Literals(ps), v) == |Where(Chosen(m.pairs, v), Meets(r))|
  {
    LiteralSum(ps, v);
    assert Chosen(ps, v) == Where(Chosen(m.pairs, v), Meets(r));
  }

  /** C3 as it stands when it is hard. */
  method EncodeHardC3(m: MilpModel) returns (cs: seq<Constraint>)
    requires WellFormedModel(m)
    ensures forall v: Valuation :: IsBool(m, v) ==> (AllHold(cs, v) <==> C3Met(m, Chosen(m.pairs, v)))
  {
    cs := [];
    for i := 0 to |m.c3|
      invariant forall v: Valuation :: IsBool(m, v) ==>
                  (AllHold(cs, v) <==>
                   forall k :: 0 <= k < i ==> |Where(Chosen(m.pairs, v), Meets(m.c3[k]))| >= m.c3[k].count)
    {
      var r := m.c3[i];
      var ps := EligibleLiterals(m, r);
      var c := AtLeast(Literals(ps), r.count);
      forall v: Valuation | IsBool(m, v)
        ensures AllHold(cs + [c], v) <==> AllHold(cs, v) && |Where(Chosen(m.pairs, v), Meets(r))| >= r.count
      {
        AppendHolds(cs, c, v);
        EligibleSum(m, r, ps, v);
      }
      cs := cs + [c];
    }
  }

  ghost predicate SlackCovers(m: MilpModel, S: set<Pair>, v: Valuation, i: nat)
    requires i < |m.c3|
  {
    |Where(S, Meets(m.c3[i]))| + v(Slack(i)) >= m.c3[i].count
  }

  /** C3 with one slack per requirement. */
  method EncodeSoftC3(m: MilpModel) returns (cs: seq<Constraint>)
    requires WellFormedModel(m)
    ensures forall v: Valuation :: IsBool(m, v) ==>
              (AllHold(cs, v) <==> forall k :: 0 <= k < |m.c3| ==> SlackCovers(m, Chosen(m.pairs, v), v, k))
  {
    cs := [];
    for i := 0 to |m.c3|
      invariant forall v: Valuation :: IsBool(m, v) ==>
                  (AllHold(cs, v) <==> forall k :: 0 <= k < i ==> SlackCovers(m, Chosen(m.pairs, v), v, k))
    {
      var r := m.c3[i];
      var ps := EligibleLiterals(m, r);
      var c := AtLeast(Literals(ps) + [Slack(i)], r.count);
      forall v: Valuation | IsBool(m, v)
        ensures AllHold(cs + [c], v) <==> AllHold(cs, v) && SlackCovers(m, Chosen(m.pairs, v), v, i)
      {
        AppendHolds(cs, c, v);
        EligibleSum(m, r, ps, v);
        assert (Literals(ps) + [Slack(i)])[..|ps|] == Literals(ps);
      }
      cs := cs + [c];
    }
  }

  method EncodeTimes(m: MilpModel) returns (cs: seq<Constraint>)
    requires WellFormedModel(m)
    ensures forall v: Valuation :: AllHold(cs, v) <==>
                        forall pr :: pr in Chosen(m.pairs, v) ==> m.travelSeconds[pr] <= v(TMax)
  {
    cs := [];
    for i := 0 to |m.pairs|
      invariant forall v: Valuation :: AllHold(cs, v) <==>
                            forall k :: 0 <= k < i && v(X(m.pairs[k])) == 1 ==> m.travelSeconds[m.pairs[k]] <= v(TMax)
    {
      var c := BoundIf(X(m.pairs[i]), TMax, m.travelSeconds[m.pairs[i]]);
      forall v: Valuation
        ensures AllHold(cs + [c], v) <==>
                  AllHold(cs, v) && (v(X(m.pairs[i])) == 1 ==> v(TMax) >= m.travelSeconds[m.pairs[i]])
      {
        AppendHolds(cs, c, v);
      }
      cs := cs + [c];
    }
    forall v: Valuation
      ensures (forall k :: 0 <= k < |m.pairs| && v(X(m.pairs[k])) == 1 ==> m.travelSeconds[m.pairs[k]] <= v(TMax))
              <==> forall pr :: pr in Chosen(m.pairs, v) ==> m.travelSeconds[pr] <= v(TMax)
    {
      assert forall k :: 0 <= k < |m.pairs| && v(X(m.pairs[k])) == 1 ==> m.pairs[k] in Chosen(m.pairs, v);
    }
  }

  // ----- Variables and objective -----

  function BoolDomains(ps: seq<Pair>): (d: map<Var, (int, int)>)
    ensures forall x :: x in d <==> x.X? && x.pair in ps
    ensures forall x :: x in d ==> d[x] == (0, 1)
  {
    map pr | pr in ps :: X(pr) := (0, 1)
  }

  function SlackDomains(c3: seq<C3Requirement>): (d: map<Var, (int, int)>)
    ensures forall x :: x in d <==> x.Slack? && x.index < |c3|
    ensures forall x :: x in d ==> d[x] == (0, c3[x.index].count)
  {
    map i: nat | i < |c3| :: Slack(i) := (0, c3[i].count)
  }

  function Domains(m: MilpModel): (d: map<Var, (int, int)>)
  {
    BoolDomains(m.pairs)
    + (if m.demoteC3 then SlackDomains(m.c3) else map[])
    + (if TimeActive(m) then map[TMax := (0, m.maxTravelSeconds)] else map[])
  }

  lemma DomainOf(m: MilpModel, x: Var)
    ensures x in Domains(m) <==>
              match x
              case X(pr) => pr in m.pairs
              case Slack(i) => m.demoteC3 && i < |m.c3|
              case TMax => TimeActive(m)
    ensures x in Domains(m) ==>
              Domains(m)[x] == (
                match x
                case X(_) => (0, 1)
                case Slack(i) => (0, m.c3[i].count)
                case TMax => (0, m.maxTravelSeconds))
  {
    hide TimeActive;
  }

  lemma DomainsMean(m: MilpModel, v: Valuation)
    ensures InDomains(Domains(m), v) <==>
            && IsBool(m, v)
            && (m.demoteC3 ==> forall i :: 0 <= i < |m.c3| ==> 0 <= v(Slack(i)) <= m.c3[i].count)
            && (TimeActive(m) ==> 0 <= v(TMax) <= m.maxTravelSeconds)
  {
    hide Domains, TimeActive;
    forall x: Var
      ensures x in Domains(m) <==>
                || (x.X? && x.pair in m.pairs)
                || (x.Slack? && m.demoteC3 && x.index < |m.c3|)
                || (x.TMax? && TimeActive(m))
      ensures x in Domains(m) ==>
                Domains(m)[x] == if x.X? then (0, 1)
                                 else if x.Slack? then (0, m.c3[x.index].count)
                                 else (0, m.maxTravelSeconds)
    {
      DomainOf(m, x);
    }
    if InDomains(Domains(m), v) {
      assert forall pr :: pr in m.pairs ==> X(pr) in Domains(m);
      assert m.demoteC3 ==> forall i :: 0 <= i < |m.c3| ==> Slack(i) in Domains(m);
      assert TimeActive(m) ==> TMax in Domains(m);
    }
  }

  ghost predicate TermsKnown(domains: map<Var, (int, int)>, terms: seq<Term>) {
    forall t :: t in terms ==> t.v in domains
  }

  method PairTerms(m: MilpModel) returns (terms: seq<Term>)
    requires WellFormedModel(m)
    ensures TermsKnown(Domains(m), terms)
    ensures forall v: Valuation :: ObjectiveValue(terms, v) == Sum(m.pairs, PairCost(m, v))
  {
    terms := [];
    for i := 0 to |m.pairs|
      invariant TermsKnown(Domains(m), terms)
      invariant forall v: Valuation :: ObjectiveValue(terms, v) == Sum(m.pairs[..i], PairCost(m, v))
    {
      var t := Term(m.objectiveCoeff[m.pairs[i]], X(m.pairs[i]));
      assert (terms + [t])[..|terms|] == terms;
      assert m.pairs[..i + 1][..i] == m.pairs[..i];
      terms := terms + [t];
    }
    assert m.pairs[..|m.pairs|] == m.pairs;
  }

  method SlackTerms(m: MilpModel) returns (terms: seq<Term>)
    requires m.demoteC3
    ensures TermsKnown(Domains(m), terms)
    ensures forall v: Valuation :: ObjectiveValue(terms, v) == SlackCost(m.bigM, |m.c3|, v)
  {
    terms := [];
    for i := 0 to |m.c3|
      invariant TermsKnown(Domains(m), terms)
      invariant forall v: Valuation :: ObjectiveValue(terms, v) == SlackCost(m.bigM, i, v)
    {
      var t := Term(m.bigM, Slack(i));
      forall v: Valuation
        ensures ObjectiveValue(terms + [t], v) == SlackCost(m.bigM, i + 1, v)
      {
        AppendTerm(terms, t, v);
      }
      SlackKnown(m, i);
      terms := terms + [t];
    }
  }

  lemma SlackKnown(m: MilpModel, i: nat)
    requires m.demoteC3 && i < |m.c3|
    ensures Slack(i) in Domains(m)
  {
  }

  lemma AppendTerm(terms: seq<Term>, t: Term, v: Valuation)
    ensures ObjectiveValue(terms + [t], v) == ObjectiveValue(terms, v) + t.coeff * v(t.v)
  {
    assert (terms + [t])[..|terms|] == terms;
  }

  lemma {:induction false} ObjectiveConcat(s: seq<Term>, t: seq<Term>, v: Valuation)
    ensures ObjectiveValue(s + t, v) == ObjectiveValue(s, v) + ObjectiveValue(t, v)
  {
    if t == [] {
      assert s + t == s;
    } else {
      assert (s + t)[..|s + t| - 1] == s + t[..|t| - 1];
      ObjectiveConcat(s, t[..|t| - 1], v);
    }
  }

  method EncodeObjective(m: MilpModel) returns (terms: seq<Term>)
    requires WellFormedModel(m)
    ensures TermsKnown(Domains(m), terms)
    ensures forall v: Valuation :: ObjectiveValue(terms, v) == Objective(m, v)
  {
    terms := PairTerms(m);
    if TimeActive(m) {
      var t := Term(m.tmaxCoeff, TMax);
      assert (terms + [t])[..|terms|] == terms;
      terms := terms + [t];
    }
    if m.demoteC3 {
      var more := SlackTerms(m);
      forall v: Valuation
        ensures ObjectiveValue(terms + more, v) == ObjectiveValue(terms, v) + ObjectiveValue(more, v)
      {
        ObjectiveConcat(terms, more, v);
      }
      terms := terms + more;
    }
  }

  // ----- The whole constraint model -----

  /** cp says exactly what the program m means, and asks for the same objective. */
  ghost predicate Encodes(cp: CpModel, m: MilpModel)
    requires WellFormedModel(m)
  {
    && (forall v: Valuation :: Feasible(cp, v) <==> Program(m, v))
    && (forall v: Valuation :: ObjectiveValue(cp.objective, v) == Objective(m, v))
    && TermsKnown(cp.domains, cp.objective)
  }

  method EncodeConstraints(m: MilpModel) returns (cs: seq<Constraint>)
    requires WellFormedModel(m)
    ensures forall v: Valuation ::
              InDomains(Domains(m), v) ==> (AllHold(cs, v) <==> Program(m, v))
  {
    var pins := EncodePins(m);
    var c1 := EncodeHeadcounts(m);
    var c2 := EncodeStaff(m);
    var c3;
    if m.demoteC3 { c3 := EncodeSoftC3(m); } else { c3 := EncodeHardC3(m); }
    var c5 := EncodeCaps(m);
    var times := [];
    if TimeActive(m) { times := EncodeTimes(m); }
    cs := pins + c1 + c2 + c3 + c5 + times;
    forall v: Valuation | InDomains(Domains(m), v)
      ensures AllHold(cs, v) <==> Program(m, v)
    {
      DomainsMean(m, v);
      ConcatHolds(pins, c1, v);
      ConcatHolds(pins + c1, c2, v);
      ConcatHolds(pins + c1 + c2, c3, v);
      ConcatHolds(pins + c1 + c2 + c3, c5, v);
      ConcatHolds(pins + c1 + c2 + c3 + c5, times, v);
      ProgramParts(m, v);
    }
  }

  lemma ProgramParts(m: MilpModel, v: Valuation)
    requires WellFormedModel(m)
    requires InDomains(Domains(m), v)
    ensures Program(m, v) <==>
            var S := Chosen(m.pairs, v);
            && (forall pr :: pr in m.pinned && pr in m.pairs ==> v(X(pr)) == 1)
            && HeadcountsExact(m, S) && AtMostOnePlace(m, S)
            && (if m.demoteC3 then forall k :: 0 <= k < |m.c3| ==> SlackCovers(m, S, v, k) else C3Met(m, S))
            && CapsKept(m, S)
            && (TimeActive(m) ==> forall pr :: pr in S ==> m.travelSeconds[pr] <= v(TMax))
  {
    DomainsMean(m, v);
    var S := Chosen(m.pairs, v);
    assert PinsKept(m, S) <==> forall pr :: pr in m.pinned && pr in m.pairs ==> v(X(pr)) == 1;
    if m.demoteC3 {
      assert forall k :: 0 <= k < |m.c3| ==> (SlackOk(m, S, v, k) <==> SlackCovers(m, S, v, k));
    }
  }

  method Encode(m: MilpModel) returns (cp: CpModel)
    requires WellFormedModel(m)
    ensures Encodes(cp, m)
  {
    var cs := EncodeConstraints(m);
    var terms := EncodeObjective(m);
    cp := CpModel(Domains(m), cs, terms);
    forall v: Valuation
      ensures Feasible(cp, v) <==> Program(m, v)
    {
      DomainsMean(m, v);
      if Program(m, v) { ProgramInDomains(m, v); }
    }
  }

  lemma ProgramInDomains(m: MilpModel, v: Valuation)
    requires WellFormedModel(m) && Program(m, v)
    ensures InDomains(Domains(m), v)
  {
    DomainsMean(m, v);
    if m.demoteC3 {
      SlackBounds(m, Chosen(m.pairs, v), v);
    }
  }

  lemma SlackBounds(m: MilpModel, S: set<Pair>, v: Valuation)
    requires SlacksCover(m, S, v)
    ensures forall i :: 0 <= i < |m.c3| ==> 0 <= v(Slack(i)) <= m.c3[i].count
  {
    forall i | 0 <= i < |m.c3|
      ensures 0 <= v(Slack(i)) <= m.c3[i].count
    {
      assert SlackOk(m, S, v, i);
    }
  }
}
