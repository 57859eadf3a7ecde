/** List cells in the CSV files: splitting, labels, and reading back what was written. */
module CsvCells {
  import opened Counting
  import opened Decimals
  import opened Domain

  // ----- Strings -----

  function Split(s: string, separator: char): (parts: seq<string>)
    ensures parts != []
  {
    if s == [] then [[]]
    else
      var rest := Split(s[1..], separator);
      if s[0] == separator then [[]] + rest else [[s[0]] + rest[0]] + rest[1..]
  }

  function Join(parts: seq<string>, separator: char): string {
    if parts == [] then []
    else if |parts| == 1 then parts[0]
    else parts[0] + [separator] + Join(parts[1..], separator)
  }

  /** Before and after the first separator; without one, everything is before. */
  function Partition(s: string, separator: char): (string, string) {
    if s == [] then ([], [])
    else if s[0] == separator then ([], s[1..])
    else
      var rest := Partition(s[1..], separator);
      ([s[0]] + rest.0, rest.1)
  }

  lemma {:induction false} SplitAtFirst(a: string, rest: string, separator: char)
    requires separator !in a
    ensures Split(a + [separator] + rest, separator) == [a] + Split(rest, separator)
  {
    var s := a + [separator] + rest;
    if a == [] {
      assert s[1..] == rest;
    } else {
      assert s[1..] == a[1..] + [separator] + rest;
      assert a == [a[0]] + a[1..];
      SplitAtFirst(a[1..], rest, separator);
    }
  }

  lemma {:induction false} SplitWithout(a: string, separator: char)
    requires separator !in a
    ensures Split(a, separator) == [a]
  {
    if a != [] {
      SplitWithout(a[1..], separator);
      assert a == [a[0]] + a[1..];
    }
  }

  /** Splitting undoes joining, for parts free of the separator. */
  lemma {:induction false} SplitJoin(parts: seq<string>, separator: char)
    requires parts != [] && forall p :: p in parts ==> separator !in p
    ensures Split(Join(parts, separator), separator) == parts
  {
    if |parts| == 1 {
      SplitWithout(parts[0], separator);
    } else {
      SplitAtFirst(parts[0], Join(parts[1..], separator), separator);
      SplitJoin(parts[1..], separator);
      assert parts == [parts[0]] + parts[1..];
    }
  }

  lemma {:induction false} PartitionAtFirst(a: string, rest: string, separator: char)
    requires separator !in a
    ensures Partition(a + [separator] + rest, separator) == (a, rest)
  {
    var s := a + [separator] + rest;
    if a == [] {
      assert s[1..] == rest;
    } else {
      assert s[1..] == a[1..] + [separator] + rest;
      PartitionAtFirst(a[1..], rest, separator);
      assert a == [a[0]] + a[1..];
    }
  }

  // ----- Labels -----

  function QualificationLabel(q: Qualification): string {
    match q
    case DisasterPreventionSpecialist => "防災士"
    case EmergencyLifesavingTechnician => "救急救命士"
  }

  function PositionLabel(p: Position): string {
    match p
    case Manager => "管理職"
    case General => "一般職"
  }

  function JobTypeLabel(j: JobType): string {
    match j
    case Clerical => "事務職"
    case Technical => "技術職"
    case NurseryTeacher => "保育士"
    case PublicHealthNurse => "保健師"
  }

  function Label(r: Requirement): string {
    match r
    case NeedsQualification(q) => QualificationLabel(q)
    case NeedsPosition(p) => PositionLabel(p)
    case NeedsJobType(j) => JobTypeLabel(j)
  }

  // The scans over the members of each enumeration.

  function QualificationFromLabel(text: string): Option<Qualification> {
    if text == QualificationLabel(DisasterPreventionSpecialist) then Some(DisasterPreventionSpecialist)
    else if text == QualificationLabel(EmergencyLifesavingTechnician) then Some(EmergencyLifesavingTechnician)
    else None
  }

  function PositionFromLabel(text: string): Option<Position> {
    if text == PositionLabel(Manager) then Some(Manager)
    else if text == PositionLabel(General) then Some(General)
    else None
  }

  function JobTypeFromLabel(text: string): Option<JobType> {
    if text == JobTypeLabel(Clerical) then Some(Clerical)
    else if text == JobTypeLabel(Technical) then Some(Technical)
    else if text == JobTypeLabel(NurseryTeacher) then Some(NurseryTeacher)
    else if text == JobTypeLabel(PublicHealthNurse) then Some(PublicHealthNurse)
    else None
  }

  /** A requirement label is looked up among all three, in this order. */
  function RequirementFromLabel(text: string): Option<Requirement> {
    if QualificationFromLabel(text).Some? then Some(NeedsQualification(QualificationFromLabel(text).value))
    else if PositionFromLabel(text).Some? then Some(NeedsPosition(PositionFromLabel(text).value))
    else if JobTypeFromLabel(text).Some? then Some(NeedsJobType(JobTypeFromLabel(text).value))
    else None
  }

  /** No label is shared, even across the three kinds of requirement. */
  lemma LabelsDistinct(r: Requirement, x: Requirement)
    ensures Label(r) == Label(x) ==> r == x
  {
    var a, b := Label(r), Label(x);
    assert |a| == |b| && |a| >= 2 && a[0] == b[0] && a[1] == b[1] ==> r == x;
  }

  lemma LabelShape(r: Requirement)
    ensures Trimmed(Label(r)) && ';' !in Label(r) && ':' !in Label(r)
  {
  }

  lemma LabelRoundTrip(r: Requirement)
    ensures RequirementFromLabel(Label(r)) == Some(r)
  {
    LabelsDistinct(r, NeedsQualification(DisasterPreventionSpecialist));
    LabelsDistinct(r, NeedsQualification(EmergencyLifesavingTechnician));
    LabelsDistinct(r, NeedsPosition(Manager));
    LabelsDistinct(r, NeedsPosition(General));
    LabelsDistinct(r, NeedsJobType(Clerical));
    LabelsDistinct(r, NeedsJobType(Technical));
    LabelsDistinct(r, NeedsJobType(NurseryTeacher));
    LabelsDistinct(r, NeedsJobType(PublicHealthNurse));
  }

  // ----- The cells -----

  function StripAll(parts: seq<string>): seq<string> {
    if parts == [] then []
    else
      var last := Strip(parts[|parts| - 1]);
      StripAll(parts[..|parts| - 1]) + if last != [] then [last] else []
  }

  /** `_split_list`: the non-blank parts, stripped. */
  function SplitList(cell: string): seq<string> { StripAll(Split(cell, ';')) }

  lemma {:induction false} StripAllTrimmed(parts: seq<string>)
    requires forall p :: p in parts ==> Trimmed(p)
    ensures StripAll(parts) == parts
  {
    if parts != [] {
      assert parts[|parts| - 1] in parts;
      StripAllTrimmed(parts[..|parts| - 1]);
    }
  }

  lemma SplitListJoin(items: seq<string>)
    requires forall p :: p in items ==> Trimmed(p) && ';' !in p
    ensures SplitList(Join(items, ';')) == items
  {
    if items == [] {
      assert Split([], ';') == [[]];
      assert StripAll([[]]) == [];
    } else {
      SplitJoin(items, ';');
      StripAllTrimmed(items);
    }
  }

  function ItemOf(q: QualificationRequirement): string { Label(q.requirement) + ":" + Decimal(q.count) }

  function ItemsOf(qs: seq<QualificationRequirement>): (items: seq<string>)
    ensures |items| == |qs| && forall i :: 0 <= i < |qs| ==> items[i] == ItemOf(qs[i])
  {
    seq(|qs|, i requires 0 <= i < |qs| => ItemOf(qs[i]))
  }

  /** The exported requirement cell: "label:count;label:count". */
  function RequirementCell(qs: seq<QualificationRequirement>): string { Join(ItemsOf(qs), ';') }

  function ParseItem(item: string, table: DigitTable): Option<QualificationRequirement> {
    var (name, count) := Partition(item, ':');
    if count == [] then None
    else
      var r := RequirementFromLabel(Strip(name));
      var n := ParseInt(Strip(count), table);
      if r.None? || n.None? then None else Some(QualificationRequirement(r.value, n.value))
  }

  function ParseItems(items: seq<string>, table: DigitTable): Option<seq<QualificationRequirement>> {
    if items == [] then Some([])
    else
      var before := ParseItems(items[..|items| - 1], table);
      var last := ParseItem(items[|items| - 1], table);
      if before.None? || last.None? then None else Some(before.value + [last.value])
  }

  lemma {:induction false} PrefixFails(items: seq<string>, i: nat, table: DigitTable)
    requires i <= |items| && ParseItems(items[..i], table).None?
    ensures ParseItems(items, table).None?
    decreases |items| - i
  {
    if i < |items| {
      assert items[..i + 1][..i] == items[..i];
      PrefixFails(items, i + 1, table);
    } else {
      assert items[..i] == items;
    }
  }

  /** `_parse_requirements`: item by item, the first malformed one fails the cell. */
  method ParseRequirements(cell: string, table: DigitTable) returns (parsed: Option<seq<QualificationRequirement>>)
    ensures parsed == ParseItems(SplitList(cell), table)
  {
    hide ParseItem, SplitList;
    var items := SplitList(cell);
    var requirements: seq<QualificationRequirement> := [];
    for i := 0 to |items|
      invariant ParseItems(items[..i], table) == Some(requirements)
    {
      assert items[..i + 1][..i] == items[..i];
      var item := ParseItem(items[i], table);
      if item.None? {
        PrefixFails(items, i + 1, table);
        return None;
      }
      requirements := requirements + [item.value];
    }
    assert items[..|items|] == items;
    parsed := Some(requirements);
  }

  lemma ItemRoundTrip(q: QualificationRequirement, table: DigitTable)
    requires IsDigitTable(table)
    ensures ParseItem(ItemOf(q), table) == Some(q)
  {
    var name, count := Label(q.requirement), Decimal(q.count);
    LabelRoundTrip(q.requirement);
    LabelShape(q.requirement);
    DecimalShape(q.count);
    DecimalRoundTrip(q.count, table);
    assert name + ":" + count == name + [':'] + count;
    PartitionAtFirst(name, count, ':');
  }

  lemma ItemShape(q: QualificationRequirement)
    ensures Trimmed(ItemOf(q)) && ';' !in ItemOf(q)
  {
    var name, count := Label(q.requirement), Decimal(q.count);
    LabelShape(q.requirement);
    DecimalShape(q.count);
    assert ItemOf(q)[0] == name[0] && ItemOf(q)[|ItemOf(q)| - 1] == count[|count| - 1];
  }

  lemma ParsedOneMore(
      items: seq<string>, qs: seq<QualificationRequirement>, item: string, q: QualificationRequirement,
      table: DigitTable)
    requires ParseItems(items, table) == Some(qs) && ParseItem(item, table) == Some(q)
    ensures ParseItems(items + [item], table) == Some(qs + [q])
  {
    hide ParseItem;
    var all := items + [item];
    assert all[..|all| - 1] == items;
  }

  lemma {:induction false} EachItemParses(
      items: seq<string>, qs: seq<QualificationRequirement>, n: nat, table: DigitTable)
    requires n <= |items| == |qs| && forall i :: 0 <= i < |qs| ==> ParseItem(items[i], table) == Some(qs[i])
    ensures ParseItems(items[..n], table) == Some(qs[..n])
  {
    if n > 0 {
      EachItemParses(items, qs, n - 1, table);
      hide *;
      TakeOneMore(items, n);
      TakeOneMore(qs, n);
      ParsedOneMore(items[..n - 1], qs[..n - 1], items[n - 1], qs[n - 1], table);
    }
  }

  lemma ItemsShape(qs: seq<QualificationRequirement>)
    ensures forall p :: p in ItemsOf(qs) ==> Trimmed(p) && ';' !in p
  {
    forall p | p in ItemsOf(qs)
      ensures Trimmed(p) && ';' !in p
    {
      var i :| 0 <= i < |qs| && ItemsOf(qs)[i] == p;
      ItemShape(qs[i]);
    }
  }

  lemma ItemsRoundTrip(qs: seq<QualificationRequirement>, table: DigitTable)
    requires IsDigitTable(table)
    ensures ParseItems(ItemsOf(qs), table) == Some(qs)
  {
    var items := ItemsOf(qs);
    forall i | 0 <= i < |qs|
      ensures ParseItem(items[i], table) == Some(qs[i])
    {
      ItemRoundTrip(qs[i], table);
    }
    hide *;
    EachItemParses(items, qs, |qs|, table);
    TakeAll(items);
    TakeAll(qs);
  }

  /** Reading an exported requirement cell gives back the same list, in order, whatever the
      counts. */
  lemma RequirementCellRoundTrip(qs: seq<QualificationRequirement>, table: DigitTable)
    requires IsDigitTable(table)
    ensures ParseItems(SplitList(RequirementCell(qs)), table) == Some(qs)
  {
    assert RequirementCell(qs) == Join(ItemsOf(qs), ';');
    hide *;
    ItemsShape(qs);
    SplitListJoin(ItemsOf(qs));
    ItemsRoundTrip(qs, table);
  }

  /** Exporting is injective: different requirement lists never give the same cell. */
  lemma RequirementCellInjective(qs: seq<QualificationRequirement>, rs: seq<QualificationRequirement>)
    ensures RequirementCell(qs) == RequirementCell(rs) ==> qs == rs
  {
    RequirementCellRoundTrip(qs, AsciiDigit);
    RequirementCellRoundTrip(rs, AsciiDigit);
  }

  // ----- The qualification cell -----

  /** The set read from a list of labels; None if any is unknown. */
  function ParseQualifications(labels: seq<string>): Option<set<Qualification>> {
    if labels == [] then Some({})
    else
      var before := ParseQualifications(labels[..|labels| - 1]);
      var last := QualificationFromLabel(labels[|labels| - 1]);
      if before.None? || last.None? then None else Some(before.value + {last.value})
  }

  ghost function LabelsOf(qs: set<Qualification>): set<string> { set q | q in qs :: QualificationLabel(q) }

  lemma QualificationLabelRoundTrip(q: Qualification)
    ensures QualificationFromLabel(QualificationLabel(q)) == Some(q)
    ensures Trimmed(QualificationLabel(q)) && ';' !in QualificationLabel(q)
  {
    LabelShape(NeedsQualification(q));
    LabelsDistinct(NeedsQualification(q), NeedsQualification(DisasterPreventionSpecialist));
  }

  lemma {:induction false} LabelsRead(labels: seq<string>, qs: set<Qualification>)
    requires (set l | l in labels) == LabelsOf(qs)
    ensures ParseQualifications(labels) == Some(qs)
    decreases |labels|
  {
    if labels == [] {
      assert forall q :: q in qs ==> QualificationLabel(q) in LabelsOf(qs);
      assert qs == {};
    } else {
      var rest, last := labels[..|labels| - 1], labels[|labels| - 1];
      assert labels == rest + [last];
      assert last in LabelsOf(qs);
      var q :| q in qs && QualificationLabel(q) == last;
      QualificationLabelRoundTrip(q);
      var smaller := Among(qs, rest);
      AmongRest(rest, last, qs, q);
      hide QualificationLabel, QualificationFromLabel, LabelsOf, Among;
      LabelsRead(rest, smaller);
    }
  }

  ghost function Among(qs: set<Qualification>, labels: seq<string>): set<Qualification> {
    set x | x in qs && QualificationLabel(x) in labels
  }

  lemma AmongRest(rest: seq<string>, last: string, qs: set<Qualification>, q: Qualification)
    requires (set l | l in rest + [last]) == LabelsOf(qs) && q in qs && QualificationLabel(q) == last
    ensures (set l | l in rest) == LabelsOf(Among(qs, rest))
    ensures qs == Among(qs, rest) + {q}
  {
    hide QualificationLabel;
    forall l | l in rest
      ensures l in LabelsOf(Among(qs, rest))
    {
      assert l in rest + [last];
      assert l in LabelsOf(qs);
    }
    forall x | x in qs
      ensures x in Among(qs, rest) + {q}
    {
      assert QualificationLabel(x) in LabelsOf(qs);
      assert QualificationLabel(x) in rest + [last];
      if QualificationLabel(x) == last {
        LabelsInjective(x, q);
      }
    }
  }

  lemma LabelsInjective(x: Qualification, q: Qualification)
    requires QualificationLabel(x) == QualificationLabel(q)
    ensures x == q
  {
    QualificationLabelRoundTrip(x);
    QualificationLabelRoundTrip(q);
  }

  /** Reading an exported qualification cell gives back the set, in whatever order its
      labels were sorted. */
  lemma QualificationCellRoundTrip(qs: set<Qualification>, sorted: seq<string>)
    requires (set l | l in sorted) == LabelsOf(qs)
    ensures ParseQualifications(SplitList(Join(sorted, ';'))) == Some(qs)
  {
    forall p | p in sorted
      ensures Trimmed(p) && ';' !in p
    {
      assert p in LabelsOf(qs);
      var q :| q in qs && QualificationLabel(q) == p;
      QualificationLabelRoundTrip(q);
    }
    SplitListJoin(sorted);
    LabelsRead(sorted, qs);
  }
}
