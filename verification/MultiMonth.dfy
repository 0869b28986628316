/** The multi-month payroll report: which months it lists, and that grouping by employee loses no money. */
module MultiMonth {
  import opened Prelude
  import opened Money

  datatype Month = Month(bsYear: int, bsMonth: int)

  // ---- Months ----

  function NextMonth(m: Month): Month {
    if m.bsMonth + 1 > 12 then Month(m.bsYear + 1, 1) else Month(m.bsYear, m.bsMonth + 1)
  }

  predicate AtMost(m: Month, until: Month) {
    m.bsYear < until.bsYear || (m.bsYear == until.bsYear && m.bsMonth <= until.bsMonth)
  }

  predicate IsProper(m: Month) { 1 <= m.bsMonth <= 12 }

  function Serial(m: Month): int { 12 * m.bsYear + m.bsMonth - 1 }

  /** Consecutive months from `from`, none after `until`. */
  ghost predicate IsRunOf(months: seq<Month>, from: Month, until: Month) {
    && (months != [] ==> months[0] == from)
    && (forall i :: 0 < i < |months| ==> months[i] == NextMonth(months[i - 1]))
    && (forall i :: 0 <= i < |months| ==> AtMost(months[i], until))
  }

  /** Terminates for any integers at all, and stops only when the next month is after `until`. */
  method ListMonths(from: Month, until: Month) returns (months: seq<Month>)
    ensures IsRunOf(months, from, until)
    ensures !AtMost(if months == [] then from else NextMonth(months[|months| - 1]), until)
  {
    months := [];
    var current := from;
    while AtMost(current, until)
      invariant IsRunOf(months, from, until)
      invariant current == if months == [] then from else NextMonth(months[|months| - 1])
      decreases until.bsYear - current.bsYear, 13 - current.bsMonth
    {
      months := months + [current];
      current := NextMonth(current);
    }
  }

  lemma {:induction false} RunSerials(months: seq<Month>, from: Month, until: Month, i: nat)
    requires IsRunOf(months, from, until) && IsProper(from) && i < |months|
    ensures IsProper(months[i]) && Serial(months[i]) == Serial(from) + i
    decreases i
  {
    if i > 0 {
      RunSerials(months, from, until, i - 1);
    }
  }

  /** Between proper months, the report lists exactly the months from the first to the last, each once, in
      order: 12 (Y2 - Y1) + M2 - M1 + 1 of them, or none when the range is reversed. */
  lemma MonthsAreExact(months: seq<Month>, from: Month, until: Month, m: Month)
    requires IsProper(from) && IsProper(until) && IsRunOf(months, from, until)
    requires !AtMost(if months == [] then from else NextMonth(months[|months| - 1]), until)
    ensures |months| == if AtMost(from, until)
                        then 12 * (until.bsYear - from.bsYear) + until.bsMonth - from.bsMonth + 1
                        else 0
    ensures m in months <==> IsProper(m) && AtMost(from, m) && AtMost(m, until)
    ensures forall i, j :: 0 <= i < j < |months| ==> Serial(months[i]) < Serial(months[j])
  {
    forall i | 0 <= i < |months|
      ensures IsProper(months[i]) && Serial(months[i]) == Serial(from) + i
    {
      RunSerials(months, from, until, i);
    }
    if months != [] {
      assert AtMost(months[0], until);
      assert Serial(NextMonth(months[|months| - 1])) == Serial(from) + |months|;
      if IsProper(m) && AtMost(from, m) && AtMost(m, until) {
        assert Serial(months[Serial(m) - Serial(from)]) == Serial(m);
      }
    }
  }

  // ---- Totals ----

  /** The columns that are added up. */
  datatype Totals = Totals(basicSalary: real, grossSalary: real, totalDeductions: real, netSalary: real,
                           employeeSsf: real, employeePf: real, tds: real) {
    function Add(t: Totals): Totals {
      Totals(basicSalary + t.basicSalary, grossSalary + t.grossSalary, totalDeductions + t.totalDeductions,
             netSalary + t.netSalary, employeeSsf + t.employeeSsf, employeePf + t.employeePf, tds + t.tds)
    }

    function Rounded(): Totals {
      Totals(Round2(basicSalary), Round2(grossSalary), Round2(totalDeductions), Round2(netSalary), Round2(employeeSsf),
             Round2(employeePf), Round2(tds))
    }

    ghost predicate InPaisa() {
      && Money.InPaisa(basicSalary) && Money.InPaisa(grossSalary) && Money.InPaisa(totalDeductions)
      && Money.InPaisa(netSalary) && Money.InPaisa(employeeSsf) && Money.InPaisa(employeePf) && Money.InPaisa(tds)
    }
  }

  const ZERO := Totals(0.0, 0.0, 0.0, 0.0, 0.0, 0.0, 0.0)

  datatype Row = Row(membership: nat, amounts: Totals)

  datatype Group = Group(membership: nat, totals: Totals, monthsProcessed: nat)

  ghost function SumOf(rows: seq<Row>): Totals {
    if rows == [] then ZERO else SumOf(rows[..|rows| - 1]).Add(rows[|rows| - 1].amounts)
  }

  ghost function SumFor(rows: seq<Row>, membership: nat): Totals {
    if rows == [] then ZERO
    else
      var before := SumFor(rows[..|rows| - 1], membership);
      if rows[|rows| - 1].membership == membership then before.Add(rows[|rows| - 1].amounts) else before
  }

  ghost function CountFor(rows: seq<Row>, membership: nat): nat {
    if rows == [] then 0
    else CountFor(rows[..|rows| - 1], membership) + if rows[|rows| - 1].membership == membership then 1 else 0
  }

  ghost function SumOfGroups(groups: seq<Group>): Totals {
    if groups == [] then ZERO else SumOfGroups(groups[..|groups| - 1]).Add(groups[|groups| - 1].totals)
  }

  // ---- The totals, column by column ----

  ghost function Sum(rows: seq<Row>, amount: Row -> real): real {
    if rows == [] then 0.0 else Sum(rows[..|rows| - 1], amount) + amount(rows[|rows| - 1])
  }

  /** The amount, if the row is one of the employee's; without an employee every row counts. */
  function If(row: Row, membership: Option<nat>, amount: real): real {
    if membership.None? || row.membership == membership.value then amount else 0.0
  }

  /** Each column is the sum of that column over the employee's rows, or over all of them. */
  ghost predicate AddsUp(t: Totals, rows: seq<Row>, m: Option<nat>) {
    && t.basicSalary == Sum(rows, (r: Row) => If(r, m, r.amounts.basicSalary))
    && t.grossSalary == Sum(rows, (r: Row) => If(r, m, r.amounts.grossSalary))
    && t.totalDeductions == Sum(rows, (r: Row) => If(r, m, r.amounts.totalDeductions))
    && t.netSalary == Sum(rows, (r: Row) => If(r, m, r.amounts.netSalary))
    && t.employeeSsf == Sum(rows, (r: Row) => If(r, m, r.amounts.employeeSsf))
    && t.employeePf == Sum(rows, (r: Row) => If(r, m, r.amounts.employeePf))
    && t.tds == Sum(rows, (r: Row) => If(r, m, r.amounts.tds))
  }

  ghost predicate IsGroupOf(g: Group, rows: seq<Row>) {
    && AddsUp(g.totals, rows, Some(g.membership))
    && g.monthsProcessed as real == Sum(rows, (r: Row) => If(r, Some(g.membership), 1.0))
  }

  lemma {:induction false} TotalsAddUp(rows: seq<Row>)
    ensures AddsUp(SumOf(rows), rows, None)
  {
    if rows != [] {
      TotalsAddUp(rows[..|rows| - 1]);
    }
  }

  lemma {:induction false} EmployeeTotalsAddUp(rows: seq<Row>, membership: nat)
    ensures AddsUp(SumFor(rows, membership), rows, Some(membership))
    ensures CountFor(rows, membership) as real == Sum(rows, (r: Row) => If(r, Some(membership), 1.0))
  {
    if rows != [] {
      EmployeeTotalsAddUp(rows[..|rows| - 1], membership);
    }
  }

  /** One group per employee who has a row, with that employee's exact totals. */
  ghost predicate GroupsOf(groups: seq<Group>, rows: seq<Row>) {
    && (forall i, j :: 0 <= i < j < |groups| ==> groups[i].membership != groups[j].membership)
    && (forall i :: 0 <= i < |groups| ==>
          && groups[i].totals == SumFor(rows, groups[i].membership)
          && groups[i].monthsProcessed == CountFor(rows, groups[i].membership) > 0)
    && (forall r :: r in rows ==> exists i :: 0 <= i < |groups| && groups[i].membership == r.membership)
  }

  lemma AddRules(a: Totals, b: Totals, c: Totals)
    ensures a.Add(b).Add(c) == a.Add(c).Add(b)
    ensures a.Add(ZERO) == a
  {
  }

  /** Replacing one group's totals by totals plus an amount adds that amount to the sum of the groups. */
  lemma {:induction false} SumAfterUpdate(groups: seq<Group>, k: nat, g: Group, amount: Totals)
    requires k < |groups| && g.totals == groups[k].totals.Add(amount)
    ensures SumOfGroups(groups[k := g]) == SumOfGroups(groups).Add(amount)
  {
    var last := |groups| - 1;
    var updated := groups[k := g];
    if k == last {
      assert updated[..last] == groups[..last];
      AddAssociates(SumOfGroups(groups[..last]), groups[last].totals, amount);
    } else {
      SumAfterUpdate(groups[..last], k, g, amount);
      assert updated[..last] == groups[..last][k := g];
      AddRules(SumOfGroups(groups[..last]), amount, groups[last].totals);
    }
  }

  lemma AddAssociates(a: Totals, b: Totals, c: Totals)
    ensures a.Add(b.Add(c)) == a.Add(b).Add(c)
  {
  }

  lemma {:induction false} NoRowsNoSum(rows: seq<Row>, membership: nat)
    requires forall r :: r in rows ==> r.membership != membership
    ensures SumFor(rows, membership) == ZERO && CountFor(rows, membership) == 0
  {
    if rows != [] {
      NoRowsNoSum(rows[..|rows| - 1], membership);
    }
  }

  /** Opening an empty group for an employee without rows so far. */
  lemma GroupOpened(groups: seq<Group>, rows: seq<Row>, membership: nat)
    requires GroupsOf(groups, rows)
    requires forall i :: 0 <= i < |groups| ==> groups[i].membership != membership
    ensures AlmostGroupsOf(groups + [Group(membership, ZERO, 0)], rows, |groups|)
    ensures SumOfGroups(groups + [Group(membership, ZERO, 0)]) == SumOfGroups(groups)
  {
    hide Totals.Add;
    var more := groups + [Group(membership, ZERO, 0)];
    assert more[..|groups|] == groups;
    AddRules(SumOfGroups(groups), ZERO, ZERO);
    assert SumOfGroups(more) == SumOfGroups(groups);
    NoRowsNoSum(rows, membership);
    hide SumFor, CountFor, SumOfGroups;
    forall r | r in rows
      ensures exists i :: 0 <= i < |more| && more[i].membership == r.membership
    {
      var i :| 0 <= i < |groups| && groups[i].membership == r.membership;
      assert more[i].membership == r.membership;
    }
  }

  lemma SumOfPrefix(rows: seq<Row>, n: nat)
    requires n < |rows|
    ensures SumOf(rows[..n + 1]) == SumOf(rows[..n]).Add(rows[n].amounts)
  {
    assert rows[..n + 1][..n] == rows[..n];
  }

  /** The loop over the records: groups keep the order in which employees first appear. */
  method GroupByEmployee(rows: seq<Row>) returns (groups: seq<Group>)
    ensures GroupsOf(groups, rows)
    ensures SumOfGroups(groups) == SumOf(rows)
  {
    hide Totals.Add, SumFor, CountFor;
    groups := [];
    for n := 0 to |rows|
      invariant GroupsOf(groups, rows[..n])
      invariant SumOfGroups(groups) == SumOf(rows[..n])
    {
      hide SumOf, SumOfGroups;
      var record := rows[n];
      var k := FindGroup(groups, record.membership);
      if k == |groups| {
        GroupOpened(groups, rows[..n], record.membership);
        groups := groups + [Group(record.membership, ZERO, 0)];
      }
      var g := groups[k];
      var updated := Group(g.membership, g.totals.Add(record.amounts), g.monthsProcessed + 1);
      SumAfterUpdate(groups, k, updated, record.amounts);
      SumOfPrefix(rows, n);
      RowAdded(groups, rows, n, k);
      groups := groups[k := updated];
    }
    assert rows[..|rows|] == rows;
  }

  method FindGroup(groups: seq<Group>, membership: nat) returns (k: nat)
    ensures k <= |groups|
    ensures k < |groups| ==> groups[k].membership == membership
    ensures k == |groups| ==> forall i :: 0 <= i < |groups| ==> groups[i].membership != membership
  {
    k := 0;
    while k < |groups| && groups[k].membership != membership
      invariant k <= |groups|
      invariant forall i :: 0 <= i < k ==> groups[i].membership != membership
    {
      k := k + 1;
    }
  }

  /** Groups of the first n rows, possibly with one empty group for the next row's employee. */
  ghost predicate AlmostGroupsOf(groups: seq<Group>, rows: seq<Row>, k: nat) {
    && k < |groups|
    && (forall i, j :: 0 <= i < j < |groups| ==> groups[i].membership != groups[j].membership)
    && (forall i :: 0 <= i < |groups| ==>
          && groups[i].totals == SumFor(rows, groups[i].membership)
          && groups[i].monthsProcessed == CountFor(rows, groups[i].membership)
          && (i != k ==> groups[i].monthsProcessed > 0))
    && (forall r :: r in rows ==> exists i :: 0 <= i < |groups| && groups[i].membership == r.membership)
  }

  lemma RowAdded(groups: seq<Group>, rows: seq<Row>, n: nat, k: nat)
    requires n < |rows| && AlmostGroupsOf(groups, rows[..n], k) && groups[k].membership == rows[n].membership
    ensures var g := groups[k];
            GroupsOf(groups[k := Group(g.membership, g.totals.Add(rows[n].amounts), g.monthsProcessed + 1)],
                     rows[..n + 1])
  {
    var next := rows[..n + 1];
    assert next[..n] == rows[..n];
    var g := groups[k];
    var updated := groups[k := Group(g.membership, g.totals.Add(rows[n].amounts), g.monthsProcessed + 1)];
    forall r | r in next
      ensures exists i :: 0 <= i < |updated| && updated[i].membership == r.membership
    {
      if r == rows[n] {
        assert updated[k].membership == r.membership;
      } else {
        assert r in rows[..n];
        var i :| 0 <= i < |groups| && groups[i].membership == r.membership;
        assert updated[i].membership == r.membership;
      }
    }
  }

  /** Round each group, then add the groups up and round again. */
  method GrandTotals(groups: seq<Group>) returns (employees: seq<Group>, grand: Totals)
    ensures |employees| == |groups|
    ensures forall i :: 0 <= i < |groups| ==> employees[i] == groups[i].(totals := groups[i].totals.Rounded())
    ensures grand == SumOfGroups(employees).Rounded()
  {
    employees := seq(|groups|, i requires 0 <= i < |groups| => groups[i].(totals := groups[i].totals.Rounded()));
    var sum := ZERO;
    for i := 0 to |employees|
      invariant sum == SumOfGroups(employees[..i])
    {
      assert employees[..i + 1][..i] == employees[..i];
      sum := sum.Add(employees[i].totals);
    }
    assert employees[..|employees|] == employees;
    grand := sum.Rounded();
  }

  datatype Report = Report(months: seq<Month>, employees: seq<Group>, grandTotals: Totals)

  datatype ReportError = TooManyMonths

  method GetMultiMonthData(from: Month, until: Month, rows: seq<Row>) returns (r: Result<Report, ReportError>)
    requires forall row :: row in rows ==> row.amounts.InPaisa()
    ensures IsProper(from) && IsProper(until) ==> (r.Err? <==> Serial(until) - Serial(from) >= 12)
    ensures r.Ok? ==> IsRunOf(r.value.months, from, until) && GroupsOf(r.value.employees, rows)
    ensures r.Ok? ==> AddsUp(r.value.grandTotals, rows, None)
    ensures r.Ok? ==> forall i :: 0 <= i < |r.value.employees| ==> IsGroupOf(r.value.employees[i], rows)
  {
    hide AddsUp;
    var months := ListMonths(from, until);
    if IsProper(from) && IsProper(until) {
      MonthsAreExact(months, from, until, from);
    }
    if |months| > 12 {
      return Err(TooManyMonths);
    }
    var groups := GroupByEmployee(rows);
    var employees, grand := GrandTotals(groups);
    RoundingKeepsGroups(groups, rows);
    assert employees == groups;
    SumIsInPaisa(rows);
    RoundedKeepsPaisa(SumOf(rows));
    TotalsAddUp(rows);
    forall i | 0 <= i < |groups|
      ensures IsGroupOf(groups[i], rows)
    {
      EmployeeTotalsAddUp(rows, groups[i].membership);
    }
    return Ok(Report(months, employees, grand));
  }

  // ---- Rounding whole paisa changes nothing ----

  lemma RoundedKeepsPaisa(t: Totals)
    requires t.InPaisa()
    ensures t.Rounded() == t
  {
    hide Round2, Money.InPaisa;
    Round2KeepsPaisa(t.basicSalary);
    Round2KeepsPaisa(t.grossSalary);
    Round2KeepsPaisa(t.totalDeductions);
    Round2KeepsPaisa(t.netSalary);
    Round2KeepsPaisa(t.employeeSsf);
    Round2KeepsPaisa(t.employeePf);
    Round2KeepsPaisa(t.tds);
  }

  lemma AddIsInPaisa(a: Totals, b: Totals)
    requires a.InPaisa() && b.InPaisa()
    ensures a.Add(b).InPaisa()
  {
    hide Money.InPaisa;
    PaisaAdd(a.basicSalary, b.basicSalary);
    PaisaAdd(a.grossSalary, b.grossSalary);
    PaisaAdd(a.totalDeductions, b.totalDeductions);
    PaisaAdd(a.netSalary, b.netSalary);
    PaisaAdd(a.employeeSsf, b.employeeSsf);
    PaisaAdd(a.employeePf, b.employeePf);
    PaisaAdd(a.tds, b.tds);
  }

  lemma ZeroIsInPaisa()
    ensures ZERO.InPaisa()
  {
    PaisaOf(0.0, 0);
  }

  lemma {:induction false} SumIsInPaisa(rows: seq<Row>)
    requires forall row :: row in rows ==> row.amounts.InPaisa()
    ensures SumOf(rows).InPaisa()
  {
    ZeroIsInPaisa();
    if rows != [] {
      SumIsInPaisa(rows[..|rows| - 1]);
      AddIsInPaisa(SumOf(rows[..|rows| - 1]), rows[|rows| - 1].amounts);
    }
  }

  lemma {:induction false} SumForIsInPaisa(rows: seq<Row>, membership: nat)
    requires forall row :: row in rows ==> row.amounts.InPaisa()
    ensures SumFor(rows, membership).InPaisa()
  {
    ZeroIsInPaisa();
    if rows != [] {
      SumForIsInPaisa(rows[..|rows| - 1], membership);
      AddIsInPaisa(SumFor(rows[..|rows| - 1], membership), rows[|rows| - 1].amounts);
    }
  }

  lemma RoundingKeepsGroups(groups: seq<Group>, rows: seq<Row>)
    requires GroupsOf(groups, rows) && forall row :: row in rows ==> row.amounts.InPaisa()
    ensures forall i :: 0 <= i < |groups| ==> groups[i].totals.Rounded() == groups[i].totals
  {
    forall i | 0 <= i < |groups|
      ensures groups[i].totals.Rounded() == groups[i].totals
    {
      SumForIsInPaisa(rows, groups[i].membership);
      RoundedKeepsPaisa(groups[i].totals);
    }
  }
}
