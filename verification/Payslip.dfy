/** One employee's payslip for a month, from pay settings, presence, leave and the tax configuration. */
module Payslip {
  import opened Prelude
  import opened Clock
  import opened BikramSambat
  import opened Money
  import Attendance
  import Leaves
  import PayrollHours
  import Tax

  datatype PaySettings = PaySettings(
    basicSalary: real, dearnessAllowance: real, transportAllowance: real, medicalAllowance: real, otherAllowances: real,
    overtimeRatePerHour: real,
    ssfEnabled: bool, employeeSsfRate: real, employerSsfRate: real,
    pfEnabled: bool, employeePfRate: real, employerPfRate: real,
    citEnabled: bool, citAmount: real,
    tdsEnabled: bool, isMarried: bool,
    advanceDeduction: real, dashainBonusPercent: Option<real>)

  /** What the organization switches on, and its Dashain bonus. */
  datatype OrgPay = OrgPay(ssf: bool, pf: bool, cit: bool, tds: bool, dashainBonusMonth: int, dashainBonusPercent: real)

  datatype MonthFacts = MonthFacts(bsMonth: int, workingDays: nat, daysPresent: nat, leave: Leaves.LeaveDays,
                                   overtimeHours: real)

  datatype Payslip = Payslip(
    daysPresent: int, daysAbsent: int, paidLeaveDays: int, unpaidLeaveDays: int, overtimeHours: real,
    overtimePay: real, grossSalary: real, absenceDeduction: real,
    employeeSsf: real, employerSsf: real, tds: real, employeePf: real, employerPf: real,
    citDeduction: real, advanceDeduction: real, dashainBonus: real,
    totalDeductions: real, netSalary: real)

  function RoundedProduct(x: real, y: real): real { Round2(x * y) }

  function Percent(amount: real, rate: real): real { RoundedProduct(amount, rate / 100.0) }

  function EffectivePresent(f: MonthFacts): int { Min(f.workingDays, f.daysPresent + f.leave.paid) }

  function DaysAbsent(f: MonthFacts): nat { Max(0, f.workingDays - EffectivePresent(f)) }

  function DailyRate(s: PaySettings): real { Round2(s.basicSalary / 30.0) }

  function AbsenceDeduction(s: PaySettings, f: MonthFacts): real { RoundedProduct(DailyRate(s), DaysAbsent(f) as real) }

  function Allowances(s: PaySettings): real {
    s.dearnessAllowance + s.transportAllowance + s.medicalAllowance + s.otherAllowances
  }

  function OvertimePay(s: PaySettings, f: MonthFacts): real { RoundedProduct(f.overtimeHours, s.overtimeRatePerHour) }

  function GrossSalary(s: PaySettings, f: MonthFacts): real {
    Round2(s.basicSalary + Allowances(s) + OvertimePay(s, f) - AbsenceDeduction(s, f))
  }

  function EffectiveBasic(s: PaySettings, f: MonthFacts): real {
    MaxReal(0.0, Round2(s.basicSalary - AbsenceDeduction(s, f)))
  }

  /** The employee's own percentage, or the organization's. */
  function BonusPercent(s: PaySettings, org: OrgPay): real {
    if s.dashainBonusPercent.Some? then s.dashainBonusPercent.value else org.dashainBonusPercent
  }

  function DashainBonus(s: PaySettings, org: OrgPay, f: MonthFacts): real {
    if f.bsMonth == org.dashainBonusMonth then Percent(s.basicSalary, BonusPercent(s, org)) else 0.0
  }

  /** A statutory deduction applies when the organization offers it, the employee has it and there are earnings. */
  function When(applies: bool, amount: real): real { if applies then amount else 0.0 }

  ghost function MonthlyTax(s: PaySettings, org: OrgPay, f: MonthFacts, config: Option<Tax.RawConfig>,
                            annualTaxable: real): int
  {
    if org.tds && s.tdsEnabled && GrossSalary(s, f) > 0.0
    then Tax.MonthlyTDS(config, s.isMarried, org.ssf && s.ssfEnabled, annualTaxable)
    else 0
  }

  /** Cap the deductions at what was earned, and pay the rest. */
  function Settle(p: Payslip): Payslip {
    var earned := p.grossSalary + p.dashainBonus;
    var raw := Round2(p.employeeSsf + p.employeePf + p.citDeduction + p.advanceDeduction + p.tds);
    var total := MinReal(raw, earned);
    p.(totalDeductions := total, netSalary := MaxReal(0.0, Round2(earned - total)))
  }

  /** Everything on the payslip except the tax and the final settlement. */
  function Unsettled(s: PaySettings, org: OrgPay, f: MonthFacts): Payslip {
    var basic, earns := EffectiveBasic(s, f), GrossSalary(s, f) > 0.0;
    var ssf, pf := org.ssf && s.ssfEnabled && earns, org.pf && s.pfEnabled && earns;
    Payslip(EffectivePresent(f), DaysAbsent(f), f.leave.paid, f.leave.unpaid, f.overtimeHours,
            OvertimePay(s, f), GrossSalary(s, f), AbsenceDeduction(s, f),
            When(ssf, Percent(basic, s.employeeSsfRate)), When(ssf, Percent(basic, s.employerSsfRate)), 0.0,
            When(pf, Percent(basic, s.employeePfRate)), When(pf, Percent(basic, s.employerPfRate)),
            When(org.cit && s.citEnabled && earns, s.citAmount), When(earns, s.advanceDeduction),
            DashainBonus(s, org, f), 0.0, 0.0)
  }

  function AnnualTaxable(p: Payslip): real {
    (p.grossSalary + p.dashainBonus - p.employeeSsf - p.employeePf - p.citDeduction) * 12.0
  }

  /** No presence at all: every amount is zero, the bonus included. */
  function EmptyPayslip(f: MonthFacts): Payslip {
    Payslip(0, f.workingDays, f.leave.paid, f.leave.unpaid, 0.0, 0.0, 0.0, 0.0, 0.0, 0.0, 0.0, 0.0, 0.0, 0.0, 0.0,
            0.0, 0.0, 0.0)
  }

  ghost function PayslipFor(s: PaySettings, org: OrgPay, f: MonthFacts, config: Option<Tax.RawConfig>): Payslip {
    if EffectivePresent(f) == 0 then EmptyPayslip(f)
    else
      var p := Unsettled(s, org, f);
      Settle(p.(tds := MonthlyTax(s, org, f, config, AnnualTaxable(p)) as real))
  }

  method CalculateEmployeePayroll(s: PaySettings, org: OrgPay, bsMonth: int, workingDays: nat,
                                  hours: PayrollHours.HoursConfig, records: seq<Attendance.Record>,
                                  leaves: seq<Leaves.Leave>, range: Range, now: int,
                                  overtimeOverride: Option<real>, config: Option<Tax.RawConfig>)
    returns (p: Payslip, f: MonthFacts)
    ensures f.bsMonth == bsMonth && f.workingDays == workingDays
    ensures f.daysPresent == |PayrollHours.MonthDays(records, range)|
    ensures f.leave == Leaves.LeaveDays(Leaves.Counted(leaves, range, false), Leaves.Counted(leaves, range, true))
    ensures f.overtimeHours == if overtimeOverride.Some? then overtimeOverride.value
                               else PayrollHours.Hours(PayrollHours.TotalOvertime(hours, records, range))
    ensures p == PayslipFor(s, org, f, config)
  {
    var daysPresent, _, calculated := PayrollHours.GetDaysPresent(hours, records, range, now);
    var leave := Leaves.GetApprovedLeaves(leaves, range);
    f := MonthFacts(bsMonth, workingDays, daysPresent, leave,
                    if overtimeOverride.Some? then overtimeOverride.value else calculated);
    if EffectivePresent(f) == 0 {
      return EmptyPayslip(f), f;
    }
    p := EarningsAndContributions(s, org, f);
    if org.tds && s.tdsEnabled && p.grossSalary > 0.0 {
      var tds := Tax.CalculateNepalTDS(AnnualTaxable(p), s.isMarried, config, org.ssf && s.ssfEnabled);
      p := p.(tds := tds as real);
    }
    p := Settle(p);
  }

  /** The first part of the computation, up to the tax. */
  method EarningsAndContributions(s: PaySettings, org: OrgPay, f: MonthFacts) returns (p: Payslip)
    ensures p == Unsettled(s, org, f)
  {
    hide Round2, RoundedProduct, Percent;
    var effectivePresent := Min(f.workingDays, f.daysPresent + f.leave.paid);
    var daysAbsent := Max(0, f.workingDays - effectivePresent);
    var dailyRate := Round2(s.basicSalary / 30.0);
    var absenceDeduction := RoundedProduct(dailyRate, daysAbsent as real);
    assert absenceDeduction == AbsenceDeduction(s, f) && effectivePresent == EffectivePresent(f);
    var totalAllowances := s.dearnessAllowance + s.transportAllowance + s.medicalAllowance + s.otherAllowances;
    var overtimePay := RoundedProduct(f.overtimeHours, s.overtimeRatePerHour);
    var grossSalary := Round2(s.basicSalary + totalAllowances + overtimePay - absenceDeduction);
    var effectiveBasic := MaxReal(0.0, Round2(s.basicSalary - absenceDeduction));
    assert grossSalary == GrossSalary(s, f) && effectiveBasic == EffectiveBasic(s, f);
    var hasEffectiveEarnings := grossSalary > 0.0;
    var employeeSsf, employerSsf, employeePf, employerPf := 0.0, 0.0, 0.0, 0.0;
    if org.ssf && s.ssfEnabled && hasEffectiveEarnings {
      employeeSsf := Percent(effectiveBasic, s.employeeSsfRate);
      employerSsf := Percent(effectiveBasic, s.employerSsfRate);
    }
    if org.pf && s.pfEnabled && hasEffectiveEarnings {
      employeePf := Percent(effectiveBasic, s.employeePfRate);
      employerPf := Percent(effectiveBasic, s.employerPfRate);
    }
    var citDeduction := if org.cit && s.citEnabled && hasEffectiveEarnings then s.citAmount else 0.0;
    var advanceDeduction := if hasEffectiveEarnings then s.advanceDeduction else 0.0;
    var dashainBonus := 0.0;
    if f.bsMonth == org.dashainBonusMonth {
      var percent := if s.dashainBonusPercent.Some? then s.dashainBonusPercent.value else org.dashainBonusPercent;
      dashainBonus := Percent(s.basicSalary, percent);
    }
    hide GrossSalary, EffectiveBasic, AbsenceDeduction;
    p := Payslip(effectivePresent, daysAbsent, f.leave.paid, f.leave.unpaid, f.overtimeHours, overtimePay, grossSalary,
                 absenceDeduction, employeeSsf, employerSsf, 0.0, employeePf, employerPf, citDeduction,
                 advanceDeduction, dashainBonus, 0.0, 0.0);
  }

  // ---- Conservation ----

  /** The ranges of the pay-settings schema; amounts are decimal columns with two places. */
  ghost predicate ValidSettings(s: PaySettings) {
    && s.basicSalary >= 0.0 && InPaisa(s.basicSalary)
    && s.dearnessAllowance >= 0.0 && InPaisa(s.dearnessAllowance)
    && s.transportAllowance >= 0.0 && InPaisa(s.transportAllowance)
    && s.medicalAllowance >= 0.0 && InPaisa(s.medicalAllowance)
    && s.otherAllowances >= 0.0 && InPaisa(s.otherAllowances)
    && 0.0 <= s.employeeSsfRate <= 100.0 && 0.0 <= s.employeePfRate <= 100.0
    && s.citAmount >= 0.0 && InPaisa(s.citAmount)
    && s.advanceDeduction >= 0.0 && InPaisa(s.advanceDeduction)
  }

  /** Settling conserves money to the paisa, for any amounts already rounded. */
  lemma SettleConserves(p: Payslip)
    requires InPaisa(p.grossSalary) && InPaisa(p.dashainBonus)
    ensures Settle(p).netSalary + Settle(p).totalDeductions == p.grossSalary + p.dashainBonus
    ensures Settle(p).netSalary >= 0.0
    ensures (p.employeeSsf + p.employeePf + p.citDeduction + p.advanceDeduction + p.tds >= 0.0
             && p.grossSalary + p.dashainBonus >= 0.0) ==> Settle(p).totalDeductions >= 0.0
  {
    var earned := p.grossSalary + p.dashainBonus;
    var sum := p.employeeSsf + p.employeePf + p.citDeduction + p.advanceDeduction + p.tds;
    var total := MinReal(Round2(sum), earned);
    Round2IsInPaisa(sum);
    PaisaAdd(p.grossSalary, p.dashainBonus);
    PaisaSubtract(earned, total);
    Round2KeepsPaisa(earned - total);
  }

  lemma PercentIsNotNegative(amount: real, rate: real)
    requires amount >= 0.0 && rate >= 0.0
    ensures Percent(amount, rate) >= 0.0
  {
    assert amount * (rate / 100.0) >= 0.0;
  }

  /** Net plus deductions equals gross plus bonus exactly, net is never negative, and deductions are not
      negative unless the employee earned less than nothing, through every rounding and cap. */
  lemma PayslipConserves(s: PaySettings, org: OrgPay, f: MonthFacts, config: Option<Tax.RawConfig>)
    ensures var p := PayslipFor(s, org, f, config);
            && p.netSalary + p.totalDeductions == p.grossSalary + p.dashainBonus
            && p.netSalary >= 0.0
            && (ValidSettings(s) && Tax.TaxAtZero(config, s.isMarried, org.ssf && s.ssfEnabled) >= 0.0
                && p.grossSalary + p.dashainBonus >= 0.0 ==>
                  p.totalDeductions >= 0.0)
  {
    if EffectivePresent(f) != 0 {
      var u := Unsettled(s, org, f);
      var p := u.(tds := MonthlyTax(s, org, f, config, AnnualTaxable(u)) as real);
      UnsettledIsRounded(s, org, f);
      SettleConserves(p);
      if ValidSettings(s) && Tax.TaxAtZero(config, s.isMarried, org.ssf && s.ssfEnabled) >= 0.0 {
        DeductionsAreNotNegative(s, org, f);
        Tax.MonthlyTaxIsMonotone(config, s.isMarried, org.ssf && s.ssfEnabled, AnnualTaxable(u), AnnualTaxable(u));
      }
    }
  }

  lemma UnsettledIsRounded(s: PaySettings, org: OrgPay, f: MonthFacts)
    ensures InPaisa(Unsettled(s, org, f).grossSalary) && InPaisa(Unsettled(s, org, f).dashainBonus)
  {
    hide Round2, InPaisa, OvertimePay, AbsenceDeduction, EffectiveBasic, Percent;
    PaisaOf(0.0, 0);
    Round2IsInPaisa(s.basicSalary + Allowances(s) + OvertimePay(s, f) - AbsenceDeduction(s, f));
    if f.bsMonth == org.dashainBonusMonth {
      PercentIsInPaisa(s.basicSalary, BonusPercent(s, org));
    }
  }

  lemma PercentIsInPaisa(amount: real, rate: real)
    ensures InPaisa(Percent(amount, rate))
  {
    Round2IsInPaisa(amount * (rate / 100.0));
  }

  lemma DeductionsAreNotNegative(s: PaySettings, org: OrgPay, f: MonthFacts)
    requires ValidSettings(s)
    ensures var p := Unsettled(s, org, f);
            p.employeeSsf >= 0.0 && p.employeePf >= 0.0 && p.citDeduction >= 0.0 && p.advanceDeduction >= 0.0
  {
    PercentIsNotNegative(EffectiveBasic(s, f), s.employeeSsfRate);
    PercentIsNotNegative(EffectiveBasic(s, f), s.employeePfRate);
  }

  /** The same settings, but for the four statutory switches. */
  function WithSwitches(s: PaySettings, ssf: bool, pf: bool, cit: bool, tds: bool): PaySettings {
    s.(ssfEnabled := ssf, pfEnabled := pf, citEnabled := cit, tdsEnabled := tds)
  }

  function OrgWithSwitches(org: OrgPay, ssf: bool, pf: bool, cit: bool, tds: bool): OrgPay {
    org.(ssf := ssf, pf := pf, cit := cit, tds := tds)
  }

  /** Organization and employee have the same say on every statutory deduction: the payslip is that of an
      organization that offers everything to an employee enabled for what both switches allow, and that of an
      organization that offers just this to an employee enabled for everything. */
  lemma SwitchesCombine(s: PaySettings, org: OrgPay, f: MonthFacts, config: Option<Tax.RawConfig>)
    ensures var ssf, pf, cit, tds :=
            org.ssf && s.ssfEnabled, org.pf && s.pfEnabled, org.cit && s.citEnabled, org.tds && s.tdsEnabled;
            var slip := PayslipFor(s, org, f, config);
            && slip == PayslipFor(WithSwitches(s, ssf, pf, cit, tds), OrgWithSwitches(org, true, true, true, true),
                                  f, config)
            && slip == PayslipFor(WithSwitches(s, true, true, true, true), OrgWithSwitches(org, ssf, pf, cit, tds),
                                  f, config)
  {
    hide Percent, Round2, Tax.MonthlyTDS, Settle;
  }

  lemma FloorOfDifference(x: real, n: int)
    ensures (x - n as real).Floor == x.Floor - n
  {
  }

  lemma Round2LosesOne(x: real, y: real)
    requires x >= y - 1.0
    ensures Round2(x) >= Round2(y) - 1.0
  {
    Round2IsMonotone(y - 1.0, x);
    FloorOfDifference(y * 100.0 + 0.5, 100);
    assert (y - 1.0) * 100.0 + 0.5 == y * 100.0 + 0.5 - 100 as real;
    assert RoundHalfUp((y - 1.0) * 100.0) == RoundHalfUp(y * 100.0) - 100;
    assert Round2(y - 1.0) == Round2(y) - 1.0;
    hide Round2;
  }

  /** The monthly tax on an annual income that is higher by twelve times p is higher by at most p and the rupee
      that rounding can add. */
  lemma MonthlyTaxStep(config: Option<Tax.RawConfig>, isMarried: bool, ssfEnabled: bool, x: real, p: real)
    requires x > 0.0 && p >= 0.0
    ensures Tax.MonthlyTDS(config, isMarried, ssfEnabled, x + 12.0 * p) as real
            <= Tax.MonthlyTDS(config, isMarried, ssfEnabled, x) as real + p + 1.0
  {
    Tax.TaxGrowsWithIncome(config, isMarried, ssfEnabled, x, x + 12.0 * p);
    var slabs := Tax.Slabs(config, isMarried, ssfEnabled);
    var a, b := Tax.LoopTax(slabs, x + 12.0 * p), Tax.LoopTax(slabs, x);
    hide Tax.LoopTax, Tax.Slabs, Tax.FirstSlab;
    assert a / 12.0 <= b / 12.0 + p;
  }

  /** The settled payslip once the tax is known. */
  ghost function Taxed(s: PaySettings, org: OrgPay, f: MonthFacts, config: Option<Tax.RawConfig>): Payslip {
    var p := Unsettled(s, org, f);
    p.(tds := MonthlyTax(s, org, f, config, AnnualTaxable(p)) as real)
  }

  function RawDeductions(p: Payslip): real {
    p.employeeSsf + p.employeePf + p.citDeduction + p.advanceDeduction + p.tds
  }

  lemma MoreDeductionsPayNoMore(p: Payslip, q: Payslip)
    requires InPaisa(p.grossSalary) && InPaisa(p.dashainBonus) && p.grossSalary == q.grossSalary
             && p.dashainBonus == q.dashainBonus
    requires RawDeductions(p) >= RawDeductions(q) - 1.0
    ensures Settle(p).netSalary <= Settle(q).netSalary + 1.0
  {
    SettleConserves(p);
    SettleConserves(q);
    Round2LosesOne(RawDeductions(p), RawDeductions(q));
    hide Round2, InPaisa;
  }

  /** A contribution that lowers the taxable income never pays for itself: with the provident fund an employee
      takes home no more than without it, to the rupee that rounding the tax can cost. */
  lemma ProvidentFundNeverPaysForItself(s: PaySettings, org: OrgPay, f: MonthFacts, config: Option<Tax.RawConfig>)
    requires ValidSettings(s)
    ensures PayslipFor(s.(pfEnabled := true), org, f, config).netSalary
            <= PayslipFor(s.(pfEnabled := false), org, f, config).netSalary + 1.0
  {
    if EffectivePresent(f) != 0 {
      var on, off := s.(pfEnabled := true), s.(pfEnabled := false);
      var p, q := Taxed(on, org, f, config), Taxed(off, org, f, config);
      UnsettledIsRounded(on, org, f);
      UnsettledIsRounded(off, org, f);
      SettleConserves(q);
      if AnnualTaxable(Unsettled(on, org, f)) > 0.0 {
        PfDeductions(s, org, f, config);
        MoreDeductionsPayNoMore(p, q);
      } else {
        NothingTaxableNothingPaid(on, org, f, config);
      }
      hide Settle, Unsettled, AnnualTaxable, MonthlyTax;
    }
  }

  /** Where the contributions use up what was earned, so that nothing is taxable, nothing is paid out. */
  lemma NothingTaxableNothingPaid(s: PaySettings, org: OrgPay, f: MonthFacts, config: Option<Tax.RawConfig>)
    requires ValidSettings(s) && AnnualTaxable(Unsettled(s, org, f)) <= 0.0
    ensures Settle(Taxed(s, org, f, config)).netSalary == 0.0
  {
    var p := Taxed(s, org, f, config);
    var earned := p.grossSalary + p.dashainBonus;
    DeductionsAreNotNegative(s, org, f);
    UnsettledIsRounded(s, org, f);
    var slabs := Tax.Slabs(config, s.isMarried, org.ssf && s.ssfEnabled);
    assert Tax.LoopTax(slabs, AnnualTaxable(Unsettled(s, org, f))) == 0.0;
    assert p.tds == 0.0;
    assert RawDeductions(p) >= earned;
    PaisaAdd(p.grossSalary, p.dashainBonus);
    Round2KeepsPaisa(earned);
    Round2IsMonotone(earned, RawDeductions(p));
    PaisaOf(0.0, 0);
    Round2KeepsPaisa(0.0);
    hide Unsettled, AnnualTaxable, MonthlyTax, Round2, InPaisa;
  }

  lemma OnlyThePfDiffers(s: PaySettings, org: OrgPay, f: MonthFacts)
    ensures var p, q := Unsettled(s.(pfEnabled := true), org, f), Unsettled(s.(pfEnabled := false), org, f);
            && q == p.(employeePf := 0.0, employerPf := 0.0)
            && AnnualTaxable(q) == AnnualTaxable(p) + 12.0 * p.employeePf
  {
    hide Percent, Round2, RoundedProduct, DaysAbsent;
    var on, off := s.(pfEnabled := true), s.(pfEnabled := false);
    assert AbsenceDeduction(on, f) == AbsenceDeduction(off, f) && OvertimePay(on, f) == OvertimePay(off, f);
    assert GrossSalary(on, f) == GrossSalary(off, f) && DashainBonus(on, org, f) == DashainBonus(off, org, f);
    assert EffectiveBasic(on, f) == EffectiveBasic(off, f);
    hide AbsenceDeduction, OvertimePay, GrossSalary, DashainBonus, EffectiveBasic;
  }

  lemma PfDeductions(s: PaySettings, org: OrgPay, f: MonthFacts, config: Option<Tax.RawConfig>)
    requires ValidSettings(s) && AnnualTaxable(Unsettled(s.(pfEnabled := true), org, f)) > 0.0
    ensures var p, q := Taxed(s.(pfEnabled := true), org, f, config), Taxed(s.(pfEnabled := false), org, f, config);
            && p.grossSalary == q.grossSalary && p.dashainBonus == q.dashainBonus
            && RawDeductions(p) >= RawDeductions(q) - 1.0
  {
    var on, off := s.(pfEnabled := true), s.(pfEnabled := false);
    var p, q := Unsettled(on, org, f), Unsettled(off, org, f);
    OnlyThePfDiffers(s, org, f);
    DeductionsAreNotNegative(on, org, f);
    MonthlyTaxStep(config, s.isMarried, org.ssf && s.ssfEnabled, AnnualTaxable(p), p.employeePf);
    assert GrossSalary(on, f) == p.grossSalary == q.grossSalary == GrossSalary(off, f);
    hide Unsettled, AnnualTaxable, GrossSalary, Tax.MonthlyTDS, Tax.FirstSlab, ValidSettings;
  }

  /** Contributions never exceed what they are taken from. */
  lemma ContributionsAreBounded(s: PaySettings, org: OrgPay, f: MonthFacts)
    requires ValidSettings(s)
    ensures var p := Unsettled(s, org, f);
            0.0 <= p.employeeSsf <= EffectiveBasic(s, f) <= s.basicSalary && 0.0 <= p.employeePf <= EffectiveBasic(s, f)
  {
    DeductionsAreNotNegative(s, org, f);
    EffectiveBasicIsRounded(s, f);
    PercentIsAtMost(EffectiveBasic(s, f), s.employeeSsfRate);
    PercentIsAtMost(EffectiveBasic(s, f), s.employeePfRate);
  }

  lemma PercentIsAtMost(amount: real, rate: real)
    requires amount >= 0.0 && InPaisa(amount) && 0.0 <= rate <= 100.0
    ensures Percent(amount, rate) <= amount
  {
    assert amount * (1.0 - rate / 100.0) >= 0.0;
    Round2IsMonotone(amount * (rate / 100.0), amount);
    Round2KeepsPaisa(amount);
  }

  lemma EffectiveBasicIsRounded(s: PaySettings, f: MonthFacts)
    requires ValidSettings(s)
    ensures InPaisa(EffectiveBasic(s, f)) && 0.0 <= EffectiveBasic(s, f) <= s.basicSalary
  {
    PaisaOf(0.0, 0);
    Round2IsInPaisa(s.basicSalary - AbsenceDeduction(s, f));
    Round2IsMonotone(0.0, s.basicSalary / 30.0);
    Round2KeepsPaisa(0.0);
    assert DailyRate(s) * DaysAbsent(f) as real >= 0.0;
    Round2IsMonotone(0.0, DailyRate(s) * DaysAbsent(f) as real);
    Round2IsMonotone(s.basicSalary - AbsenceDeduction(s, f), s.basicSalary);
    Round2KeepsPaisa(s.basicSalary);
  }

  ghost predicate Within(x: real, y: real, error: real) { y - error <= x <= y + error }

  ghost predicate IsProduct(p: real, x: real, y: real) { Within(p, x * y, 0.005) }

  /** Each amount is its exact value to half a paisa. The absence deduction rounds the daily rate first, so
      it may be off by another half paisa for every absent day. */
  lemma RoundingErrors(s: PaySettings, org: OrgPay, f: MonthFacts)
    ensures var p, days := Unsettled(s, org, f), DaysAbsent(f) as real;
            && IsProduct(p.overtimePay, f.overtimeHours, s.overtimeRatePerHour)
            && Within(p.absenceDeduction, s.basicSalary / 30.0 * days, 0.005 * days + 0.005)
    ensures var p, basic := Unsettled(s, org, f), EffectiveBasic(s, f);
            && (org.ssf && s.ssfEnabled && p.grossSalary > 0.0 ==>
                  && IsProduct(p.employeeSsf, basic, s.employeeSsfRate / 100.0)
                  && IsProduct(p.employerSsf, basic, s.employerSsfRate / 100.0))
            && (org.pf && s.pfEnabled && p.grossSalary > 0.0 ==>
                  && IsProduct(p.employeePf, basic, s.employeePfRate / 100.0)
                  && IsProduct(p.employerPf, basic, s.employerPfRate / 100.0))
            && (f.bsMonth == org.dashainBonusMonth ==>
                  IsProduct(p.dashainBonus, s.basicSalary, BonusPercent(s, org) / 100.0))
  {
    AbsenceRounding(s, f);
    ProductIsNear();
    hide Round2, RoundedProduct, IsProduct, EffectiveBasic, GrossSalary, AbsenceDeduction, DaysAbsent;
  }

  lemma ProductIsNear()
    ensures forall x, y :: IsProduct(RoundedProduct(x, y), x, y)
  {
    forall x: real, y: real ensures IsProduct(RoundedProduct(x, y), x, y) {
      Round2IsNear(x * y);
    }
  }

  lemma AbsenceRounding(s: PaySettings, f: MonthFacts)
    ensures Within(AbsenceDeduction(s, f), s.basicSalary / 30.0 * DaysAbsent(f) as real,
                   0.005 * DaysAbsent(f) as real + 0.005)
  {
    var exact, days := s.basicSalary / 30.0, DaysAbsent(f);
    RoundedTwice(exact, days);
    hide RoundedProduct, Round2, DaysAbsent, Within;
    assert DailyRate(s) == Round2(exact);
    assert AbsenceDeduction(s, f) == RoundedProduct(DailyRate(s), days as real);
    hide AbsenceDeduction, DailyRate;
  }

  lemma RoundedTwice(exact: real, days: nat)
    ensures Within(RoundedProduct(Round2(exact), days as real), exact * days as real, 0.005 * days as real + 0.005)
  {
    Round2IsNear(exact);
    Round2IsNear(Round2(exact) * days as real);
    NearProduct(Round2(exact), exact, days as real);
    hide Round2;
  }

  lemma NearProduct(x: real, y: real, days: real)
    requires Within(x, y, 0.005) && days >= 0.0
    ensures Within(x * days, y * days, 0.005 * days)
  {
    Scaled(y - 0.005, x, days);
    Scaled(x, y + 0.005, days);
    assert (y - 0.005) * days == y * days - 0.005 * days;
    assert (y + 0.005) * days == y * days + 0.005 * days;
  }

  lemma Scaled(a: real, b: real, days: real)
    requires a <= b && days >= 0.0
    ensures a * days <= b * days
  {
    assert b * days - a * days == (b - a) * days;
  }

  /** Present and absent days make up the working days. */
  lemma PresentAndAbsentAddUp(s: PaySettings, org: OrgPay, f: MonthFacts, config: Option<Tax.RawConfig>)
    requires f.leave.paid >= 0
    ensures var p := PayslipFor(s, org, f, config);
            p.daysPresent + p.daysAbsent == f.workingDays && 0 <= p.daysPresent <= f.workingDays
  {
    hide Percent, Round2, GrossSalary, DashainBonus;
  }

  // ---- Gross salary ----

  /** The rounding of the gross salary changes nothing, so it is negative exactly when the absences cost
      more than the basic salary, the allowances and the overtime pay together. */
  lemma GrossIsExact(s: PaySettings, f: MonthFacts)
    requires ValidSettings(s)
    ensures GrossSalary(s, f) == s.basicSalary + Allowances(s) + OvertimePay(s, f) - AbsenceDeduction(s, f)
  {
    var a, b, c := s.dearnessAllowance, s.transportAllowance, s.medicalAllowance;
    PaisaAdd(a, b);
    PaisaAdd(a + b, c);
    PaisaAdd(a + b + c, s.otherAllowances);
    PaisaAdd(s.basicSalary, Allowances(s));
    Round2IsInPaisa(f.overtimeHours * s.overtimeRatePerHour);
    Round2IsInPaisa(DailyRate(s) * DaysAbsent(f) as real);
    PaisaAdd(s.basicSalary + Allowances(s), OvertimePay(s, f));
    PaisaSubtract(s.basicSalary + Allowances(s) + OvertimePay(s, f), AbsenceDeduction(s, f));
    Round2KeepsPaisa(s.basicSalary + Allowances(s) + OvertimePay(s, f) - AbsenceDeduction(s, f));
  }

  /** It does get negative: one day present out of 32 working days is charged 31 thirtieths of the salary. */
  lemma GrossCanBeNegative(s: PaySettings, f: MonthFacts)
    requires s.basicSalary == 30000.0 && Allowances(s) == 0.0 && s.overtimeRatePerHour == 0.0
    requires f.workingDays == 32 && f.daysPresent == 1 && f.leave.paid == 0
    ensures GrossSalary(s, f) == -1000.0
  {
    assert DailyRate(s) == 1000.0;
    assert AbsenceDeduction(s, f) == 31000.0;
    assert OvertimePay(s, f) == 0.0;
  }

  // ---- The columns, in the figures they come from ----

  /** Paid leave counts as presence: moving days between the two changes no column but that of the paid leave. */
  lemma PaidLeaveIsPresence(s: PaySettings, org: OrgPay, f: MonthFacts, g: MonthFacts, config: Option<Tax.RawConfig>)
    requires f.leave.paid >= 0 && g.leave.paid >= 0 && f.daysPresent + f.leave.paid == g.daysPresent + g.leave.paid
    requires g == f.(daysPresent := g.daysPresent, leave := f.leave.(paid := g.leave.paid))
    ensures PayslipFor(s, org, g, config) == PayslipFor(s, org, f, config).(paidLeaveDays := g.leave.paid)
  {
    hide Round2, RoundedProduct, Tax.MonthlyTDS;
    assert DaysAbsent(f) == DaysAbsent(g) && OvertimePay(s, f) == OvertimePay(s, g);
    assert AbsenceDeduction(s, f) == AbsenceDeduction(s, g) && DashainBonus(s, org, f) == DashainBonus(s, org, g);
    assert GrossSalary(s, f) == GrossSalary(s, g) && EffectiveBasic(s, f) == EffectiveBasic(s, g);
    hide AbsenceDeduction, OvertimePay, GrossSalary, EffectiveBasic, DashainBonus, EffectivePresent, DaysAbsent;
  }

  /** The days absent are those missing from presence and paid leave to the working days: none exactly when the two
      reach them. Overtime and the leave days are passed on as they are. */
  lemma AbsentDaysAre(s: PaySettings, org: OrgPay, f: MonthFacts, config: Option<Tax.RawConfig>)
    requires f.leave.paid >= 0
    ensures var p, missing := PayslipFor(s, org, f, config), f.workingDays - f.daysPresent - f.leave.paid;
            && p.daysAbsent == (if missing > 0 then missing else 0)
            && (p.daysAbsent == 0 <==> f.daysPresent + f.leave.paid >= f.workingDays)
            && p.paidLeaveDays == f.leave.paid && p.unpaidLeaveDays == f.leave.unpaid
            && (p.daysPresent > 0 ==> p.overtimeHours == f.overtimeHours)
  {
    hide Percent, Round2, GrossSalary, DashainBonus;
  }

  /** Without presence and paid leave, or without working days, every amount is zero, overtime and bonus included. */
  lemma NoPresenceNoPay(s: PaySettings, org: OrgPay, f: MonthFacts, config: Option<Tax.RawConfig>)
    requires f.leave.paid >= 0
    ensures var p := PayslipFor(s, org, f, config);
            p.daysPresent == 0 <==> f.workingDays == 0 || (f.daysPresent == 0 && f.leave.paid == 0)
    ensures var p := PayslipFor(s, org, f, config);
            p.daysPresent == 0 ==>
              && p.overtimeHours == p.overtimePay == p.grossSalary == p.absenceDeduction == p.dashainBonus == 0.0
              && p.employeeSsf == p.employerSsf == p.employeePf == p.employerPf == p.citDeduction == 0.0
              && p.tds == p.advanceDeduction == p.totalDeductions == p.netSalary == 0.0
  {
    hide Percent, Round2, GrossSalary, DashainBonus;
  }

  /** The columns of a payslip add up: gross from its six parts, the deductions from theirs up to what was earned,
      and net as the rest. */
  lemma ColumnsAddUp(s: PaySettings, org: OrgPay, f: MonthFacts, config: Option<Tax.RawConfig>)
    requires ValidSettings(s) && EffectivePresent(f) != 0
    ensures var p := PayslipFor(s, org, f, config);
            && p.grossSalary == s.basicSalary + s.dearnessAllowance + s.transportAllowance + s.medicalAllowance
                                + s.otherAllowances + p.overtimePay - p.absenceDeduction
            && p.totalDeductions == MinReal(p.employeeSsf + p.employeePf + p.citDeduction + p.advanceDeduction + p.tds,
                                            p.grossSalary + p.dashainBonus)
            && p.netSalary == p.grossSalary + p.dashainBonus - p.totalDeductions
  {
    var p := Taxed(s, org, f, config);
    GrossIsExact(s, f);
    UnsettledIsRounded(s, org, f);
    SettleConserves(p);
    DeductionsAreInPaisa(s, org, f, config);
    Round2KeepsPaisa(RawDeductions(p));
    hide Round2, InPaisa, Percent, GrossSalary, AbsenceDeduction, OvertimePay, DashainBonus, MonthlyTax, EffectiveBasic;
  }

  lemma DeductionsAreInPaisa(s: PaySettings, org: OrgPay, f: MonthFacts, config: Option<Tax.RawConfig>)
    requires ValidSettings(s)
    ensures InPaisa(RawDeductions(Taxed(s, org, f, config)))
  {
    var p := Taxed(s, org, f, config);
    PaisaOf(0.0, 0);
    PercentIsInPaisa(EffectiveBasic(s, f), s.employeeSsfRate);
    PercentIsInPaisa(EffectiveBasic(s, f), s.employeePfRate);
    var tax := MonthlyTax(s, org, f, config, AnnualTaxable(Unsettled(s, org, f)));
    PaisaOf(p.tds, 100 * tax);
    hide InPaisa, Percent, GrossSalary, AbsenceDeduction, OvertimePay, DashainBonus, MonthlyTax, EffectiveBasic;
    PaisaAdd(p.employeeSsf, p.employeePf);
    PaisaAdd(p.employeeSsf + p.employeePf, p.citDeduction);
    PaisaAdd(p.employeeSsf + p.employeePf + p.citDeduction, p.advanceDeduction);
    PaisaAdd(p.employeeSsf + p.employeePf + p.citDeduction + p.advanceDeduction, p.tds);
  }

  /** Each contribution applies when organization and employee both have it and something was earned, on the basic
      salary that the absences leave; CIT and advance are the amounts of the settings. */
  lemma DeductionColumns(s: PaySettings, org: OrgPay, f: MonthFacts, config: Option<Tax.RawConfig>)
    requires ValidSettings(s) && EffectivePresent(f) != 0
    ensures var p := PayslipFor(s, org, f, config);
            var basic, earns := MaxReal(0.0, s.basicSalary - p.absenceDeduction), p.grossSalary > 0.0;
            && (if org.ssf && s.ssfEnabled && earns
                then IsProduct(p.employeeSsf, basic, s.employeeSsfRate / 100.0)
                     && IsProduct(p.employerSsf, basic, s.employerSsfRate / 100.0)
                else p.employeeSsf == p.employerSsf == 0.0)
            && (if org.pf && s.pfEnabled && earns
                then IsProduct(p.employeePf, basic, s.employeePfRate / 100.0)
                     && IsProduct(p.employerPf, basic, s.employerPfRate / 100.0)
                else p.employeePf == p.employerPf == 0.0)
            && p.citDeduction == (if org.cit && s.citEnabled && earns then s.citAmount else 0.0)
            && p.advanceDeduction == (if earns then s.advanceDeduction else 0.0)
  {
    RoundingErrors(s, org, f);
    BasicIsExact(s, f);
    hide Round2, Percent, GrossSalary, AbsenceDeduction, OvertimePay, DashainBonus, EffectiveBasic, MonthlyTax;
    hide IsProduct;
  }

  lemma BasicIsExact(s: PaySettings, f: MonthFacts)
    requires ValidSettings(s)
    ensures EffectiveBasic(s, f) == MaxReal(0.0, s.basicSalary - AbsenceDeduction(s, f))
  {
    Round2IsInPaisa(DailyRate(s) * DaysAbsent(f) as real);
    PaisaSubtract(s.basicSalary, AbsenceDeduction(s, f));
    Round2KeepsPaisa(s.basicSalary - AbsenceDeduction(s, f));
  }

  /** The tax is that on twelve times the month's gross salary and bonus, less SSF, PF and CIT. The bonus is paid in
      its month only, at the employee's own percentage of the basic salary or else the organization's. */
  lemma TaxAndBonusColumns(s: PaySettings, org: OrgPay, f: MonthFacts, config: Option<Tax.RawConfig>)
    requires EffectivePresent(f) != 0
    ensures var p := PayslipFor(s, org, f, config);
            var annual := 12.0 * (p.grossSalary + p.dashainBonus - p.employeeSsf - p.employeePf - p.citDeduction);
            p.tds == if org.tds && s.tdsEnabled && p.grossSalary > 0.0
                     then Tax.MonthlyTDS(config, s.isMarried, org.ssf && s.ssfEnabled, annual) as real
                     else 0.0
    ensures var p := PayslipFor(s, org, f, config);
            var percent := if s.dashainBonusPercent.Some? then s.dashainBonusPercent.value else org.dashainBonusPercent;
            if f.bsMonth == org.dashainBonusMonth then IsProduct(p.dashainBonus, s.basicSalary, percent / 100.0)
            else p.dashainBonus == 0.0
  {
    RoundingErrors(s, org, f);
    hide Round2, Percent, GrossSalary, AbsenceDeduction, OvertimePay, EffectiveBasic, IsProduct, Tax.MonthlyTDS;
  }
}
