/** Presence, worked minutes and overtime that payroll draws from the attendance records of a month. */
module PayrollHours {
  import opened Prelude
  import opened Clock
  import opened BikramSambat
  import opened Shifts
  import opened Attendance
  import opened Money
  import Roster

  datatype HoursConfig = HoursConfig(shifts: ShiftSource, earlyGrace: int, lateGrace: int)

  // ---- One record ----

  /** Whole minutes before the shift start, or 0. */
  function EarlyMinutes(shift: Shift, checkIn: int): int {
    match ShiftStart(shift, checkIn)
    case None => 0
    case Some(start) => Max(0, WholeMinutes(start - checkIn))
  }

  /** Whole minutes after the shift end, or 0. */
  function LateMinutes(shift: Shift, checkIn: int, checkOut: int): int {
    match ShiftEnd(shift, checkIn)
    case None => 0
    case Some(end) => Max(0, WholeMinutes(checkOut - end))
  }

  /** Once the grace is exceeded all minutes count, not only those beyond it. */
  function BeyondGrace(minutes: int, grace: int): int { if minutes > grace then minutes else 0 }

  function LateOvertime(cfg: HoursConfig, r: Record): int
    requires r.checkOut.Some?
  {
    BeyondGrace(LateMinutes(PayrollShift(cfg.shifts, r.checkIn), r.checkIn, r.checkOut.value), cfg.lateGrace)
  }

  function EarlyOvertime(cfg: HoursConfig, r: Record): int {
    BeyondGrace(EarlyMinutes(PayrollShift(cfg.shifts, r.checkIn), r.checkIn), cfg.earlyGrace)
  }

  /** Overtime of a closed record; one without a positive or negative duration has none. */
  function Overtime(cfg: HoursConfig, r: Record): int {
    if r.checkOut.Some? && r.duration.Some? && r.duration.value != 0 then EarlyOvertime(cfg, r) + LateOvertime(cfg, r)
    else 0
  }

  function Minutes(r: Record, now: int): int {
    if r.status == CheckedIn then WholeMinutes(now - r.checkIn)
    else if r.duration.Some? then r.duration.value
    else 0
  }

  // ---- A month of records ----

  /** The rows of one of payroll's two queries: the closed records of the month, or the open ones. */
  predicate Selected(r: Record, range: Range, open: bool) {
    range.Contains(r.checkIn) && (r.status == CheckedIn <==> open)
  }

  ghost function Days(records: seq<Record>, range: Range, open: bool): set<int> {
    if records == [] then {}
    else
      var last := records[|records| - 1];
      Days(records[..|records| - 1], range, open) + if Selected(last, range, open) then {IsoDay(last.checkIn)} else {}
  }

  ghost function TotalMinutes(records: seq<Record>, range: Range, open: bool, now: int): int {
    if records == [] then 0
    else
      var last := records[|records| - 1];
      TotalMinutes(records[..|records| - 1], range, open, now)
      + if Selected(last, range, open) then Minutes(last, now) else 0
  }

  ghost function TotalOvertime(cfg: HoursConfig, records: seq<Record>, range: Range): int {
    if records == [] then 0
    else
      var last := records[|records| - 1];
      TotalOvertime(cfg, records[..|records| - 1], range)
      + if Selected(last, range, false) then Overtime(cfg, last) else 0
  }

  /** Both queries together. */
  ghost function MonthDays(records: seq<Record>, range: Range): set<int> {
    Days(records, range, false) + Days(records, range, true)
  }

  ghost function MonthMinutes(records: seq<Record>, range: Range, now: int): int {
    TotalMinutes(records, range, false, now) + TotalMinutes(records, range, true, now)
  }

  function Hours(minutes: int): real { Round2(minutes as real / 60.0) }

  lemma EmptyTotals(cfg: HoursConfig, records: seq<Record>, range: Range, open: bool, now: int)
    ensures Days(records[..0], range, open) == {} && TotalMinutes(records[..0], range, open, now) == 0
    ensures TotalOvertime(cfg, records[..0], range) == 0 && records[..|records|] == records
  {
  }

  lemma PrefixStep(cfg: HoursConfig, records: seq<Record>, range: Range, open: bool, now: int, i: nat)
    requires i < |records|
    ensures var prefix, r := records[..i], records[i];
            var next := records[..i + 1];
            && Days(next, range, open)
               == Days(prefix, range, open) + (if Selected(r, range, open) then {IsoDay(r.checkIn)} else {})
            && TotalMinutes(next, range, open, now)
               == TotalMinutes(prefix, range, open, now) + (if Selected(r, range, open) then Minutes(r, now) else 0)
            && TotalOvertime(cfg, next, range)
               == TotalOvertime(cfg, prefix, range) + (if Selected(r, range, false) then Overtime(cfg, r) else 0)
  {
    hide Overtime, Minutes;
    assert records[..i + 1][..i] == records[..i];
  }

  method GetDaysPresent(cfg: HoursConfig, records: seq<Record>, range: Range, now: int)
    returns (daysPresent: nat, totalHours: real, overtimeHours: real)
    ensures daysPresent == |MonthDays(records, range)|
    ensures totalHours == Hours(MonthMinutes(records, range, now))
    ensures overtimeHours == Hours(TotalOvertime(cfg, records, range))
  {
    hide Overtime, Hours, Days, TotalMinutes, TotalOvertime;
    EmptyTotals(cfg, records, range, false, now);
    EmptyTotals(cfg, records, range, true, now);
    var uniqueDays: set<int> := {};
    var totalMinutes, totalOvertimeMinutes := 0, 0;
    for i := 0 to |records|
      invariant uniqueDays == Days(records[..i], range, false)
      invariant totalMinutes == TotalMinutes(records[..i], range, false, now)
      invariant totalOvertimeMinutes == TotalOvertime(cfg, records[..i], range)
    {
      PrefixStep(cfg, records, range, false, now, i);
      var r := records[i];
      if !Selected(r, range, false) {
        continue;
      }
      uniqueDays := uniqueDays + {IsoDay(r.checkIn)};
      if r.duration.Some? {
        totalMinutes := totalMinutes + r.duration.value;
      }
      var overtime := OvertimeOf(cfg, r);
      totalOvertimeMinutes := totalOvertimeMinutes + overtime;
    }
    for i := 0 to |records|
      invariant uniqueDays == Days(records, range, false) + Days(records[..i], range, true)
      invariant totalMinutes == TotalMinutes(records, range, false, now) + TotalMinutes(records[..i], range, true, now)
    {
      PrefixStep(cfg, records, range, true, now, i);
      var r := records[i];
      if Selected(r, range, true) {
        uniqueDays := uniqueDays + {IsoDay(r.checkIn)};
        totalMinutes := totalMinutes + WholeMinutes(now - r.checkIn);
      }
    }
    daysPresent := |uniqueDays|;
    totalHours := Hours(totalMinutes);
    overtimeHours := Hours(totalOvertimeMinutes);
  }

  /** The body of the overtime loop. */
  method OvertimeOf(cfg: HoursConfig, r: Record) returns (overtime: int)
    ensures overtime == Overtime(cfg, r)
  {
    overtime := 0;
    if r.checkOut.Some? && r.duration.Some? && r.duration.value != 0 {
      var shift := PayrollShift(cfg.shifts, r.checkIn);
      var earlyMinutes := EarlyMinutes(shift, r.checkIn);
      var lateMinutes := LateMinutes(shift, r.checkIn, r.checkOut.value);
      var earlyOvertime := if earlyMinutes > cfg.earlyGrace then earlyMinutes else 0;
      var lateOvertime := if lateMinutes > cfg.lateGrace then lateMinutes else 0;
      overtime := earlyOvertime + lateOvertime;
    }
  }

  // ---- Minutes and hours ----

  /** Hours are minutes over 60, to the hundredth and halves up. */
  lemma HoursAreNear(minutes: int)
    ensures InPaisa(Hours(minutes))
    ensures minutes as real / 60.0 - 0.005 < Hours(minutes) <= minutes as real / 60.0 + 0.005
  {
    Round2IsInPaisa(minutes as real / 60.0);
    Round2IsNear(minutes as real / 60.0);
  }

  /** The full minutes of a span, none for one that is not positive. */
  ghost predicate IsFullMinutes(minutes: int, ms: int) {
    if ms <= 0 then minutes == 0 else minutes * MS_PER_MINUTE <= ms < (minutes + 1) * MS_PER_MINUTE
  }

  /** Overtime of a closed record, from the instants at which its shift starts and ends: the full minutes before the
      one and after the other, each only if they are more than its grace, and then all of them. */
  lemma OvertimeIs(cfg: HoursConfig, r: Record, start: int, end: int) returns (early: int, late: int)
    requires r.checkOut.Some?
    requires var shift := PayrollShift(cfg.shifts, r.checkIn);
             ShiftStart(shift, r.checkIn) == Some(start) && ShiftEnd(shift, r.checkIn) == Some(end)
    ensures IsFullMinutes(early, start - r.checkIn) && IsFullMinutes(late, r.checkOut.value - end)
    ensures Overtime(cfg, r)
            == if r.duration.None? || r.duration == Some(0) then 0
               else (if early > cfg.earlyGrace then early else 0) + (if late > cfg.lateGrace then late else 0)
  {
    early, late := Max(0, WholeMinutes(start - r.checkIn)), Max(0, WholeMinutes(r.checkOut.value - end));
    hide PayrollShift, ShiftStart, ShiftEnd;
  }

  // ---- Days are counted in UTC ----

  /** The key of a day is the local day only from 05:45 on; before that it is the day before. */
  lemma IsoDayIsLocalDayIff(t: int)
    ensures IsoDay(t) == if TimeOfDay(t) >= UTC_OFFSET then Day(t) else Day(t) - 1
  {
    DaySplit(t);
  }

  ghost function LocalDays(records: seq<Record>, range: Range, open: bool): set<int> {
    if records == [] then {}
    else
      var last := records[|records| - 1];
      LocalDays(records[..|records| - 1], range, open) + if Selected(last, range, open) then {Day(last.checkIn)} else {}
  }

  /** The distinct local days of the month's check-ins. */
  ghost function MonthLocalDays(records: seq<Record>, range: Range): set<int> {
    LocalDays(records, range, false) + LocalDays(records, range, true)
  }

  /** The local days with a check-in before, and from, 05:45. */
  ghost function DaysWith(records: seq<Record>, range: Range, early: bool): set<int> {
    if records == [] then {}
    else
      var last := records[|records| - 1];
      DaysWith(records[..|records| - 1], range, early)
      + if range.Contains(last.checkIn) && (TimeOfDay(last.checkIn) < UTC_OFFSET <==> early) then {Day(last.checkIn)}
        else {}
  }

  function WithDay(days: set<int>, day: int, counts: bool): set<int> { if counts then days + {day} else days }

  lemma MonthDaysStep(records: seq<Record>, range: Range)
    requires records != []
    ensures var prefix, t := records[..|records| - 1], records[|records| - 1].checkIn;
            var counts, isEarly := range.Contains(t), TimeOfDay(t) < UTC_OFFSET;
            && MonthDays(records, range) == WithDay(MonthDays(prefix, range), IsoDay(t), counts)
            && MonthLocalDays(records, range) == WithDay(MonthLocalDays(prefix, range), Day(t), counts)
            && DaysWith(records, range, true) == WithDay(DaysWith(prefix, range, true), Day(t), counts && isEarly)
            && DaysWith(records, range, false) == WithDay(DaysWith(prefix, range, false), Day(t), counts && !isEarly)
  {
  }

  ghost predicate Splits(days: set<int>, localDays: set<int>, early: set<int>, late: set<int>) {
    days == Yesterdays(early) + late && localDays == early + late && |Yesterdays(early)| == |early|
  }

  lemma SplitStep(days: set<int>, localDays: set<int>, early: set<int>, late: set<int>, t: int, counts: bool)
    requires Splits(days, localDays, early, late)
    ensures var isEarly := TimeOfDay(t) < UTC_OFFSET;
            Splits(WithDay(days, IsoDay(t), counts), WithDay(localDays, Day(t), counts),
                   WithDay(early, Day(t), counts && isEarly), WithDay(late, Day(t), counts && !isEarly))
  {
    IsoDayIsLocalDayIff(t);
    AddYesterday(early, Day(t));
    hide Yesterdays, IsoDay, Day, TimeOfDay;
  }

  ghost predicate MonthSplits(records: seq<Record>, range: Range) {
    Splits(MonthDays(records, range), MonthLocalDays(records, range), DaysWith(records, range, true),
           DaysWith(records, range, false))
  }

  lemma EmptySplits(range: Range)
    ensures MonthSplits([], range)
  {
    assert Yesterdays({}) == {};
  }

  lemma MonthSplitsStep(records: seq<Record>, range: Range)
    requires records != [] && MonthSplits(records[..|records| - 1], range)
    ensures MonthSplits(records, range)
  {
    var prefix, t := records[..|records| - 1], records[|records| - 1].checkIn;
    MonthDaysStep(records, range);
    SplitStep(MonthDays(prefix, range), MonthLocalDays(prefix, range), DaysWith(prefix, range, true),
              DaysWith(prefix, range, false), t, range.Contains(t));
    hide Splits, WithDay, IsoDay, Day, TimeOfDay, MonthDays, MonthLocalDays, DaysWith;
  }

  /** The days present are the early days moved one back and the late ones; the local days are both as they are. */
  lemma {:induction false} DaysSplitAtCatchUp(records: seq<Record>, range: Range)
    ensures MonthSplits(records, range)
  {
    if records == [] {
      EmptySplits(range);
    } else {
      DaysSplitAtCatchUp(records[..|records| - 1], range);
      MonthSplitsStep(records, range);
    }
  }

  /** How far the days present are from the distinct local days, for any records: one too many for every local
      day with check-ins on both sides of 05:45, one too few for every day with a later check-in whose next
      day has an earlier one. So they agree exactly when there are as many of the one as of the other. */
  lemma DaysPresentAgainstLocalDays(records: seq<Record>, range: Range)
    ensures var early, late := DaysWith(records, range, true), DaysWith(records, range, false);
            |MonthDays(records, range)| - |MonthLocalDays(records, range)|
            == |early * late| - |Yesterdays(early) * late|
  {
    var early, late := DaysWith(records, range, true), DaysWith(records, range, false);
    DaysSplitAtCatchUp(records, range);
    hide MonthDays, MonthLocalDays, DaysWith, Yesterdays;
    UnionSize(early, late);
    UnionSize(Yesterdays(early), late);
  }

  lemma UnionSize(a: set<int>, b: set<int>)
    ensures |a + b| == |a| + |b| - |a * b|
  {
  }

  /** One local day can count twice: check-ins at 02:00 and at 10:00 are two days present. */
  lemma OneDayCanCountTwice(night: Record, morning: Record, range: Range, day: int)
    requires night.checkIn == Midnight(day) + 7_200_000 && morning.checkIn == Midnight(day) + 36_000_000
    requires Selected(night, range, false) && Selected(morning, range, false)
    ensures LocalDays([night, morning], range, false) == {day}
    ensures Days([night, morning], range, false) == {day - 1, day}
  {
    DayOf(day, 7_200_000);
    DayOf(day, 36_000_000);
    IsoDayIsLocalDayIff(night.checkIn);
    IsoDayIsLocalDayIff(morning.checkIn);
    hide Selected, IsoDay, Day;
    assert [night, morning][..1] == [night] && [night][..0] == [];
    assert Days([night], range, false) == {day - 1};
    assert LocalDays([night], range, false) == {day};
  }

  /** And two local days once: check-ins at 10:00 and at 02:00 on the next day are one day present. */
  lemma TwoDaysCanCountOnce(morning: Record, night: Record, range: Range, day: int)
    requires morning.checkIn == Midnight(day) + 36_000_000 && night.checkIn == Midnight(day + 1) + 7_200_000
    requires Selected(morning, range, false) && Selected(night, range, false)
    ensures LocalDays([morning, night], range, false) == {day, day + 1}
    ensures Days([morning, night], range, false) == {day}
  {
    DayOf(day, 36_000_000);
    DayOf(day + 1, 7_200_000);
    IsoDayIsLocalDayIff(night.checkIn);
    IsoDayIsLocalDayIff(morning.checkIn);
    hide Selected, IsoDay, Day;
    assert [morning, night][..1] == [morning] && [morning][..0] == [];
    assert Days([morning], range, false) == {day};
    assert LocalDays([morning], range, false) == {day};
  }

  // ---- The auto-close job and payroll agree ----

  /** Given the same schedules, a record closed by the job has no late overtime in payroll, whatever the
      grace and even when the membership's times are blank. */
  lemma JobClosedHasNoLateOvertime(r: Record, job: JobConfig, now: int, cfg: HoursConfig)
    requires JobVerdict(r, job, now, false).Closes? && cfg.shifts == job.shifts
    ensures LateOvertime(cfg, JobRecord(r, job, now, false)) == 0
  {
    var end := JobVerdict(r, job, now, false).checkOut;
    var jobShift, payrollShift := JobShift(job.shifts, r.checkIn), PayrollShift(job.shifts, r.checkIn);
    assert payrollShift.end == jobShift.end;
    assert CrossesMidnight(jobShift) ==> CrossesMidnight(payrollShift);
    assert ShiftEnd(payrollShift, r.checkIn).value >= end;
  }

  // ---- Overtime never exceeds the time worked ----

  /** A closed record whose stay meets its shift: it begins by the end and ends after the start. */
  ghost predicate MeetsShift(cfg: HoursConfig, r: Record) {
    var shift := PayrollShift(cfg.shifts, r.checkIn);
    && IsOrdered(shift)
    && r.checkOut.Some?
    && r.checkIn <= r.checkOut.value
    && r.checkIn <= ShiftEnd(shift, r.checkIn).value
    && ShiftStart(shift, r.checkIn).value <= r.checkOut.value
    && r.duration == Some(WholeMinutes(r.checkOut.value - r.checkIn))
  }

  lemma MinutesAddUp(a: int, b: int, c: int)
    requires a + b <= c
    ensures WholeMinutes(a) + WholeMinutes(b) <= WholeMinutes(c)
    ensures b >= 0 ==> WholeMinutes(a) <= WholeMinutes(c)
    ensures a >= 0 ==> WholeMinutes(b) <= WholeMinutes(c)
  {
  }

  /** A readable shift that does not begin more than a day after the clock reading of its end. */
  predicate IsOrdered(shift: Shift) {
    shift.start.Some? && shift.end.Some? && shift.start.value.Offset() <= shift.end.value.Offset() + MS_PER_DAY
  }

  /** That is exactly a shift that does not end before it starts; any start within the day makes one. */
  lemma OrderedIff(shift: Shift, t: int)
    requires shift.start.Some? && shift.end.Some?
    ensures IsOrdered(shift) <==> ShiftStart(shift, t).value <= ShiftEnd(shift, t).value
    ensures shift.start.value.WithinDay() ==> IsOrdered(shift)
  {
  }

  lemma RecordOvertimeBounded(cfg: HoursConfig, r: Record)
    requires MeetsShift(cfg, r)
    ensures r.duration.Some? && 0 <= Overtime(cfg, r) <= r.duration.value
  {
    var shift := PayrollShift(cfg.shifts, r.checkIn);
    var start, end := ShiftStart(shift, r.checkIn).value, ShiftEnd(shift, r.checkIn).value;
    OrderedIff(shift, r.checkIn);
    MinutesAddUp(start - r.checkIn, r.checkOut.value - end, r.checkOut.value - r.checkIn);
    MinutesAddUp(start - r.checkIn, r.checkOut.value - start, r.checkOut.value - r.checkIn);
    MinutesAddUp(end - r.checkIn, r.checkOut.value - end, r.checkOut.value - r.checkIn);
    hide PayrollShift, ShiftStart, ShiftEnd;
  }

  /** Without grace, all time outside the shift is overtime: what is left of the stay is at most the length
      of the shift, up to the fractions of a minute cut off on either side. */
  lemma NothingOutsideShiftIsLost(cfg: HoursConfig, r: Record)
    requires cfg.earlyGrace == 0 && cfg.lateGrace == 0 && MeetsShift(cfg, r) && r.duration.value != 0
    ensures var shift := PayrollShift(cfg.shifts, r.checkIn);
            r.duration.value - Overtime(cfg, r)
            <= WholeMinutes(ShiftEnd(shift, r.checkIn).value - ShiftStart(shift, r.checkIn).value) + 2
  {
    var shift := PayrollShift(cfg.shifts, r.checkIn);
    OrderedIff(shift, r.checkIn);
    hide PayrollShift, ShiftStart, ShiftEnd;
  }

  /** Over any records that each meet their shift, overtime is at most the minutes worked. */
  lemma {:induction false} OvertimeAtMostWorked(cfg: HoursConfig, records: seq<Record>, range: Range, now: int)
    requires forall i :: 0 <= i < |records| && Selected(records[i], range, false) ==> MeetsShift(cfg, records[i])
    ensures 0 <= TotalOvertime(cfg, records, range) <= TotalMinutes(records, range, false, now)
  {
    hide Overtime, MeetsShift;
    if records != [] {
      var last := |records| - 1;
      OvertimeAtMostWorked(cfg, records[..last], range, now);
      if Selected(records[last], range, false) {
        RecordOvertimeBounded(cfg, records[last]);
      }
    }
  }

  /** When one record counts more overtime than it lasted, for any stay at all: exactly when the minutes on one
      side of its shift exceed both the grace and the whole stay, so that the stay lies outside its shift, or
      when the job has ended it before it began. */
  lemma OvercountsIff(cfg: HoursConfig, r: Record)
    requires r.checkOut.Some? && r.duration == Some(WholeMinutes(r.checkOut.value - r.checkIn)) && r.duration.value != 0
    requires IsOrdered(PayrollShift(cfg.shifts, r.checkIn))
    ensures var shift := PayrollShift(cfg.shifts, r.checkIn);
            var early, late := EarlyMinutes(shift, r.checkIn), LateMinutes(shift, r.checkIn, r.checkOut.value);
            Overtime(cfg, r) > r.duration.value
            <==> || r.duration.value < 0
                 || (early > cfg.earlyGrace && early > r.duration.value)
                 || (late > cfg.lateGrace && late > r.duration.value)
  {
    var shift := PayrollShift(cfg.shifts, r.checkIn);
    OrderedIff(shift, r.checkIn);
    var start, end := ShiftStart(shift, r.checkIn).value, ShiftEnd(shift, r.checkIn).value;
    hide PayrollShift, ShiftStart, ShiftEnd;
    if r.checkIn < start && end < r.checkOut.value {
      MinutesAddUp(start - r.checkIn, r.checkOut.value - end, r.checkOut.value - r.checkIn);
    }
  }

  /** Both sides happen: for a shift from 10:00 to 18:00 without grace, an hour from 07:00 counts three hours of
      overtime, and so does an hour from 20:00. */
  lemma EarlyAndLateStaysOvercount(cfg: HoursConfig, early: Record, late: Record, day: int)
    requires cfg.earlyGrace == 0 && cfg.lateGrace == 0
    requires cfg.shifts == ShiftSource([], 0, Null, Null, Some(ClockTime(10, 0)), Some(ClockTime(18, 0)))
    requires early.checkIn == Midnight(day) + 25_200_000 && early.checkOut == Some(Midnight(day) + 28_800_000)
    requires late.checkIn == Midnight(day) + 72_000_000 && late.checkOut == Some(Midnight(day) + 75_600_000)
    requires early.duration == Some(60) && late.duration == Some(60)
    ensures Overtime(cfg, early) == 180 && Overtime(cfg, late) == 180
  {
    DayOf(day, 25_200_000);
    DayOf(day, 72_000_000);
    assert PayrollShift(cfg.shifts, early.checkIn) == Shift(Some(ClockTime(10, 0)), Some(ClockTime(18, 0)));
    assert PayrollShift(cfg.shifts, late.checkIn) == Shift(Some(ClockTime(10, 0)), Some(ClockTime(18, 0)));
    assert ClockTime(10, 0).Offset() == 36_000_000 && ClockTime(18, 0).Offset() == 64_800_000;
  }
}
