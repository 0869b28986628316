/** The shift that applies to a check-in, as each of the three callers in the source works it out. */
module Shifts {
  import opened Prelude
  import opened Clock
  import Roster

  /** A nullable time column. `Blank` is the empty string, which `??` keeps and `||` skips. */
  datatype TimeField = Null | Blank | At(time: ClockTime)

  /** The rows and columns a shift is resolved from. */
  datatype ShiftSource = ShiftSource(rosters: seq<Roster.Schedule>, member: nat,
                                     memberStart: TimeField, memberEnd: TimeField,
                                     orgStart: Option<ClockTime>, orgEnd: Option<ClockTime>)

  /** A resolved shift; `None` is a clock string that does not parse. */
  datatype Shift = Shift(start: Option<ClockTime>, end: Option<ClockTime>)

  const DEFAULT_START := ClockTime(10, 0)
  const DEFAULT_END := ClockTime(18, 0)

  function OrDefault(org: Option<ClockTime>, default: ClockTime): ClockTime {
    if org.Some? then org.value else default
  }

  /** `field ?? org ?? default` */
  function Coalesce(field: TimeField, org: Option<ClockTime>, default: ClockTime): Option<ClockTime> {
    match field
    case Null => Some(OrDefault(org, default))
    case Blank => None
    case At(c) => Some(c)
  }

  /** `(field || undefined) ?? org ?? default` */
  function CoalesceTruthy(field: TimeField, org: Option<ClockTime>, default: ClockTime): Option<ClockTime> {
    if field.At? then Some(field.time) else Some(OrDefault(org, default))
  }

  /** Auto-close job: roster entry, membership, organization, default. */
  function JobShift(src: ShiftSource, t: int): Shift {
    match Roster.DayEntryFor(src.rosters, src.member, t)
    case Some(e) => Shift(Some(e.start), Some(e.end))
    case None => Shift(Coalesce(src.memberStart, src.orgStart, DEFAULT_START),
                       Coalesce(src.memberEnd, src.orgEnd, DEFAULT_END))
  }

  /** Payroll: the same levels, except that a blank membership time falls through. */
  function PayrollShift(src: ShiftSource, t: int): Shift {
    match Roster.DayEntryFor(src.rosters, src.member, t)
    case Some(e) => Shift(Some(e.start), Some(e.end))
    case None => Shift(CoalesceTruthy(src.memberStart, src.orgStart, DEFAULT_START),
                       CoalesceTruthy(src.memberEnd, src.orgEnd, DEFAULT_END))
  }

  /** Scans: `shiftEndTime || workEndTime`, with neither roster nor default. */
  function ScanShiftEnd(memberEnd: TimeField, orgEnd: Option<ClockTime>): Option<ClockTime> {
    if memberEnd.At? then Some(memberEnd.time) else orgEnd
  }

  /** The end belongs to the next day when its clock reading is before the start's. A start that does
      not parse compares as false. */
  predicate CrossesMidnight(shift: Shift) {
    shift.start.Some? && shift.end.Some? && shift.end.value.Offset() < shift.start.value.Offset()
  }

  /** The end of the shift of a check-in, if its clock reading parses. */
  function ShiftEnd(shift: Shift, checkIn: int): Option<int> {
    match shift.end
    case None => None
    case Some(end) => Some(AddDays(AtClock(checkIn, end), if CrossesMidnight(shift) then 1 else 0))
  }

  function ShiftStart(shift: Shift, checkIn: int): Option<int> {
    match shift.start
    case None => None
    case Some(start) => Some(AtClock(checkIn, start))
  }

  /** The levels of a time: the membership's, else the organization's, else the default. */
  ghost predicate IsResolved(time: Option<ClockTime>, field: TimeField, org: Option<ClockTime>, default: ClockTime) {
    && time.Some?
    && (field.At? ==> time.value == field.time)
    && (!field.At? && org.Some? ==> time == org)
    && (!field.At? && org.None? ==> time.value == default)
  }

  /** A roster entry decides; without one payroll takes the levels of each time down to 10:00 and 18:00, and the
      scan those of the end without the default. The job differs from payroll exactly where a membership time is
      blank: it cannot read that time. */
  lemma ShiftLevels(src: ShiftSource, t: int)
    ensures var entry := Roster.DayEntryFor(src.rosters, src.member, t);
            var job, payroll := JobShift(src, t), PayrollShift(src, t);
            && (entry.Some? ==> job == payroll == Shift(Some(entry.value.start), Some(entry.value.end)))
            && (entry.None? ==>
                  && IsResolved(payroll.start, src.memberStart, src.orgStart, ClockTime(10, 0))
                  && IsResolved(payroll.end, src.memberEnd, src.orgEnd, ClockTime(18, 0))
                  && job.start == (if src.memberStart.Blank? then None else payroll.start)
                  && job.end == (if src.memberEnd.Blank? then None else payroll.end))
    ensures var end := ScanShiftEnd(src.memberEnd, src.orgEnd);
            if src.memberEnd.At? || src.orgEnd.Some? then IsResolved(end, src.memberEnd, src.orgEnd, ClockTime(18, 0))
            else end.None?
  {
  }

  /** The shift end of a day, as an instant. */
  predicate IsShiftEnd(end: ClockTime, day: int, t: int) { t == Midnight(day) + end.Offset() }

  /** A readable shift within the day starts on the day of the check-in and ends with the first reading of its end
      from that start on, at most a day later. */
  lemma ShiftEndFollowsStart(shift: Shift, checkIn: int)
    requires shift.start.Some? && shift.start.value.WithinDay() && shift.end.Some? && shift.end.value.WithinDay()
    ensures ShiftStart(shift, checkIn).Some? && ShiftEnd(shift, checkIn).Some?
    ensures var start, end := ShiftStart(shift, checkIn).value, ShiftEnd(shift, checkIn).value;
            && IsShiftEnd(shift.start.value, Day(checkIn), start)
            && (exists day :: IsShiftEnd(shift.end.value, day, end))
            && start <= end < start + MS_PER_DAY
  {
    var end := ShiftEnd(shift, checkIn).value;
    assert IsShiftEnd(shift.end.value, Day(checkIn), end) || IsShiftEnd(shift.end.value, Day(checkIn) + 1, end);
  }

  /** Scan path: the end on the check-in day, moved to the next day when it is not after the check-in. */
  function ScanCap(end: ClockTime, checkIn: int): int {
    var shiftEnd := AtClock(checkIn, end);
    if shiftEnd <= checkIn then AddDays(shiftEnd, 1) else shiftEnd
  }

  /** The scan cap is the first shift end, of the check-in day or a later one, strictly after the check-in. */
  lemma ScanCapIsFirstShiftEndAfter(end: ClockTime, checkIn: int, day: int, t: int)
    ensures checkIn < ScanCap(end, checkIn)
    ensures exists d :: Day(checkIn) <= d && IsShiftEnd(end, d, ScanCap(end, checkIn))
    ensures checkIn < t && IsShiftEnd(end, day, t) && Day(checkIn) <= day ==> ScanCap(end, checkIn) <= t
  {
    DaySplit(checkIn);
    var d := if end.Offset() <= TimeOfDay(checkIn) then Day(checkIn) + 1 else Day(checkIn);
    assert IsShiftEnd(end, d, ScanCap(end, checkIn));
  }

  /** It has the time of day of the shift end, and comes at most 24 hours later exactly when the clock reading
      is no further than that from the check-in: always for a reading within the day, not for 26:00 after a
      check-in at 01:00. */
  lemma ScanCapWithinDayIff(end: ClockTime, checkIn: int)
    ensures TimeOfDay(ScanCap(end, checkIn)) == TimeOfDay(end.Offset())
    ensures ScanCap(end, checkIn) <= checkIn + MS_PER_DAY <==> end.Offset() <= TimeOfDay(checkIn) + MS_PER_DAY
    ensures end.WithinDay() ==> ScanCap(end, checkIn) <= checkIn + MS_PER_DAY
  {
    var e := end.Offset();
    var d := if e <= TimeOfDay(checkIn) then Day(checkIn) + 1 else Day(checkIn);
    DaySplit(checkIn);
    DaySplit(e);
    DayOf(d + Day(e), TimeOfDay(e));
    assert ScanCap(end, checkIn) == Midnight(d) + e == Midnight(d + Day(e)) + TimeOfDay(e);
    assert end.WithinDay() ==> e < MS_PER_DAY;
    hide Day, TimeOfDay;
  }

  /** With no roster entry and readable times, the scan and the job cap a record at the same instant
      exactly when the check-in is before the end of a day shift, or at or after the end time of day on
      the starting day of a night shift. */
  lemma CapsAgreeIff(src: ShiftSource, checkIn: int)
    requires Roster.DayEntryFor(src.rosters, src.member, checkIn).None?
    requires !src.memberStart.Blank? && !src.memberEnd.Blank?
    requires ScanShiftEnd(src.memberEnd, src.orgEnd).Some?
    ensures var end := ScanShiftEnd(src.memberEnd, src.orgEnd).value;
            var shift := JobShift(src, checkIn);
            && ShiftEnd(shift, checkIn).Some?
            && (ScanCap(end, checkIn) == ShiftEnd(shift, checkIn).value
                <==> (TimeOfDay(checkIn) < end.Offset() <==> !CrossesMidnight(shift)))
  {
    DaySplit(checkIn);
  }
}
