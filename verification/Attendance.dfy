/**
 The attendance records of one membership, changed by scans, by an admin and by the auto-close job.
 A scan runs inside one serializable transaction, so it is one step; a throw rolls the step back.
 */
module Attendance {
  import opened Prelude
  import opened Clock
  import opened BikramSambat
  import opened Shifts

  // ---- Records ----

  datatype Status = CheckedIn | CheckedOut | AutoClosed

  datatype Channel = QrScan | MobileCheckin | Manual

  /** What the `notes` column says about the record. */
  datatype Note = NoNote | AdminNote | ScanCapNote | JobCapNote(trigger: string)

  datatype Record = Record(checkIn: int, checkInMethod: Channel, status: Status, checkOut: Option<int>,
                           checkOutMethod: Option<Channel>, duration: Option<int>, note: Note, bs: BSDate)

  function NewRecord(channel: Channel, note: Note, now: int, bs: BSDate): Record {
    Record(now, channel, CheckedIn, None, None, None, note, bs)
  }

  function Closed(r: Record, status: Status, channel: Channel, note: Note, checkOut: int): Record {
    r.(status := status, checkOut := Some(checkOut), checkOutMethod := Some(channel),
    duration := Some(WholeMinutes(checkOut - r.checkIn)), note := note)
  }

  /** The organization and membership columns a scan reads. */
  datatype ScanConfig = ScanConfig(memberEnd: TimeField, orgEnd: Option<ClockTime>, graceMinutes: Option<nat>,
                                   maxDailyCheckins: Option<nat>)

  datatype JobConfig = JobConfig(shifts: ShiftSource, graceMinutes: Option<nat>, trigger: string)

  datatype AttendanceError = CooldownActive | ClockInClosed | DailyLimitReached | AlreadyClockedIn | NotClockedIn
                           | DateNotSupported

  datatype Outcome = ClockIn | ClockOut | JobRan | Rejected(error: AttendanceError)

  const COOLDOWN := 120_000
  const DEFAULT_GRACE_MINUTES: nat := 240

  function GraceMs(minutes: Option<nat>): int {
    (if minutes.Some? then minutes.value else DEFAULT_GRACE_MINUTES) * 60_000
  }

  // ---- Queries ----

  function LastActionTime(r: Record): int { if r.checkOut.Some? then r.checkOut.value else r.checkIn }

  predicate WithinCooldown(r: Record, now: int) {
    r.checkIn >= now - COOLDOWN || (r.checkOut.Some? && r.checkOut.value >= now - COOLDOWN)
  }

  /** An answer the database may give to "a record within the cooldown, latest check-in first". Records
      with the same check-in may come in any order, so there can be several answers. */
  ghost predicate IsRecentAction(log: seq<Record>, now: int, recent: Option<nat>) {
    match recent
    case None => forall i :: 0 <= i < |log| ==> !WithinCooldown(log[i], now)
    case Some(k) =>
      && k < |log|
      && WithinCooldown(log[k], now)
      && forall i :: 0 <= i < |log| && WithinCooldown(log[i], now) ==> log[i].checkIn <= log[k].checkIn
  }

  predicate MustWait(log: seq<Record>, now: int, recent: Option<nat>)
    requires recent.Some? ==> recent.value < |log|
  {
    recent.Some? && 120 - (now - LastActionTime(log[recent.value])) / 1000 > 0
  }

  /** The first record still checked in. */
  ghost function OpenIndex(log: seq<Record>): (open: Option<nat>)
    ensures open.Some? ==> open.value < |log| && log[open.value].status == CheckedIn
    ensures open.None? <==> forall i :: 0 <= i < |log| ==> log[i].status != CheckedIn
    ensures open.Some? ==> forall i :: 0 <= i < open.value ==> log[i].status != CheckedIn
  {
    if log == [] then None
    else
      var rest := OpenIndex(log[..|log| - 1]);
      if rest.Some? then rest
      else if log[|log| - 1].status == CheckedIn then Some(|log| - 1)
      else None
  }

  /** Check-ins on a calendar day. */
  ghost function CountOn(log: seq<Record>, day: int): nat {
    if log == [] then 0
    else CountOn(log[..|log| - 1], day) + if Day(log[|log| - 1].checkIn) == day then 1 else 0
  }

  // ---- One scan ----

  /** Past the shift end and the grace; without a shift end, checked in before today. */
  predicate IsForgotten(r: Record, cfg: ScanConfig, now: int) {
    match ScanShiftEnd(cfg.memberEnd, cfg.orgEnd)
    case Some(end) => now > ScanCap(end, r.checkIn) + GraceMs(cfg.graceMinutes)
    case None => r.checkIn < Midnight(Day(now))
  }

  function ScanCloseTime(r: Record, cfg: ScanConfig, now: int): int {
    match ScanShiftEnd(cfg.memberEnd, cfg.orgEnd)
    case Some(end) => ScanCap(end, r.checkIn)
    case None => Midnight(Day(now)) - 1
  }

  /** Clock-in is closed after today's shift end; a morning end that has passed means tomorrow's. */
  predicate IsClockInClosed(cfg: ScanConfig, now: int) {
    match ScanShiftEnd(cfg.memberEnd, cfg.orgEnd)
    case None => false
    case Some(end) =>
      var shiftEnd := AtClock(now, end);
      now > (if shiftEnd < now && end.hour < 12 then AddDays(shiftEnd, 1) else shiftEnd)
  }

  /** Clock in on top of `log`; a throw gives back `before`. */
  ghost function ClockInStep(cal: Calendar, before: seq<Record>, log: seq<Record>, cfg: ScanConfig, channel: Channel,
                             now: int): (seq<Record>, Outcome)
  {
    if IsClockInClosed(cfg, now) then (before, Rejected(ClockInClosed))
    else if cfg.maxDailyCheckins.Some? && CountOn(log, Day(now)) >= cfg.maxDailyCheckins.value then
      (before, Rejected(DailyLimitReached))
    else match AdToBSSpec(cal, now)
      case Err(_) => (before, Rejected(DateNotSupported))
      case Ok(bs) => (log + [NewRecord(channel, NoNote, now, bs)], ClockIn)
  }

  ghost function ScanStep(cal: Calendar, log: seq<Record>, cfg: ScanConfig, channel: Channel, now: int,
                          recent: Option<nat>): (seq<Record>, Outcome)
    requires IsRecentAction(log, now, recent)
  {
    if MustWait(log, now, recent) then (log, Rejected(CooldownActive))
    else match OpenIndex(log)
      case None => ClockInStep(cal, log, log, cfg, channel, now)
      case Some(k) =>
        var r := log[k];
        if IsForgotten(r, cfg, now) then
          var closed := Closed(r, AutoClosed, Manual, ScanCapNote, ScanCloseTime(r, cfg, now));
          ClockInStep(cal, log, log[k := closed], cfg, channel, now)
        else (log[k := Closed(r, CheckedOut, channel, r.note, now)], ClockOut)
  }

  // ---- Admin actions ----

  ghost function ManualInStep(cal: Calendar, log: seq<Record>, now: int): (seq<Record>, Outcome) {
    if OpenIndex(log).Some? then (log, Rejected(AlreadyClockedIn))
    else match AdToBSSpec(cal, now)
      case Err(_) => (log, Rejected(DateNotSupported))
      case Ok(bs) => (log + [NewRecord(Manual, AdminNote, now, bs)], ClockIn)
  }

  ghost function ManualOutStep(log: seq<Record>, now: int): (seq<Record>, Outcome) {
    match OpenIndex(log)
    case None => (log, Rejected(NotClockedIn))
    case Some(k) => (log[k := Closed(log[k], CheckedOut, Manual, AdminNote, now)], ClockOut)
  }

  // ---- Editing a record ----

  /** Accountants may only correct the check-out of a record that was auto-closed and not yet acknowledged. */
  datatype Editor = Admin | Accountant(acknowledged: bool)

  datatype EditError = RecordNotFound | InsufficientPermission | RecordAcknowledged | FutureDate | DateTooOld
                     | InvalidTimeRange | EditDateNotSupported

  datatype Month = Month(year: int, month: int)

  const MAX_EDIT_WINDOW_DAYS := 90

  function TimestampError(t: Option<int>, now: int): Option<EditError> {
    if t.None? then None
    else if t.value > now then Some(FutureDate)
    else if t.value < AddDays(now, -MAX_EDIT_WINDOW_DAYS) then Some(DateTooOld)
    else None
  }

  function PermissionError(r: Record, editor: Editor, checkIn: Option<int>): Option<EditError> {
    if editor.Admin? then None
    else if r.status != AutoClosed || checkIn.Some? then Some(InsufficientPermission)
    else if editor.acknowledged then Some(RecordAcknowledged)
    else None
  }

  /** `Math.round(ms / 60000)` */
  function NearestMinutes(ms: int): int { (ms + 30_000) / 60_000 }

  /** The record after an edit. Moving the check-in alone keeps the stored duration and BS date. */
  function Edited(r: Record, checkIn: Option<int>, checkOut: Option<int>): Record {
    var resolved := if checkIn.Some? then checkIn.value else r.checkIn;
    var moved := r.(checkIn := resolved);
    if checkOut.None? then moved
    else moved.(checkOut := checkOut, status := CheckedOut, duration := Some(NearestMinutes(checkOut.value - resolved)))
  }

  function EditProblem(r: Record, editor: Editor, checkIn: Option<int>, checkOut: Option<int>, now: int)
    : Option<EditError>
  {
    if PermissionError(r, editor, checkIn).Some? then PermissionError(r, editor, checkIn)
    else if TimestampError(checkIn, now).Some? then TimestampError(checkIn, now)
    else if TimestampError(checkOut, now).Some? then TimestampError(checkOut, now)
    else if checkOut.Some? && checkOut.value <= (if checkIn.Some? then checkIn.value else r.checkIn) then
      Some(InvalidTimeRange)
    else None
  }

  /** The records after an edit, and the payroll month that is flagged for it. An unsupported date throws
      only after the record has been written. */
  ghost function EditStep(cal: Calendar, log: seq<Record>, id: nat, editor: Editor, checkIn: Option<int>,
                          checkOut: Option<int>, now: int): (seq<Record>, Result<Month, EditError>)
  {
    if id >= |log| then (log, Err(RecordNotFound))
    else if EditProblem(log[id], editor, checkIn, checkOut, now).Some? then
      (log, Err(EditProblem(log[id], editor, checkIn, checkOut, now).value))
    else
      var r := Edited(log[id], checkIn, checkOut);
      (log[id := r], match AdToBSSpec(cal, r.checkIn)
                     case Err(_) => Err(EditDateNotSupported)
                     case Ok(bs) => Ok(Month(bs.year, bs.month)))
  }

  // ---- The auto-close job ----

  datatype Verdict = NotOpen | Skipped | Failed | Closes(checkOut: int)

  /** What the job does with one record. An unreadable end, or a write that throws, fails the record. */
  function JobVerdict(r: Record, job: JobConfig, now: int, writeFails: bool): Verdict {
    if r.status != CheckedIn then NotOpen
    else match ShiftEnd(JobShift(job.shifts, r.checkIn), r.checkIn)
      case None => Failed
      case Some(end) =>
        if end + GraceMs(job.graceMinutes) >= now then Skipped
        else if writeFails then Failed
        else Closes(end)
  }

  function JobRecord(r: Record, job: JobConfig, now: int, writeFails: bool): Record {
    match JobVerdict(r, job, now, writeFails)
    case Closes(end) => Closed(r, AutoClosed, Manual, JobCapNote(job.trigger), end)
    case _ => r
  }

  /** The job treats every record on its own; `failing` are the records whose write throws. */
  ghost function JobStep(log: seq<Record>, job: JobConfig, now: int, failing: set<nat>): seq<Record> {
    seq(|log|, i requires 0 <= i < |log| => JobRecord(log[i], job, now, i in failing))
  }

  /** Records on which the job reaches one kind of verdict. */
  ghost function Tally(log: seq<Record>, job: JobConfig, now: int, failing: set<nat>, kind: Verdict -> bool): nat {
    if log == [] then 0
    else
      var last := |log| - 1;
      Tally(log[..last], job, now, failing, kind)
      + if kind(JobVerdict(log[last], job, now, last in failing)) then 1 else 0
  }

  // ---- The methods ----

  class AttendanceLog {
    const cal: Calendar
    var records: seq<Record>

    constructor (cal: Calendar)
      ensures this.cal == cal && records == []
    {
      this.cal := cal;
      records := [];
    }

    method FindRecentAction(now: int) returns (recent: Option<nat>)
      ensures IsRecentAction(records, now, recent)
    {
      recent := None;
      for i := 0 to |records|
        invariant IsRecentAction(records[..i], now, recent)
      {
        if WithinCooldown(records[i], now) && (recent.None? || records[recent.value].checkIn <= records[i].checkIn) {
          recent := Some(i);
        }
      }
      assert records[..|records|] == records;
    }

    method FindOpen() returns (open: Option<nat>)
      ensures open == OpenIndex(records)
    {
      for i := 0 to |records|
        invariant OpenIndex(records[..i]) == None
      {
        assert records[..i + 1][..i] == records[..i];
        if records[i].status == CheckedIn {
          assert OpenIndex(records) == Some(i);
          return Some(i);
        }
      }
      assert records[..|records|] == records;
      return None;
    }

    method CountToday(now: int) returns (count: nat)
      ensures count == CountOn(records, Day(now))
    {
      count := 0;
      var todayStart := Midnight(Day(now));
      var todayEnd := todayStart + 86_399_999;
      for i := 0 to |records|
        invariant count == CountOn(records[..i], Day(now))
      {
        assert records[..i + 1][..i] == records[..i];
        if todayStart <= records[i].checkIn <= todayEnd {
          count := count + 1;
        }
      }
      assert records[..|records|] == records;
    }

    /** The two clock-in guards and the new row. */
    method TryClockIn(cfg: ScanConfig, channel: Channel, now: int) returns (outcome: Outcome)
      modifies this
      ensures (records, outcome) == ClockInStep(cal, old(records), old(records), cfg, channel, now)
    {
      if IsClockInClosed(cfg, now) {
        return Rejected(ClockInClosed);
      }
      if cfg.maxDailyCheckins.Some? {
        var count := CountToday(now);
        if count >= cfg.maxDailyCheckins.value {
          return Rejected(DailyLimitReached);
        }
      }
      var bs := AdToBS(cal, now);
      if bs.Err? {
        return Rejected(DateNotSupported);
      }
      records := records + [NewRecord(channel, NoNote, now, bs.value)];
      return ClockIn;
    }

    /** `performClockActionSafe`: a rejected scan leaves the records as they were, even when it had
        already auto-closed one of them. */
    method Scan(cfg: ScanConfig, channel: Channel, now: int) returns (outcome: Outcome, recent: Option<nat>)
      modifies this
      ensures IsRecentAction(old(records), now, recent)
      ensures (records, outcome) == ScanStep(cal, old(records), cfg, channel, now, recent)
      ensures outcome.Rejected? ==> records == old(records)
    {
      var before := records;
      recent := FindRecentAction(now);
      if MustWait(records, now, recent) {
        return Rejected(CooldownActive), recent;
      }
      var open := FindOpen();
      if open.None? {
        outcome := TryClockIn(cfg, channel, now);
        return outcome, recent;
      }
      var r := records[open.value];
      if !IsForgotten(r, cfg, now) {
        records := records[open.value := Closed(r, CheckedOut, channel, r.note, now)];
        return ClockOut, recent;
      }
      records := records[open.value := Closed(r, AutoClosed, Manual, ScanCapNote, ScanCloseTime(r, cfg, now))];
      outcome := TryClockIn(cfg, channel, now);
      if outcome.Rejected? {
        records := before;
      }
    }

    method ManualClockIn(now: int) returns (outcome: Outcome)
      modifies this
      ensures (records, outcome) == ManualInStep(cal, old(records), now)
    {
      var open := FindOpen();
      if open.Some? {
        return Rejected(AlreadyClockedIn);
      }
      var bs := AdToBS(cal, now);
      if bs.Err? {
        return Rejected(DateNotSupported);
      }
      records := records + [NewRecord(Manual, AdminNote, now, bs.value)];
      return ClockIn;
    }

    method ManualClockOut(now: int) returns (outcome: Outcome)
      modifies this
      ensures (records, outcome) == ManualOutStep(old(records), now)
    {
      var open := FindOpen();
      if open.None? {
        return Rejected(NotClockedIn);
      }
      var r := records[open.value];
      records := records[open.value := Closed(r, CheckedOut, Manual, AdminNote, now)];
      return ClockOut;
    }

    /** `editAttendance` */
    method Edit(id: nat, editor: Editor, checkIn: Option<int>, checkOut: Option<int>, now: int)
      returns (flagged: Result<Month, EditError>)
      modifies this
      ensures (records, flagged) == EditStep(cal, old(records), id, editor, checkIn, checkOut, now)
    {
      if id >= |records| {
        return Err(RecordNotFound);
      }
      var r := records[id];
      if editor.Accountant? {
        if r.status != AutoClosed || checkIn.Some? {
          return Err(InsufficientPermission);
        }
        if editor.acknowledged {
          return Err(RecordAcknowledged);
        }
      }
      var resolvedCheckIn := r.checkIn;
      if checkIn.Some? {
        var problem := TimestampError(checkIn, now);
        if problem.Some? {
          return Err(problem.value);
        }
        resolvedCheckIn := checkIn.value;
      }
      var updated := r.(checkIn := resolvedCheckIn);
      if checkOut.Some? {
        var problem := TimestampError(checkOut, now);
        if problem.Some? {
          return Err(problem.value);
        }
        if checkOut.value <= resolvedCheckIn {
          return Err(InvalidTimeRange);
        }
        updated := updated.(checkOut := checkOut, status := CheckedOut,
        duration := Some(NearestMinutes(checkOut.value - resolvedCheckIn)));
      }
      records := records[id := updated];
      var bs := AdToBS(cal, resolvedCheckIn);
      if bs.Err? {
        return Err(EditDateNotSupported);
      }
      return Ok(Month(bs.value.year, bs.value.month));
    }

    /** `runAutoClose`, restricted to this membership. */
    method RunAutoClose(job: JobConfig, now: int, failing: set<nat>) returns (closed: nat, skipped: nat, failed: nat)
      modifies this
      ensures records == JobStep(old(records), job, now, failing)
      ensures closed == Tally(old(records), job, now, failing, (v: Verdict) => v.Closes?)
      ensures skipped == Tally(old(records), job, now, failing, (v: Verdict) => v.Skipped?)
      ensures failed == Tally(old(records), job, now, failing, (v: Verdict) => v.Failed?)
    {
      closed, skipped, failed := 0, 0, 0;
      var openRecords := records;
      for i := 0 to |openRecords|
        invariant |records| == |openRecords|
        invariant forall j :: 0 <= j < i ==> records[j] == JobRecord(openRecords[j], job, now, j in failing)
        invariant forall j :: i <= j < |records| ==> records[j] == openRecords[j]
        invariant closed == Tally(openRecords[..i], job, now, failing, (v: Verdict) => v.Closes?)
        invariant skipped == Tally(openRecords[..i], job, now, failing, (v: Verdict) => v.Skipped?)
        invariant failed == Tally(openRecords[..i], job, now, failing, (v: Verdict) => v.Failed?)
      {
        assert openRecords[..i + 1][..i] == openRecords[..i];
        match JobVerdict(openRecords[i], job, now, i in failing)
        case NotOpen =>
        case Skipped => skipped := skipped + 1;
        case Failed => failed := failed + 1;
        case Closes(end) =>
          records := records[i := Closed(openRecords[i], AutoClosed, Manual, JobCapNote(job.trigger), end)];
          closed := closed + 1;
      }
      assert openRecords[..|openRecords|] == openRecords;
    }
  }
}
