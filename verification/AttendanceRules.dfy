/** What one scan, admin action, edit or job run does to the records, in the figures of its configuration. */
module AttendanceRules {
  import opened Prelude
  import opened Clock
  import opened BikramSambat
  import opened Shifts
  import opened Attendance
  import opened AttendanceRuns

  // ---- Scans ----

  /** A record open at `now` is still in time: not beyond the grace after its shift end, which is 240 minutes
      unless configured; without a shift end, not begun before today. */
  ghost predicate IsInTime(r: Record, end: Option<ClockTime>, graceMinutes: Option<nat>, now: int) {
    match end
    case Some(e) =>
      now <= ScanCap(e, r.checkIn) + (if graceMinutes.Some? then graceMinutes.value else 240) * MS_PER_MINUTE
    case None => Day(r.checkIn) >= Day(now)
  }

  /** Past the cooldown a scan clocks out exactly when an open record is still in time, and then it sets the four
      columns of a clock-out and nothing else. */
  lemma ScanClocksOutIff(cal: Calendar, log: seq<Record>, cfg: ScanConfig, channel: Channel, now: int,
                         recent: Option<nat>, end: Option<ClockTime>)
    requires IsRecentAction(log, now, recent) && end == ScanShiftEnd(cfg.memberEnd, cfg.orgEnd)
    ensures var (next, outcome) := Step(cal, log, Event(Scan(cfg, channel, recent), now));
            && (outcome == Rejected(CooldownActive) <==> MustWait(log, now, recent))
            && (outcome == ClockOut
                <==> && !MustWait(log, now, recent)
                     && OpenIndex(log).Some? && IsInTime(log[OpenIndex(log).value], end, cfg.graceMinutes, now))
            && (outcome == ClockOut ==>
                  var k := OpenIndex(log).value;
                  next == log[k := log[k].(status := CheckedOut, checkOut := Some(now), checkOutMethod := Some(channel),
                                           duration := Some(WholeMinutes(now - log[k].checkIn)))])
  {
    hide CountOn, AdToBSSpec, IsRecentAction, ScanCap, IsClockInClosed;
    if OpenIndex(log).Some? {
      DaySplit(now);
      DaySplit(log[OpenIndex(log).value].checkIn);
    }
  }

  /** Nobody can clock in after an afternoon or evening end of the shift. */
  ghost predicate IsAfterHours(end: Option<ClockTime>, now: int) {
    end.Some? && end.value.hour >= 12 && TimeOfDay(now) > end.value.Offset()
  }

  ghost predicate IsFull(log: seq<Record>, limit: Option<nat>, now: int) {
    limit.Some? && CountOn(log, Day(now)) >= limit.value
  }

  /** The records with an open one capped at its shift end, or at the end of yesterday if there is none. */
  ghost function Capped(log: seq<Record>, end: Option<ClockTime>, now: int): seq<Record> {
    if OpenIndex(log).None? then log
    else
      var k := OpenIndex(log).value;
      var cap := if end.Some? then ScanCap(end.value, log[k].checkIn) else Midnight(Day(now)) - 1;
      log[k := log[k].(status := AutoClosed, checkOut := Some(cap), checkOutMethod := Some(Manual),
                       duration := Some(WholeMinutes(cap - log[k].checkIn)), note := ScanCapNote)]
  }

  /** A scan that neither waits nor clocks out clocks in exactly within hours, below the limit and on a supported
      date; the first of these that fails is the error. It caps a forgotten record and adds one that begins now. */
  lemma ScanClocksInIff(cal: Calendar, log: seq<Record>, cfg: ScanConfig, channel: Channel, now: int,
                        recent: Option<nat>, end: Option<ClockTime>)
    requires IsRecentAction(log, now, recent) && !MustWait(log, now, recent)
    requires Step(cal, log, Event(Scan(cfg, channel, recent), now)).1 != ClockOut
    requires end == ScanShiftEnd(cfg.memberEnd, cfg.orgEnd)
    ensures var (next, outcome) := Step(cal, log, Event(Scan(cfg, channel, recent), now));
            var late, full := IsAfterHours(end, now), IsFull(log, cfg.maxDailyCheckins, now);
            && (outcome == Rejected(ClockInClosed) <==> late)
            && (outcome == Rejected(DailyLimitReached) <==> !late && full)
            && (outcome == Rejected(DateNotSupported) <==> !late && !full && AdToBSSpec(cal, now).Err?)
            && (outcome == ClockIn <==> !late && !full && AdToBSSpec(cal, now).Ok?)
            && next == if outcome != ClockIn then log
                       else Capped(log, end, now)
                            + [Record(now, channel, CheckedIn, None, None, None, NoNote, AdToBSSpec(cal, now).value)]
  {
    hide CountOn, AdToBSSpec, IsRecentAction, ScanCap;
    ClockInClosedIff(cfg, now);
    if OpenIndex(log).Some? {
      var k := OpenIndex(log).value;
      var capped := Closed(log[k], AutoClosed, Manual, ScanCapNote, ScanCloseTime(log[k], cfg, now));
      CountDependsOnCheckIns(log[k := capped], log, Day(now));
    }
    hide IsClockInClosed, WithinCooldown, MustWait;
  }

  // ---- Manual actions ----

  /** An admin clocks in exactly who is not clocked in, on a supported date, and clocks out exactly who is. */
  lemma ManualActionsIff(cal: Calendar, log: seq<Record>, now: int)
    ensures var (next, outcome) := Step(cal, log, Event(ManualClockIn, now));
            && (outcome == Rejected(AlreadyClockedIn) <==> OpenIndex(log).Some?)
            && (outcome == Rejected(DateNotSupported) <==> OpenIndex(log).None? && AdToBSSpec(cal, now).Err?)
            && (outcome == ClockIn <==> OpenIndex(log).None? && AdToBSSpec(cal, now).Ok?)
            && next == if outcome != ClockIn then log
                       else log + [Record(now, Manual, CheckedIn, None, None, None, AdminNote,
                                          AdToBSSpec(cal, now).value)]
    ensures var (next, outcome) := Step(cal, log, Event(ManualClockOut, now));
            && (outcome == Rejected(NotClockedIn) <==> OpenIndex(log).None?)
            && (outcome == ClockOut <==> OpenIndex(log).Some?)
            && (outcome != ClockOut ==> next == log)
            && (outcome == ClockOut ==>
                  var k := OpenIndex(log).value;
                  next == log[k := log[k].(status := CheckedOut, checkOut := Some(now), checkOutMethod := Some(Manual),
                                           duration := Some(WholeMinutes(now - log[k].checkIn)), note := AdminNote)])
  {
    hide AdToBSSpec;
  }

  // ---- The auto-close job ----

  /** The job leaves a closed record alone and fails on one whose shift end cannot be read. It closes any other exactly
      when the end of its shift is more than the grace ago, 240 minutes unless configured, and the write goes
      through; it ends the record there and sets the columns of a clock-out, the note and no other. */
  lemma JobClosesIff(r: Record, job: JobConfig, now: int, end: Option<int>, writeFails: bool)
    requires end == ShiftEnd(JobShift(job.shifts, r.checkIn), r.checkIn)
    ensures var verdict, after := JobVerdict(r, job, now, writeFails), JobRecord(r, job, now, writeFails);
            var grace := (if job.graceMinutes.Some? then job.graceMinutes.value else 240) * MS_PER_MINUTE;
            var isOpen, late := r.status == CheckedIn, end.Some? && end.value + grace < now;
            && (verdict.NotOpen? <==> !isOpen)
            && (verdict.Skipped? <==> isOpen && end.Some? && !late)
            && (verdict.Failed? <==> isOpen && (end.None? || (late && writeFails)))
            && (verdict.Closes? <==> isOpen && late && !writeFails)
            && after == if isOpen && late && !writeFails
                        then r.(status := AutoClosed, checkOut := end, checkOutMethod := Some(Manual),
                                duration := Some(WholeMinutes(end.value - r.checkIn)), note := JobCapNote(job.trigger))
                        else r
  {
    hide ShiftEnd, JobShift;
  }

  /** A run of the job treats every record on its own. */
  lemma JobTreatsEachRecord(cal: Calendar, log: seq<Record>, job: JobConfig, failing: set<nat>, now: int, i: nat)
    requires i < |log|
    ensures var next := Step(cal, log, Event(AutoClose(job, failing), now)).0;
            |next| == |log| && next[i] == JobRecord(log[i], job, now, i in failing)
  {
    hide JobRecord;
  }

  ghost function OpenCount(log: seq<Record>): nat {
    if log == [] then 0 else OpenCount(log[..|log| - 1]) + if log[|log| - 1].status == CheckedIn then 1 else 0
  }

  ghost function ChangedCount(before: seq<Record>, after: seq<Record>): nat
    requires |before| == |after|
  {
    if before == [] then 0
    else
      var last := |before| - 1;
      ChangedCount(before[..last], after[..last]) + if after[last] != before[last] then 1 else 0
  }

  /** The counter of closed records is the number of records that the run changes. */
  lemma {:induction false} ClosedAreChanged(log: seq<Record>, job: JobConfig, now: int, failing: set<nat>)
    ensures Tally(log, job, now, failing, (v: Verdict) => v.Closes?)
            == ChangedCount(log, JobStep(log, job, now, failing))
  {
    hide ShiftEnd, JobShift;
    if log != [] {
      var last := |log| - 1;
      ClosedAreChanged(log[..last], job, now, failing);
      assert JobStep(log, job, now, failing)[..last] == JobStep(log[..last], job, now, failing);
    } else {
      assert JobStep(log, job, now, failing) == [];
    }
  }

  /** The three counters of the job add up to the open records it found. */
  lemma {:induction false} CountersAddUp(log: seq<Record>, job: JobConfig, now: int, failing: set<nat>)
    ensures Tally(log, job, now, failing, (v: Verdict) => v.Closes?)
            + Tally(log, job, now, failing, (v: Verdict) => v.Skipped?)
            + Tally(log, job, now, failing, (v: Verdict) => v.Failed?)
            == OpenCount(log)
  {
    hide ShiftEnd, JobShift;
    if log != [] {
      CountersAddUp(log[..|log| - 1], job, now, failing);
    }
  }

  // ---- Edits ----

  /** Within the last 90 days and not in the future. */
  ghost predicate IsEditable(t: Option<int>, now: int) { t.Some? ==> now - 90 * MS_PER_DAY <= t.value <= now }

  /** An edit is stored exactly when the editor may make it, its times are at most 90 days old and not in the
      future, and it does not end before it begins. */
  lemma EditIsStoredIff(cal: Calendar, log: seq<Record>, id: nat, editor: Editor, checkIn: Option<int>,
                        checkOut: Option<int>, now: int)
    ensures var (next, flagged) := EditStep(cal, log, id, editor, checkIn, checkOut, now);
            && (flagged == Err(RecordNotFound) <==> id >= |log|)
            && (flagged.Err? && flagged != Err(EditDateNotSupported) ==> next == log)
    ensures id < |log| ==>
            var flagged := EditStep(cal, log, id, editor, checkIn, checkOut, now).1;
            var start := if checkIn.Some? then checkIn.value else log[id].checkIn;
            var allowed := editor.Accountant? ==> log[id].status == AutoClosed && checkIn.None?;
            && (flagged == Err(InsufficientPermission) <==> !allowed)
            && (flagged == Err(RecordAcknowledged) <==> allowed && editor == Accountant(true))
            && (flagged.Ok? || flagged == Err(EditDateNotSupported)
                <==> && allowed && editor != Accountant(true)
                     && IsEditable(checkIn, now) && IsEditable(checkOut, now)
                     && (checkOut.Some? ==> start < checkOut.value))
            && (flagged == Err(InvalidTimeRange)
                <==> && allowed && editor != Accountant(true)
                     && IsEditable(checkIn, now) && IsEditable(checkOut, now)
                     && checkOut.Some? && checkOut.value <= start)
            && (flagged == Err(FutureDate) ==> (checkIn.Some? && checkIn.value > now)
                                               || (checkOut.Some? && checkOut.value > now))
            && (flagged == Err(DateTooOld) ==> (checkIn.Some? && checkIn.value < now - 90 * MS_PER_DAY)
                                               || (checkOut.Some? && checkOut.value < now - 90 * MS_PER_DAY))
  {
    hide AdToBSSpec;
  }

  /** It changes that record only. A new check-out closes the record with the duration to the nearest minute,
      halves up; a new check-in alone keeps everything else, the duration included. The month it flags is that of
      the resulting check-in. */
  lemma EditStores(cal: Calendar, log: seq<Record>, id: nat, editor: Editor, checkIn: Option<int>,
                   checkOut: Option<int>, now: int)
    requires id < |log|
    requires var flagged := EditStep(cal, log, id, editor, checkIn, checkOut, now).1;
             flagged.Ok? || flagged == Err(EditDateNotSupported)
    ensures var (next, flagged) := EditStep(cal, log, id, editor, checkIn, checkOut, now);
            var start := if checkIn.Some? then checkIn.value else log[id].checkIn;
            && |next| == |log| && (forall i :: 0 <= i < |log| && i != id ==> next[i] == log[i])
            && (checkOut.None? ==> next[id] == log[id].(checkIn := start))
            && (checkOut.Some? ==>
                  && next[id].duration.Some?
                  && next[id].duration.value * MS_PER_MINUTE - 30_000 <= checkOut.value - start
                     < next[id].duration.value * MS_PER_MINUTE + 30_000
                  && next[id] == log[id].(checkIn := start, checkOut := checkOut, status := CheckedOut,
                                          duration := next[id].duration))
            && (flagged.Ok? ==> AdToBSSpec(cal, start).Ok? && flagged.value.year == AdToBSSpec(cal, start).value.year
                                && flagged.value.month == AdToBSSpec(cal, start).value.month)
            && (flagged.Err? ==> AdToBSSpec(cal, start).Err?)
  {
    hide AdToBSSpec;
  }
}
