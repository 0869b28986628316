/** What holds after every run of scans, admin actions and auto-close jobs on one membership. */
module AttendanceRuns {
  import opened Prelude
  import opened Clock
  import opened BikramSambat
  import opened Shifts
  import opened Attendance
  import Roster

  datatype Action =
    | Scan(cfg: ScanConfig, channel: Channel, recent: Option<nat>)
    | ManualClockIn
    | ManualClockOut
    | AutoClose(job: JobConfig, failing: set<nat>)

  datatype Event = Event(action: Action, now: int)

  ghost predicate Enabled(log: seq<Record>, e: Event) {
    e.action.Scan? ==> IsRecentAction(log, e.now, e.action.recent)
  }

  ghost function Step(cal: Calendar, log: seq<Record>, e: Event): (seq<Record>, Outcome)
    requires Enabled(log, e)
  {
    match e.action
    case Scan(cfg, channel, recent) => ScanStep(cal, log, cfg, channel, e.now, recent)
    case ManualClockIn => ManualInStep(cal, log, e.now)
    case ManualClockOut => ManualOutStep(log, e.now)
    case AutoClose(job, failing) => (JobStep(log, job, e.now, failing), JobRan)
  }

  /** `states[i]` are the records before `events[i]`; the clock never runs backwards. */
  ghost predicate Run(cal: Calendar, events: seq<Event>, states: seq<seq<Record>>) {
    && |states| == |events| + 1
    && states[0] == []
    && (forall i :: 0 <= i < |events| ==>
          Enabled(states[i], events[i]) && states[i + 1] == Step(cal, states[i], events[i]).0)
    && (forall i, j :: 0 <= i < j < |events| ==> events[i].now <= events[j].now)
  }

  ghost predicate Accepted(cal: Calendar, log: seq<Record>, e: Event)
    requires Enabled(log, e)
  {
    !Step(cal, log, e).1.Rejected?
  }

  // ---- The records stay in order, and only the last can be open ----

  /** A single record as of `now`. Records closed by the job may end before they begin. */
  ghost predicate Sound(cal: Calendar, r: Record, now: int) {
    && r.checkIn <= now
    && AdToBSSpec(cal, r.checkIn) == Ok(r.bs)
    && (r.checkOut.Some? <==> r.status != CheckedIn)
    && (r.checkOutMethod.Some? <==> r.checkOut.Some?)
    && (r.status == AutoClosed <==> r.note.ScanCapNote? || r.note.JobCapNote?)
    && (r.checkOut.Some? ==>
          && r.checkOut.value <= now
          && r.duration == Some(WholeMinutes(r.checkOut.value - r.checkIn))
          && (!r.note.JobCapNote? ==> r.checkIn <= r.checkOut.value))
  }

  ghost predicate InOrder(a: Record, b: Record) {
    a.checkOut.Some? && a.checkOut.value <= b.checkIn && a.checkIn <= b.checkIn
  }

  ghost predicate Inv(cal: Calendar, log: seq<Record>, now: int) {
    && (forall i :: 0 <= i < |log| ==> Sound(cal, log[i], now))
    && (forall i, j :: 0 <= i < j < |log| ==> InOrder(log[i], log[j]))
  }

  lemma OnlyLastIsOpen(cal: Calendar, log: seq<Record>, now: int)
    requires Inv(cal, log, now)
    ensures OpenIndex(log).Some? ==> OpenIndex(log).value == |log| - 1
    ensures OpenIndex(log).None? ==> forall i :: 0 <= i < |log| ==> log[i].checkOut.Some?
  {
    if OpenIndex(log).Some? {
      var k := OpenIndex(log).value;
      assert k < |log| - 1 ==> InOrder(log[k], log[|log| - 1]);
    }
  }

  lemma ReplaceLastKeepsInv(cal: Calendar, log: seq<Record>, before: int, now: int, r: Record)
    requires Inv(cal, log, before) && before <= now && log != []
    requires Sound(cal, r, now) && r.checkIn == log[|log| - 1].checkIn
    ensures Inv(cal, log[|log| - 1 := r], now)
  {
  }

  lemma AppendKeepsInv(cal: Calendar, log: seq<Record>, now: int, r: Record)
    requires Inv(cal, log, now) && forall i :: 0 <= i < |log| ==> log[i].checkOut.Some?
    requires Sound(cal, r, now) && r.checkIn == now
    ensures Inv(cal, log + [r], now)
  {
  }

  lemma InvIsStable(cal: Calendar, log: seq<Record>, before: int, now: int)
    requires Inv(cal, log, before) && before <= now
    ensures Inv(cal, log, now)
  {
  }

  /** The scan's auto-close lands between the check-in and now, by more than the grace when a shift end
      is known. */
  lemma ForgottenIsClosedInThePast(r: Record, cfg: ScanConfig, now: int)
    requires IsForgotten(r, cfg, now)
    ensures r.checkIn <= ScanCloseTime(r, cfg, now) < now
    ensures ScanShiftEnd(cfg.memberEnd, cfg.orgEnd).Some? ==>
              r.checkIn < ScanCloseTime(r, cfg, now) < now - GraceMs(cfg.graceMinutes)
  {
    DaySplit(now);
    DaySplit(r.checkIn);
  }

  lemma ClockInKeepsInv(cal: Calendar, before: seq<Record>, log: seq<Record>, cfg: ScanConfig, channel: Channel,
                        now: int)
    requires Inv(cal, before, now) && Inv(cal, log, now)
    requires forall i :: 0 <= i < |log| ==> log[i].checkOut.Some?
    ensures Inv(cal, ClockInStep(cal, before, log, cfg, channel, now).0, now)
  {
    if AdToBSSpec(cal, now).Ok? {
      AppendKeepsInv(cal, log, now, NewRecord(channel, NoNote, now, AdToBSSpec(cal, now).value));
    }
  }

  lemma ScanKeepsInv(cal: Calendar, log: seq<Record>, before: int, e: Event)
    requires Inv(cal, log, before) && before <= e.now && Enabled(log, e) && e.action.Scan?
    ensures Inv(cal, Step(cal, log, e).0, e.now)
  {
    var cfg, channel, now := e.action.cfg, e.action.channel, e.now;
    OnlyLastIsOpen(cal, log, before);
    InvIsStable(cal, log, before, now);
    if OpenIndex(log).None? {
      ClockInKeepsInv(cal, log, log, cfg, channel, now);
    } else {
      var last := |log| - 1;
      var r := log[last];
      if IsForgotten(r, cfg, now) {
        ForgottenIsClosedInThePast(r, cfg, now);
        var closed := Closed(r, AutoClosed, Manual, ScanCapNote, ScanCloseTime(r, cfg, now));
        ReplaceLastKeepsInv(cal, log, before, now, closed);
        ClockInKeepsInv(cal, log, log[last := closed], cfg, channel, now);
      } else {
        ReplaceLastKeepsInv(cal, log, before, now, Closed(r, CheckedOut, channel, r.note, now));
      }
    }
  }

  lemma JobRecordIsSound(cal: Calendar, r: Record, before: int, now: int, job: JobConfig, writeFails: bool)
    requires Sound(cal, r, before) && before <= now
    ensures Sound(cal, JobRecord(r, job, now, writeFails), now)
    ensures JobRecord(r, job, now, writeFails).checkIn == r.checkIn
    ensures r.status != CheckedIn ==> JobRecord(r, job, now, writeFails) == r
  {
  }

  lemma JobKeepsInv(cal: Calendar, log: seq<Record>, before: int, now: int, job: JobConfig, failing: set<nat>)
    requires Inv(cal, log, before) && before <= now
    ensures Inv(cal, JobStep(log, job, now, failing), now)
  {
    hide JobRecord;
    if log == [] {
      assert JobStep(log, job, now, failing) == log;
    } else {
      var last := |log| - 1;
      var r := JobRecord(log[last], job, now, last in failing);
      JobRecordIsSound(cal, log[last], before, now, job, last in failing);
      ReplaceLastKeepsInv(cal, log, before, now, r);
      forall i | 0 <= i < last
        ensures JobRecord(log[i], job, now, i in failing) == log[i]
      {
        assert InOrder(log[i], log[last]);
        JobRecordIsSound(cal, log[i], before, now, job, i in failing);
      }
      assert JobStep(log, job, now, failing) == log[last := r];
    }
  }

  lemma StepKeepsInv(cal: Calendar, log: seq<Record>, before: int, e: Event)
    requires Inv(cal, log, before) && before <= e.now && Enabled(log, e)
    ensures Inv(cal, Step(cal, log, e).0, e.now)
  {
    match e.action
    case Scan(_, _, _) => ScanKeepsInv(cal, log, before, e);
    case AutoClose(job, failing) => JobKeepsInv(cal, log, before, e.now, job, failing);
    case ManualClockIn =>
      InvIsStable(cal, log, before, e.now);
      OnlyLastIsOpen(cal, log, before);
      if OpenIndex(log).None? && AdToBSSpec(cal, e.now).Ok? {
        AppendKeepsInv(cal, log, e.now, NewRecord(Manual, AdminNote, e.now, AdToBSSpec(cal, e.now).value));
      }
    case ManualClockOut =>
      InvIsStable(cal, log, before, e.now);
      OnlyLastIsOpen(cal, log, before);
      if OpenIndex(log).Some? {
        ReplaceLastKeepsInv(cal, log, before, e.now, Closed(log[|log| - 1], CheckedOut, Manual, AdminNote, e.now));
      }
  }

  /** The protocol invariant, after every event of every run. */
  lemma {:induction false} RunKeepsInv(cal: Calendar, events: seq<Event>, states: seq<seq<Record>>, i: nat)
    requires Run(cal, events, states) && i < |events|
    ensures Inv(cal, states[i + 1], events[i].now)
    decreases i
  {
    if i > 0 {
      RunKeepsInv(cal, events, states, i - 1);
      StepKeepsInv(cal, states[i], events[i - 1].now, events[i]);
    } else {
      StepKeepsInv(cal, states[0], events[0].now, events[0]);
    }
  }

  /** The latest instant known before event i. */
  ghost function ClockBefore(events: seq<Event>, i: nat): int
    requires i < |events|
  {
    if i == 0 then events[0].now else events[i - 1].now
  }

  lemma InvBefore(cal: Calendar, events: seq<Event>, states: seq<seq<Record>>, i: nat)
    requires Run(cal, events, states) && i < |events|
    ensures Inv(cal, states[i], ClockBefore(events, i)) && ClockBefore(events, i) <= events[i].now
    ensures Enabled(states[i], events[i]) && states[i + 1] == Step(cal, states[i], events[i]).0
  {
    if i > 0 {
      RunKeepsInv(cal, events, states, i - 1);
    }
  }

  /** A record that is open, or ended by now and, unless capped by the job, not before it began. */
  ghost predicate EndsInTime(r: Record, now: int) {
    && r.checkIn <= now
    && (r.status == CheckedIn <==> r.checkOut.None?)
    && (r.checkOut.Some? ==> r.checkOut.value <= now && (!r.note.JobCapNote? ==> r.checkIn <= r.checkOut.value))
  }

  ghost predicate ClosedBefore(a: Record, b: Record) {
    a.checkOut.Some? && a.checkOut.value <= b.checkIn
  }

  /** Spelt out, after every event of every run: each record ends in time, and of two records the earlier is
      closed at or before the later begins, so at most one is checked in. */
  lemma RecordsNeverOverlap(cal: Calendar, events: seq<Event>, states: seq<seq<Record>>, i: nat, log: seq<Record>)
    requires Run(cal, events, states) && i < |events| && log == states[i + 1]
    ensures forall k :: 0 <= k < |log| ==> EndsInTime(log[k], events[i].now)
    ensures forall j, k :: 0 <= j < k < |log| ==> ClosedBefore(log[j], log[k])
  {
    hide AdToBSSpec, WholeMinutes, Step, Enabled;
    RunKeepsInv(cal, events, states, i);
    hide Run;
    forall k | 0 <= k < |log|
      ensures EndsInTime(log[k], events[i].now)
    {
      assert Sound(cal, log[k], events[i].now);
    }
    forall j, k | 0 <= j < k < |log|
      ensures ClosedBefore(log[j], log[k])
    {
      assert InOrder(log[j], log[k]);
    }
  }

  // ---- Writes that come later than their checks ----

  /** Manual actions and the job check and write in separate statements. A clock-in that was checked earlier
      keeps the records in order exactly when none is open by the time it is written. */
  lemma LateClockInKeepsInvIff(cal: Calendar, log: seq<Record>, now: int, r: Record)
    requires Inv(cal, log, now) && Sound(cal, r, now) && r.checkIn == now
    ensures Inv(cal, log + [r], now) <==> OpenIndex(log) == None
  {
    hide AdToBSSpec, WholeMinutes;
    if OpenIndex(log) == None {
      AppendKeepsInv(cal, log, now, r);
    } else {
      var k := OpenIndex(log).value;
      assert (log + [r])[k] == log[k] && (log + [r])[|log|] == r;
      assert !InOrder((log + [r])[k], (log + [r])[|log|]);
    }
  }

  /** A clock-out that was checked earlier keeps them in order exactly when no later record began before it is
      written. */
  lemma LateClockOutKeepsInvIff(cal: Calendar, log: seq<Record>, now: int, k: nat)
    requires Inv(cal, log, now) && k < |log|
    ensures Inv(cal, log[k := Closed(log[k], CheckedOut, Manual, AdminNote, now)], now)
            <==> forall j :: k < j < |log| ==> log[j].checkIn == now
  {
    hide AdToBSSpec;
    var r := Closed(log[k], CheckedOut, Manual, AdminNote, now);
    var next := log[k := r];
    assert Sound(cal, log[k], now);
    assert Sound(cal, r, now);
    if forall j :: k < j < |log| ==> log[j].checkIn == now {
      forall i, j | 0 <= i < j < |next|
        ensures InOrder(next[i], next[j])
      {
        assert InOrder(log[i], log[j]);
      }
    } else {
      var j :| k < j < |log| && log[j].checkIn != now;
      assert next[j] == log[j] && Sound(cal, log[j], now) && !InOrder(next[k], next[j]);
    }
  }

  /** A cap by the job keeps them in order whatever happens to the record between the job's query and its write,
      because the cap lies before the query and no later record can. */
  lemma LateCapKeepsInv(cal: Calendar, log: seq<Record>, queried: int, now: int, k: nat, end: int, trigger: string)
    requires Inv(cal, log, now) && end <= queried <= now && k < |log|
    requires forall j :: k < j < |log| ==> log[j].checkIn >= queried
    ensures Inv(cal, log[k := Closed(log[k], AutoClosed, Manual, JobCapNote(trigger), end)], now)
  {
    hide AdToBSSpec;
    var r := Closed(log[k], AutoClosed, Manual, JobCapNote(trigger), end);
    var next := log[k := r];
    assert Sound(cal, log[k], now);
    assert Sound(cal, r, now);
    forall i, j | 0 <= i < j < |next|
      ensures InOrder(next[i], next[j])
    {
      assert InOrder(log[i], log[j]);
    }
  }

  // ---- The two auto-close implementations ----

  /** Without a shift end a forgotten record is closed at the last millisecond of yesterday, which is the end of
      the clock-in day exactly when the employee clocked in yesterday. */
  lemma NoShiftEndClosesYesterday(r: Record, cfg: ScanConfig, now: int)
    requires ScanShiftEnd(cfg.memberEnd, cfg.orgEnd).None? && IsForgotten(r, cfg, now)
    ensures Day(ScanCloseTime(r, cfg, now)) == Day(now) - 1 && TimeOfDay(ScanCloseTime(r, cfg, now)) == 86_399_999
    ensures Day(ScanCloseTime(r, cfg, now)) == Day(r.checkIn) <==> Day(r.checkIn) == Day(now) - 1
  {
    DayOf(Day(now) - 1, 86_399_999);
  }

  /** The job ends a record before it began exactly when the check-in is after the resolved shift end. */
  lemma JobCapsBeforeCheckInIff(r: Record, job: JobConfig, now: int)
    requires JobVerdict(r, job, now, false).Closes?
    ensures var shift := JobShift(job.shifts, r.checkIn);
            JobVerdict(r, job, now, false).checkOut < r.checkIn
            <==> !CrossesMidnight(shift) && TimeOfDay(r.checkIn) > shift.end.value.Offset()
  {
    DaySplit(r.checkIn);
  }

  /** The two auto-close implementations agree: where their caps agree (CapsAgreeIff) and the grace is the
      same, the scan treats a record as forgotten exactly when the job would close it, at the same time. */
  lemma ScanAndJobCloseAlike(r: Record, cfg: ScanConfig, job: JobConfig, now: int)
    requires r.status == CheckedIn && cfg.graceMinutes == job.graceMinutes
    requires cfg.memberEnd == job.shifts.memberEnd && cfg.orgEnd == job.shifts.orgEnd
    requires Roster.DayEntryFor(job.shifts.rosters, job.shifts.member, r.checkIn).None?
    requires !job.shifts.memberStart.Blank? && !job.shifts.memberEnd.Blank?
    requires ScanShiftEnd(cfg.memberEnd, cfg.orgEnd).Some?
    requires TimeOfDay(r.checkIn) < ScanShiftEnd(cfg.memberEnd, cfg.orgEnd).value.Offset()
             <==> !CrossesMidnight(JobShift(job.shifts, r.checkIn))
    ensures IsForgotten(r, cfg, now) <==> JobVerdict(r, job, now, false).Closes?
    ensures IsForgotten(r, cfg, now) ==> JobVerdict(r, job, now, false) == Closes(ScanCloseTime(r, cfg, now))
  {
    CapsAgreeIff(job.shifts, r.checkIn);
    hide ScanCap, ShiftEnd, JobShift, GraceMs;
  }

  /** Clock-in is closed exactly after an afternoon or evening shift end of the same day; a morning end
      never closes it. */
  lemma ClockInClosedIff(cfg: ScanConfig, now: int)
    ensures IsClockInClosed(cfg, now) <==>
            var end := ScanShiftEnd(cfg.memberEnd, cfg.orgEnd);
            end.Some? && end.value.hour >= 12 && TimeOfDay(now) > end.value.Offset()
  {
    DaySplit(now);
  }

  // ---- Cooldown ----

  /** Some answer of the database lets a scan at `now` past the cooldown. */
  ghost predicate MayPass(log: seq<Record>, now: int) {
    exists recent: Option<nat> :: IsRecentAction(log, now, recent) && !MustWait(log, now, recent)
  }

  /** Record k began with the last one, was last acted on a cooldown or more ago, and is the last one or
      still in the query. */
  ghost predicate LetsPass(log: seq<Record>, now: int, k: int) {
    && 0 <= k < |log|
    && log[k].checkIn == log[|log| - 1].checkIn
    && now - LastActionTime(log[k]) >= COOLDOWN
    && (k == |log| - 1 || WithinCooldown(log[k], now))
  }

  /** When a scan gets past the cooldown, for any records a run can produce: some record that began with the
      last one lets it pass. */
  lemma MayPassIff(cal: Calendar, log: seq<Record>, before: int, now: int)
    requires Inv(cal, log, before) && before <= now && log != []
    ensures MayPass(log, now) <==> exists k :: LetsPass(log, now, k)
  {
    var last := |log| - 1;
    assert forall i :: 0 <= i < last ==> InOrder(log[i], log[last]);
    hide Inv, MustWait, IsRecentAction;
    if MayPass(log, now) {
      var recent: Option<nat> :| IsRecentAction(log, now, recent) && !MustWait(log, now, recent);
      PassesThrough(log, now, recent);
    }
    if k :| LetsPass(log, now, k) {
      AnswerThatPasses(log, now, k);
    }
  }

  lemma PassesThrough(log: seq<Record>, now: int, recent: Option<nat>)
    requires log != [] && forall i :: 0 <= i < |log| - 1 ==> InOrder(log[i], log[|log| - 1])
    requires IsRecentAction(log, now, recent) && !MustWait(log, now, recent)
    ensures LetsPass(log, now, if recent.Some? then recent.value else |log| - 1)
  {
    var last := |log| - 1;
    if recent.Some? && recent.value != last {
      assert InOrder(log[recent.value], log[last]);
      assert WithinCooldown(log[last], now);
    } else if recent.None? {
      assert !WithinCooldown(log[last], now);
    }
  }

  lemma AnswerThatPasses(log: seq<Record>, now: int, k: int)
    requires log != [] && forall i :: 0 <= i < |log| - 1 ==> InOrder(log[i], log[|log| - 1])
    requires LetsPass(log, now, k)
    ensures MayPass(log, now)
  {
    var answer: Option<nat> := if WithinCooldown(log[k], now) then Some(k) else None;
    assert IsRecentAction(log, now, answer) && !MustWait(log, now, answer);
  }

  ghost predicate NoJobRecords(log: seq<Record>) {
    forall i :: 0 <= i < |log| ==> !log[i].note.JobCapNote?
  }

  /** An earlier record began in the same millisecond as the last one, exactly one cooldown ago. */
  ghost predicate TiedOneCooldownAgo(log: seq<Record>, now: int) {
    exists k :: 0 <= k < |log| - 1 && log[k].checkIn == log[|log| - 1].checkIn == now - COOLDOWN
  }

  /** Without records capped by the job, a scan gets past exactly 120 seconds or more after the last action,
      or in one tie: two records checked in within the same millisecond, a scan exactly 120 000 ms later,
      and a database that returns the older one. */
  lemma MayPassIffWaited(cal: Calendar, log: seq<Record>, before: int, now: int)
    requires Inv(cal, log, before) && before <= now && log != [] && NoJobRecords(log)
    ensures MayPass(log, now) <==> now - LastActionTime(log[|log| - 1]) >= COOLDOWN || TiedOneCooldownAgo(log, now)
  {
    var last := |log| - 1;
    MayPassIff(cal, log, before, now);
    assert Sound(cal, log[last], before);
    if k :| LetsPass(log, now, k) && k != last {
      assert InOrder(log[k], log[last]) && Sound(cal, log[k], before);
    }
    if now - LastActionTime(log[last]) >= COOLDOWN {
      assert LetsPass(log, now, last);
    }
    if TiedOneCooldownAgo(log, now) {
      var k :| 0 <= k < last && log[k].checkIn == log[last].checkIn == now - COOLDOWN;
      assert InOrder(log[k], log[last]) && Sound(cal, log[k], before);
      assert LetsPass(log, now, k);
    }
  }

  /** After the job has capped the last record, the cooldown is counted from the cap, not from anything that
      happened: with no second record of that check-in, a scan gets past exactly 120 seconds after the cap. */
  lemma MayPassIffCapped(cal: Calendar, log: seq<Record>, before: int, now: int)
    requires Inv(cal, log, before) && before <= now && log != []
    requires log[|log| - 1].note.JobCapNote?
    requires forall k :: 0 <= k < |log| - 1 ==> log[k].checkIn < log[|log| - 1].checkIn
    ensures log[|log| - 1].checkOut.Some?
    ensures MayPass(log, now) <==> now - log[|log| - 1].checkOut.value >= COOLDOWN
  {
    var last := |log| - 1;
    MayPassIff(cal, log, before, now);
    assert Sound(cal, log[last], before);
    if now - log[last].checkOut.value >= COOLDOWN {
      assert LetsPass(log, now, last);
    }
  }

  /** The last record was last acted on at `t`, and not by the job. */
  ghost predicate ActedAt(log: seq<Record>, t: int) {
    && |log| > 0
    && LastActionTime(log[|log| - 1]) == t
    && NoJobRecords(log)
  }

  lemma AppendActs(log: seq<Record>, r: Record)
    requires NoJobRecords(log) && !r.note.JobCapNote?
    ensures ActedAt(log + [r], LastActionTime(r))
  {
  }

  lemma ReplaceActs(log: seq<Record>, k: nat, r: Record)
    requires NoJobRecords(log) && !r.note.JobCapNote? && k == |log| - 1
    ensures ActedAt(log[k := r], LastActionTime(r))
  {
  }

  lemma ClockInActs(cal: Calendar, before: seq<Record>, log: seq<Record>, cfg: ScanConfig, channel: Channel, now: int)
    requires NoJobRecords(log)
    ensures var (next, outcome) := ClockInStep(cal, before, log, cfg, channel, now);
            if outcome.Rejected? then next == before else ActedAt(next, now)
  {
    if AdToBSSpec(cal, now).Ok? {
      AppendActs(log, NewRecord(channel, NoNote, now, AdToBSSpec(cal, now).value));
    }
  }

  lemma ScanActs(cal: Calendar, log: seq<Record>, before: int, e: Event)
    requires Inv(cal, log, before) && Enabled(log, e) && e.action.Scan? && NoJobRecords(log)
    ensures if Accepted(cal, log, e) then ActedAt(Step(cal, log, e).0, e.now) else Step(cal, log, e).0 == log
  {
    hide ClockInStep, IsForgotten, ScanCloseTime;
    OnlyLastIsOpen(cal, log, before);
    var cfg, channel, now := e.action.cfg, e.action.channel, e.now;
    if OpenIndex(log).None? {
      ClockInActs(cal, log, log, cfg, channel, now);
    } else {
      var k := OpenIndex(log).value;
      var capped := Closed(log[k], AutoClosed, Manual, ScanCapNote, ScanCloseTime(log[k], cfg, now));
      ReplaceActs(log, k, capped);
      ReplaceActs(log, k, Closed(log[k], CheckedOut, channel, log[k].note, now));
      ClockInActs(cal, log, log[k := capped], cfg, channel, now);
    }
  }

  lemma StepActs(cal: Calendar, log: seq<Record>, before: int, e: Event)
    requires Inv(cal, log, before) && Enabled(log, e) && !e.action.AutoClose? && NoJobRecords(log)
    ensures if Accepted(cal, log, e) then ActedAt(Step(cal, log, e).0, e.now) else Step(cal, log, e).0 == log
  {
    hide ScanStep;
    OnlyLastIsOpen(cal, log, before);
    match e.action
    case Scan(_, _, _) => ScanActs(cal, log, before, e);
    case ManualClockIn =>
      if AdToBSSpec(cal, e.now).Ok? {
        AppendActs(log, NewRecord(Manual, AdminNote, e.now, AdToBSSpec(cal, e.now).value));
      }
    case ManualClockOut =>
      if OpenIndex(log).Some? {
        ReplaceActs(log, |log| - 1, Closed(log[|log| - 1], CheckedOut, Manual, AdminNote, e.now));
      }
  }

  lemma {:induction false} NoJobsNoJobRecords(cal: Calendar, events: seq<Event>, states: seq<seq<Record>>, j: nat)
    requires Run(cal, events, states) && j <= |events|
    requires forall k :: 0 <= k < j ==> !events[k].action.AutoClose?
    ensures NoJobRecords(states[j])
    decreases j
  {
    if j > 0 {
      NoJobsNoJobRecords(cal, events, states, j - 1);
      InvBefore(cal, events, states, j - 1);
      StepActs(cal, states[j - 1], ClockBefore(events, j - 1), events[j - 1]);
    }
  }

  ghost predicate AcceptedAt(cal: Calendar, events: seq<Event>, states: seq<seq<Record>>, i: int) {
    && 0 <= i < |events| && i < |states|
    && Enabled(states[i], events[i]) && Accepted(cal, states[i], events[i])
  }

  /** Event i is the last one before j that did not end in an error. */
  ghost predicate LastAccepted(cal: Calendar, events: seq<Event>, states: seq<seq<Record>>, i: int, j: int) {
    && i < j
    && AcceptedAt(cal, events, states, i)
    && forall k :: i < k < j ==> !AcceptedAt(cal, events, states, k)
  }

  lemma {:induction false} LastActedAt(cal: Calendar, events: seq<Event>, states: seq<seq<Record>>, i: nat, j: nat)
    requires Run(cal, events, states) && j <= |events| && LastAccepted(cal, events, states, i, j)
    requires forall k :: 0 <= k < j ==> !events[k].action.AutoClose?
    ensures ActedAt(states[j], events[i].now)
    decreases j
  {
    hide Step;
    NoJobsNoJobRecords(cal, events, states, j - 1);
    InvBefore(cal, events, states, j - 1);
    StepActs(cal, states[j - 1], ClockBefore(events, j - 1), events[j - 1]);
    if i < j - 1 {
      LastActedAt(cal, events, states, i, j - 1);
      assert !AcceptedAt(cal, events, states, j - 1);
    }
  }

  /** In every run without auto-close jobs, a scan gets past the cooldown exactly when it comes at least 120
      seconds after the last accepted scan or manual action, or meets that tie. */
  lemma CooldownIff(cal: Calendar, events: seq<Event>, states: seq<seq<Record>>, i: nat, j: nat)
    requires Run(cal, events, states) && j < |events| && LastAccepted(cal, events, states, i, j)
    requires forall k :: 0 <= k < j ==> !events[k].action.AutoClose?
    ensures MayPass(states[j], events[j].now)
            <==> events[j].now - events[i].now >= 120_000 || TiedOneCooldownAgo(states[j], events[j].now)
  {
    LastActedAt(cal, events, states, i, j);
    InvBefore(cal, events, states, j);
    MayPassIffWaited(cal, states[j], ClockBefore(events, j), events[j].now);
  }

  /** So an accepted scan comes at least 120 seconds after every accepted action before it, ties aside. */
  lemma {:induction false} CooldownHolds(cal: Calendar, events: seq<Event>, states: seq<seq<Record>>, i: nat, j: nat)
    requires Run(cal, events, states) && i < j < |events|
    requires forall k :: 0 <= k < j ==> !events[k].action.AutoClose?
    requires AcceptedAt(cal, events, states, i)
    requires events[j].action.Scan? && AcceptedAt(cal, events, states, j)
    ensures events[j].now - events[i].now >= 120_000 || TiedOneCooldownAgo(states[j], events[j].now)
    decreases j - i
  {
    if LastAccepted(cal, events, states, i, j) {
      CooldownIff(cal, events, states, i, j);
      assert IsRecentAction(states[j], events[j].now, events[j].action.recent);
      assert !MustWait(states[j], events[j].now, events[j].action.recent);
    } else {
      var k :| i < k < j && AcceptedAt(cal, events, states, k);
      CooldownHolds(cal, events, states, k, j);
    }
  }

  /** The exception is real: manual in and out, in again at once, out after a minute, and a scan is
      accepted only 60 seconds after that last action. */
  lemma CooldownMissesATie(cal: Calendar)
    ensures exists events: seq<Event>, states: seq<seq<Record>> ::
              && Run(cal, events, states) && |events| == 5
              && Accepted(cal, states[3], events[3]) && events[3].action.ManualClockOut?
              && Accepted(cal, states[4], events[4]) && events[4].action.Scan?
              && events[4].now - events[3].now == 60_000
  {
    var t := AD_REFERENCE;
    var cfg := ScanConfig(Null, Some(ClockTime(18, 0)), None, None);
    var events := [Event(ManualClockIn, t), Event(ManualClockOut, t), Event(ManualClockIn, t),
                   Event(ManualClockOut, t + 60_000), Event(Scan(cfg, QrScan, Some(0)), t + COOLDOWN)];
    var bs := AdToBSSpec(cal, t).value;
    assert AdToBSSpec(cal, t + COOLDOWN).Ok?;
    var onDuty := NewRecord(Manual, AdminNote, t, bs);
    var first := Closed(onDuty, CheckedOut, Manual, AdminNote, t);
    var second := Closed(onDuty, CheckedOut, Manual, AdminNote, t + 60_000);
    var s0, s1, s2, s3, s4 := [], [onDuty], [first], [first, onDuty], [first, second];
    assert OpenIndex(s1) == Some(0);
    assert OpenIndex(s2) == None;
    assert OpenIndex(s3) == Some(1);
    assert OpenIndex(s4) == None;
    assert Enabled(s4, events[4]);
    ClockInClosedIff(cfg, t + COOLDOWN);
    assert !IsClockInClosed(cfg, t + COOLDOWN);
    var s5 := Step(cal, s4, events[4]).0;
    assert Run(cal, events, [s0, s1, s2, s3, s4, s5]);
    assert Accepted(cal, s3, events[3]) && Accepted(cal, s4, events[4]);
  }

  /** An admin clocks in, the job runs, and a scan is accepted one second after the clock-in. */
  ghost predicate ScansAfterOneSecond(cal: Calendar, events: seq<Event>, states: seq<seq<Record>>) {
    && Run(cal, events, states) && |events| == 3
    && events[0].action.ManualClockIn? && AcceptedAt(cal, events, states, 0)
    && events[1].action.AutoClose?
    && events[2].action.Scan? && AcceptedAt(cal, events, states, 2)
    && events[2].now - events[0].now == 1_000
  }

  /** With the job in the run the cooldown fails outright: if the job caps a fresh record well before its
      check-in while clock-in is still open, the employee can scan one second after being clocked in. */
  lemma JobBreaksCooldown(cal: Calendar, t: int, cap: int, job: JobConfig, cfg: ScanConfig)
    requires AdToBSSpec(cal, t).Ok? && AdToBSSpec(cal, t + 1_000).Ok?
    requires ShiftEnd(JobShift(job.shifts, t), t) == Some(cap)
    requires cap + GraceMs(job.graceMinutes) < t && cap <= t - COOLDOWN
    requires !IsClockInClosed(cfg, t + 1_000) && cfg.maxDailyCheckins == None
    ensures exists events: seq<Event>, states: seq<seq<Record>> :: ScansAfterOneSecond(cal, events, states)
  {
    var onDuty := NewRecord(Manual, AdminNote, t, AdToBSSpec(cal, t).value);
    var capped := Closed(onDuty, AutoClosed, Manual, JobCapNote(job.trigger), cap);
    var next := NewRecord(QrScan, NoNote, t + 1_000, AdToBSSpec(cal, t + 1_000).value);
    var a, b, c :=
      Event(ManualClockIn, t), Event(AutoClose(job, {}), t + 500), Event(Scan(cfg, QrScan, Some(0)), t + 1_000);
    JobCapsFreshRecord(onDuty, capped, job, t + 500, cap);
    ScanAfterEarlyCap(cal, capped, cfg, t + 1_000, next);
    FirstClockIn(cal, t);
    hide ManualInStep, JobStep, ScanStep, IsRecentAction, AdToBSSpec, IsClockInClosed, JobShift, ShiftEnd;
    assert Step(cal, [], a) == ([onDuty], ClockIn);
    assert Step(cal, [onDuty], b) == ([capped], JobRan);
    assert Enabled([capped], c) && Step(cal, [capped], c) == ([capped, next], ClockIn);
    hide Step, Enabled, ScansAfterOneSecond;
    ThreeStepRun(cal, a, b, c, [onDuty], [capped], [capped, next]);
  }

  lemma FirstClockIn(cal: Calendar, t: int)
    requires AdToBSSpec(cal, t).Ok?
    ensures ManualInStep(cal, [], t) == ([NewRecord(Manual, AdminNote, t, AdToBSSpec(cal, t).value)], ClockIn)
  {
    var r := NewRecord(Manual, AdminNote, t, AdToBSSpec(cal, t).value);
    assert OpenIndex([]) == None && [] + [r] == [r];
  }

  lemma ThreeStepRun(cal: Calendar, a: Event, b: Event, c: Event, s1: seq<Record>, s2: seq<Record>, s3: seq<Record>)
    requires a.action.ManualClockIn? && b.action.AutoClose? && c.action.Scan?
    requires a.now <= b.now <= c.now && c.now == a.now + 1_000
    requires Enabled([], a) && Enabled(s1, b) && Enabled(s2, c)
    requires Step(cal, [], a) == (s1, ClockIn) && Step(cal, s1, b) == (s2, JobRan) && Step(cal, s2, c) == (s3, ClockIn)
    ensures ScansAfterOneSecond(cal, [a, b, c], [[], s1, s2, s3])
  {
    hide Step, Enabled;
    var events, states := [a, b, c], [[], s1, s2, s3];
    assert states[0] == [] && states[1] == s1 && states[2] == s2 && states[3] == s3;
    forall i | 0 <= i < 3
      ensures Enabled(states[i], events[i]) && states[i + 1] == Step(cal, states[i], events[i]).0
    {
      assert i == 0 || i == 1 || i == 2;
    }
  }

  lemma JobCapsFreshRecord(r: Record, capped: Record, job: JobConfig, now: int, cap: int)
    requires r.status == CheckedIn && ShiftEnd(JobShift(job.shifts, r.checkIn), r.checkIn) == Some(cap)
    requires cap + GraceMs(job.graceMinutes) < now
    requires capped == Closed(r, AutoClosed, Manual, JobCapNote(job.trigger), cap)
    ensures JobStep([r], job, now, {}) == [capped]
  {
    assert JobVerdict(r, job, now, false) == Closes(cap);
  }

  lemma ScanAfterEarlyCap(cal: Calendar, capped: Record, cfg: ScanConfig, now: int, next: Record)
    requires capped.status != CheckedIn && capped.checkIn == now - 1_000
    requires capped.checkOut.Some? && capped.checkOut.value < now - COOLDOWN
    requires !IsClockInClosed(cfg, now) && cfg.maxDailyCheckins == None && AdToBSSpec(cal, now).Ok?
    requires next == NewRecord(QrScan, NoNote, now, AdToBSSpec(cal, now).value)
    ensures IsRecentAction([capped], now, Some(0))
    ensures ScanStep(cal, [capped], cfg, QrScan, now, Some(0)) == ([capped, next], ClockIn)
  {
    assert OpenIndex([capped]) == None;
    assert [capped] + [next] == [capped, next];
  }

  /** Such an organization: open from 00:00 to 02:00, an admin clocks the employee in at 20:00. */
  lemma NightOrganizationCapsEarly(day: int, t: int, src: ShiftSource, cfg: ScanConfig, closing: ClockTime)
    requires t == Midnight(day) + 72_000_000
    requires src == ShiftSource([], 0, Null, Null, Some(ClockTime(0, 0)), Some(closing))
    requires cfg == ScanConfig(Null, Some(closing), None, None) && closing == ClockTime(2, 0)
    ensures ShiftEnd(JobShift(src, t), t) == Some(t - 64_800_000) && t - 64_800_000 + GraceMs(None) < t
    ensures !IsClockInClosed(cfg, t + 1_000)
  {
    DayOf(day, 72_000_000);
    DayOf(day, 72_001_000);
    assert t + 1_000 == Midnight(day) + 72_001_000;
    assert closing.Offset() == 7_200_000;
    var shift := JobShift(src, t);
    assert shift.end == Some(closing) && !CrossesMidnight(shift);
    assert AtClock(t, closing) == t - 64_800_000;
    assert AtClock(t + 1_000, closing) == t - 64_800_000;
  }

  /** On every day of the calendar an employee of that organization can do so. */
  lemma NightOrganizationBreaksCooldown(cal: Calendar, day: int)
    requires AdToBSSpec(cal, Midnight(day) + 72_000_000).Ok?
    ensures exists events: seq<Event>, states: seq<seq<Record>> :: ScansAfterOneSecond(cal, events, states)
  {
    var t, closing := Midnight(day) + 72_000_000, ClockTime(2, 0);
    var src := ShiftSource([], 0, Null, Null, Some(ClockTime(0, 0)), Some(closing));
    var cfg := ScanConfig(Null, Some(closing), None, None);
    NightOrganizationCapsEarly(day, t, src, cfg, closing);
    SecondsLater(cal, day);
    hide *;
    JobBreaksCooldown(cal, t, t - 64_800_000, JobConfig(src, None, "nightly"), cfg);
  }

  lemma SecondsLater(cal: Calendar, day: int)
    ensures AdToBSSpec(cal, Midnight(day) + 72_001_000) == AdToBSSpec(cal, Midnight(day) + 72_000_000)
  {
    assert DayOffset(Midnight(day) + 72_001_000) == DayOffset(Midnight(day) + 72_000_000);
    hide WalkForward;
  }

  // ---- Daily limit ----

  lemma {:induction false} CountDependsOnCheckIns(a: seq<Record>, b: seq<Record>, day: int)
    requires |a| == |b| && forall i :: 0 <= i < |a| ==> a[i].checkIn == b[i].checkIn
    ensures CountOn(a, day) == CountOn(b, day)
  {
    if a != [] {
      CountDependsOnCheckIns(a[..|a| - 1], b[..|b| - 1], day);
    }
  }

  /** Every step keeps the check-in times and adds at most one check-in, now. */
  lemma StepCounts(cal: Calendar, log: seq<Record>, e: Event, day: int)
    requires Enabled(log, e)
    ensures var next, outcome := Step(cal, log, e).0, Step(cal, log, e).1;
            CountOn(next, day) == CountOn(log, day) + if outcome == ClockIn && day == Day(e.now) then 1 else 0
  {
    var next := Step(cal, log, e).0;
    if Step(cal, log, e).1 == ClockIn {
      var kept := next[..|next| - 1];
      CountDependsOnCheckIns(kept, log, day);
    } else {
      CountDependsOnCheckIns(next, log, day);
    }
  }

  /** Under a fixed limit and without manual clock-ins, no calendar day ever holds more check-ins than
      the limit; manual clock-outs and auto-close jobs may be mixed in. */
  lemma {:induction false} DailyLimitHolds(cal: Calendar, events: seq<Event>, states: seq<seq<Record>>, limit: nat,
                                           i: nat, day: int)
    requires Run(cal, events, states) && i <= |events|
    requires forall k :: 0 <= k < |events| ==> !events[k].action.ManualClockIn?
    requires forall k :: 0 <= k < |events| && events[k].action.Scan? ==>
               events[k].action.cfg.maxDailyCheckins == Some(limit)
    ensures CountOn(states[i], day) <= limit
    decreases i
  {
    if i > 0 {
      DailyLimitHolds(cal, events, states, limit, i - 1, day);
      var log, e := states[i - 1], events[i - 1];
      StepCounts(cal, log, e, day);
      if e.action.Scan? && OpenIndex(log).Some? {
        var k := OpenIndex(log).value;
        var r := log[k];
        var closed := log[k := Closed(r, AutoClosed, Manual, ScanCapNote, ScanCloseTime(r, e.action.cfg, e.now))];
        CountDependsOnCheckIns(closed, log, Day(e.now));
      }
    }
  }

  /** The limit blocks clock-ins only: whatever the limit, a scan clocks out exactly when it would
      without one, with the same records. */
  lemma LimitNeverBlocksClockOut(cal: Calendar, log: seq<Record>, cfg: ScanConfig, channel: Channel, now: int,
                                 recent: Option<nat>, limit: Option<nat>)
    requires IsRecentAction(log, now, recent)
    ensures ScanStep(cal, log, cfg, channel, now, recent).1 == ClockOut
            <==> ScanStep(cal, log, cfg.(maxDailyCheckins := limit), channel, now, recent).1 == ClockOut
    ensures ScanStep(cal, log, cfg, channel, now, recent).1 == ClockOut ==>
              ScanStep(cal, log, cfg.(maxDailyCheckins := limit), channel, now, recent)
              == ScanStep(cal, log, cfg, channel, now, recent)
  {
    hide CountOn, AdToBSSpec, ScanCap, IsRecentAction, WithinCooldown;
  }

  // ---- Attendance and payroll agree on the month ----

  /** In every run, the BS month stored with a record is the one whose payroll range counts it. */
  lemma StoredMonthIsTheMonthThatCounts(cal: Calendar, events: seq<Event>, states: seq<seq<Record>>, i: nat, j: nat,
                                        year: int, month: int)
    requires Run(cal, events, states) && i < |events| && j < |states[i + 1]|
    requires InTable(cal, year) && 1 <= month <= 12
    ensures MonthRangeSpec(cal, year, month).Ok?
    ensures var r := states[i + 1][j];
            r.bs.year == year && r.bs.month == month
            <==> MonthRangeSpec(cal, year, month).value.Contains(r.checkIn)
  {
    RunKeepsInv(cal, events, states, i);
    assert Sound(cal, states[i + 1][j], events[i].now);
    MonthRangeIsPreimage(cal, year, month, states[i + 1][j].checkIn);
  }
}
