/**
 Manual actions and the auto-close job check in one statement and write in a later one, outside any
 transaction; scans stay one step. What holds of one membership's records in every interleaving.
 */
module AttendanceRaces {
  import opened Prelude
  import opened Clock
  import opened BikramSambat
  import opened Shifts
  import opened Attendance
  import R = AttendanceRuns

  /** A write that has passed its check. A cap remembers when its record was queried. */
  datatype Write =
    | InsertRecord
    | CloseRecord(k: nat)
    | CapRecord(k: nat, end: int, queried: int, trigger: string)

  datatype Action =
    | Scan(cfg: ScanConfig, channel: Channel, recent: Option<nat>)
    | CheckClockIn
    | CheckClockOut
    | Query(job: JobConfig, k: nat)
    | Finish(write: Write)

  datatype Event = Event(action: Action, now: int)

  datatype Store = Store(log: seq<Record>, pending: multiset<Write>)

  ghost predicate Enabled(s: Store, e: Event) {
    e.action.Scan? ==> IsRecentAction(s.log, e.now, e.action.recent)
  }

  /** The write lands on whatever the row has become. */
  ghost function Land(cal: Calendar, log: seq<Record>, w: Write, now: int): seq<Record> {
    match w
    case InsertRecord =>
      if AdToBSSpec(cal, now).Err? then log
      else log + [NewRecord(Manual, AdminNote, now, AdToBSSpec(cal, now).value)]
    case CloseRecord(k) => if k < |log| then log[k := Closed(log[k], CheckedOut, Manual, AdminNote, now)] else log
    case CapRecord(k, end, _, trigger) =>
      if k < |log| then log[k := Closed(log[k], AutoClosed, Manual, JobCapNote(trigger), end)] else log
  }

  /** What a check goes on to write, if anything. A query of the job is one per open record. */
  ghost function Planned(cal: Calendar, log: seq<Record>, action: Action, now: int): Option<Write> {
    match action
    case CheckClockIn => if OpenIndex(log).None? && AdToBSSpec(cal, now).Ok? then Some(InsertRecord) else None
    case CheckClockOut => if OpenIndex(log).Some? then Some(CloseRecord(OpenIndex(log).value)) else None
    case Query(job, k) =>
      if k < |log| && JobVerdict(log[k], job, now, false).Closes?
      then Some(CapRecord(k, JobVerdict(log[k], job, now, false).checkOut, now, job.trigger))
      else None
    case _ => None
  }

  ghost function Next(cal: Calendar, s: Store, e: Event): Store
    requires Enabled(s, e)
  {
    match e.action
    case Scan(cfg, channel, recent) => s.(log := ScanStep(cal, s.log, cfg, channel, e.now, recent).0)
    case Finish(w) =>
      if w in s.pending then Store(Land(cal, s.log, w, e.now), s.pending - multiset{w}) else s
    case _ =>
      var w := Planned(cal, s.log, e.action, e.now);
      if w.Some? then s.(pending := s.pending + multiset{w.value}) else s
  }

  /** Checks and writes that follow one another at once are the actions of one step. */
  lemma PlansRefineTheActions(cal: Calendar, log: seq<Record>, now: int, job: JobConfig, k: nat)
    ensures var w := Planned(cal, log, CheckClockIn, now);
            (if w.Some? then Land(cal, log, w.value, now) else log) == ManualInStep(cal, log, now).0
    ensures var w := Planned(cal, log, CheckClockOut, now);
            (if w.Some? then Land(cal, log, w.value, now) else log) == ManualOutStep(log, now).0
    ensures var w := Planned(cal, log, Query(job, k), now);
            k < |log| ==>
              (if w.Some? then Land(cal, log, w.value, now) else log) == log[k := JobRecord(log[k], job, now, false)]
  {
    if k < |log| {
      assert log[k := log[k]] == log;
    }
  }

  /** A check and its write leave nothing behind but the records. */
  lemma CheckAndFinish(cal: Calendar, s: Store, check: Action, now: int, later: int)
    requires !check.Scan? && Planned(cal, s.log, check, now).Some?
    ensures var w := Planned(cal, s.log, check, now).value;
            Next(cal, Next(cal, s, Event(check, now)), Event(Finish(w), later))
            == Store(Land(cal, s.log, w, later), s.pending)
  {
    hide Land, JobVerdict, AdToBSSpec;
  }

  /** `states[i]` is the state before event i; the clock never runs backwards. */
  ghost predicate Run(cal: Calendar, events: seq<Event>, states: seq<Store>) {
    && |states| == |events| + 1
    && states[0] == Store([], multiset{})
    && (forall i :: 0 <= i < |events| ==> Follows(cal, states[i], events[i], states[i + 1]))
    && (forall i, j :: 0 <= i < j < |events| ==> events[i].now <= events[j].now)
  }

  ghost predicate Follows(cal: Calendar, s: Store, e: Event, t: Store) { Enabled(s, e) && t == Next(cal, s, e) }

  // ---- Late writes ----

  /** The write still fits the records it lands on: nobody is clocked in (or the date is not supported and
      nothing is inserted), or no record has begun since. A cap always fits. */
  ghost predicate Fits(cal: Calendar, log: seq<Record>, w: Write, now: int) {
    match w
    case InsertRecord => OpenIndex(log).None? || AdToBSSpec(cal, now).Err?
    case CloseRecord(k) => forall j :: k < j < |log| ==> log[j].checkIn == now
    case CapRecord(_, _, _, _) => true
  }

  /** The record to close is there. For a cap every later record began after the query, and the cap lies
      before it. */
  ghost predicate IsEarly(log: seq<Record>, w: Write, now: int) {
    match w
    case InsertRecord => true
    case CloseRecord(k) => k < |log|
    case CapRecord(k, end, queried, _) =>
      end <= queried <= now && k < |log| && forall j :: k < j < |log| ==> log[j].checkIn >= queried
  }

  ghost predicate PendingIsEarly(s: Store, now: int) { forall w :: w in s.pending ==> IsEarly(s.log, w, now) }

  ghost predicate Good(cal: Calendar, s: Store, now: int) { R.Inv(cal, s.log, now) && PendingIsEarly(s, now) }

  /** Every event keeps the check-in times of the records there are, and may add one that begins now. */
  ghost predicate Extends(log: seq<Record>, next: seq<Record>, now: int) {
    && |log| <= |next|
    && (forall i :: 0 <= i < |log| ==> next[i].checkIn == log[i].checkIn)
    && (forall i :: |log| <= i < |next| ==> next[i].checkIn == now)
  }

  lemma NextExtends(cal: Calendar, s: Store, e: Event)
    requires Enabled(s, e)
    ensures Extends(s.log, Next(cal, s, e).log, e.now)
  {
  }

  lemma PendingStaysEarly(s: Store, t: Store, before: int, now: int)
    requires PendingIsEarly(s, before) && before <= now && Extends(s.log, t.log, now)
    requires forall w :: w in t.pending ==> w in s.pending || IsEarly(t.log, w, now)
    ensures PendingIsEarly(t, now)
  {
  }

  lemma PlannedIsEarly(cal: Calendar, s: Store, before: int, e: Event)
    requires Good(cal, s, before) && before <= e.now
    ensures Planned(cal, s.log, e.action, e.now).Some? ==>
              IsEarly(s.log, Planned(cal, s.log, e.action, e.now).value, e.now)
  {
    R.OnlyLastIsOpen(cal, s.log, before);
    if e.action.Query? && Planned(cal, s.log, e.action, e.now).Some? {
      var w := Planned(cal, s.log, e.action, e.now).value;
      assert w.end <= e.now && s.log[w.k].status == CheckedIn;
      assert OpenIndex(s.log).value == |s.log| - 1 && w.k == |s.log| - 1;
    }
    hide JobVerdict, R.Inv;
  }

  /** One event keeps the records in order exactly when the write that it lands, if any, fits. */
  lemma EventKeepsInvIff(cal: Calendar, s: Store, before: int, e: Event)
    requires Good(cal, s, before) && before <= e.now && Enabled(s, e)
    ensures R.Inv(cal, Next(cal, s, e).log, e.now) <==> !Misfits(cal, s, e)
    ensures PendingIsEarly(Next(cal, s, e), e.now)
  {
    R.InvIsStable(cal, s.log, before, e.now);
    NextExtends(cal, s, e);
    PlannedIsEarly(cal, s, before, e);
    PendingStaysEarly(s, Next(cal, s, e), before, e.now);
    match e.action
    case Scan(cfg, channel, recent) =>
      R.ScanKeepsInv(cal, s.log, before, R.Event(R.Scan(cfg, channel, recent), e.now));
    case Finish(w) =>
      if w in s.pending {
        LandKeepsInvIff(cal, s, before, w, e.now);
      }
    case _ =>
  }

  /** The event lands a write that does not fit any more. */
  ghost predicate Misfits(cal: Calendar, s: Store, e: Event) {
    e.action.Finish? && e.action.write in s.pending && !Fits(cal, s.log, e.action.write, e.now)
  }

  lemma LandKeepsInvIff(cal: Calendar, s: Store, before: int, w: Write, now: int)
    requires Good(cal, s, before) && before <= now && w in s.pending
    ensures R.Inv(cal, Land(cal, s.log, w, now), now) <==> Fits(cal, s.log, w, now)
  {
    R.InvIsStable(cal, s.log, before, now);
    match w
    case InsertRecord =>
      if AdToBSSpec(cal, now).Ok? {
        R.LateClockInKeepsInvIff(cal, s.log, now, NewRecord(Manual, AdminNote, now, AdToBSSpec(cal, now).value));
      }
    case CloseRecord(k) =>
      assert IsEarly(s.log, w, before);
      R.LateClockOutKeepsInvIff(cal, s.log, now, k);
    case CapRecord(k, end, queried, trigger) =>
      assert IsEarly(s.log, w, before);
      R.LateCapKeepsInv(cal, s.log, queried, now, k, end, trigger);
  }

  // ---- Every interleaving ----

  /** The latest instant known before event i. */
  ghost function ClockBefore(events: seq<Event>, i: nat): int
    requires i <= |events|
  {
    if i == 0 then (if events == [] then 0 else events[0].now) else events[i - 1].now
  }

  ghost predicate InOrderUntil(cal: Calendar, events: seq<Event>, states: seq<Store>, n: nat)
    requires Run(cal, events, states) && n <= |events|
  {
    forall k :: 0 <= k <= n ==> R.Inv(cal, states[k].log, ClockBefore(events, k))
  }

  ghost predicate NoneMisfitsBefore(cal: Calendar, events: seq<Event>, states: seq<Store>, n: nat)
    requires Run(cal, events, states) && n <= |events|
  {
    forall k :: 0 <= k < n ==> !Misfits(cal, states[k], events[k])
  }

  /** In every interleaving the records of a membership stay sound and in order throughout, exactly when no
      manual clock-in lands while somebody is clocked in and no manual clock-out lands on a record that another
      one has followed. Scans and late caps of the job never break it. */
  lemma {:induction false} OrderIsKeptIff(cal: Calendar, events: seq<Event>, states: seq<Store>, n: nat)
    requires Run(cal, events, states) && n <= |events|
    ensures InOrderUntil(cal, events, states, n) <==> NoneMisfitsBefore(cal, events, states, n)
    ensures InOrderUntil(cal, events, states, n) ==> PendingIsEarly(states[n], ClockBefore(events, n))
    decreases n
  {
    if n > 0 {
      OrderIsKeptIff(cal, events, states, n - 1);
      assert Follows(cal, states[n - 1], events[n - 1], states[n]);
      if InOrderUntil(cal, events, states, n - 1) {
        assert R.Inv(cal, states[n - 1].log, ClockBefore(events, n - 1));
        EventKeepsInvIff(cal, states[n - 1], ClockBefore(events, n - 1), events[n - 1]);
      }
      hide R.Inv, Misfits, PendingIsEarly, Follows;
    }
  }
}
