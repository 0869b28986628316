/** Roster schedules of one organization: overlap check, life cycle and lookup. */
module Roster {
  import opened Prelude
  import opened Clock

  datatype DayEntry = DayEntry(start: ClockTime, end: ClockTime)

  type DayMap = map<int, DayEntry>

  /** A row of the schedule table; `member == None` is an organization-wide schedule. */
  datatype Schedule = Schedule(member: Option<nat>, days: DayMap, effectiveFrom: int, effectiveTo: Option<int>,
                               deleted: bool)

  datatype RosterError = BranchAdminForbidden | MemberNotFound | ScheduleNotFound | ScopeImmutable | RosterOverlap

  /** `new Date('9999-12-31')`, the end of a range that is left open. */
  const FAR_FUTURE: int := 253_402_235_100_000

  function EndOrFarFuture(to: Option<int>): int {
    match to
    case None => FAR_FUTURE
    case Some(t) => t
  }

  predicate RangesOverlap(aFrom: int, aTo: Option<int>, bFrom: int, bTo: Option<int>) {
    aFrom <= EndOrFarFuture(bTo) && bFrom <= EndOrFarFuture(aTo)
  }

  predicate DateInRange(t: int, from: int, to: Option<int>) {
    from <= t && (to.Some? ==> t <= to.value)
  }

  /** For ranges that are not inverted, the interval test is exact: it holds when some date is in both. */
  lemma RangesOverlapIsExact(aFrom: int, aTo: Option<int>, bFrom: int, bTo: Option<int>)
    requires aFrom <= EndOrFarFuture(aTo) && bFrom <= EndOrFarFuture(bTo)
    requires aFrom <= FAR_FUTURE && bFrom <= FAR_FUTURE
    ensures RangesOverlap(aFrom, aTo, bFrom, bTo)
            <==> exists t :: DateInRange(t, aFrom, aTo) && DateInRange(t, bFrom, bTo)
  {
    if RangesOverlap(aFrom, aTo, bFrom, bTo) {
      assert DateInRange(Max(aFrom, bFrom), aFrom, aTo) && DateInRange(Max(aFrom, bFrom), bFrom, bTo);
    }
  }

  // ---- Requests ----

  /** The fields of an update request; an absent field keeps the stored value. */
  datatype Update = Update(member: Option<Option<nat>>, days: Option<DayMap>, effectiveFrom: Option<int>,
                           effectiveTo: Option<Option<int>>)

  datatype Request =
    | Create(member: Option<nat>, branchAdmin: bool, memberExists: bool, days: DayMap, from: int, to: Option<int>)
    | Change(id: nat, update: Update)
    | Delete(id: nat)

  function Or<T>(o: Option<T>, stored: T): T { if o.Some? then o.value else stored }

  predicate Live(schedules: seq<Schedule>, id: int) {
    0 <= id < |schedules| && !schedules[id].deleted
  }

  /** Two schedules are in conflict when both their date ranges and their weekdays overlap. */
  predicate Conflict(a: Schedule, b: Schedule) {
    && RangesOverlap(a.effectiveFrom, a.effectiveTo, b.effectiveFrom, b.effectiveTo)
    && a.days.Keys * b.days.Keys != {}
  }

  /** `candidate`, stored under `id`, is in conflict with no other live schedule of its scope. */
  ghost predicate FitsAt(schedules: seq<Schedule>, candidate: Schedule, id: nat) {
    forall j | Live(schedules, j) && j != id && schedules[j].member == candidate.member ::
      !Conflict(candidate, schedules[j])
  }

  function Updated(s: Schedule, u: Update): Schedule {
    s.(days := Or(u.days, s.days), effectiveFrom := Or(u.effectiveFrom, s.effectiveFrom),
    effectiveTo := Or(u.effectiveTo, s.effectiveTo))
  }

  /** A write that has passed its checks. An update carries the values it resolved from the row it read. */
  datatype Write =
    | Append(schedule: Schedule)
    | Replace(id: nat, days: DayMap, from: int, to: Option<int>)
    | Remove(id: nat)

  /** What a request reads and checks: the write it goes on to make, or its error. */
  ghost function Read(schedules: seq<Schedule>, r: Request): Result<Write, RosterError> {
    match r
    case Create(member, branchAdmin, memberExists, days, from, to) =>
      var s := Schedule(member, days, from, to, false);
      if branchAdmin && member.None? then Err(BranchAdminForbidden)
      else if member.Some? && !memberExists then Err(MemberNotFound)
      else if !FitsAt(schedules, s, |schedules|) then Err(RosterOverlap)
      else Ok(Append(s))
    case Change(id, u) =>
      if !Live(schedules, id) then Err(ScheduleNotFound)
      else if u.member.Some? && u.member.value != schedules[id].member then Err(ScopeImmutable)
      else
        var s := Updated(schedules[id], u);
        if !FitsAt(schedules, s, id) then Err(RosterOverlap)
        else Ok(Replace(id, s.days, s.effectiveFrom, s.effectiveTo))
    case Delete(id) => if !Live(schedules, id) then Err(ScheduleNotFound) else Ok(Remove(id))
  }

  /** The row a write leaves. Rows are only ever marked deleted, so an id stays valid. */
  function Replaced(s: Schedule, w: Write): Schedule
    requires !w.Append?
  {
    if w.Replace? then s.(days := w.days, effectiveFrom := w.from, effectiveTo := w.to) else s.(deleted := true)
  }

  function Written(schedules: seq<Schedule>, w: Write): seq<Schedule> {
    if w.Append? then schedules + [w.schedule]
    else if w.id < |schedules| then schedules[w.id := Replaced(schedules[w.id], w)]
    else schedules
  }

  /** A request whose write comes right after its checks. */
  ghost function Step(schedules: seq<Schedule>, r: Request): Result<seq<Schedule>, RosterError> {
    match Read(schedules, r)
    case Err(e) => Err(e)
    case Ok(w) => Ok(Written(schedules, w))
  }

  /** Each operation checks, and writes in a later statement; nothing ties the two together. */
  class RosterTable {
    var schedules: seq<Schedule>

    /** Scans the live schedules of the same scope and stops at the first conflict. */
    method AssertNoOverlap(candidate: Schedule, excludeId: nat) returns (ok: bool)
      ensures ok <==> FitsAt(schedules, candidate, excludeId)
    {
      for j := 0 to |schedules|
        invariant forall i | 0 <= i < j && Live(schedules, i) && i != excludeId
                             && schedules[i].member == candidate.member :: !Conflict(candidate, schedules[i])
      {
        var c := schedules[j];
        if c.deleted || c.member != candidate.member || j == excludeId {
          continue;
        }
        if !RangesOverlap(candidate.effectiveFrom, candidate.effectiveTo, c.effectiveFrom, c.effectiveTo) {
          continue;
        }
        if candidate.days.Keys * c.days.Keys != {} {
          assert Live(schedules, j) && Conflict(candidate, c);
          return false;
        }
      }
      return true;
    }

    /** `memberExists` is the lookup within the caller's organization and branch. */
    method CreateSchedule(member: Option<nat>, branchAdmin: bool, memberExists: bool, days: DayMap, from: int,
                          to: Option<int>)
      returns (r: Result<Write, RosterError>)
      ensures r == Read(schedules, Create(member, branchAdmin, memberExists, days, from, to))
    {
      if branchAdmin && member.None? {
        return Err(BranchAdminForbidden);
      }
      if member.Some? && !memberExists {
        return Err(MemberNotFound);
      }
      var s := Schedule(member, days, from, to, false);
      var ok := AssertNoOverlap(s, |schedules|);
      if !ok {
        return Err(RosterOverlap);
      }
      return Ok(Append(s));
    }

    method UpdateSchedule(id: nat, u: Update) returns (r: Result<Write, RosterError>)
      ensures r == Read(schedules, Change(id, u))
    {
      if id >= |schedules| || schedules[id].deleted {
        return Err(ScheduleNotFound);
      }
      var existing := schedules[id];
      if u.member.Some? && u.member.value != existing.member {
        return Err(ScopeImmutable);
      }
      var updated := Updated(existing, u);
      var ok := AssertNoOverlap(updated, id);
      if !ok {
        return Err(RosterOverlap);
      }
      return Ok(Replace(id, updated.days, updated.effectiveFrom, updated.effectiveTo));
    }

    method DeleteSchedule(id: nat) returns (r: Result<Write, RosterError>)
      ensures r == Read(schedules, Delete(id))
    {
      if id >= |schedules| || schedules[id].deleted {
        return Err(ScheduleNotFound);
      }
      return Ok(Remove(id));
    }

    method CompleteWrite(w: Write)
      modifies this
      ensures schedules == Written(old(schedules), w)
    {
      match w
      case Append(s) => schedules := schedules + [s];
      case Replace(id, days, from, to) =>
        if id < |schedules| {
          schedules := schedules[id := schedules[id].(days := days, effectiveFrom := from, effectiveTo := to)];
        }
      case Remove(id) =>
        if id < |schedules| {
          schedules := schedules[id := schedules[id].(deleted := true)];
        }
    }
  }

  // ---- What a request does ----

  ghost predicate Covers(s: Schedule, t: int, weekday: int) {
    !s.deleted && DateInRange(t, s.effectiveFrom, s.effectiveTo) && weekday in s.days
  }

  /** Some date and some weekday are in both. */
  ghost predicate Share(a: Schedule, b: Schedule) {
    exists t, weekday :: Covers(a, t, weekday) && Covers(b, t, weekday)
  }

  ghost predicate IsProper(s: Schedule) {
    s.effectiveFrom <= EndOrFarFuture(s.effectiveTo) && s.effectiveFrom <= FAR_FUTURE
  }

  /** The open end of a range is the last day that its format can write. */
  lemma FarFutureIsTheLastDate()
    ensures FAR_FUTURE == Midnight(NewYearsDay(10000) - 1) + UTC_OFFSET && IsDate(FAR_FUTURE)
  {
  }

  lemma EmptyOrNot(days: set<int>)
    ensures days == {} || exists d :: d in days
  {
    if forall d :: d !in days {
      assert days == {};
    }
  }

  lemma ConflictIffShare(a: Schedule, b: Schedule)
    requires IsProper(a) && IsProper(b) && !a.deleted && !b.deleted
    ensures Conflict(a, b) <==> Share(a, b)
  {
    RangesOverlapIsExact(a.effectiveFrom, a.effectiveTo, b.effectiveFrom, b.effectiveTo);
    hide RangesOverlap;
    if Conflict(a, b) {
      var t :| DateInRange(t, a.effectiveFrom, a.effectiveTo) && DateInRange(t, b.effectiveFrom, b.effectiveTo);
      EmptyOrNot(a.days.Keys * b.days.Keys);
      var weekday :| weekday in a.days.Keys * b.days.Keys;
      assert Covers(a, t, weekday) && Covers(b, t, weekday);
    }
    if t, weekday :| Covers(a, t, weekday) && Covers(b, t, weekday) {
      assert weekday in a.days.Keys * b.days.Keys;
    }
  }

  /** Row j, other than `id`, is a live schedule of the same scope with a date and a weekday in common. */
  ghost predicate Clashes(schedules: seq<Schedule>, s: Schedule, id: nat, j: int) {
    Live(schedules, j) && j != id && schedules[j].member == s.member && Share(s, schedules[j])
  }

  lemma FitsIffNoneClashes(schedules: seq<Schedule>, s: Schedule, id: nat)
    requires IsProper(s) && !s.deleted && forall j :: Live(schedules, j) ==> IsProper(schedules[j])
    ensures FitsAt(schedules, s, id) <==> forall j :: !Clashes(schedules, s, id, j)
  {
    hide IsProper, Conflict, Share;
    forall j | Live(schedules, j)
      ensures Conflict(s, schedules[j]) <==> Share(s, schedules[j])
    {
      ConflictIffShare(s, schedules[j]);
    }
    assert forall j ::
      Clashes(schedules, s, id, j)
      <==> Live(schedules, j) && j != id && schedules[j].member == s.member && Conflict(s, schedules[j]);
  }

  /** A schedule is created exactly by an admin who may (organization-wide ones are not for branch admins), for an
      employee there is, and when no live schedule of the same employee, or of the organization, has a date and a
      weekday in common with it. It is added as asked. */
  lemma CreateIff(schedules: seq<Schedule>, member: Option<nat>, branchAdmin: bool, memberExists: bool, days: DayMap,
                  from: int, until: Option<int>, s: Schedule)
    requires s == Schedule(member, days, from, until, false) && IsProper(s)
    requires forall j :: Live(schedules, j) ==> IsProper(schedules[j])
    ensures var r := Step(schedules, Create(member, branchAdmin, memberExists, days, from, until));
            var clash := exists j :: Clashes(schedules, s, |schedules|, j);
            && (r == Err(BranchAdminForbidden) <==> branchAdmin && member.None?)
            && (r == Err(MemberNotFound) <==> member.Some? && !memberExists)
            && (r == Err(RosterOverlap) <==> (if member.None? then !branchAdmin else memberExists) && clash)
            && (r.Ok? <==> (if member.None? then !branchAdmin else memberExists) && !clash)
            && (r.Ok? ==> r.value == schedules + [s])
  {
    FitsIffNoneClashes(schedules, s, |schedules|);
    hide FitsAt, Clashes, Live;
  }

  /** A change keeps what the request leaves out, never moves a schedule to another scope, and is refused on a clash;
      deleting only marks the row. Neither touches any other row, and both need a live one. */
  lemma ChangeAndDelete(schedules: seq<Schedule>, id: nat, u: Update)
    ensures var r := Step(schedules, Change(id, u));
            && (r == Err(ScheduleNotFound) <==> !Live(schedules, id))
            && (r == Err(ScopeImmutable)
                <==> Live(schedules, id) && u.member.Some? && u.member.value != schedules[id].member)
            && (r.Ok? ==>
                  && Live(schedules, id)
                  && var days := if u.days.Some? then u.days.value else schedules[id].days;
                  && var from := if u.effectiveFrom.Some? then u.effectiveFrom.value else schedules[id].effectiveFrom;
                  && var until := if u.effectiveTo.Some? then u.effectiveTo.value else schedules[id].effectiveTo;
                  && r.value == schedules[id := Schedule(schedules[id].member, days, from, until, false)]
                  && FitsAt(schedules, r.value[id], id))
            && (r == Err(RosterOverlap) ==> Live(schedules, id) && !FitsAt(schedules, Updated(schedules[id], u), id))
    ensures var r := Step(schedules, Delete(id));
            && (r == Err(ScheduleNotFound) <==> !Live(schedules, id))
            && (Live(schedules, id) ==> r == Ok(schedules[id := schedules[id].(deleted := true)]))
  {
    hide Conflict;
  }

  // ---- Every run keeps the table free of conflicts ----

  ghost predicate NoConflicts(schedules: seq<Schedule>) {
    && (forall i :: Live(schedules, i) ==> schedules[i].effectiveFrom <= FAR_FUTURE)
    && (forall i :: Live(schedules, i) ==> FitsAt(schedules, schedules[i], i))
  }

  /** Dates arrive as YYYY-MM-DD, so none lies after FAR_FUTURE. */
  predicate DatesRepresentable(r: Request) {
    match r
    case Create(_, _, _, _, from, _) => from <= FAR_FUTURE
    case Change(_, u) => u.effectiveFrom.Some? ==> u.effectiveFrom.value <= FAR_FUTURE
    case Delete(_) => true
  }

  ghost function After(schedules: seq<Schedule>, requests: seq<Request>): seq<Schedule>
    decreases |requests|
  {
    if requests == [] then schedules
    else
      var before := After(schedules, requests[..|requests| - 1]);
      var r := Step(before, requests[|requests| - 1]);
      if r.Ok? then r.value else before
  }

  lemma StepKeepsNoConflicts(schedules: seq<Schedule>, r: Request)
    requires NoConflicts(schedules) && DatesRepresentable(r) && Step(schedules, r).Ok?
    ensures NoConflicts(Step(schedules, r).value)
  {
    var next := Step(schedules, r).value;
    forall i, j | Live(next, i) && Live(next, j) && i != j && next[i].member == next[j].member
      ensures !Conflict(next[i], next[j])
    {
      var id := if r.Create? then |schedules| else r.id;
      if i != id && j != id {
        assert Live(schedules, i) && Live(schedules, j);
      } else if i == id {
        assert Live(schedules, j);
      } else {
        assert Live(schedules, i);
        assert Conflict(next[j], next[i]) == Conflict(next[i], next[j]);
      }
    }
  }

  lemma {:induction false} RunKeepsNoConflicts(requests: seq<Request>)
    requires forall i :: 0 <= i < |requests| ==> DatesRepresentable(requests[i])
    ensures NoConflicts(After([], requests))
    decreases |requests|
  {
    if requests != [] {
      var before := requests[..|requests| - 1];
      RunKeepsNoConflicts(before);
      if Step(After([], before), requests[|requests| - 1]).Ok? {
        StepKeepsNoConflicts(After([], before), requests[|requests| - 1]);
      }
    }
  }

  // ---- Interleaved requests ----

  /** A new or changed schedule keeps the table free of conflicts exactly when it fits the table it is written
      to, whatever the table was when it was checked. */
  lemma RowKeepsNoConflictsIff(schedules: seq<Schedule>, s: Schedule, id: nat)
    requires NoConflicts(schedules) && !s.deleted && s.effectiveFrom <= FAR_FUTURE
    requires id == |schedules| || (Live(schedules, id) && schedules[id].member == s.member)
    ensures NoConflicts(if id == |schedules| then schedules + [s] else schedules[id := s]) <==> FitsAt(schedules, s, id)
  {
    var next := if id == |schedules| then schedules + [s] else schedules[id := s];
    assert Live(next, id) && next[id] == s;
    assert forall j :: j != id ==>
      (Live(next, j) <==> Live(schedules, j)) && (Live(next, j) ==> next[j] == schedules[j]);
    if FitsAt(schedules, s, id) {
      forall i, j | Live(next, i) && Live(next, j) && i != j && next[i].member == next[j].member
        ensures !Conflict(next[i], next[j])
      {
        if j == id {
          assert Conflict(next[j], next[i]) == Conflict(next[i], next[j]);
        } else if i != id {
          assert FitsAt(schedules, schedules[i], i);
        }
      }
    } else {
      assert FitsAt(next, next[id], id) ==> FitsAt(schedules, s, id);
    }
  }

  /** A deleted row takes no part in conflicts. */
  lemma DeletedRowsDoNotMatter(schedules: seq<Schedule>, s: Schedule, id: nat)
    requires NoConflicts(schedules) && id < |schedules| && s.deleted
    ensures NoConflicts(schedules[id := s])
  {
    var next := schedules[id := s];
    assert forall j :: Live(next, j) ==> Live(schedules, j) && next[j] == schedules[j];
    forall i | Live(next, i) ensures FitsAt(next, next[i], i) {
      assert FitsAt(schedules, schedules[i], i);
    }
  }

  /** The check of a write would still succeed on this table. */
  ghost predicate StillFits(schedules: seq<Schedule>, w: Write) {
    match w
    case Append(s) => FitsAt(schedules, s, |schedules|)
    case Replace(id, _, _, _) => Live(schedules, id) ==> FitsAt(schedules, Replaced(schedules[id], w), id)
    case Remove(_) => true
  }

  ghost predicate IsDated(w: Write) {
    match w
    case Append(s) => !s.deleted && s.effectiveFrom <= FAR_FUTURE
    case Replace(_, _, from, _) => from <= FAR_FUTURE
    case Remove(_) => true
  }

  lemma WriteKeepsNoConflictsIff(schedules: seq<Schedule>, w: Write)
    requires NoConflicts(schedules) && IsDated(w)
    ensures NoConflicts(Written(schedules, w)) <==> StillFits(schedules, w)
  {
    hide NoConflicts, FitsAt;
    if w.Append? {
      RowKeepsNoConflictsIff(schedules, w.schedule, |schedules|);
    } else if w.id < |schedules| {
      var s := Replaced(schedules[w.id], w);
      if s.deleted {
        DeletedRowsDoNotMatter(schedules, s, w.id);
      } else {
        RowKeepsNoConflictsIff(schedules, s, w.id);
      }
    }
  }

  datatype Event = Begin(request: Request) | Finish(write: Write)

  datatype Store = Store(schedules: seq<Schedule>, pending: multiset<Write>)

  ghost function Next(s: Store, e: Event): Store {
    match e
    case Begin(r) =>
      if Read(s.schedules, r).Err? then s else s.(pending := s.pending + multiset{Read(s.schedules, r).value})
    case Finish(w) => if w !in s.pending then s else Store(Written(s.schedules, w), s.pending - multiset{w})
  }

  /** Checks and a write that follow one another at once are the request of one step. */
  lemma BeginAndFinishMakeAStep(s: Store, r: Request)
    ensures var read := Read(s.schedules, r);
            var done := if read.Err? then Next(s, Begin(r)) else Next(Next(s, Begin(r)), Finish(read.value));
            var step := Step(s.schedules, r);
            done.pending == s.pending && done.schedules == if step.Ok? then step.value else s.schedules
  {
    hide Written, FitsAt;
  }

  ghost function AfterEvents(events: seq<Event>): Store {
    if events == [] then Store([], multiset{}) else Next(AfterEvents(events[..|events| - 1]), events[|events| - 1])
  }

  ghost predicate Representable(e: Event) { e.Begin? ==> DatesRepresentable(e.request) }

  ghost predicate IsRun(events: seq<Event>) { forall i :: 0 <= i < |events| ==> Representable(events[i]) }

  ghost predicate Sane(s: Store) {
    && (forall i :: Live(s.schedules, i) ==> s.schedules[i].effectiveFrom <= FAR_FUTURE)
    && (forall w :: w in s.pending ==> IsDated(w))
  }

  lemma EventKeepsSane(s: Store, e: Event)
    requires Sane(s) && Representable(e)
    ensures Sane(Next(s, e))
  {
    if e.Begin? && Read(s.schedules, e.request).Ok? {
      assert IsDated(Read(s.schedules, e.request).value);
    }
    if e.Finish? && e.write in s.pending {
      assert IsDated(e.write);
    }
    hide Read;
  }

  lemma {:induction false} EveryRunIsSane(events: seq<Event>)
    requires IsRun(events)
    ensures Sane(AfterEvents(events))
  {
    hide Sane, Next;
    if events == [] {
      EmptyIsSane();
    } else {
      EveryRunIsSane(events[..|events| - 1]);
      EventKeepsSane(AfterEvents(events[..|events| - 1]), events[|events| - 1]);
    }
  }

  lemma EmptyIsSane()
    ensures Sane(Store([], multiset{})) && NoConflicts([])
  {
  }

  /** Event k writes what its check would refuse by then. */
  ghost predicate IsLate(events: seq<Event>, k: int) {
    && 0 <= k < |events| && events[k].Finish?
    && events[k].write in AfterEvents(events[..k]).pending
    && !StillFits(AfterEvents(events[..k]).schedules, events[k].write)
  }

  ghost predicate FreeAt(events: seq<Event>, k: int) {
    0 <= k <= |events| ==> NoConflicts(AfterEvents(events[..k]).schedules)
  }

  ghost predicate FreeThroughout(events: seq<Event>) { forall k :: FreeAt(events, k) }

  ghost predicate NoneLate(events: seq<Event>) { forall k :: !IsLate(events, k) }

  lemma ThroughoutStep(events: seq<Event>)
    requires events != []
    ensures var before := events[..|events| - 1];
            && (FreeThroughout(events) <==> FreeThroughout(before) && NoConflicts(AfterEvents(events).schedules))
            && (FreeThroughout(before) ==> NoConflicts(AfterEvents(before).schedules))
  {
    hide AfterEvents, NoConflicts;
    var before := events[..|events| - 1];
    assert events[..|events|] == events && before[..|before|] == before;
    forall k | k != |events|
      ensures FreeAt(before, k) <==> FreeAt(events, k)
    {
      assert 0 <= k <= |before| ==> before[..k] == events[..k];
    }
    assert FreeAt(events, |events|) <==> NoConflicts(AfterEvents(events).schedules);
    assert FreeAt(before, |events|) && (FreeAt(before, |before|) <==> NoConflicts(AfterEvents(before).schedules));
    hide FreeAt;
  }

  lemma NoneLateStep(events: seq<Event>)
    requires events != []
    ensures NoneLate(events) <==> NoneLate(events[..|events| - 1]) && !IsLate(events, |events| - 1)
  {
    hide AfterEvents, StillFits;
    var before := events[..|events| - 1];
    forall k | 0 <= k < |before|
      ensures IsLate(before, k) <==> IsLate(events, k)
    {
      assert before[..k] == events[..k];
    }
  }

  /** In every interleaving of checks and writes the table stays free of conflicts throughout, exactly when no
      write comes that its check would refuse by then. */
  lemma {:induction false} InterleavingsKeepNoConflictsIff(events: seq<Event>)
    requires IsRun(events)
    ensures FreeThroughout(events) <==> NoneLate(events)
  {
    if events == [] {
      EmptyIsSane();
      assert AfterEvents([]).schedules == [];
    } else {
      var before, e := events[..|events| - 1], events[|events| - 1];
      InterleavingsKeepNoConflictsIff(before);
      ThroughoutStep(events);
      NoneLateStep(events);
      EveryRunIsSane(before);
      var s := AfterEvents(before);
      if FreeThroughout(before) && e.Finish? && e.write in s.pending {
        WriteKeepsNoConflictsIff(s.schedules, e.write);
      }
      hide FreeThroughout, NoneLate, NoConflicts, StillFits;
    }
  }

  /** After any requests at all, at most one live schedule of a scope covers a date and a weekday. Open
      ranges and ranges inverted by a partial update are included. */
  lemma AtMostOneScheduleCovers(requests: seq<Request>, i: nat, j: nat, t: int, weekday: int)
    requires forall k :: 0 <= k < |requests| ==> DatesRepresentable(requests[k])
    requires var s := After([], requests);
             && i < |s| && j < |s| && s[i].member == s[j].member
             && Covers(s[i], t, weekday) && Covers(s[j], t, weekday)
    ensures i == j
  {
    RunKeepsNoConflicts(requests);
    var s := After([], requests);
    if i != j {
      assert Live(s, i) && Live(s, j) && FitsAt(s, s[i], i);
      assert weekday in s[i].days.Keys * s[j].days.Keys;
      assert Conflict(s[i], s[j]);
    }
  }

  // ---- Lookup, as payroll and the auto-close job do it ----

  /** `schedules.find(...)`: the first schedule of the scope whose dates contain t, whatever its weekdays. */
  function FindSchedule(schedules: seq<Schedule>, scope: Option<nat>, t: int): (r: Option<Schedule>)
    ensures r.Some? ==> r.value in schedules && r.value.member == scope
                        && DateInRange(t, r.value.effectiveFrom, r.value.effectiveTo)
    ensures r.None? ==> forall s :: s in schedules && s.member == scope
                                    ==> !DateInRange(t, s.effectiveFrom, s.effectiveTo)
  {
    if schedules == [] then None
    else if schedules[0].member == scope && DateInRange(t, schedules[0].effectiveFrom, schedules[0].effectiveTo)
      then Some(schedules[0])
    else FindSchedule(schedules[1..], scope, t)
  }

  /** The roster level that applies: the employee's own schedule, else the organization's. */
  function ScheduleFor(schedules: seq<Schedule>, member: nat, t: int): Option<Schedule> {
    var own := FindSchedule(schedules, Some(member), t);
    if own.Some? then own else FindSchedule(schedules, None, t)
  }

  /** The entry for the weekday of t, if the schedule found has one. */
  function DayEntryFor(schedules: seq<Schedule>, member: nat, t: int): Option<DayEntry> {
    var s := ScheduleFor(schedules, member, t);
    if s.Some? && Weekday(t) in s.value.days then Some(s.value.days[Weekday(t)]) else None
  }

  ghost predicate OnePerScopeAt(schedules: seq<Schedule>, t: int) {
    forall a, b :: a in schedules && b in schedules && a.member == b.member
                   && DateInRange(t, a.effectiveFrom, a.effectiveTo) && DateInRange(t, b.effectiveFrom, b.effectiveTo)
                   ==> a == b
  }

  /** When each scope has at most one schedule on the date, the order in which the database returns the
      rows does not matter. */
  lemma LookupIgnoresRowOrder(p: seq<Schedule>, q: seq<Schedule>, member: nat, t: int)
    requires multiset(p) == multiset(q) && OnePerScopeAt(p, t)
    ensures DayEntryFor(p, member, t) == DayEntryFor(q, member, t)
  {
    assert forall s :: s in p <==> s in multiset(p);
    assert forall s :: s in q <==> s in multiset(q);
    assert FindSchedule(p, Some(member), t) == FindSchedule(q, Some(member), t);
    assert FindSchedule(p, None, t) == FindSchedule(q, None, t);
  }

  ghost predicate HasEntry(s: Schedule, scope: Option<nat>, t: int, e: DayEntry) {
    && s.member == scope && DateInRange(t, s.effectiveFrom, s.effectiveTo)
    && Weekday(t) in s.days && s.days[Weekday(t)] == e
  }

  /** When each scope has at most one schedule on the date: the entry found is that of the employee's own schedule,
      and that of the organization exactly if the employee has none. */
  lemma EntryIsFoundIff(rows: seq<Schedule>, member: nat, t: int, e: DayEntry)
    requires OnePerScopeAt(rows, t)
    ensures var own := exists s :: s in rows && IsFor(s, Some(member), t);
            DayEntryFor(rows, member, t) == Some(e)
            <==> exists s :: s in rows && HasEntry(s, if own then Some(member) else None, t, e)
  {
    var found := ScheduleFor(rows, member, t);
    if s :| s in rows && IsFor(s, Some(member), t) {
      assert FindSchedule(rows, Some(member), t).Some?;
    }
    assert found.Some? ==> found.value in rows;
  }

  predicate IsFor(s: Schedule, scope: Option<nat>, t: int) {
    s.member == scope && DateInRange(t, s.effectiveFrom, s.effectiveTo)
  }

  lemma {:induction false} FindIsFirst(rows: seq<Schedule>, scope: Option<nat>, t: int, i: nat)
    requires i < |rows| && IsFor(rows[i], scope, t)
    ensures exists j :: 0 <= j <= i && FindSchedule(rows, scope, t) == Some(rows[j]) && IsFor(rows[j], scope, t)
    ensures (forall j :: 0 <= j < i ==> !IsFor(rows[j], scope, t)) ==> FindSchedule(rows, scope, t) == Some(rows[i])
    ensures (exists j :: 0 <= j < i && IsFor(rows[j], scope, t)) ==>
              exists j :: 0 <= j < i && FindSchedule(rows, scope, t) == Some(rows[j])
  {
    if IsFor(rows[0], scope, t) {
      assert FindSchedule(rows, scope, t) == Some(rows[0]);
    } else {
      var rest := rows[1..];
      FindIsFirst(rest, scope, t, i - 1);
      assert forall j :: 0 <= j < |rest| ==> rest[j] == rows[j + 1];
      var k :| 0 <= k <= i - 1 && FindSchedule(rest, scope, t) == Some(rest[k]) && IsFor(rest[k], scope, t);
      assert FindSchedule(rows, scope, t) == Some(rows[k + 1]);
      if j :| 0 <= j < i && IsFor(rows[j], scope, t) {
        assert IsFor(rest[j - 1], scope, t);
        var m :| 0 <= m < i - 1 && FindSchedule(rest, scope, t) == Some(rest[m]);
        assert FindSchedule(rows, scope, t) == Some(rows[m + 1]);
      }
    }
  }

  /** With weekday-split schedules on the same dates, which the overlap check allows, the entry of row i for the
      weekday is found exactly when no row before it is a schedule of the employee for the date. */
  lemma LookupFindsEntryIffFirst(rows: seq<Schedule>, member: nat, t: int, i: nat)
    requires i < |rows| && rows[i].member == Some(member) && Covers(rows[i], t, Weekday(t))
    requires forall j :: 0 <= j < |rows| && j != i && rows[j].member == Some(member) ==> !Conflict(rows[j], rows[i])
    requires forall j :: 0 <= j < |rows| ==> rows[j].effectiveFrom <= FAR_FUTURE
    ensures DayEntryFor(rows, member, t) == Some(rows[i].days[Weekday(t)])
            <==> forall j :: 0 <= j < i ==> !IsFor(rows[j], Some(member), t)
  {
    FindIsFirst(rows, Some(member), t, i);
    if exists j :: 0 <= j < i && IsFor(rows[j], Some(member), t) {
      var m :| 0 <= m < i && FindSchedule(rows, Some(member), t) == Some(rows[m]);
      assert IsFor(rows[m], Some(member), t);
      OtherWeekday(rows[m], rows[i], t, Weekday(t));
    }
  }

  lemma OtherWeekday(a: Schedule, b: Schedule, t: int, weekday: int)
    requires a.effectiveFrom <= FAR_FUTURE && b.effectiveFrom <= FAR_FUTURE && !Conflict(a, b)
    requires IsFor(a, a.member, t) && IsFor(b, b.member, t) && weekday in b.days
    ensures weekday !in a.days
  {
    assert RangesOverlap(a.effectiveFrom, a.effectiveTo, b.effectiveFrom, b.effectiveTo);
    assert forall d :: d in a.days.Keys && d in b.days.Keys ==> d in a.days.Keys * b.days.Keys;
  }

  /** The lookup does miss entries: a Sunday-only schedule hides a Monday-only one of the same dates. */
  lemma LookupCanMissAnEntry()
    ensures var sunday :=
              Schedule(Some(1), map[0 := DayEntry(ClockTime(9, 0), ClockTime(17, 0))], UTC_OFFSET, None, false);
            var monday :=
              Schedule(Some(1), map[1 := DayEntry(ClockTime(9, 0), ClockTime(17, 0))], UTC_OFFSET, None, false);
            var rows := After([], [Create(Some(1), false, true, sunday.days, UTC_OFFSET, None),
                                   Create(Some(1), false, true, monday.days, UTC_OFFSET, None)]);
            var t := Midnight(4) + 36_000_000;
            && rows == [sunday, monday]
            && Covers(monday, t, Weekday(t))
            && DayEntryFor(rows, 1, t) == None
  {
    var sundayDays: DayMap := map[0 := DayEntry(ClockTime(9, 0), ClockTime(17, 0))];
    var mondayDays: DayMap := map[1 := DayEntry(ClockTime(9, 0), ClockTime(17, 0))];
    var first, second := Create(Some(1), false, true, sundayDays, UTC_OFFSET, None),
                         Create(Some(1), false, true, mondayDays, UTC_OFFSET, None);
    assert [first, second][..1] == [first];
    assert [first][..0] == [];
    assert After([], []) == [];
    assert sundayDays.Keys * mondayDays.Keys == {};
    assert FitsAt([], Schedule(Some(1), sundayDays, UTC_OFFSET, None, false), 0);
    assert After([], [first]) == [Schedule(Some(1), sundayDays, UTC_OFFSET, None, false)];
    assert FitsAt(After([], [first]), Schedule(Some(1), mondayDays, UTC_OFFSET, None, false), 1);
  }

  // ---- Dates against instants ----

  /** Schedule dates are stored as midnight in UTC, 05:45 in Nepal. */
  ghost predicate HasDates(s: Schedule) {
    IsDate(s.effectiveFrom) && (s.effectiveTo.Some? ==> IsDate(s.effectiveTo.value))
  }

  /** `dateOnly` of the local date of an instant, which is what `resolveSchedule` looks up. */
  function DateOnly(t: int): int { Midnight(Day(t)) + UTC_OFFSET }

  /** Payroll and the auto-close job look up the check-in itself. It is within the dates of a schedule exactly
      when its local date is, except on the first day before 05:45 and on the last day after it. */
  lemma InstantInRangeIff(s: Schedule, t: int)
    requires HasDates(s)
    ensures DateInRange(t, s.effectiveFrom, s.effectiveTo)
            <==> && DateInRange(DateOnly(t), s.effectiveFrom, s.effectiveTo)
                 && !(Day(t) == Day(s.effectiveFrom) && TimeOfDay(t) < UTC_OFFSET)
                 && !(s.effectiveTo.Some? && Day(t) == Day(s.effectiveTo.value) && TimeOfDay(t) > UTC_OFFSET)
  {
    DaySplit(t);
    DaySplit(s.effectiveFrom);
    if s.effectiveTo.Some? {
      DaySplit(s.effectiveTo.value);
    }
  }

  /** On the first day of the schedule too early, or on its last day too late. */
  predicate AtEdge(s: Schedule, t: int) {
    || (Day(t) == Day(s.effectiveFrom) && TimeOfDay(t) < UTC_OFFSET)
    || (s.effectiveTo.Some? && Day(t) == Day(s.effectiveTo.value) && TimeOfDay(t) > UTC_OFFSET)
  }

  /** The lookup by check-in finds what the lookup by date finds, exactly unless the check-in is at an edge of
      that schedule. */
  lemma {:induction false} FindsAgreeIff(rows: seq<Schedule>, scope: Option<nat>, t: int)
    requires forall i :: 0 <= i < |rows| && rows[i].member == scope ==> HasDates(rows[i])
    ensures var byDate := FindSchedule(rows, scope, DateOnly(t));
            FindSchedule(rows, scope, t) == byDate <==> byDate.None? || !AtEdge(byDate.value, t)
  {
    hide HasDates, DateInRange, AtEdge, DateOnly;
    if rows != [] {
      FindsAgreeIff(rows[1..], scope, t);
      if rows[0].member == scope {
        RangesAgreeIff(rows[0], t);
        var rest := FindSchedule(rows[1..], scope, t);
        if rest.Some? {
          assert rest.value in rows && HasDates(rest.value);
          RangesAgreeIff(rest.value, t);
        }
      }
    }
  }

  lemma RangesAgreeIff(s: Schedule, t: int)
    requires HasDates(s)
    ensures DateInRange(t, s.effectiveFrom, s.effectiveTo)
            <==> DateInRange(DateOnly(t), s.effectiveFrom, s.effectiveTo) && !AtEdge(s, t)
  {
    InstantInRangeIff(s, t);
  }

  /** So in any table payroll and the roster page resolve the same schedule, exactly unless the check-in is at an
      edge of the one the roster page shows. */
  lemma LookupsAgreeIff(rows: seq<Schedule>, member: nat, t: int)
    requires forall i :: 0 <= i < |rows| ==> HasDates(rows[i])
    ensures var byDate := ScheduleFor(rows, member, DateOnly(t));
            ScheduleFor(rows, member, t) == byDate <==> byDate.None? || !AtEdge(byDate.value, t)
  {
    hide HasDates, DateInRange, AtEdge, DateOnly;
    FindsAgreeIff(rows, Some(member), t);
    FindsAgreeIff(rows, None, t);
    var found := ScheduleFor(rows, member, t);
    if found.Some? {
      assert HasDates(found.value);
      RangesAgreeIff(found.value, t);
    }
  }
}
