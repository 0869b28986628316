/** Leave requests: no two live requests of an employee overlap, and what payroll counts of them. */
module Leaves {
  import opened Prelude
  import opened Clock
  import opened BikramSambat

  datatype LeaveType = Sick | Casual | Annual | Unpaid | Maternity | Paternity

  datatype LeaveStatus = Pending | Approved | Rejected

  datatype Leave = Leave(member: nat, startDate: int, endDate: int, kind: LeaveType, status: LeaveStatus,
                         bsStart: BSDate, bsEnd: BSDate)

  datatype LeaveError = NoMembership | EndBeforeStart | AlreadyRequested | DateNotSupported | NotFound | NotPending

  datatype Request =
    | Ask(member: Option<nat>, startDate: int, endDate: int, kind: LeaveType)
    | Decide(id: nat, approve: bool)
    | Cancel(id: nat, caller: nat)

  predicate IsLive(l: Leave) { l.status == Pending || l.status == Approved }

  /** A live request of the member that touches [from, to]. */
  predicate Blocks(l: Leave, member: nat, from: int, to: int) {
    l.member == member && IsLive(l) && l.startDate <= to && l.endDate >= from
  }

  /** A write that has passed its checks and is still to come. */
  datatype Write = Insert(leave: Leave) | SetStatus(id: nat, status: LeaveStatus) | Remove(id: nat)

  /** What a request reads and checks: the write it goes on to make, or its error. The overlap query and the
      stored row see the dates only, the BS dates are those of the instants. */
  ghost function Read(cal: Calendar, leaves: map<nat, Leave>, r: Request): Result<Write, LeaveError> {
    match r
    case Ask(member, from, to, kind) =>
      if member.None? then Err(NoMembership)
      else if to < from then Err(EndBeforeStart)
      else if exists id :: id in leaves && Blocks(leaves[id], member.value, DateColumn(from), DateColumn(to)) then
        Err(AlreadyRequested)
      else if AdToBSSpec(cal, from).Err? || AdToBSSpec(cal, to).Err? then Err(DateNotSupported)
      else Ok(Insert(Leave(member.value, DateColumn(from), DateColumn(to), kind, Pending,
                           AdToBSSpec(cal, from).value, AdToBSSpec(cal, to).value)))
    case Decide(id, approve) =>
      if id !in leaves then Err(NotFound)
      else if leaves[id].status != Pending then Err(NotPending)
      else Ok(SetStatus(id, if approve then Approved else Rejected))
    case Cancel(id, caller) =>
      if id !in leaves || leaves[id].member != caller then Err(NotFound)
      else if leaves[id].status != Pending then Err(NotPending)
      else Ok(Remove(id))
  }

  /** The write looks at nothing but the id; new rows get the next number. A row that is gone is an error. */
  function Written(leaves: map<nat, Leave>, nextId: nat, w: Write): Result<map<nat, Leave>, LeaveError> {
    match w
    case Insert(l) => Ok(leaves[nextId := l])
    case SetStatus(id, status) =>
      if id in leaves then Ok(leaves[id := leaves[id].(status := status)]) else Err(NotFound)
    case Remove(id) => if id in leaves then Ok(leaves - {id}) else Err(NotFound)
  }

  /** A request whose write comes right after its read. */
  ghost function Step(cal: Calendar, leaves: map<nat, Leave>, nextId: nat, r: Request)
    : Result<map<nat, Leave>, LeaveError>
  {
    match Read(cal, leaves, r)
    case Err(e) => Err(e)
    case Ok(w) => Written(leaves, nextId, w)
  }

  /** Each operation reads and checks, and writes in a later step; nothing ties the two together. */
  class LeaveBook {
    const cal: Calendar
    var leaves: map<nat, Leave>
    var nextId: nat

    ghost predicate Valid()
      reads this
    {
      forall id :: id in leaves ==> id < nextId
    }

    constructor (cal: Calendar)
      ensures Valid() && this.cal == cal && leaves == map[]
    {
      this.cal := cal;
      leaves, nextId := map[], 0;
    }

    method RequestLeave(member: Option<nat>, startDate: int, endDate: int, kind: LeaveType)
      returns (r: Result<Write, LeaveError>)
      ensures r == Read(cal, leaves, Ask(member, startDate, endDate, kind))
    {
      if member.None? {
        return Err(NoMembership);
      }
      if endDate < startDate {
        return Err(EndBeforeStart);
      }
      var start, end := DateColumn(startDate), DateColumn(endDate);
      if exists id :: id in leaves && Blocks(leaves[id], member.value, start, end) {
        return Err(AlreadyRequested);
      }
      var bsStart := AdToBS(cal, startDate);
      var bsEnd := AdToBS(cal, endDate);
      if bsStart.Err? || bsEnd.Err? {
        return Err(DateNotSupported);
      }
      return Ok(Insert(Leave(member.value, start, end, kind, Pending, bsStart.value, bsEnd.value)));
    }

    method UpdateLeaveStatus(id: nat, approve: bool) returns (r: Result<Write, LeaveError>)
      ensures r == Read(cal, leaves, Decide(id, approve))
    {
      if id !in leaves {
        return Err(NotFound);
      }
      var leave := leaves[id];
      if leave.status != Pending {
        return Err(NotPending);
      }
      return Ok(SetStatus(id, if approve then Approved else Rejected));
    }

    method CancelLeave(id: nat, caller: nat) returns (r: Result<Write, LeaveError>)
      ensures r == Read(cal, leaves, Cancel(id, caller))
    {
      if id !in leaves || leaves[id].member != caller {
        return Err(NotFound);
      }
      if leaves[id].status != Pending {
        return Err(NotPending);
      }
      return Ok(Remove(id));
    }

    method CompleteWrite(w: Write) returns (error: Option<LeaveError>)
      requires Valid()
      modifies this
      ensures Valid() && nextId == old(nextId) + if w.Insert? then 1 else 0
      ensures var r := Written(old(leaves), old(nextId), w);
              if r.Ok? then error == None && leaves == r.value else error == Some(r.error) && leaves == old(leaves)
    {
      if w.Insert? {
        leaves := leaves[nextId := w.leave];
        nextId := nextId + 1;
        return None;
      }
      if w.id !in leaves {
        return Some(NotFound);
      }
      if w.SetStatus? {
        leaves := leaves[w.id := leaves[w.id].(status := w.status)];
      } else {
        leaves := leaves - {w.id};
      }
      return None;
    }
  }

  // ---- Every run keeps the live leaves of a member apart ----

  ghost predicate Apart(a: Leave, b: Leave) {
    a.endDate < b.startDate || b.endDate < a.startDate
  }

  ghost predicate NoOverlap(leaves: map<nat, Leave>) {
    && (forall i :: i in leaves ==> leaves[i].startDate <= leaves[i].endDate)
    && (forall i, j | i in leaves && j in leaves && i != j && leaves[i].member == leaves[j].member
                      && IsLive(leaves[i]) && IsLive(leaves[j]) :: Apart(leaves[i], leaves[j]))
  }

  /** The table after requests that each complete before the next begins; the k-th creates row k. */
  ghost function After(cal: Calendar, requests: seq<Request>): map<nat, Leave> {
    if requests == [] then map[]
    else
      var last := |requests| - 1;
      var before := After(cal, requests[..last]);
      var r := Step(cal, before, last, requests[last]);
      if r.Ok? then r.value else before
  }

  lemma {:induction false} RunKeepsLeavesApart(cal: Calendar, requests: seq<Request>)
    ensures NoOverlap(After(cal, requests))
    ensures forall id :: id in After(cal, requests) ==> id < |requests|
  {
    hide AdToBSSpec;
    if requests != [] {
      RunKeepsLeavesApart(cal, requests[..|requests| - 1]);
      AskedInOrder(requests[|requests| - 1]);
      hide DateColumn;
    }
  }

  lemma AskedInOrder(r: Request)
    ensures r.Ask? && r.startDate <= r.endDate ==> DateColumn(r.startDate) <= DateColumn(r.endDate)
  {
    if r.Ask? && r.startDate <= r.endDate {
      DateColumnIsMonotone(r.startDate, r.endDate);
    }
  }

  /** The first decision made about row `id` once it exists. */
  ghost function DecisionOn(requests: seq<Request>, id: nat): LeaveStatus {
    if |requests| <= id + 1 then Pending
    else
      var last := requests[|requests| - 1];
      var earlier := DecisionOn(requests[..|requests| - 1], id);
      if earlier != Pending || !last.Decide? || last.id != id then earlier
      else if last.approve then Approved else Rejected
  }

  /** The status of a leave is then the first decision about it. */
  lemma {:induction false} FirstDecisionStands(cal: Calendar, requests: seq<Request>, id: nat)
    ensures id in After(cal, requests) ==> After(cal, requests)[id].status == DecisionOn(requests, id)
  {
    hide AdToBSSpec, NoOverlap;
    RunKeepsLeavesApart(cal, requests);
    if requests != [] {
      RunKeepsLeavesApart(cal, requests[..|requests| - 1]);
      FirstDecisionStands(cal, requests[..|requests| - 1], id);
    }
  }

  /** And once decided, a leave is never cancelled, decided again or changed, whatever follows. */
  lemma {:induction false} DecidedLeavesAreFinal(cal: Calendar, requests: seq<Request>, later: seq<Request>, id: nat)
    requires id in After(cal, requests) && After(cal, requests)[id].status != Pending
    ensures id in After(cal, requests + later) && After(cal, requests + later)[id] == After(cal, requests)[id]
  {
    hide AdToBSSpec, NoOverlap;
    if later == [] {
      assert requests + later == requests;
    } else {
      var all := requests + later;
      DecidedLeavesAreFinal(cal, requests, later[..|later| - 1], id);
      assert all[..|all| - 1] == requests + later[..|later| - 1];
      RunKeepsLeavesApart(cal, all[..|all| - 1]);
    }
  }

  // ---- What a request does ----

  ghost predicate AreDated(leaves: map<nat, Leave>) {
    forall id :: id in leaves ==>
      IsDate(leaves[id].startDate) && IsDate(leaves[id].endDate) && leaves[id].startDate <= leaves[id].endDate
  }

  /** Leave `id`, not rejected, has the member away on that date. */
  ghost predicate TakesDate(leaves: map<nat, Leave>, id: nat, member: nat, date: int) {
    && id in leaves && leaves[id].member == member && leaves[id].status != Rejected
    && Day(leaves[id].startDate) <= date <= Day(leaves[id].endDate)
  }

  ghost predicate IsTaken(leaves: map<nat, Leave>, member: nat, from: int, until: int) {
    exists id, date :: TakesDate(leaves, id, member, date) && IsoDay(from) <= date <= IsoDay(until)
  }

  /** A leave as it was asked for: the dates of the two instants in UTC, and their BS dates. */
  ghost predicate IsAsAsked(cal: Calendar, l: Leave, r: Request) {
    && r.Ask? && r.member == Some(l.member) && l.kind == r.kind
    && IsDate(l.startDate) && Day(l.startDate) == IsoDay(r.startDate)
    && IsDate(l.endDate) && Day(l.endDate) == IsoDay(r.endDate)
    && AdToBSSpec(cal, r.startDate) == Ok(l.bsStart) && AdToBSSpec(cal, r.endDate) == Ok(l.bsEnd)
  }

  lemma DateColumnsMeetIff(l: Leave, from: int, until: int)
    requires IsDate(l.startDate) && IsDate(l.endDate) && l.startDate <= l.endDate && from <= until
    ensures l.startDate <= DateColumn(until) && l.endDate >= DateColumn(from)
            <==> Day(l.startDate) <= IsoDay(until) && Day(l.endDate) >= IsoDay(from)
    ensures Day(l.startDate) <= Day(l.endDate) && IsoDay(from) <= IsoDay(until)
  {
    DaySplit(l.startDate);
    DaySplit(l.endDate);
    DateColumnIsDate(from);
    DateColumnIsDate(until);
  }

  /** Dates in common are what the query finds. */
  lemma BlockedIffTaken(leaves: map<nat, Leave>, member: nat, from: int, until: int)
    requires AreDated(leaves) && from <= until
    ensures (exists id :: id in leaves && Blocks(leaves[id], member, DateColumn(from), DateColumn(until)))
            <==> IsTaken(leaves, member, from, until)
  {
    forall id | id in leaves
      ensures Blocks(leaves[id], member, DateColumn(from), DateColumn(until))
              <==> exists date :: TakesDate(leaves, id, member, date) && IsoDay(from) <= date <= IsoDay(until)
    {
      var l := leaves[id];
      DateColumnsMeetIff(l, from, until);
      if Blocks(l, member, DateColumn(from), DateColumn(until)) {
        assert TakesDate(leaves, id, member, Max(Day(l.startDate), IsoDay(from)));
      }
    }
    hide Blocks, DateColumn, IsoDay, AreDated;
  }

  /** A request is granted a row exactly for a member whose pending and approved leaves leave all its dates free, in
      order and in the calendar; the row is pending and as asked. */
  lemma AskIff(cal: Calendar, leaves: map<nat, Leave>, member: nat, from: int, until: int, kind: LeaveType)
    requires AreDated(leaves)
    ensures Read(cal, leaves, Ask(None, from, until, kind)) == Err(NoMembership)
    ensures var q := Ask(Some(member), from, until, kind);
            var r, taken := Read(cal, leaves, q), IsTaken(leaves, member, from, until);
            && (r == Err(EndBeforeStart) <==> until < from)
            && (r == Err(AlreadyRequested) <==> from <= until && taken)
            && (r.Ok? <==> from <= until && !taken && AdToBSSpec(cal, from).Ok? && AdToBSSpec(cal, until).Ok?)
            && (r.Ok? ==> r.value.Insert? && r.value.leave.status == Pending && IsAsAsked(cal, r.value.leave, q))
  {
    DateColumnIsDate(from);
    DateColumnIsDate(until);
    if from <= until {
      BlockedIffTaken(leaves, member, from, until);
    }
    hide AdToBSSpec, IsTaken, Blocks, DateColumn;
  }

  /** Every stored leave is as it was asked for by the request of its number. */
  lemma {:induction false} StoredAsAsked(cal: Calendar, requests: seq<Request>, id: nat)
    requires id in After(cal, requests)
    ensures id < |requests| && IsAsAsked(cal, After(cal, requests)[id], requests[id])
  {
    hide AdToBSSpec, DateColumn, IsoDay, IsDate;
    var last := |requests| - 1;
    RunKeepsLeavesApart(cal, requests[..last]);
    if id in After(cal, requests[..last]) {
      StoredAsAsked(cal, requests[..last], id);
    } else {
      DateColumnIsDate(requests[last].startDate);
      DateColumnIsDate(requests[last].endDate);
    }
    hide NoOverlap;
  }

  /** In every run a leave disappears exactly when its own employee cancels it while it is pending; anybody else is
      told that there is none. */
  lemma OnlyTheOwnerCancels(cal: Calendar, requests: seq<Request>, k: nat, id: nat)
    requires k < |requests| && id in After(cal, requests[..k])
    ensures var l := After(cal, requests[..k])[id];
            id !in After(cal, requests[..k + 1]) <==> requests[k] == Cancel(id, l.member) && l.status == Pending
    ensures forall caller :: caller != After(cal, requests[..k])[id].member ==>
              Read(cal, After(cal, requests[..k]), Cancel(id, caller)) == Err(NotFound)
  {
    assert requests[..k + 1][..k] == requests[..k];
    RunKeepsLeavesApart(cal, requests[..k]);
    hide NoOverlap, AdToBSSpec;
  }

  /** A decision is taken exactly on a pending leave, and writes the status decided. Written late, it fails exactly if
      the leave is gone by then, as a cancellation does. */
  lemma DecideIff(cal: Calendar, leaves: map<nat, Leave>, id: nat, approve: bool)
    ensures var r := Read(cal, leaves, Decide(id, approve));
            && (r == Err(NotFound) <==> id !in leaves)
            && (r == Err(NotPending) <==> id in leaves && leaves[id].status != Pending)
            && (r.Ok? ==> Written(leaves, 0, r.value)
                          == Ok(leaves[id := leaves[id].(status := if approve then Approved else Rejected)]))
    ensures forall rows: map<nat, Leave>, w: Write ::
              Written(rows, 0, w) == Err(NotFound) <==> !w.Insert? && w.id !in rows
  {
  }

  // ---- Interleaved requests ----

  datatype Event = Begin(request: Request) | Finish(write: Write)

  datatype Store = Store(leaves: map<nat, Leave>, nextId: nat, pending: multiset<Write>)

  ghost function Next(cal: Calendar, s: Store, e: Event): Store {
    match e
    case Begin(r) =>
      if Read(cal, s.leaves, r).Err? then s else s.(pending := s.pending + multiset{Read(cal, s.leaves, r).value})
    case Finish(w) =>
      if w !in s.pending then s
      else
        var written := Written(s.leaves, s.nextId, w);
        Store(if written.Ok? then written.value else s.leaves, s.nextId + (if w.Insert? then 1 else 0),
              s.pending - multiset{w})
  }

  ghost function Continue(cal: Calendar, s: Store, events: seq<Event>): Store
    decreases |events|
  {
    if events == [] then s else Next(cal, Continue(cal, s, events[..|events| - 1]), events[|events| - 1])
  }

  /** Checks and a write that follow one another at once are the request of one step. */
  lemma BeginAndFinishMakeAStep(cal: Calendar, s: Store, r: Request)
    ensures var read := Read(cal, s.leaves, r);
            var done := if read.Err? then Next(cal, s, Begin(r))
                        else Next(cal, Next(cal, s, Begin(r)), Finish(read.value));
            var step := Step(cal, s.leaves, s.nextId, r);
            && done.pending == s.pending
            && done.nextId == s.nextId + (if read.Ok? && read.value.Insert? then 1 else 0)
            && done.leaves == if step.Ok? then step.value else s.leaves
  {
    hide AdToBSSpec;
  }

  ghost function Start(): Store { Store(map[], 0, multiset{}) }

  /** Row numbers stay below the next one, and requested leaves are not inverted. */
  ghost predicate Sane(s: Store) {
    && (forall id :: id in s.leaves ==> id < s.nextId)
    && (forall w :: w in s.pending && w.Insert? ==> w.leave.startDate <= w.leave.endDate && w.leave.status == Pending)
  }

  lemma {:induction false} EveryRunIsSane(cal: Calendar, s: Store, events: seq<Event>)
    requires Sane(s)
    ensures Sane(Continue(cal, s, events))
    decreases |events|
  {
    hide Sane, Next;
    if events != [] {
      EveryRunIsSane(cal, s, events[..|events| - 1]);
      StepIsSane(cal, Continue(cal, s, events[..|events| - 1]), events[|events| - 1]);
    }
  }

  lemma StepIsSane(cal: Calendar, s: Store, e: Event)
    requires Sane(s)
    ensures Sane(Next(cal, s, e))
  {
    hide AdToBSSpec;
    var t := Next(cal, s, e);
    if e.Begin? && Read(cal, s.leaves, e.request).Ok? {
      var w := Read(cal, s.leaves, e.request).value;
      AskedInOrder(e.request);
      assert w.Insert? ==> w.leave.startDate <= w.leave.endDate && w.leave.status == Pending;
      hide Read;
      assert forall v :: v in t.pending ==> v in s.pending || v == w;
    } else {
      hide Read;
      assert forall v :: v in t.pending ==> v in s.pending;
    }
  }

  /** The check of the operation would still succeed where its write comes. */
  ghost predicate StillAllowed(leaves: map<nat, Leave>, w: Write) {
    match w
    case Insert(l) => forall j :: j in leaves ==> !Blocks(leaves[j], l.member, l.startDate, l.endDate)
    case SetStatus(id, status) =>
      id in leaves && status != Rejected && !IsLive(leaves[id]) ==>
        forall j :: j in leaves && j != id ==>
            !Blocks(leaves[j], leaves[id].member, leaves[id].startDate, leaves[id].endDate)
    case Remove(_) => true
  }

  /** A write keeps the live leaves of a member apart exactly when that is so: a request whose dates have been
      taken meanwhile, or an approval that revives a rejected leave over another one, breaks it. */
  lemma FinishKeepsApartIff(cal: Calendar, s: Store, w: Write)
    requires Sane(s) && w in s.pending && NoOverlap(s.leaves)
    ensures NoOverlap(Next(cal, s, Finish(w)).leaves) <==> StillAllowed(s.leaves, w)
  {
    var next := Next(cal, s, Finish(w)).leaves;
    match w
    case Insert(l) => InsertKeepsApartIff(s.leaves, s.nextId, l);
    case SetStatus(id, status) =>
      if id in s.leaves {
        SetStatusKeepsApartIff(s.leaves, id, status);
      }
    case Remove(id) =>
  }

  lemma InsertKeepsApartIff(leaves: map<nat, Leave>, id: nat, l: Leave)
    requires NoOverlap(leaves) && id !in leaves && l.startDate <= l.endDate && l.status == Pending
    ensures NoOverlap(leaves[id := l]) <==> StillAllowed(leaves, Insert(l))
  {
    var next := leaves[id := l];
    if j :| j in leaves && Blocks(leaves[j], l.member, l.startDate, l.endDate) {
      assert next[j] == leaves[j] && next[id] == l && !Apart(next[j], next[id]);
    }
  }

  lemma SetStatusKeepsApartIff(leaves: map<nat, Leave>, id: nat, status: LeaveStatus)
    requires NoOverlap(leaves) && id in leaves
    ensures NoOverlap(leaves[id := leaves[id].(status := status)]) <==> StillAllowed(leaves, SetStatus(id, status))
  {
    var l := leaves[id].(status := status);
    var next := leaves[id := l];
    if j :| j in leaves && j != id && Blocks(leaves[j], l.member, l.startDate, l.endDate) {
      assert next[j] == leaves[j] && next[id] == l && !Apart(next[j], next[id]);
    }
  }

  /** Event k finishes a write that its check would refuse by then. */
  ghost predicate IsLate(cal: Calendar, events: seq<Event>, k: int) {
    && 0 <= k < |events| && events[k].Finish?
    && events[k].write in Continue(cal, Start(), events[..k]).pending
    && !StillAllowed(Continue(cal, Start(), events[..k]).leaves, events[k].write)
  }

  ghost predicate ApartAt(cal: Calendar, events: seq<Event>, k: int) {
    0 <= k <= |events| ==> NoOverlap(Continue(cal, Start(), events[..k]).leaves)
  }

  ghost predicate ApartThroughout(cal: Calendar, events: seq<Event>) { forall k :: ApartAt(cal, events, k) }

  ghost predicate NoneLate(cal: Calendar, events: seq<Event>) { forall k :: !IsLate(cal, events, k) }

  lemma NoneLateStep(cal: Calendar, events: seq<Event>)
    requires events != []
    ensures NoneLate(cal, events) <==> NoneLate(cal, events[..|events| - 1]) && !IsLate(cal, events, |events| - 1)
  {
    hide Continue, StillAllowed;
    var before := events[..|events| - 1];
    forall k | 0 <= k < |before|
      ensures IsLate(cal, before, k) <==> IsLate(cal, events, k)
    {
      assert before[..k] == events[..k];
    }
  }

  lemma ThroughoutStep(cal: Calendar, events: seq<Event>)
    requires events != []
    ensures ApartThroughout(cal, events)
            <==> ApartThroughout(cal, events[..|events| - 1]) && NoOverlap(Continue(cal, Start(), events).leaves)
  {
    hide Continue, NoOverlap;
    var before := events[..|events| - 1];
    assert events[..|events|] == events;
    forall k | k != |events|
      ensures ApartAt(cal, before, k) <==> ApartAt(cal, events, k)
    {
      assert 0 <= k <= |before| ==> before[..k] == events[..k];
    }
    assert ApartAt(cal, events, |events|) <==> NoOverlap(Continue(cal, Start(), events).leaves);
    assert ApartAt(cal, before, |events|);
    hide ApartAt;
  }

  lemma ThroughoutAtEnd(cal: Calendar, events: seq<Event>)
    requires ApartThroughout(cal, events)
    ensures NoOverlap(Continue(cal, Start(), events).leaves)
  {
    hide Continue, NoOverlap;
    assert events[..|events|] == events;
    assert ApartAt(cal, events, |events|);
  }

  /** In every interleaving the live leaves of each member stay apart throughout, exactly when no write comes
      late. */
  lemma {:induction false} InterleavingsKeepApartIff(cal: Calendar, events: seq<Event>)
    ensures ApartThroughout(cal, events) <==> NoneLate(cal, events)
  {
    if events == [] {
      NothingOverlaps();
    } else {
      var last := |events| - 1;
      InterleavingsKeepApartIff(cal, events[..last]);
      ThroughoutStep(cal, events);
      NoneLateStep(cal, events);
      EveryRunIsSane(cal, Start(), events[..last]);
      if ApartThroughout(cal, events[..last]) {
        ThroughoutAtEnd(cal, events[..last]);
        EventKeepsApartIff(cal, Continue(cal, Start(), events[..last]), events[last]);
      }
    }
  }

  lemma NothingOverlaps()
    ensures NoOverlap(map[])
  {
  }

  lemma EventKeepsApartIff(cal: Calendar, s: Store, e: Event)
    requires Sane(s) && NoOverlap(s.leaves)
    ensures NoOverlap(Next(cal, s, e).leaves)
            <==> !(e.Finish? && e.write in s.pending && !StillAllowed(s.leaves, e.write))
  {
    if e.Finish? && e.write in s.pending {
      FinishKeepsApartIff(cal, s, e.write);
    }
  }

  /** A pending write that would undo a decision on leave `id`. */
  ghost predicate Undoes(s: Store, id: nat, w: Write)
    requires id in s.leaves
  {
    w in s.pending && (w == Remove(id) || (w.SetStatus? && w.id == id && w.status != s.leaves[id].status))
  }

  /** Whatever follows, the leave stays as it is. */
  ghost predicate IsFinal(cal: Calendar, s: Store, id: nat)
    requires id in s.leaves
  {
    forall later: seq<Event> ::
        id in Continue(cal, s, later).leaves && Continue(cal, s, later).leaves[id] == s.leaves[id]
  }

  /** A decision on a leave is final, over every continuation, exactly when no cancellation and no contrary
      decision that was checked before it is still to be written. */
  lemma DecisionIsFinalIff(cal: Calendar, s: Store, id: nat)
    requires Sane(s) && id in s.leaves && s.leaves[id].status != Pending
    ensures IsFinal(cal, s, id) <==> forall w :: !Undoes(s, id, w)
  {
    if w :| Undoes(s, id, w) {
      var later := [Finish(w)];
      assert later[..0] == [];
      assert Continue(cal, s, later) == Next(cal, s, Finish(w));
      assert !(id in Continue(cal, s, later).leaves && Continue(cal, s, later).leaves[id] == s.leaves[id]);
    } else {
      forall later: seq<Event>
        ensures id in Continue(cal, s, later).leaves && Continue(cal, s, later).leaves[id] == s.leaves[id]
      {
        DecidedStays(cal, s, id, later);
      }
    }
  }

  lemma {:induction false} DecidedStays(cal: Calendar, s: Store, id: nat, later: seq<Event>)
    requires Sane(s) && id in s.leaves && s.leaves[id].status != Pending && forall w :: !Undoes(s, id, w)
    ensures var t := Continue(cal, s, later);
            Sane(t) && id in t.leaves && t.leaves[id] == s.leaves[id] && forall w :: !Undoes(t, id, w)
    decreases |later|
  {
    if later != [] {
      DecidedStays(cal, s, id, later[..|later| - 1]);
      DecidedStaysStep(cal, Continue(cal, s, later[..|later| - 1]), id, later[|later| - 1]);
    }
  }

  lemma DecidedStaysStep(cal: Calendar, s: Store, id: nat, e: Event)
    requires Sane(s) && id in s.leaves && s.leaves[id].status != Pending && forall w :: !Undoes(s, id, w)
    ensures var t := Next(cal, s, e);
            Sane(t) && id in t.leaves && t.leaves[id] == s.leaves[id] && forall w :: !Undoes(t, id, w)
  {
    hide AdToBSSpec;
    var t := Next(cal, s, e);
    if e.Finish? && e.write in s.pending {
      assert !Undoes(s, id, e.write);
    }
    forall w ensures !Undoes(t, id, w) {
      assert !Undoes(s, id, w);
    }
  }

  /** Both happen: of two decisions checked together the later write stands, and a cancellation checked
      together with an approval deletes the approved leave. */
  lemma RacingWritesUndoADecision(cal: Calendar, s: Store, id: nat)
    requires id in s.leaves && s.leaves[id].status == Pending
    ensures var approve, reject, cancel :=
            Begin(Decide(id, true)), Begin(Decide(id, false)), Begin(Cancel(id, s.leaves[id].member));
            var approved :=
              Next(cal, Next(cal, Next(cal, Next(cal, s, approve), reject), cancel), Finish(SetStatus(id, Approved)));
            && StatusAfter(approved, id) == Some(Approved)
            && StatusAfter(Next(cal, approved, Finish(SetStatus(id, Rejected))), id) == Some(Rejected)
            && StatusAfter(Next(cal, approved, Finish(Remove(id))), id) == None
  {
    hide AdToBSSpec, Next;
    var x, y, z := SetStatus(id, Approved), SetStatus(id, Rejected), Remove(id);
    var s1 := BeginOk(cal, s, Decide(id, true), x);
    var s2 := BeginOk(cal, s1, Decide(id, false), y);
    var s3 := BeginOk(cal, s2, Cancel(id, s.leaves[id].member), z);
    assert x in s3.pending && y in s3.pending && z in s3.pending;
    hide Read;
    FinishSets(cal, s3, id, Approved);
    var approved := Next(cal, s3, Finish(x));
    FinishSets(cal, approved, id, Rejected);
    FinishRemoves(cal, approved, id);
  }

  ghost function StatusAfter(s: Store, id: nat): Option<LeaveStatus> {
    if id in s.leaves then Some(s.leaves[id].status) else None
  }

  lemma BeginOk(cal: Calendar, s: Store, r: Request, w: Write) returns (t: Store)
    requires Read(cal, s.leaves, r) == Ok(w)
    ensures t == Next(cal, s, Begin(r)) == s.(pending := s.pending + multiset{w})
  {
    t := s.(pending := s.pending + multiset{w});
  }

  lemma FinishRemoves(cal: Calendar, s: Store, id: nat)
    requires id in s.leaves && Remove(id) in s.pending
    ensures id !in Next(cal, s, Finish(Remove(id))).leaves
  {
  }

  lemma FinishSets(cal: Calendar, s: Store, id: nat, status: LeaveStatus)
    requires id in s.leaves && SetStatus(id, status) in s.pending
    ensures var t := Next(cal, s, Finish(SetStatus(id, status)));
            && t.leaves == s.leaves[id := s.leaves[id].(status := status)]
            && forall w :: w in s.pending && w != SetStatus(id, status) ==> w in t.pending
  {
  }

  // ---- What payroll counts ----

  datatype LeaveDays = LeaveDays(paid: int, unpaid: int)

  /** The query compares date columns, so of the month's bounds too it sees the dates only. Local midnight has
      the UTC date of the day before: a leave that ended on the eve of the month is returned as well. */
  predicate Touches(l: Leave, range: Range) {
    l.startDate <= DateColumn(range.end) && l.endDate >= DateColumn(range.start)
  }

  /** Days of a leave clipped to the month, as the code counts them. */
  function CountedDays(l: Leave, range: Range): int {
    CeilDays(Min(l.endDate, range.end) - Max(l.startDate, range.start)) + 1
  }

  ghost function Counted(leaves: seq<Leave>, range: Range, unpaid: bool): int {
    if leaves == [] then 0
    else
      var last := leaves[|leaves| - 1];
      Counted(leaves[..|leaves| - 1], range, unpaid)
      + if (last.kind == Unpaid) == unpaid then CountedDays(last, range) else 0
  }

  /** `leaves` are the approved leaves of the employee that touch the month. */
  method GetApprovedLeaves(leaves: seq<Leave>, range: Range) returns (days: LeaveDays)
    ensures days == LeaveDays(Counted(leaves, range, false), Counted(leaves, range, true))
  {
    var paidDays, unpaidDays := 0, 0;
    for i := 0 to |leaves|
      invariant paidDays == Counted(leaves[..i], range, false)
      invariant unpaidDays == Counted(leaves[..i], range, true)
    {
      assert leaves[..i + 1][..i] == leaves[..i];
      var leave := leaves[i];
      var start := Max(leave.startDate, range.start);
      var end := Min(leave.endDate, range.end);
      var days := CeilDays(end - start) + 1;
      if leave.kind == Unpaid {
        unpaidDays := unpaidDays + days;
      } else {
        paidDays := paidDays + days;
      }
    }
    assert leaves[..|leaves|] == leaves;
    days := LeaveDays(paidDays, unpaidDays);
  }

  // ---- Counted days against distinct covered days ----

  /** A month as getBSMonthADRange gives it: whole local days. */
  ghost predicate IsMonth(range: Range) {
    && TimeOfDay(range.start) == 0
    && TimeOfDay(range.end) == 86_399_999
    && range.start <= range.end
  }

  ghost predicate IsBetween(first: int, d: int, last: int) { first <= d <= last }

  ghost function DaySet(first: int, last: int): set<int> {
    set d | first <= d <= last && IsBetween(first, d, last)
  }

  /** The days of the month a leave covers. */
  ghost function CoveredDays(l: Leave, range: Range): set<int> {
    DaySet(Max(Day(l.startDate), Day(range.start)), Min(Day(l.endDate), Day(range.end)))
  }

  ghost predicate IsClipped(l: Leave, range: Range) {
    l.startDate < range.start || l.endDate > range.end
  }

  lemma DaySetStep(first: int, last: int)
    requires first <= last
    ensures DaySet(first, last) == DaySet(first, last - 1) + {last} && last !in DaySet(first, last - 1)
  {
    assert forall d :: IsBetween(first, d, last) <==> IsBetween(first, d, last - 1) || d == last;
  }

  lemma {:induction false} DaySetSize(first: int, last: int)
    requires first <= last + 1
    ensures |DaySet(first, last)| == last - first + 1
    decreases last - first
  {
    if first <= last {
      DaySetSize(first, last - 1);
      DaySetStep(first, last);
    } else {
      assert DaySet(first, last) == {};
    }
  }

  /** One leave: the code counts the covered days, and one more exactly when a month end clips the leave. */
  lemma CountedAgainstCovered(l: Leave, range: Range)
    requires IsDate(l.startDate) && IsDate(l.endDate) && l.startDate <= l.endDate
    requires IsMonth(range) && Touches(l, range)
    ensures CountedDays(l, range) == |CoveredDays(l, range)| + if IsClipped(l, range) then 1 else 0
  {
    var a, b, m, n := Day(l.startDate), Day(l.endDate), Day(range.start), Day(range.end);
    DaySplit(l.startDate);
    DaySplit(l.endDate);
    DaySplit(range.start);
    DaySplit(range.end);
    DaySetSize(Max(a, m), Min(b, n));
    assert l.startDate < range.start <==> a < m;
    assert l.endDate > range.end <==> b > n;
  }

  /** A leave that ended on the eve of the month covers none of its days and yet counts as one. */
  lemma LeaveBeforeTheMonthCounts(l: Leave, range: Range)
    requires IsDate(l.startDate) && IsDate(l.endDate) && l.startDate <= l.endDate && IsMonth(range)
    requires Day(l.endDate) == Day(range.start) - 1
    ensures Touches(l, range) && CoveredDays(l, range) == {} && CountedDays(l, range) == 1
  {
    DaySplit(l.startDate);
    DaySplit(l.endDate);
    DaySplit(range.start);
    DaySplit(range.end);
    CountedAgainstCovered(l, range);
    assert CoveredDays(l, range) == {};
  }

  ghost function AllCovered(leaves: seq<Leave>, range: Range): set<int> {
    if leaves == [] then {} else AllCovered(leaves[..|leaves| - 1], range) + CoveredDays(leaves[|leaves| - 1], range)
  }

  ghost function ClippedCount(leaves: seq<Leave>, range: Range): nat {
    if leaves == [] then 0
    else ClippedCount(leaves[..|leaves| - 1], range) + if IsClipped(leaves[|leaves| - 1], range) then 1 else 0
  }

  /** Approved leaves of one employee as payroll reads them: dates, touching the month, pairwise apart. */
  ghost predicate MonthlyLeaves(leaves: seq<Leave>, range: Range) {
    && IsMonth(range)
    && (forall i :: 0 <= i < |leaves| ==>
          && IsDate(leaves[i].startDate) && IsDate(leaves[i].endDate)
          && leaves[i].startDate <= leaves[i].endDate && Touches(leaves[i], range))
    && (forall i, j :: 0 <= i < j < |leaves| ==> Apart(leaves[i], leaves[j]))
  }

  lemma {:induction false} CoveredByAnother(leaves: seq<Leave>, l: Leave, range: Range)
    requires IsDate(l.startDate) && IsDate(l.endDate)
    requires forall i :: 0 <= i < |leaves| ==>
             IsDate(leaves[i].startDate) && IsDate(leaves[i].endDate) && Apart(leaves[i], l)
    ensures AllCovered(leaves, range) !! CoveredDays(l, range)
  {
    if leaves != [] {
      var last := leaves[|leaves| - 1];
      CoveredByAnother(leaves[..|leaves| - 1], l, range);
      DaySplit(last.startDate);
      DaySplit(last.endDate);
      DaySplit(l.startDate);
      DaySplit(l.endDate);
      assert Apart(last, l);
    }
  }

  lemma {:induction false} CoveredWithinMonth(leaves: seq<Leave>, range: Range)
    requires range.start <= range.end
    ensures AllCovered(leaves, range) <= DaySet(Day(range.start), Day(range.end))
    ensures |AllCovered(leaves, range)| <= Day(range.end) - Day(range.start) + 1
  {
    var all, month := AllCovered(leaves, range), DaySet(Day(range.start), Day(range.end));
    DaySetSize(Day(range.start), Day(range.end));
    if leaves != [] {
      CoveredWithinMonth(leaves[..|leaves| - 1], range);
    }
    assert all + (month - all) == month;
  }

  /** Paid plus unpaid days are the distinct days of the month on leave, plus one for every leave that a
      month end clips; the distinct days are at most the length of the month. */
  lemma {:induction false} PaidAndUnpaidAgainstCovered(leaves: seq<Leave>, range: Range)
    requires MonthlyLeaves(leaves, range)
    ensures Counted(leaves, range, false) + Counted(leaves, range, true)
            == |AllCovered(leaves, range)| + ClippedCount(leaves, range)
    ensures |AllCovered(leaves, range)| <= Day(range.end) - Day(range.start) + 1
  {
    hide CountedDays, CoveredDays;
    CoveredWithinMonth(leaves, range);
    if leaves != [] {
      var last := |leaves| - 1;
      PaidAndUnpaidAgainstCovered(leaves[..last], range);
      CountedAgainstCovered(leaves[last], range);
      CoveredByAnother(leaves[..last], leaves[last], range);
    }
  }

  /** The leaves of one side, paid or unpaid. */
  ghost function OfSide(leaves: seq<Leave>, unpaid: bool): seq<Leave> {
    if leaves == [] then []
    else
      var last := leaves[|leaves| - 1];
      OfSide(leaves[..|leaves| - 1], unpaid)
      + if (unpaid && last.kind == Unpaid) || (!unpaid && last.kind != Unpaid) then [last] else []
  }

  ghost predicate IsDatedApart(a: Leave, b: Leave) { IsDate(a.startDate) && IsDate(a.endDate) && Apart(a, b) }

  lemma {:induction false} SideIsApart(leaves: seq<Leave>, l: Leave, unpaid: bool)
    requires forall i :: 0 <= i < |leaves| ==> IsDatedApart(leaves[i], l)
    ensures forall i :: 0 <= i < |OfSide(leaves, unpaid)| ==> IsDatedApart(OfSide(leaves, unpaid)[i], l)
  {
    if leaves != [] {
      SideIsApart(leaves[..|leaves| - 1], l, unpaid);
    }
  }

  lemma SideStep(leaves: seq<Leave>, range: Range, unpaid: bool)
    requires leaves != []
    ensures var last, before := leaves[|leaves| - 1], leaves[..|leaves| - 1];
            var side := OfSide(before, unpaid);
            if (last.kind == Unpaid) == unpaid then
              && AllCovered(OfSide(leaves, unpaid), range) == AllCovered(side, range) + CoveredDays(last, range)
              && ClippedCount(OfSide(leaves, unpaid), range)
                 == ClippedCount(side, range) + (if IsClipped(last, range) then 1 else 0)
              && Counted(leaves, range, unpaid) == Counted(before, range, unpaid) + CountedDays(last, range)
            else
              OfSide(leaves, unpaid) == side && Counted(leaves, range, unpaid) == Counted(before, range, unpaid)
  {
    hide CountedDays, CoveredDays, IsClipped;
    var last, side := leaves[|leaves| - 1], OfSide(leaves[..|leaves| - 1], unpaid);
    if (last.kind == Unpaid) == unpaid {
      assert OfSide(leaves, unpaid) == side + [last] && (side + [last])[..|side|] == side;
    }
  }

  /** The unpaid days are those of the leaves of kind UNPAID, counted like that, and the paid days those of all
      other kinds. */
  lemma {:induction false} EachSideAgainstCovered(leaves: seq<Leave>, range: Range, unpaid: bool)
    requires MonthlyLeaves(leaves, range)
    ensures Counted(leaves, range, unpaid)
            == |AllCovered(OfSide(leaves, unpaid), range)| + ClippedCount(OfSide(leaves, unpaid), range)
  {
    hide CountedDays, CoveredDays, IsDate, Touches, IsClipped, Apart;
    if leaves != [] {
      var last := |leaves| - 1;
      EachSideAgainstCovered(leaves[..last], range, unpaid);
      SideStep(leaves, range, unpaid);
      assert forall i :: 0 <= i < last ==> IsDatedApart(leaves[i], leaves[last]);
      SideIsApart(leaves[..last], leaves[last], unpaid);
      CountedAgainstCovered(leaves[last], range);
      hide MonthlyLeaves;
      CoveredByAnother(OfSide(leaves[..last], unpaid), leaves[last], range);
      hide AllCovered, ClippedCount, OfSide, Counted;
    }
  }

  /** Such leaves are those that meet the month or its eve. */
  lemma TouchesIff(l: Leave, range: Range)
    requires IsDate(l.startDate) && IsDate(l.endDate) && IsMonth(range)
    ensures Touches(l, range) <==> Day(l.startDate) <= Day(range.end) && Day(l.endDate) >= Day(range.start) - 1
  {
    DaySplit(l.startDate);
    DaySplit(l.endDate);
    DaySplit(range.start);
    DaySplit(range.end);
    DateColumnIsDate(range.start);
    DateColumnIsDate(range.end);
    EdgesInUtc(range);
    DaySplit(DateColumn(range.start));
    DaySplit(DateColumn(range.end));
    hide Day, TimeOfDay, DateColumn, IsoDay;
  }

  /** The month begins on the eve of its first day in UTC and ends on its last. */
  lemma EdgesInUtc(range: Range)
    requires IsMonth(range)
    ensures IsoDay(range.start) == Day(range.start) - 1 && IsoDay(range.end) == Day(range.end)
  {
    DaySplit(range.start);
    DaySplit(range.end);
  }

  /** The AD range of a BS month is such a month, with as many days as the table says. */
  lemma BSMonthIsMonth(cal: Calendar, year: int, month: int)
    requires InTable(cal, year) && 1 <= month <= 12
    ensures MonthRangeSpec(cal, year, month).Ok?
    ensures var range := MonthRangeSpec(cal, year, month).value;
            && IsMonth(range)
            && Day(range.end) - Day(range.start) + 1 == cal[year - BASE_YEAR][month - 1]
  {
    hide MonthLength;
    MonthLengthAt(cal, year, month);
    MonthRangesTile(cal, year, month);
    var k := MonthIndex(year, month);
    DayOf(15_809 + DaysBefore(cal, k), 0);
    DayOf(15_809 + DaysBefore(cal, k + 1) - 1, 86_399_999);
  }

  /** The approved leaves of a member after any run are such leaves, in whatever order they are read. */
  lemma ApprovedLeavesAreMonthly(cal: Calendar, requests: seq<Request>, member: nat, ids: seq<nat>, leaves: seq<Leave>,
                                 range: Range)
    requires IsMonth(range) && |ids| == |leaves|
    requires forall i, j :: 0 <= i < j < |ids| ==> ids[i] != ids[j]
    requires forall i :: 0 <= i < |ids| ==>
               && ids[i] in After(cal, requests) && After(cal, requests)[ids[i]] == leaves[i]
               && leaves[i].member == member && leaves[i].status == Approved && Touches(leaves[i], range)
    ensures MonthlyLeaves(leaves, range)
  {
    RunKeepsLeavesApart(cal, requests);
    RunKeepsDates(cal, requests);
  }

  lemma {:induction false} RunKeepsDates(cal: Calendar, requests: seq<Request>)
    ensures forall id :: id in After(cal, requests) ==>
              IsDate(After(cal, requests)[id].startDate) && IsDate(After(cal, requests)[id].endDate)
  {
    if requests != [] {
      var last := requests[|requests| - 1];
      RunKeepsDates(cal, requests[..|requests| - 1]);
      if last.Ask? {
        DateColumnIsDate(last.startDate);
        DateColumnIsDate(last.endDate);
      }
      hide IsDate, AdToBSSpec, DateColumn;
    }
  }
}
