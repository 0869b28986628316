/**
 The payslip workflow. Status updates are serializable transactions and so single steps; generating,
 regenerating and flagging read in one step and write in a later one, with anything in between.
 */
module PayrollWorkflow {
  import opened Prelude
  import opened Payslip

  datatype Role = SuperAdmin | OrgAdmin | BranchAdmin | OrgAccountant | Employee

  datatype PayStatus = Draft | Processed | Approved | Paid | NeedsRecalculation

  /** Payslips are unique by membership and BS month. */
  datatype Key = Key(membership: nat, bsYear: int, bsMonth: int)

  datatype Slip = Slip(figures: Payslip, status: PayStatus)

  /** A write that has passed its read-side checks and is still to come; `overPaid` when they saw a paid
      payslip and so asked for a reason. */
  datatype Pending = Write(key: Key, figures: Payslip, overPaid: bool) | Flag(key: Key)

  /** What has happened so far. A status change records the figures it was applied to. */
  datatype Event =
    | Written(key: Key, figures: Payslip)
    | Moved(moved: map<Key, Payslip>, to: PayStatus, role: Role)
    | Flagged(key: Key)

  datatype Store = Store(slips: map<Key, Slip>, pending: multiset<Pending>, trace: seq<Event>)

  datatype WorkflowError = NotFound | PayrollLocked | ReasonRequired | MustRegenerate | PaidIsFinal
                         | RoleNotAllowed | TransitionNotAllowed | InvalidStates | NotStarted

  datatype Step =
    | BeginGenerate(key: Key, role: Role, reasonWords: nat, figures: Payslip)
    | BeginRegenerate(key: Key, figures: Payslip)
    | BeginFlag(key: Key)
    | Finish(pending: Pending)
    | UpdateStatus(key: Key, to: PayStatus, role: Role)
    | BulkUpdate(scope: set<Key>, to: PayStatus, role: Role)

  // ---- Permission tables ----

  /** ROLE_TRANSITIONS of updateStatus. */
  predicate MayMove(role: Role, from: PayStatus, to: PayStatus) {
    match role
    case OrgAccountant => (from == Draft && to == Processed) || (from == Approved && to == Paid)
    case Employee => false
    case _ =>
      || (from == Draft && to == Processed)
      || (from == Processed && to == Approved)
      || (from == Approved && (to == Processed || to == Paid))
  }

  /** BULK_ROLE_TRANSITIONS of bulkUpdateStatus. */
  predicate MayBulk(role: Role, to: PayStatus) {
    match role
    case Employee => false
    case OrgAccountant => to == Processed || to == Paid
    case _ => to == Processed || to == Approved || to == Paid
  }

  /** BULK_FROM_STATES: bulk processing accepts flagged payslips too. */
  predicate BulkFrom(to: PayStatus, from: PayStatus) {
    match to
    case Processed => from == Draft || from == NeedsRecalculation
    case Approved => from == Processed
    case Paid => from == Approved
    case _ => false
  }

  predicate IsApprover(role: Role) { role != OrgAccountant && role != Employee }

  // ---- One step ----

  /** Payroll for a month without presence and overtime is skipped. */
  predicate IsSkipped(figures: Payslip) { figures.daysPresent == 0 && figures.overtimeHours == 0.0 }

  predicate IsPaid(s: Store, key: Key) { key in s.slips && s.slips[key].status == Paid }

  ghost function Next(s: Store, step: Step): Result<Store, WorkflowError> {
    match step
    case BeginGenerate(key, role, reasonWords, figures) =>
      if IsSkipped(figures) then Ok(s)
      else if key in s.slips && s.slips[key].status == Paid && role == OrgAccountant then Err(PayrollLocked)
      else if key in s.slips && s.slips[key].status == Paid && reasonWords < 10 then Err(ReasonRequired)
      else Ok(s.(pending := s.pending + multiset{Write(key, figures, IsPaid(s, key))}))
    case BeginRegenerate(key, figures) =>
      if key in s.slips && (s.slips[key].status == Approved || s.slips[key].status == Paid) then Err(PayrollLocked)
      else Ok(s.(pending := s.pending + multiset{Write(key, figures, false)}))
    case BeginFlag(key) =>
      if key !in s.slips || s.slips[key].status == Draft || s.slips[key].status == NeedsRecalculation then Ok(s)
      else Ok(s.(pending := s.pending + multiset{Flag(key)}))
    case Finish(p) =>
      if p !in s.pending then Err(NotStarted)
      else if p.Write? then
        Ok(Store(s.slips[p.key := Slip(p.figures, Draft)], s.pending - multiset{p},
                 s.trace + [Written(p.key, p.figures)]))
      else if p.key !in s.slips then Err(NotFound)
      else
        Ok(Store(s.slips[p.key := s.slips[p.key].(status := NeedsRecalculation)], s.pending - multiset{p},
                 s.trace + [Flagged(p.key)]))
    case UpdateStatus(key, to, role) =>
      if key !in s.slips then Err(NotFound)
      else
        var slip := s.slips[key];
        if slip.status == NeedsRecalculation && to != NeedsRecalculation then Err(MustRegenerate)
        else if slip.status == Paid then Err(PaidIsFinal)
        else if role == Employee then Err(RoleNotAllowed)
        else if !MayMove(role, slip.status, to) then Err(TransitionNotAllowed)
        else
          Ok(s.(slips := s.slips[key := slip.(status := to)],
             trace := s.trace + [Moved(map[key := slip.figures], to, role)]))
    case BulkUpdate(scope, to, role) =>
      var keys := scope * s.slips.Keys;
      if !MayBulk(role, to) then Err(RoleNotAllowed)
      else if (to == Approved || to == Paid) && exists k :: k in keys && s.slips[k].status == NeedsRecalculation then
        Err(MustRegenerate)
      else if exists k :: k in keys && !BulkFrom(to, s.slips[k].status) then Err(InvalidStates)
      else
        Ok(s.(slips := map k | k in s.slips :: if k in keys then s.slips[k].(status := to) else s.slips[k],
           trace := s.trace + [Moved(map k | k in keys :: s.slips[k].figures, to, role)]))
  }

  /** The error and the new state are those of the step; a step that fails changes nothing. */
  ghost predicate Did(before: Store, step: Step, error: Option<WorkflowError>, after: Store) {
    var r := Next(before, step);
    if r.Ok? then error == None && after == r.value else error == Some(r.error) && after == before
  }

  class PayrollTable {
    var slips: map<Key, Slip>
    var pending: multiset<Pending>
    ghost var trace: seq<Event>

    ghost function State(): Store
      reads this
    {
      Store(slips, pending, trace)
    }

    method GenerateRead(key: Key, role: Role, reasonWords: nat, figures: Payslip) returns (error: Option<WorkflowError>)
      modifies this
      ensures Did(old(State()), BeginGenerate(key, role, reasonWords, figures), error, State())
    {
      if figures.daysPresent == 0 && figures.overtimeHours == 0.0 {
        return None;
      }
      var overPaid := key in slips && slips[key].status == Paid;
      if overPaid {
        if role == OrgAccountant {
          return Some(PayrollLocked);
        }
        if reasonWords < 10 {
          return Some(ReasonRequired);
        }
      }
      pending := pending + multiset{Write(key, figures, overPaid)};
      return None;
    }

    method RegenerateRead(key: Key, figures: Payslip) returns (error: Option<WorkflowError>)
      modifies this
      ensures Did(old(State()), BeginRegenerate(key, figures), error, State())
    {
      if key in slips && (slips[key].status == Approved || slips[key].status == Paid) {
        return Some(PayrollLocked);
      }
      pending := pending + multiset{Write(key, figures, false)};
      return None;
    }

    method FlagRead(key: Key) returns (error: Option<WorkflowError>)
      modifies this
      ensures Did(old(State()), BeginFlag(key), error, State())
    {
      if key in slips && slips[key].status != Draft && slips[key].status != NeedsRecalculation {
        pending := pending + multiset{Flag(key)};
      }
      return None;
    }

    /** The upsert of generate and regenerate always lands in DRAFT; the update of a flag in NEEDS_RECALCULATION. */
    method CompleteWrite(p: Pending) returns (error: Option<WorkflowError>)
      modifies this
      ensures Did(old(State()), Finish(p), error, State())
    {
      if p !in pending {
        return Some(NotStarted);
      }
      if p.Write? {
        slips := slips[p.key := Slip(p.figures, Draft)];
        trace := trace + [Written(p.key, p.figures)];
      } else if p.key !in slips {
        return Some(NotFound);
      } else {
        slips := slips[p.key := slips[p.key].(status := NeedsRecalculation)];
        trace := trace + [Flagged(p.key)];
      }
      pending := pending - multiset{p};
      return None;
    }

    method SetStatus(key: Key, to: PayStatus, role: Role) returns (error: Option<WorkflowError>)
      modifies this
      ensures Did(old(State()), UpdateStatus(key, to, role), error, State())
    {
      if key !in slips {
        return Some(NotFound);
      }
      var slip := slips[key];
      if slip.status == NeedsRecalculation && to != NeedsRecalculation {
        return Some(MustRegenerate);
      }
      if slip.status == Paid {
        return Some(PaidIsFinal);
      }
      if role == Employee {
        return Some(RoleNotAllowed);
      }
      if !MayMove(role, slip.status, to) {
        return Some(TransitionNotAllowed);
      }
      slips := slips[key := slip.(status := to)];
      trace := trace + [Moved(map[key := slip.figures], to, role)];
      return None;
    }

    method BulkSetStatus(scope: set<Key>, to: PayStatus, role: Role) returns (error: Option<WorkflowError>)
      modifies this
      ensures Did(old(State()), BulkUpdate(scope, to, role), error, State())
    {
      if !MayBulk(role, to) {
        return Some(RoleNotAllowed);
      }
      var keys := scope * slips.Keys;
      if to == Approved || to == Paid {
        if exists k :: k in keys && slips[k].status == NeedsRecalculation {
          return Some(MustRegenerate);
        }
      }
      if exists k :: k in keys && !BulkFrom(to, slips[k].status) {
        return Some(InvalidStates);
      }
      trace := trace + [Moved(map k | k in keys :: slips[k].figures, to, role)];
      slips := map k | k in slips :: if k in keys then slips[k].(status := to) else slips[k];
      return None;
    }
  }

  // ---- Who may do what ----

  /** The status changes open to a role, one payslip at a time. */
  ghost function Moves(role: Role): set<(PayStatus, PayStatus)> {
    match role
    case Employee => {}
    case OrgAccountant => {(Draft, Processed), (Approved, Paid)}
    case _ => {(Draft, Processed), (Processed, Approved), (Approved, Processed), (Approved, Paid)}
  }

  /** In bulk an approval cannot be taken back, and a flagged payslip can be processed. */
  ghost function BulkMoves(role: Role): set<(PayStatus, PayStatus)> {
    if role == Employee then {} else Moves(role) - {(Approved, Processed)} + {(NeedsRecalculation, Processed)}
  }

  /** A single status change succeeds exactly for a move of the role, and changes the status only. */
  lemma SingleMoveIff(s: Store, key: Key, next: PayStatus, role: Role)
    ensures var r := Next(s, UpdateStatus(key, next, role));
            && (r == Err(NotFound) <==> key !in s.slips)
            && (key in s.slips ==>
                  var (figures, from) := (s.slips[key].figures, s.slips[key].status);
                  && (r.Ok? <==> (from, next) in Moves(role))
                  && (r == Err(MustRegenerate) <==> from == NeedsRecalculation && next != NeedsRecalculation)
                  && (r == Err(PaidIsFinal) <==> from == Paid)
                  && (r.Ok? ==> r.value == Store(s.slips[key := Slip(figures, next)], s.pending,
                                                 s.trace + [Moved(map[key := figures], next, role)])))
  {
  }

  /** A bulk change succeeds exactly if its role has such a move at all and every payslip in scope makes one; then all
      of them have the new status and their old figures, and no other payslip changes. */
  lemma BulkMoveIff(s: Store, scope: set<Key>, next: PayStatus, role: Role)
    ensures var r := Next(s, BulkUpdate(scope, next, role));
            && (r == Err(RoleNotAllowed) <==> forall from :: (from, next) !in BulkMoves(role))
            && (r.Ok? <==>
                  && (exists from :: (from, next) in BulkMoves(role))
                  && forall k :: k in scope && k in s.slips ==> (s.slips[k].status, next) in BulkMoves(role))
            && (r.Ok? ==>
                  && r.value.slips.Keys == s.slips.Keys && r.value.pending == s.pending
                  && (forall k :: k in s.slips ==>
                        r.value.slips[k] == if k in scope then Slip(s.slips[k].figures, next) else s.slips[k])
                  && |r.value.trace| == |s.trace| + 1 && r.value.trace[..|s.trace|] == s.trace
                  && r.value.trace[|s.trace|].Moved?
                  && r.value.trace[|s.trace|].moved.Keys == scope * s.slips.Keys)
  {
    BulkRoles(role, next);
    var keys := scope * s.slips.Keys;
    assert forall k :: k in keys ==>
      ((s.slips[k].status, next) in BulkMoves(role) <==> MayBulk(role, next) && BulkFrom(next, s.slips[k].status));
    hide BulkMoves, MayBulk, BulkFrom;
  }

  lemma BulkRoles(role: Role, next: PayStatus)
    ensures MayBulk(role, next) <==> exists from :: (from, next) in BulkMoves(role)
    ensures BulkFrom(next, NeedsRecalculation) ==> next == Processed
  {
    assert MayBulk(role, Processed) ==> (Draft, Processed) in BulkMoves(role);
    assert MayBulk(role, Approved) ==> (Processed, Approved) in BulkMoves(role);
    assert MayBulk(role, Paid) ==> (Approved, Paid) in BulkMoves(role);
  }

  /** Generating goes on to write exactly if there was any presence or overtime, and over a paid payslip only for
      others than accountants who give a reason of ten words. */
  lemma GenerateIff(s: Store, key: Key, role: Role, reasonWords: nat, figures: Payslip)
    ensures var r := Next(s, BeginGenerate(key, role, reasonWords, figures));
            var idle := figures.daysPresent == 0 && figures.overtimeHours == 0.0;
            && (r == Err(PayrollLocked) <==> !idle && IsPaid(s, key) && role == OrgAccountant)
            && (r == Err(ReasonRequired) <==> !idle && IsPaid(s, key) && role != OrgAccountant && reasonWords < 10)
            && (r.Ok? <==> idle || !IsPaid(s, key) || (role != OrgAccountant && reasonWords >= 10))
            && (r.Ok? ==> r.value == if idle then s
                                     else s.(pending := s.pending + multiset{Write(key, figures, IsPaid(s, key))}))
  {
  }

  /** Regenerating goes on to write unless the payslip is approved or paid, and flagging exactly if it is processed,
      approved or paid. */
  lemma RegenerateAndFlagIff(s: Store, key: Key, figures: Payslip)
    ensures var r := Next(s, BeginRegenerate(key, figures));
            var locked := key in s.slips && s.slips[key].status in {Approved, Paid};
            r == if locked then Err(PayrollLocked)
                 else Ok(s.(pending := s.pending + multiset{Write(key, figures, false)}))
    ensures var flags := key in s.slips && s.slips[key].status in {Processed, Approved, Paid};
            Next(s, BeginFlag(key)) == Ok(if flags then s.(pending := s.pending + multiset{Flag(key)}) else s)
  {
  }

  /** What lands: new figures as a draft, a flag on whatever figures there are by then. */
  lemma FinishLands(s: Store, p: Pending)
    requires p in s.pending && (p.Flag? ==> p.key in s.slips)
    ensures var r := Next(s, Finish(p));
            && r.Ok? && r.value.pending == s.pending - multiset{p}
            && r.value.slips.Keys == s.slips.Keys + {p.key}
            && r.value.slips[p.key] == (if p.Write? then Slip(p.figures, Draft)
                                        else Slip(s.slips[p.key].figures, NeedsRecalculation))
            && (forall k :: k in s.slips && k != p.key ==> r.value.slips[k] == s.slips[k])
            && r.value.trace == s.trace + [if p.Write? then Written(p.key, p.figures) else Flagged(p.key)]
  {
  }

  // ---- Approval ----

  ghost predicate ApprovesAt(trace: seq<Event>, i: int, k: Key, figures: Payslip) {
    && 0 <= i < |trace|
    && trace[i].Moved? && trace[i].to == Approved && IsApprover(trace[i].role)
    && k in trace[i].moved && trace[i].moved[k] == figures
  }

  ghost predicate UnwrittenSince(trace: seq<Event>, i: int, k: Key) {
    forall j :: 0 <= j < |trace| && i < j && trace[j].Written? ==> trace[j].key != k
  }

  /** A non-accountant approved exactly these figures, and none have been written since. */
  ghost predicate IsApproved(trace: seq<Event>, k: Key, figures: Payslip) {
    exists i :: ApprovesAt(trace, i, k, figures) && UnwrittenSince(trace, i, k)
  }

  ghost predicate PaysAt(trace: seq<Event>, j: int, k: Key, figures: Payslip) {
    && 0 <= j < |trace|
    && trace[j].Moved? && trace[j].to == Paid && k in trace[j].moved && trace[j].moved[k] == figures
  }

  /** The same, and the payment came after the approval. */
  ghost predicate IsPaidAfterApproval(trace: seq<Event>, k: Key, figures: Payslip) {
    exists i, j ::
      i < j && ApprovesAt(trace, i, k, figures) && UnwrittenSince(trace, i, k) && PaysAt(trace, j, k, figures)
  }

  ghost predicate Inv(s: Store) {
    && (forall k :: k in s.slips && s.slips[k].status == Approved ==> IsApproved(s.trace, k, s.slips[k].figures))
    && (forall k :: k in s.slips && s.slips[k].status == Paid ==> IsPaidAfterApproval(s.trace, k, s.slips[k].figures))
  }

  lemma ApprovalSurvives(trace: seq<Event>, e: Event, k: Key, figures: Payslip)
    requires e.Written? ==> e.key != k
    ensures IsApproved(trace, k, figures) ==> IsApproved(trace + [e], k, figures)
    ensures IsPaidAfterApproval(trace, k, figures) ==> IsPaidAfterApproval(trace + [e], k, figures)
  {
    var longer := trace + [e];
    if IsApproved(trace, k, figures) {
      var i :| ApprovesAt(trace, i, k, figures) && UnwrittenSince(trace, i, k);
      assert ApprovesAt(longer, i, k, figures) && UnwrittenSince(longer, i, k);
    }
    if IsPaidAfterApproval(trace, k, figures) {
      var i, j :| i < j && ApprovesAt(trace, i, k, figures) && UnwrittenSince(trace, i, k)
                  && PaysAt(trace, j, k, figures);
      assert ApprovesAt(longer, i, k, figures) && UnwrittenSince(longer, i, k) && PaysAt(longer, j, k, figures);
    }
  }

  lemma ApprovalIsRecorded(trace: seq<Event>, e: Event, k: Key)
    requires e.Moved? && k in e.moved
    ensures e.to == Approved && IsApprover(e.role) ==> IsApproved(trace + [e], k, e.moved[k])
    ensures e.to == Paid && IsApproved(trace, k, e.moved[k]) ==> IsPaidAfterApproval(trace + [e], k, e.moved[k])
  {
    var longer, last := trace + [e], |trace|;
    if e.to == Approved && IsApprover(e.role) {
      assert ApprovesAt(longer, last, k, e.moved[k]) && UnwrittenSince(longer, last, k);
    }
    if e.to == Paid && IsApproved(trace, k, e.moved[k]) {
      var i :| ApprovesAt(trace, i, k, e.moved[k]) && UnwrittenSince(trace, i, k);
      assert ApprovesAt(longer, i, k, e.moved[k]) && UnwrittenSince(longer, i, k)
          && PaysAt(longer, last, k, e.moved[k]);
    }
  }

  lemma StepKeepsInv(s: Store, step: Step)
    requires Inv(s) && Next(s, step).Ok?
    ensures Inv(Next(s, step).value)
  {
    var n := Next(s, step).value;
    if n.trace != s.trace {
      var e := n.trace[|s.trace|];
      assert n.trace == s.trace + [e];
      forall k | k in n.slips
        ensures n.slips[k].status == Approved ==> IsApproved(n.trace, k, n.slips[k].figures)
        ensures n.slips[k].status == Paid ==> IsPaidAfterApproval(n.trace, k, n.slips[k].figures)
      {
        if e.Written? && e.key == k {
        } else {
          ApprovalSurvives(s.trace, e, k, n.slips[k].figures);
          if e.Moved? && k in e.moved {
            ApprovalIsRecorded(s.trace, e, k);
          }
        }
      }
    }
  }

  /** The state after any interleaving; a step that fails changes nothing. */
  ghost function After(steps: seq<Step>): Store {
    if steps == [] then Store(map[], multiset{}, [])
    else
      var before := After(steps[..|steps| - 1]);
      var r := Next(before, steps[|steps| - 1]);
      if r.Ok? then r.value else before
  }

  lemma {:induction false} EveryRunKeepsInv(steps: seq<Step>)
    ensures Inv(After(steps))
  {
    if steps != [] {
      var before := After(steps[..|steps| - 1]);
      EveryRunKeepsInv(steps[..|steps| - 1]);
      if Next(before, steps[|steps| - 1]).Ok? {
        StepKeepsInv(before, steps[|steps| - 1]);
      }
    }
  }

  /** In every interleaving, an approved payslip carries figures that a non-accountant approved since they
      were last written, and a paid one was approved so before it was paid. */
  lemma ApprovedFiguresWereApproved(steps: seq<Step>, k: Key)
    requires k in After(steps).slips
    ensures var slip := After(steps).slips[k];
            && (slip.status == Approved || slip.status == Paid ==> IsApproved(After(steps).trace, k, slip.figures))
            && (slip.status == Paid ==> IsPaidAfterApproval(After(steps).trace, k, slip.figures))
  {
    EveryRunKeepsInv(steps);
  }

  /** A flagged payslip leaves NEEDS_RECALCULATION without new figures exactly through a bulk update to
      PROCESSED, despite the message that it must be regenerated. */
  lemma FlaggedMovesWithoutRegenerationIff(s: Store, step: Step, k: Key)
    requires k in s.slips && s.slips[k].status == NeedsRecalculation && Next(s, step).Ok?
    ensures k in Next(s, step).value.slips
    ensures var n := Next(s, step).value;
            && n.slips[k].status != NeedsRecalculation && Written(k, n.slips[k].figures) !in n.trace[|s.trace|..]
            <==> step.BulkUpdate? && step.to == Processed && k in step.scope
  {
    var n := Next(s, step).value;
    if step.Finish? && step.pending.Write? && step.pending.key == k {
      assert n.trace[|s.trace|] == Written(k, n.slips[k].figures);
    }
  }

  // ---- Overwriting what is paid ----

  /** Step b is the one whose checks let write w through. */
  ghost predicate Began(steps: seq<Step>, b: int, w: Pending) {
    && 0 <= b < |steps| && w.Write?
    && Next(After(steps[..b]), steps[b]).Ok?
    && Next(After(steps[..b]), steps[b]).value.pending == After(steps[..b]).pending + multiset{w}
  }

  lemma OneStepAddsOne(s: Store, step: Step, w: Pending)
    requires Next(s, step).Ok? && w !in s.pending && w in Next(s, step).value.pending
    ensures Next(s, step).value.pending == s.pending + multiset{w}
  {
  }

  lemma {:induction false} PendingWritesBegan(steps: seq<Step>, w: Pending)
    requires w in After(steps).pending && w.Write?
    ensures exists b :: Began(steps, b, w)
  {
    hide Next;
    var last := |steps| - 1;
    var before := steps[..last];
    if w in After(before).pending {
      PendingWritesBegan(before, w);
      var b :| Began(before, b, w);
      assert before[..b] == steps[..b];
      assert Began(steps, b, w);
    } else {
      OneStepAddsOne(After(before), steps[last], w);
      assert Began(steps, last, w);
    }
  }

  /** The request whose write is pending, and whether its checks asked for a reason. */
  lemma BeginningOf(s: Store, step: Step, w: Pending)
    requires w.Write? && Next(s, step).Ok? && Next(s, step).value.pending == s.pending + multiset{w}
    ensures (step.BeginGenerate? || step.BeginRegenerate?) && w.key == step.key && w.figures == step.figures
    ensures w.overPaid <==> IsPaid(s, w.key)
    ensures w.overPaid ==> step.BeginGenerate? && step.role != OrgAccountant && step.reasonWords >= 10
  {
    assert |Next(s, step).value.pending| == |s.pending| + 1;
    assert (s.pending + multiset{w})[w] == s.pending[w] + 1;
    if step.BeginGenerate? || step.BeginRegenerate? {
      var v := Write(step.key, step.figures, if step.BeginGenerate? then IsPaid(s, step.key) else false);
      assert v != w ==> (s.pending + multiset{v})[w] == s.pending[w];
    }
  }

  /** In every interleaving, a completed write that overwrites a paid payslip passed the demand for a reason of
      ten words from somebody other than an accountant, exactly when the payslip was paid as its checks were
      made; otherwise no reason was asked for, and the payment came between checks and write. */
  lemma PaidOverwriteAskedForReasonIff(steps: seq<Step>, w: Pending)
    requires w.Write? && w in After(steps).pending && IsPaid(After(steps), w.key)
    ensures Next(After(steps), Finish(w)).Ok? && !IsPaid(Next(After(steps), Finish(w)).value, w.key)
    ensures exists b :: Began(steps, b, w)
    ensures forall b :: Began(steps, b, w) ==>
              && (w.overPaid <==> IsPaid(After(steps[..b]), w.key))
              && (w.overPaid ==>
                    steps[b].BeginGenerate? && steps[b].role != OrgAccountant && steps[b].reasonWords >= 10)
              && (!w.overPaid ==> exists p :: b < p <= |steps| && PaidBetween(steps, p, w.key))
  {
    PendingWritesBegan(steps, w);
    forall b | Began(steps, b, w)
      ensures w.overPaid <==> IsPaid(After(steps[..b]), w.key)
      ensures w.overPaid ==> steps[b].BeginGenerate? && steps[b].role != OrgAccountant && steps[b].reasonWords >= 10
      ensures !w.overPaid ==> exists p :: b < p <= |steps| && PaidBetween(steps, p, w.key)
    {
      BeginningOf(After(steps[..b]), steps[b], w);
      if !w.overPaid {
        assert steps[..|steps|] == steps;
        var p := TurnsPaid(steps, b, |steps|, w.key);
      }
    }
    hide Began, PaidBetween;
  }

  /** Step p - 1 made the payslip paid. */
  ghost predicate PaidBetween(steps: seq<Step>, p: int, key: Key) {
    0 < p <= |steps| && !IsPaid(After(steps[..p - 1]), key) && IsPaid(After(steps[..p]), key)
  }

  lemma {:induction false} TurnsPaid(steps: seq<Step>, b: nat, c: nat, key: Key) returns (p: nat)
    requires b < c <= |steps| && !IsPaid(After(steps[..b]), key) && IsPaid(After(steps[..c]), key)
    ensures b < p <= c && PaidBetween(steps, p, key)
    decreases c
  {
    hide After;
    if IsPaid(After(steps[..c - 1]), key) {
      p := TurnsPaid(steps, b, c - 1, key);
    } else {
      p := c;
    }
  }

  /** Reading and writing in separate steps lets an accountant overwrite a payslip that is paid in
      between: the write is accepted although the same request would now be refused. The payslip is a
      draft again, so the invariant stands. */
  lemma GenerateCanOverwritePaid(s: Store, k: Key, figures: Payslip)
    requires k in s.slips && s.slips[k].status == Approved && !IsSkipped(figures)
    ensures var begin := BeginGenerate(k, OrgAccountant, 0, figures);
            && Next(s, begin).Ok?
            && var read := Next(s, begin).value;
            && Next(read, UpdateStatus(k, Paid, OrgAdmin)).Ok?
            && var paid := Next(read, UpdateStatus(k, Paid, OrgAdmin)).value;
            && paid.slips[k] == Slip(s.slips[k].figures, Paid)
            && Next(paid, begin) == Err(PayrollLocked)
            && Next(paid, Finish(Write(k, figures, false))).Ok?
            && Next(paid, Finish(Write(k, figures, false))).value.slips[k] == Slip(figures, Draft)
  {
  }

  // ---- Paying the same figures twice ----

  /** The status of a payslip as the trace tells it: that of the last event about it. */
  ghost function StatusOf(trace: seq<Event>, k: Key): Option<PayStatus> {
    if trace == [] then None
    else
      var e := trace[|trace| - 1];
      match e
      case Written(key, _) => if key == k then Some(Draft) else StatusOf(trace[..|trace| - 1], k)
      case Flagged(key) => if key == k then Some(NeedsRecalculation) else StatusOf(trace[..|trace| - 1], k)
      case Moved(moved, to, _) => if k in moved then Some(to) else StatusOf(trace[..|trace| - 1], k)
  }

  ghost predicate TellsStatus(s: Store) {
    forall k :: StatusOf(s.trace, k) == if k in s.slips then Some(s.slips[k].status) else None
  }

  /** A status change that some request of its role allows. */
  ghost predicate IsLegal(from: Option<PayStatus>, e: Event)
    requires e.Moved?
  {
    from.Some? && (from.value, e.to) in Moves(e.role) + BulkMoves(e.role)
  }

  /** Every status change of the trace is such a change for every payslip it moves; none moves a paid one. */
  ghost predicate MovesAreLegal(trace: seq<Event>) {
    forall j, k :: 0 <= j < |trace| && trace[j].Moved? && k in trace[j].moved ==>
      IsLegal(StatusOf(trace[..j], k), trace[j])
  }

  lemma PaidDoesNotMove(e: Event)
    requires e.Moved?
    ensures !IsLegal(Some(Paid), e)
  {
  }

  lemma TraceStep(s: Store, step: Step)
    requires TellsStatus(s) && Next(s, step).Ok?
    ensures TellsStatus(Next(s, step).value)
    ensures var n := Next(s, step).value;
            n.trace == s.trace || (|n.trace| == |s.trace| + 1 && n.trace[..|s.trace|] == s.trace
                                   && (n.trace[|s.trace|].Moved? ==>
                                         forall k :: k in n.trace[|s.trace|].moved ==>
                                             IsLegal(StatusOf(s.trace, k), n.trace[|s.trace|])))
  {
    var n := Next(s, step).value;
    if n.trace != s.trace {
      assert n.trace[..|s.trace|] == s.trace;
      forall k ensures StatusOf(n.trace, k) == if k in n.slips then Some(n.slips[k].status) else None {
        assert StatusOf(s.trace, k) == if k in s.slips then Some(s.slips[k].status) else None;
      }
      if n.trace[|s.trace|].Moved? {
        forall k | k in n.trace[|s.trace|].moved ensures IsLegal(StatusOf(s.trace, k), n.trace[|s.trace|]) {
          assert k in s.slips;
        }
      }
    }
  }

  /** In every interleaving the trace tells the status of every payslip, and every status change in it is one that
      its role may make, one by one or in bulk. */
  lemma {:induction false} EveryTraceIsLegal(steps: seq<Step>)
    ensures TellsStatus(After(steps)) && MovesAreLegal(After(steps).trace)
  {
    if steps != [] {
      var before, step := After(steps[..|steps| - 1]), steps[|steps| - 1];
      EveryTraceIsLegal(steps[..|steps| - 1]);
      if Next(before, step).Ok? {
        TraceStep(before, step);
        LongerTraceIsLegal(before.trace, After(steps).trace);
      }
    }
  }

  lemma LongerTraceIsLegal(trace: seq<Event>, longer: seq<Event>)
    requires MovesAreLegal(trace)
    requires longer == trace || (|longer| == |trace| + 1 && longer[..|trace|] == trace
                                 && (longer[|trace|].Moved? ==>
                                       forall k :: k in longer[|trace|].moved ==>
                                           IsLegal(StatusOf(trace, k), longer[|trace|])))
    ensures MovesAreLegal(longer)
  {
    hide StatusOf, IsLegal;
    forall j, k | 0 <= j < |longer| && longer[j].Moved? && k in longer[j].moved
      ensures IsLegal(StatusOf(longer[..j], k), longer[j])
    {
      if j < |trace| {
        assert longer[j] == longer[..|trace|][j] == trace[j];
        assert longer[..j] == longer[..|trace|][..j] == trace[..j];
      }
    }
  }

  lemma {:induction false} StaysPaid(trace: seq<Event>, i: nat, j: nat, k: Key)
    requires MovesAreLegal(trace) && i < j <= |trace| && trace[i].Moved? && trace[i].to == Paid && k in trace[i].moved
    requires forall x :: i < x < j ==> trace[x] != Flagged(k) && !(trace[x].Written? && trace[x].key == k)
    ensures StatusOf(trace[..j], k) == Some(Paid)
    decreases j
  {
    assert trace[..j][..j - 1] == trace[..j - 1];
    assert trace[..j][j - 1] == trace[j - 1];
    if i < j - 1 {
      StaysPaid(trace, i, j - 1, k);
      if trace[j - 1].Moved? {
        PaidDoesNotMove(trace[j - 1]);
      }
      hide IsLegal;
    }
  }

  /** In every interleaving, between two payments of a payslip without new figures in between it was flagged for
      recalculation: a flag does not spare paid payslips, and nothing else leads out of PAID. */
  lemma PaidTwiceWasFlagged(steps: seq<Step>, i: nat, j: nat, k: Key, figures: Payslip)
    requires PaysAt(After(steps).trace, i, k, figures) && PaysAt(After(steps).trace, j, k, figures) && i < j
    requires forall x :: i < x < j && After(steps).trace[x].Written? ==> After(steps).trace[x].key != k
    ensures exists x :: i < x < j && After(steps).trace[x] == Flagged(k)
  {
    var trace := After(steps).trace;
    EveryTraceIsLegal(steps);
    hide After;
    if forall x :: i < x < j ==> trace[x] != Flagged(k) {
      StaysPaid(trace, i, j, k);
    }
  }

  /** And then it can be: flagged, bulk processed, approved and paid again, with the figures it had. */
  lemma FlaggedPaidSlipIsPaidAgain(s: Store, k: Key)
    requires IsPaid(s, k)
    ensures var flag := Next(s, BeginFlag(k));
            && flag.Ok? && Next(flag.value, Finish(Flag(k))).Ok?
            && var flagged := Next(flag.value, Finish(Flag(k))).value;
            && Next(flagged, BulkUpdate({k}, Processed, OrgAdmin)).Ok?
            && var processed := Next(flagged, BulkUpdate({k}, Processed, OrgAdmin)).value;
            && Next(processed, UpdateStatus(k, Approved, OrgAdmin)).Ok?
            && var approved := Next(processed, UpdateStatus(k, Approved, OrgAdmin)).value;
            && Next(approved, UpdateStatus(k, Paid, OrgAdmin)).Ok?
            && var paid := Next(approved, UpdateStatus(k, Paid, OrgAdmin)).value;
            && k in paid.slips && paid.slips[k] == Slip(s.slips[k].figures, Paid)
  {
  }
}
