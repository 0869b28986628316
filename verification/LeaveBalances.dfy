/** Yearly leave balances: initialization with carry-over, and days used by leave decisions. */
module LeaveBalances {
  import opened Prelude
  import opened Clock
  import Leaves

  // ---- Balances ----

  /** One kind of leave in one year. */
  datatype Bucket = Bucket(entitlement: int, carriedOver: int, used: int) {
    function Unused(): int { entitlement + carriedOver - used }

    /** `withAvailable`: never shown below zero. */
    function Available(): int { Max(0, Unused()) }
  }

  datatype Balance = Balance(annual: Bucket, sick: Bucket, casual: Bucket)

  datatype Key = Key(member: nat, bsYear: int)

  datatype Policy = Policy(enabled: bool, annual: nat, sick: nat, casual: nat)

  const ANNUAL_ACCUMULATION_CAP := 90
  const SICK_ACCUMULATION_CAP := 45
  const CASUAL_ACCUMULATION_CAP := 90

  // ---- Initializing a year ----

  /** Unused days of last year, capped so that they and the new entitlement stay within the cap. */
  function CarryOver(previous: Bucket, entitlement: int, cap: int): int {
    Min(previous.Available(), Max(0, cap - entitlement))
  }

  /** Unused days for which the cap leaves no room beside the new entitlement. */
  function Forfeited(previous: Bucket, entitlement: int, cap: int): int {
    Max(0, previous.Unused() - Max(0, cap - entitlement))
  }

  datatype PreviewRow = PreviewRow(member: nat, balance: Balance, skipped: bool, cappedWarning: bool)

  /** The balance a member starts the year with. */
  function NewBalance(previous: Option<Balance>, policy: Policy): Balance {
    match previous
    case None => Balance(Bucket(policy.annual, 0, 0), Bucket(policy.sick, 0, 0), Bucket(policy.casual, 0, 0))
    case Some(p) =>
      Balance(Bucket(policy.annual, CarryOver(p.annual, policy.annual, ANNUAL_ACCUMULATION_CAP), 0),
              Bucket(policy.sick, CarryOver(p.sick, policy.sick, SICK_ACCUMULATION_CAP), 0),
              Bucket(policy.casual, CarryOver(p.casual, policy.casual, CASUAL_ACCUMULATION_CAP), 0))
  }

  /** The warning compares annual and sick days with their limits, casual days with nothing. */
  function CappedWarning(previous: Option<Balance>, policy: Policy): bool {
    previous.Some?
    && (previous.value.annual.Unused() > Max(0, ANNUAL_ACCUMULATION_CAP - policy.annual)
        || previous.value.sick.Unused() > Max(0, SICK_ACCUMULATION_CAP - policy.sick))
  }

  function Lookup(balances: map<Key, Balance>, key: Key): Option<Balance> {
    if key in balances then Some(balances[key]) else None
  }

  function PreviewFor(balances: map<Key, Balance>, policy: Policy, bsYear: int, member: nat): PreviewRow {
    var previous := Lookup(balances, Key(member, bsYear - 1));
    PreviewRow(member, NewBalance(previous, policy), Key(member, bsYear) in balances, CappedWarning(previous, policy))
  }

  /** The table after a real run over the members in turn: a new row for each without one. */
  ghost function Initialized(balances: map<Key, Balance>, policy: Policy, bsYear: int, members: seq<nat>)
    : map<Key, Balance>
  {
    if members == [] then balances
    else
      var m := members[|members| - 1];
      var before := Initialized(balances, policy, bsYear, members[..|members| - 1]);
      if Key(m, bsYear) in balances then before
      else before[Key(m, bsYear) := PreviewFor(balances, policy, bsYear, m).balance]
  }

  datatype InitError = OrganizationNotFound | LeaveBalanceDisabled

  datatype InitResult = InitResult(preview: seq<PreviewRow>, created: nat, skipped: nat)

  ghost function CountSkipped(preview: seq<PreviewRow>): nat {
    if preview == [] then 0
    else CountSkipped(preview[..|preview| - 1]) + if preview[|preview| - 1].skipped then 1 else 0
  }

  /** Existing rows are kept, and the new ones are those previewed for the members. */
  lemma {:induction false} InitializedAt(balances: map<Key, Balance>, policy: Policy, bsYear: int, members: seq<nat>,
                                         key: Key)
    ensures var after := Initialized(balances, policy, bsYear, members);
            && (key in after <==> key in balances || (key.bsYear == bsYear && key.member in members))
            && (key in after ==> after[key] == if key in balances then balances[key]
                                               else PreviewFor(balances, policy, bsYear, key.member).balance)
  {
    hide PreviewFor;
    if members != [] {
      InitializedAt(balances, policy, bsYear, members[..|members| - 1], key);
    }
  }

  // ---- Leave decisions ----

  /** Only these kinds have a balance. */
  predicate IsTracked(kind: Leaves.LeaveType) { kind == Leaves.Annual || kind == Leaves.Sick || kind == Leaves.Casual }

  function BucketOf(b: Balance, kind: Leaves.LeaveType): Bucket
    requires IsTracked(kind)
  {
    match kind
    case Annual => b.annual
    case Sick => b.sick
    case Casual => b.casual
  }

  function WithUsed(b: Balance, kind: Leaves.LeaveType, used: int): Balance
    requires IsTracked(kind)
  {
    match kind
    case Annual => b.(annual := b.annual.(used := used))
    case Sick => b.(sick := b.sick.(used := used))
    case Casual => b.(casual := b.casual.(used := used))
  }

  function DaysOf(startDate: int, endDate: int): int { CeilDays(endDate - startDate) + 1 }

  /** A refund that has been computed from a read and is still to be written. */
  datatype Refund = Refund(key: Key, kind: Leaves.LeaveType, used: int)

  class LeaveLedger {
    var balances: map<Key, Balance>

    method InitializeYear(policy: Option<Policy>, bsYear: int, members: seq<nat>, dryRun: bool)
      returns (r: Result<InitResult, InitError>)
      modifies this
      ensures policy.None? ==> r == Err(OrganizationNotFound)
      ensures policy.Some? && !policy.value.enabled ==> r == Err(LeaveBalanceDisabled)
      ensures policy.Some? && policy.value.enabled ==>
                && r.Ok? && |r.value.preview| == |members|
                && (forall i :: 0 <= i < |members| ==>
                      r.value.preview[i] == PreviewFor(old(balances), policy.value, bsYear, members[i]))
                && r.value.skipped == CountSkipped(r.value.preview)
                && r.value.created == if dryRun then 0 else |members| - CountSkipped(r.value.preview)
      ensures balances == if policy.Some? && policy.value.enabled && !dryRun
                          then Initialized(old(balances), policy.value, bsYear, members)
                          else old(balances)
    {
      hide PreviewFor, Initialized;
      if policy.None? {
        return Err(OrganizationNotFound);
      }
      if !policy.value.enabled {
        return Err(LeaveBalanceDisabled);
      }
      var preview: seq<PreviewRow> := [];
      var skipped := 0;
      for i := 0 to |members|
        invariant balances == old(balances)
        invariant |preview| == i && skipped == CountSkipped(preview) <= i
        invariant forall j :: 0 <= j < i ==> preview[j] == PreviewFor(balances, policy.value, bsYear, members[j])
      {
        var row := PreviewRowOf(policy.value, bsYear, members[i]);
        assert (preview + [row])[..i] == preview;
        preview := preview + [row];
        if row.skipped {
          skipped := skipped + 1;
        }
      }
      if dryRun {
        return Ok(InitResult(preview, 0, skipped));
      }
      WriteNew(policy.value, bsYear, members, preview);
      return Ok(InitResult(preview, |preview| - skipped, skipped));
    }

    /** The body of the loop over the members. */
    method PreviewRowOf(policy: Policy, bsYear: int, member: nat) returns (row: PreviewRow)
      ensures row == PreviewFor(balances, policy, bsYear, member)
    {
      var annualCarriedOver, sickCarriedOver, casualCarriedOver, cappedWarning := 0, 0, 0, false;
      if Key(member, bsYear - 1) in balances {
        var prev := balances[Key(member, bsYear - 1)];
        var prevAnnualAvailable := prev.annual.entitlement + prev.annual.carriedOver - prev.annual.used;
        var prevSickAvailable := prev.sick.entitlement + prev.sick.carriedOver - prev.sick.used;
        var prevCasualAvailable := prev.casual.entitlement + prev.casual.carriedOver - prev.casual.used;
        var maxAnnualCarryOver := Max(0, ANNUAL_ACCUMULATION_CAP - policy.annual);
        var maxSickCarryOver := Max(0, SICK_ACCUMULATION_CAP - policy.sick);
        var maxCasualCarryOver := Max(0, CASUAL_ACCUMULATION_CAP - policy.casual);
        annualCarriedOver := Min(Max(0, prevAnnualAvailable), maxAnnualCarryOver);
        sickCarriedOver := Min(Max(0, prevSickAvailable), maxSickCarryOver);
        casualCarriedOver := Min(Max(0, prevCasualAvailable), maxCasualCarryOver);
        cappedWarning := prevAnnualAvailable > maxAnnualCarryOver || prevSickAvailable > maxSickCarryOver;
      }
      var balance := Balance(Bucket(policy.annual, annualCarriedOver, 0), Bucket(policy.sick, sickCarriedOver, 0),
                             Bucket(policy.casual, casualCarriedOver, 0));
      return PreviewRow(member, balance, Key(member, bsYear) in balances, cappedWarning);
    }

    /** Creates a row for every previewed member that is not skipped. */
    method WriteNew(policy: Policy, bsYear: int, ghost members: seq<nat>, preview: seq<PreviewRow>)
      requires |preview| == |members|
      requires forall i :: 0 <= i < |members| ==> preview[i] == PreviewFor(balances, policy, bsYear, members[i])
      modifies this
      ensures balances == Initialized(old(balances), policy, bsYear, members)
    {
      ghost var before := balances;
      for i := 0 to |preview|
        invariant balances == Initialized(before, policy, bsYear, members[..i])
      {
        hide PreviewFor;
        assert members[..i + 1][..i] == members[..i];
        var row := preview[i];
        if !row.skipped {
          balances := balances[Key(row.member, bsYear) := row.balance];
        }
      }
      assert members[..|preview|] == members;
    }

    /** An approval adds the days to the used count in one statement. */
    method Approve(enabled: bool, key: Key, kind: Leaves.LeaveType, startDate: int, endDate: int)
      modifies this
      ensures balances == Approved(old(balances), enabled, key, kind, DaysOf(startDate, endDate))
    {
      if !IsTracked(kind) || !enabled || key !in balances {
        return;
      }
      var days := CeilDays(endDate - startDate) + 1;
      var b := balances[key];
      balances := balances[key := WithUsed(b, kind, BucketOf(b, kind).used + days)];
    }

    /** A rejection reads the used count, and writes the refund later. */
    method RejectRead(enabled: bool, key: Key, kind: Leaves.LeaveType, startDate: int, endDate: int)
      returns (refund: Option<Refund>)
      ensures refund == RefundFor(balances, enabled, key, kind, DaysOf(startDate, endDate))
    {
      if !IsTracked(kind) || !enabled || key !in balances {
        return None;
      }
      var days := CeilDays(endDate - startDate) + 1;
      var currentUsed := BucketOf(balances[key], kind).used;
      return Some(Refund(key, kind, Max(0, currentUsed - days)));
    }

    method RejectWrite(refund: Refund)
      requires IsTracked(refund.kind)
      modifies this
      ensures balances == Refunded(old(balances), refund)
    {
      if refund.key in balances {
        balances := balances[refund.key := WithUsed(balances[refund.key], refund.kind, refund.used)];
      }
    }
  }

  function Approved(balances: map<Key, Balance>, enabled: bool, key: Key, kind: Leaves.LeaveType, days: int)
    : map<Key, Balance>
  {
    if !IsTracked(kind) || !enabled || key !in balances then balances
    else balances[key := WithUsed(balances[key], kind, BucketOf(balances[key], kind).used + days)]
  }

  function RefundFor(balances: map<Key, Balance>, enabled: bool, key: Key, kind: Leaves.LeaveType, days: int)
    : Option<Refund>
  {
    if !IsTracked(kind) || !enabled || key !in balances then None
    else Some(Refund(key, kind, Max(0, BucketOf(balances[key], kind).used - days)))
  }

  function Refunded(balances: map<Key, Balance>, refund: Refund): map<Key, Balance>
    requires IsTracked(refund.kind)
  {
    if refund.key in balances then balances[refund.key := WithUsed(balances[refund.key], refund.kind, refund.used)]
    else balances
  }

  // ---- Creating a balance ----

  /** Carry-over plus forfeited days are last year's available days; entitlement plus carry-over stays
      within the cap, unless the entitlement alone exceeds it; days are forfeited exactly when more are
      unused than the cap leaves room for. */
  lemma CarryOverConserves(previous: Bucket, entitlement: int, cap: int)
    ensures CarryOver(previous, entitlement, cap) + Forfeited(previous, entitlement, cap) == previous.Available()
    ensures 0 <= CarryOver(previous, entitlement, cap) && 0 <= Forfeited(previous, entitlement, cap)
    ensures entitlement + CarryOver(previous, entitlement, cap) <= Max(cap, entitlement)
    ensures Forfeited(previous, entitlement, cap) > 0 <==> previous.Unused() > Max(0, cap - entitlement)
  {
  }

  /** The warning is shown exactly when annual or sick days are forfeited. */
  lemma WarningMeansAnnualOrSickForfeited(previous: Balance, policy: Policy)
    ensures CappedWarning(Some(previous), policy)
            <==> || Forfeited(previous.annual, policy.annual, ANNUAL_ACCUMULATION_CAP) > 0
                 || Forfeited(previous.sick, policy.sick, SICK_ACCUMULATION_CAP) > 0
  {
    CarryOverConserves(previous.annual, policy.annual, ANNUAL_ACCUMULATION_CAP);
    CarryOverConserves(previous.sick, policy.sick, SICK_ACCUMULATION_CAP);
  }

  /** Casual days are forfeited without a warning. */
  lemma CasualForfeitsSilently(previous: Balance, policy: Policy)
    requires previous.annual.Unused() <= 0 && previous.sick.Unused() <= 0
    requires previous.casual.Unused() > CASUAL_ACCUMULATION_CAP
    ensures Forfeited(previous.casual, policy.casual, CASUAL_ACCUMULATION_CAP) > 0
    ensures !CappedWarning(Some(previous), policy)
  {
  }

  /** A second run for the same members changes nothing, whatever the policy has become. */
  lemma RerunChangesNothing(balances: map<Key, Balance>, policy: Policy, again: Policy, bsYear: int, members: seq<nat>)
    ensures var once := Initialized(balances, policy, bsYear, members);
            Initialized(once, again, bsYear, members) == once
  {
    hide Initialized, PreviewFor;
    var once := Initialized(balances, policy, bsYear, members);
    var twice := Initialized(once, again, bsYear, members);
    forall key: Key
      ensures key in twice <==> key in once
      ensures key in twice ==> twice[key] == once[key]
    {
      InitializedAt(balances, policy, bsYear, members, key);
      InitializedAt(once, again, bsYear, members, key);
    }
  }

  /** A real run writes what a dry run previews: each member's row is the previewed one unless it was
      there before, with the previewed availability, and no other row is touched. */
  lemma PreviewIsWhatIsWritten(balances: map<Key, Balance>, policy: Policy, bsYear: int, members: seq<nat>, key: Key)
    ensures var once := Initialized(balances, policy, bsYear, members);
            var row := PreviewFor(balances, policy, bsYear, key.member);
            && (key.bsYear == bsYear && key.member in members ==>
                  && key in once
                  && (row.skipped <==> key in balances)
                  && once[key] == (if row.skipped then balances[key] else row.balance)
                  && row.balance.annual.Available() == row.balance.annual.entitlement + row.balance.annual.carriedOver
                  && row.balance.sick.Available() == row.balance.sick.entitlement + row.balance.sick.carriedOver
                  && row.balance.casual.Available() == row.balance.casual.entitlement + row.balance.casual.carriedOver)
            && (!(key.bsYear == bsYear && key.member in members) ==> Lookup(once, key) == Lookup(balances, key))
  {
    hide Initialized;
    InitializedAt(balances, policy, bsYear, members, key);
  }

  // ---- Runs ----

  datatype Step =
    | Initialize(policy: Policy, bsYear: int, members: seq<nat>, dryRun: bool)
    | ApproveLeave(enabled: bool, key: Key, kind: Leaves.LeaveType, days: nat)
    | BeginReject(enabled: bool, key: Key, kind: Leaves.LeaveType, days: nat)
    | FinishReject(refund: Refund)

  /** Days approved so far are kept by year and kind, whether or not they were charged to a balance. */
  datatype Ledger = Ledger(balances: map<Key, Balance>, pending: multiset<Refund>, approvals: seq<Step>)

  ghost function ApprovedDays(approvals: seq<Step>, key: Key, kind: Leaves.LeaveType): nat {
    if approvals == [] then 0
    else
      var last := approvals[|approvals| - 1];
      ApprovedDays(approvals[..|approvals| - 1], key, kind)
      + if last.ApproveLeave? && last.key == key && last.kind == kind then last.days else 0
  }

  ghost function Next(l: Ledger, step: Step): Ledger {
    match step
    case Initialize(policy, bsYear, members, dryRun) =>
      if !policy.enabled || dryRun then l else l.(balances := Initialized(l.balances, policy, bsYear, members))
    case ApproveLeave(enabled, key, kind, days) =>
      l.(balances := Approved(l.balances, enabled, key, kind, days), approvals := l.approvals + [step])
    case BeginReject(enabled, key, kind, days) =>
      var refund := RefundFor(l.balances, enabled, key, kind, days);
      if refund.Some? then l.(pending := l.pending + multiset{refund.value}) else l
    case FinishReject(refund) =>
      if refund in l.pending && IsTracked(refund.kind) then
        l.(balances := Refunded(l.balances, refund), pending := l.pending - multiset{refund})
      else l
  }

  ghost function After(steps: seq<Step>): Ledger {
    if steps == [] then Ledger(map[], multiset{}, []) else Next(After(steps[..|steps| - 1]), steps[|steps| - 1])
  }

  /** Within the cap, and no more days used than approved. */
  ghost predicate BucketOk(b: Bucket, cap: int, approved: nat) {
    && 0 <= b.entitlement && 0 <= b.carriedOver
    && b.entitlement + b.carriedOver <= Max(cap, b.entitlement)
    && 0 <= b.used <= approved
  }

  ghost predicate BalanceOk(b: Balance, approvals: seq<Step>, key: Key) {
    && BucketOk(b.annual, ANNUAL_ACCUMULATION_CAP, ApprovedDays(approvals, key, Leaves.Annual))
    && BucketOk(b.sick, SICK_ACCUMULATION_CAP, ApprovedDays(approvals, key, Leaves.Sick))
    && BucketOk(b.casual, CASUAL_ACCUMULATION_CAP, ApprovedDays(approvals, key, Leaves.Casual))
  }

  ghost predicate Inv(l: Ledger) {
    && (forall key :: key in l.balances ==> BalanceOk(l.balances[key], l.approvals, key))
    && (forall r :: r in l.pending ==> IsTracked(r.kind) && 0 <= r.used <= ApprovedDays(l.approvals, r.key, r.kind))
  }

  lemma ApprovalAdds(approvals: seq<Step>, step: Step, key: Key, kind: Leaves.LeaveType)
    ensures ApprovedDays(approvals + [step], key, kind)
            == ApprovedDays(approvals, key, kind)
               + if step.ApproveLeave? && step.key == key && step.kind == kind then step.days else 0
  {
    assert (approvals + [step])[..|approvals|] == approvals;
  }

  lemma NewBalanceIsOk(previous: Option<Balance>, policy: Policy, approvals: seq<Step>, key: Key)
    ensures BalanceOk(NewBalance(previous, policy), approvals, key)
  {
  }

  lemma ApprovalKeepsBalance(b: Balance, approvals: seq<Step>, step: Step, key: Key)
    requires step.ApproveLeave? && BalanceOk(b, approvals, key)
    ensures BalanceOk(b, approvals + [step], key)
    ensures step.key == key && IsTracked(step.kind) ==>
              BalanceOk(WithUsed(b, step.kind, BucketOf(b, step.kind).used + step.days), approvals + [step], key)
  {
    ApprovalAdds(approvals, step, key, Leaves.Annual);
    ApprovalAdds(approvals, step, key, Leaves.Sick);
    ApprovalAdds(approvals, step, key, Leaves.Casual);
    hide ApprovedDays;
  }

  lemma ApproveKeepsInv(l: Ledger, step: Step)
    requires Inv(l) && step.ApproveLeave?
    ensures Inv(Next(l, step))
  {
    hide ApprovedDays, BalanceOk;
    var n := Next(l, step);
    forall key | key in n.balances
      ensures BalanceOk(n.balances[key], n.approvals, key)
    {
      ApprovalKeepsBalance(l.balances[key], l.approvals, step, key);
    }
    forall r | r in n.pending
      ensures IsTracked(r.kind) && 0 <= r.used <= ApprovedDays(n.approvals, r.key, r.kind)
    {
      ApprovalAdds(l.approvals, step, r.key, r.kind);
    }
  }

  lemma InitializeKeepsInv(l: Ledger, step: Step)
    requires Inv(l) && step.Initialize?
    ensures Inv(Next(l, step))
  {
    hide ApprovedDays, NewBalance, BalanceOk, Initialized;
    var n := Next(l, step);
    forall key | key in n.balances
      ensures BalanceOk(n.balances[key], l.approvals, key)
    {
      InitializedAt(l.balances, step.policy, step.bsYear, step.members, key);
      if key !in l.balances {
        NewBalanceIsOk(Lookup(l.balances, Key(key.member, step.bsYear - 1)), step.policy, l.approvals, key);
      }
    }
  }

  lemma RejectKeepsInv(l: Ledger, step: Step)
    requires Inv(l) && (step.BeginReject? || step.FinishReject?)
    ensures Inv(Next(l, step))
  {
    hide ApprovedDays;
    if step.BeginReject? {
      if step.key in l.balances {
        assert BalanceOk(l.balances[step.key], l.approvals, step.key);
      }
    } else if step.refund.key in l.balances {
      assert BalanceOk(l.balances[step.refund.key], l.approvals, step.refund.key);
    }
  }

  lemma StepKeepsInv(l: Ledger, step: Step)
    requires Inv(l)
    ensures Inv(Next(l, step))
  {
    hide Next, Inv;
    match step
    case ApproveLeave(_, _, _, _) => ApproveKeepsInv(l, step);
    case Initialize(_, _, _, _) => InitializeKeepsInv(l, step);
    case _ => RejectKeepsInv(l, step);
  }

  /** Over any sequence of years, policies and decisions, even with refunds written late: every balance
      stays within its cap and has used between 0 and the days approved for it. */
  lemma {:induction false} EveryRunKeepsBalances(steps: seq<Step>)
    ensures Inv(After(steps))
  {
    if steps != [] {
      EveryRunKeepsBalances(steps[..|steps| - 1]);
      StepKeepsInv(After(steps[..|steps| - 1]), steps[|steps| - 1]);
    }
  }

  // ---- Used days against charged days ----

  ghost function UsedOf(l: Ledger, key: Key, kind: Leaves.LeaveType): int {
    if key in l.balances && IsTracked(kind) then BucketOf(l.balances[key], kind).used else 0
  }

  /** Whether a step adds days to the used count, and whether it writes a refund over it. */
  ghost predicate Charges(l: Ledger, step: Step, key: Key, kind: Leaves.LeaveType) {
    step.ApproveLeave? && step.enabled && step.key == key && step.kind == kind && key in l.balances
  }

  ghost predicate Refunds(l: Ledger, step: Step, key: Key, kind: Leaves.LeaveType) {
    && step.FinishReject? && step.refund in l.pending
    && step.refund.key == key && step.refund.kind == kind && key in l.balances
  }

  /** Days charged to a balance since it was created. */
  ghost function ChargedDays(steps: seq<Step>, key: Key, kind: Leaves.LeaveType): nat {
    if steps == [] then 0
    else
      var before, step := steps[..|steps| - 1], steps[|steps| - 1];
      ChargedDays(before, key, kind) + if Charges(After(before), step, key, kind) then step.days else 0
  }

  lemma StepOnUsed(l: Ledger, step: Step, key: Key, kind: Leaves.LeaveType)
    requires IsTracked(kind)
    ensures UsedOf(Next(l, step), key, kind)
            == if Charges(l, step, key, kind) then UsedOf(l, key, kind) + step.days
               else if Refunds(l, step, key, kind) then step.refund.used
               else UsedOf(l, key, kind)
    ensures key in l.balances ==> key in Next(l, step).balances
  {
    hide Initialized, PreviewFor;
    if step.Initialize? {
      InitializedAt(l.balances, step.policy, step.bsYear, step.members, key);
      NewBalanceIsUnused(l.balances, step.policy, step.bsYear, key.member, kind);
    }
  }

  lemma NewBalanceIsUnused(balances: map<Key, Balance>, policy: Policy, bsYear: int, member: nat,
                           kind: Leaves.LeaveType)
    requires IsTracked(kind)
    ensures BucketOf(PreviewFor(balances, policy, bsYear, member).balance, kind).used == 0
  {
  }

  /** A refund written at once takes back the days of the rejected request, as far as there are used ones;
      so it changes nothing exactly when the request has no days or nothing was used. */
  lemma ImmediateRefund(l: Ledger, key: Key, kind: Leaves.LeaveType, days: nat)
    requires Inv(l) && key in l.balances && IsTracked(kind)
    ensures var read := Next(l, BeginReject(true, key, kind, days));
            var refund := RefundFor(l.balances, true, key, kind, days);
            && refund.Some?
            && UsedOf(Next(read, FinishReject(refund.value)), key, kind)
               == UsedOf(l, key, kind) - Min(days, UsedOf(l, key, kind))
            && (Next(read, FinishReject(refund.value)).balances == l.balances
                <==> days == 0 || UsedOf(l, key, kind) == 0)
  {
    hide BucketOk, ApprovedDays;
    var refund := RefundFor(l.balances, true, key, kind, days).value;
    var read := Next(l, BeginReject(true, key, kind, days));
    UsedIsNotNegative(l, key, kind);
    assert refund in read.pending;
    StepOnUsed(read, FinishReject(refund), key, kind);
    if refund.used == UsedOf(l, key, kind) {
      assert WithUsed(l.balances[key], kind, refund.used) == l.balances[key];
    }
  }

  lemma UsedIsNotNegative(l: Ledger, key: Key, kind: Leaves.LeaveType)
    requires Inv(l)
    ensures UsedOf(l, key, kind) >= 0
  {
    hide ApprovedDays;
    if key in l.balances {
      assert BalanceOk(l.balances[key], l.approvals, key);
    }
  }

  /** Every refund is written right after the read it was computed from. */
  ghost predicate PromptRefunds(steps: seq<Step>) {
    forall i :: 0 <= i < |steps| && steps[i].FinishReject? ==> IsPrompt(steps, i)
  }

  ghost predicate IsPrompt(steps: seq<Step>, i: nat)
    requires i < |steps| && steps[i].FinishReject?
  {
    && i > 0 && steps[i - 1].BeginReject?
    && RefundFor(After(steps[..i - 1]).balances, steps[i - 1].enabled, steps[i - 1].key, steps[i - 1].kind,
                 steps[i - 1].days)
       == Some(steps[i].refund)
  }

  /** Step i writes the refund of a rejected request that has days, while days are used. */
  ghost predicate TakesBack(steps: seq<Step>, i: int, key: Key, kind: Leaves.LeaveType) {
    && 0 < i < |steps|
    && Refunds(After(steps[..i]), steps[i], key, kind)
    && steps[i - 1].BeginReject? && steps[i - 1].days > 0 && UsedOf(After(steps[..i]), key, kind) > 0
  }

  /** In every run that writes each refund right after its read, used days are the days charged exactly when no
      rejection ever took any back; otherwise they are fewer. */
  lemma {:induction false} UsedIsChargedIff(steps: seq<Step>, key: Key, kind: Leaves.LeaveType)
    requires IsTracked(kind) && PromptRefunds(steps)
    ensures 0 <= UsedOf(After(steps), key, kind) <= ChargedDays(steps, key, kind)
    ensures UsedOf(After(steps), key, kind) == ChargedDays(steps, key, kind)
            <==> forall i :: !TakesBack(steps, i, key, kind)
  {
    if steps != [] {
      hide Next, UsedOf, PromptRefunds;
      var last := |steps| - 1;
      var before := steps[..last];
      PrefixIsPrompt(steps);
      TakesBackStep(steps, key, kind);
      UsedIsChargedIff(before, key, kind);
      StepOnUsed(After(before), steps[last], key, kind);
      assert TakesBack(steps, last, key, kind) ==> Refunds(After(before), steps[last], key, kind);
      if Refunds(After(before), steps[last], key, kind) {
        PromptRefundTakes(steps, key, kind);
        assert TakesBack(steps, last, key, kind) <==> steps[last - 1].days > 0 && UsedOf(After(before), key, kind) > 0;
      }
      hide TakesBack, Refunds;
    }
  }

  lemma PrefixIsPrompt(steps: seq<Step>)
    requires steps != [] && PromptRefunds(steps)
    ensures PromptRefunds(steps[..|steps| - 1])
  {
    hide After, RefundFor;
    var before := steps[..|steps| - 1];
    forall i | 0 <= i < |before| && before[i].FinishReject?
      ensures IsPrompt(before, i)
    {
      assert IsPrompt(steps, i);
      assert before[..i - 1] == steps[..i - 1];
    }
  }

  lemma TakesBackStep(steps: seq<Step>, key: Key, kind: Leaves.LeaveType)
    requires steps != []
    ensures var last := |steps| - 1;
            (forall i :: !TakesBack(steps, i, key, kind))
            <==> (forall i :: !TakesBack(steps[..last], i, key, kind)) && !TakesBack(steps, last, key, kind)
  {
    hide After, Refunds, UsedOf;
    var before := steps[..|steps| - 1];
    forall i | 0 <= i < |before|
      ensures TakesBack(before, i, key, kind) <==> TakesBack(steps, i, key, kind)
    {
      assert before[..i] == steps[..i];
    }
  }

  lemma PromptRefundTakes(steps: seq<Step>, key: Key, kind: Leaves.LeaveType)
    requires steps != [] && IsTracked(kind) && PromptRefunds(steps)
    requires Refunds(After(steps[..|steps| - 1]), steps[|steps| - 1], key, kind)
    ensures var last := |steps| - 1;
            && last > 0 && steps[last - 1].BeginReject?
            && UsedOf(After(steps[..last]), key, kind) >= 0
            && steps[last].refund.used
               == UsedOf(After(steps[..last]), key, kind)
                  - Min(steps[last - 1].days, UsedOf(After(steps[..last]), key, kind))
  {
    var last := |steps| - 1;
    assert IsPrompt(steps, last);
    var read := After(steps[..last - 1]);
    assert steps[..last][..last - 1] == steps[..last - 1];
    assert After(steps[..last]) == Next(read, steps[last - 1]);
    assert After(steps[..last]).balances == read.balances;
    EveryRunKeepsBalances(steps[..last - 1]);
    UsedIsNotNegative(read, key, kind);
  }

  /** Without refunds used days are the days charged, with no assumption on the run. */
  lemma {:induction false} UsedIsChargedWithoutRefunds(steps: seq<Step>, key: Key, kind: Leaves.LeaveType)
    requires IsTracked(kind) && forall i :: 0 <= i < |steps| ==> !Refunds(After(steps[..i]), steps[i], key, kind)
    ensures UsedOf(After(steps), key, kind) == ChargedDays(steps, key, kind)
  {
    if steps != [] {
      var before := steps[..|steps| - 1];
      assert forall i :: 0 <= i < |before| ==> before[..i] == steps[..i];
      UsedIsChargedWithoutRefunds(before, key, kind);
      StepOnUsed(After(before), steps[|steps| - 1], key, kind);
    }
  }

  // ---- Many years ----

  function CapOf(kind: Leaves.LeaveType): int {
    match kind
    case Annual => ANNUAL_ACCUMULATION_CAP
    case Sick => SICK_ACCUMULATION_CAP
    case _ => CASUAL_ACCUMULATION_CAP
  }

  function BucketAt(l: Ledger, member: nat, bsYear: int, kind: Leaves.LeaveType): Bucket {
    if IsTracked(kind) && Key(member, bsYear) in l.balances then BucketOf(l.balances[Key(member, bsYear)], kind)
    else Bucket(0, 0, 0)
  }

  /** The balance of the year before as it was when a year was initialized, if there was one. */
  ghost function BasisOf(steps: seq<Step>, member: nat, bsYear: int): Option<Balance> {
    if steps == [] then None
    else
      var before := steps[..|steps| - 1];
      if Key(member, bsYear) in After(before).balances then BasisOf(before, member, bsYear)
      else Lookup(After(before).balances, Key(member, bsYear - 1))
  }

  /** What a year closed with: its bucket when the next year was initialized from it. A year created only
      after the next one has passed nothing on, and is still what it is now. */
  ghost function Closing(steps: seq<Step>, member: nat, bsYear: int, kind: Leaves.LeaveType): Bucket
    requires IsTracked(kind)
  {
    var basis := BasisOf(steps, member, bsYear + 1);
    if basis.Some? then BucketOf(basis.value, kind) else BucketAt(After(steps), member, bsYear, kind)
  }

  /** Days used in a year after the next one was initialized from it. */
  ghost function LateDays(steps: seq<Step>, member: nat, bsYear: int, kind: Leaves.LeaveType): int
    requires IsTracked(kind)
  {
    BucketAt(After(steps), member, bsYear, kind).used - Closing(steps, member, bsYear, kind).used
  }

  /** The accounts of one employee and one kind of leave over several years: days granted and taken, lost
      at the turns of the year, taken beyond what a year had when it closed, and taken after it closed. */
  datatype Accounts = Accounts(granted: int, taken: int, lost: int, overdrawn: int, late: int)

  ghost function AccountsOf(steps: seq<Step>, member: nat, kind: Leaves.LeaveType, from: int, until: int): Accounts
    requires IsTracked(kind) && from <= until
    decreases until - from
  {
    var b := BucketAt(After(steps), member, until, kind);
    if from == until then Accounts(b.entitlement, b.used, 0, 0, 0)
    else
      var a := AccountsOf(steps, member, kind, from, until - 1);
      var closing := Closing(steps, member, until - 1, kind);
      Accounts(a.granted + b.entitlement, a.taken + b.used,
               a.lost + (if BasisOf(steps, member, until).Some? then Forfeited(closing, b.entitlement, CapOf(kind))
                         else closing.Available()),
               a.overdrawn + Max(0, -closing.Unused()),
               a.late + LateDays(steps, member, until - 1, kind))
  }

  ghost predicate HasYears(l: Ledger, member: nat, from: int, until: int) {
    forall y :: from <= y <= until ==> Key(member, y) in l.balances
  }

  ghost predicate SameGrants(a: Balance, b: Balance) {
    && a.annual == b.annual.(used := a.annual.used)
    && a.sick == b.sick.(used := a.sick.used)
    && a.casual == b.casual.(used := a.casual.used)
  }

  lemma DecisionKeepsGrants(b: Balance, kind: Leaves.LeaveType, used: int)
    requires IsTracked(kind)
    ensures SameGrants(WithUsed(b, kind, used), b) && SameGrants(b, b)
  {
  }

  /** Entitlement and carry-over never change once a balance exists. */
  lemma StepKeepsGrants(l: Ledger, step: Step, key: Key)
    requires key in l.balances
    ensures key in Next(l, step).balances && SameGrants(Next(l, step).balances[key], l.balances[key])
  {
    hide Initialized, PreviewFor, SameGrants, WithUsed;
    var b := l.balances[key];
    DecisionKeepsGrants(b, Leaves.Annual, 0);
    match step
    case Initialize(policy, bsYear, members, _) => InitializedAt(l.balances, policy, bsYear, members, key);
    case ApproveLeave(_, _, kind, days) =>
      if IsTracked(kind) {
        DecisionKeepsGrants(b, kind, BucketOf(b, kind).used + days);
      }
    case BeginReject(_, _, _, _) =>
    case FinishReject(refund) =>
      if IsTracked(refund.kind) {
        DecisionKeepsGrants(b, refund.kind, refund.used);
      }
  }

  lemma StepKeepsGrant(l: Ledger, step: Step, member: nat, bsYear: int, kind: Leaves.LeaveType)
    requires IsTracked(kind) && Key(member, bsYear) in l.balances
    ensures Key(member, bsYear) in Next(l, step).balances
    ensures var b, c := BucketAt(l, member, bsYear, kind), BucketAt(Next(l, step), member, bsYear, kind);
            b.entitlement == c.entitlement && b.carriedOver == c.carriedOver
  {
    StepKeepsGrants(l, step, Key(member, bsYear));
    hide Next;
  }

  lemma StepCreates(l: Ledger, step: Step, member: nat, bsYear: int, kind: Leaves.LeaveType)
    requires IsTracked(kind) && Key(member, bsYear) !in l.balances && Key(member, bsYear) in Next(l, step).balances
    ensures var b, previous :=
            BucketAt(Next(l, step), member, bsYear, kind), Lookup(l.balances, Key(member, bsYear - 1));
            && b.carriedOver == (if previous.Some?
                                 then CarryOver(BucketOf(previous.value, kind), b.entitlement, CapOf(kind))
                                 else 0)
            && Lookup(Next(l, step).balances, Key(member, bsYear - 1))
               == (if previous.Some? then previous else Lookup(Next(l, step).balances, Key(member, bsYear - 1)))
  {
    hide Initialized;
    assert step.Initialize?;
    InitializedAt(l.balances, step.policy, step.bsYear, step.members, Key(member, bsYear));
    InitializedAt(l.balances, step.policy, step.bsYear, step.members, Key(member, bsYear - 1));
  }

  /** Where a carry-over comes from: the previous year as it was then, whose grants are still the same. */
  lemma {:induction false} Origin(steps: seq<Step>, member: nat, bsYear: int, kind: Leaves.LeaveType)
    requires IsTracked(kind) && Key(member, bsYear) in After(steps).balances
    ensures var b, basis := BucketAt(After(steps), member, bsYear, kind), BasisOf(steps, member, bsYear);
            && b.carriedOver == (if basis.Some?
                                 then CarryOver(BucketOf(basis.value, kind), b.entitlement, CapOf(kind))
                                 else 0)
            && (basis.Some? ==>
                  && Key(member, bsYear - 1) in After(steps).balances
                  && BucketAt(After(steps), member, bsYear - 1, kind)
                     == BucketOf(basis.value, kind).(used := BucketAt(After(steps), member, bsYear - 1, kind).used))
  {
    hide CarryOver, Next;
    var before, step := steps[..|steps| - 1], steps[|steps| - 1];
    if Key(member, bsYear) in After(before).balances {
      Origin(before, member, bsYear, kind);
      StepKeepsGrant(After(before), step, member, bsYear, kind);
      if BasisOf(before, member, bsYear).Some? {
        StepKeepsGrant(After(before), step, member, bsYear - 1, kind);
      }
    } else {
      StepCreates(After(before), step, member, bsYear, kind);
    }
  }

  /** Over any run and any number of years no day appears or disappears: what was granted or carried into
      the first year, with the days overdrawn and those taken from a year already closed, is what was
      taken, lost at the turns of the year or is still unused. */
  lemma {:induction false} DaysAreConserved(steps: seq<Step>, member: nat, kind: Leaves.LeaveType, from: int,
                                            until: int)
    requires IsTracked(kind) && from <= until && HasYears(After(steps), member, from, until)
    ensures var a := AccountsOf(steps, member, kind, from, until);
            var first, last := BucketAt(After(steps), member, from, kind), BucketAt(After(steps), member, until, kind);
            first.carriedOver + a.granted + a.overdrawn + a.late == a.taken + a.lost + last.Unused()
    decreases until - from
  {
    hide CarryOver, Forfeited, BasisOf, After;
    if from < until {
      DaysAreConserved(steps, member, kind, from, until - 1);
      Origin(steps, member, until, kind);
      CarryOverConserves(Closing(steps, member, until - 1, kind),
                         BucketAt(After(steps), member, until, kind).entitlement, CapOf(kind));
    }
  }

  /** A decision that changes the used days of a year from which the next one has already been initialized. */
  ghost predicate ChargesClosedYear(steps: seq<Step>, i: int, member: nat, bsYear: int, kind: Leaves.LeaveType) {
    && 0 <= i < |steps| && IsTracked(kind)
    && Key(member, bsYear + 1) in After(steps[..i]).balances && BasisOf(steps[..i], member, bsYear + 1).Some?
    && UsedOf(Next(After(steps[..i]), steps[i]), Key(member, bsYear), kind)
       != UsedOf(After(steps[..i]), Key(member, bsYear), kind)
  }

  ghost predicate NoneCharged(steps: seq<Step>, member: nat, bsYear: int, kind: Leaves.LeaveType) {
    forall i :: !ChargesClosedYear(steps, i, member, bsYear, kind)
  }

  ghost predicate NoRefunds(steps: seq<Step>, kind: Leaves.LeaveType) {
    forall i :: 0 <= i < |steps| && steps[i].FinishReject? ==> steps[i].refund.kind != kind
  }

  lemma {:induction false} BalancesStay(steps: seq<Step>, i: nat, key: Key)
    requires i <= |steps| && key in After(steps[..i]).balances
    ensures key in After(steps).balances
  {
    if i < |steps| {
      var before := steps[..|steps| - 1];
      assert before[..i] == steps[..i];
      BalancesStay(before, i, key);
      StepOnUsed(After(before), steps[|steps| - 1], key, Leaves.Annual);
    } else {
      assert steps[..i] == steps;
    }
  }

  lemma NoneChargedStep(steps: seq<Step>, member: nat, bsYear: int, kind: Leaves.LeaveType)
    requires steps != []
    ensures var last := |steps| - 1;
            NoneCharged(steps, member, bsYear, kind)
            <==> NoneCharged(steps[..last], member, bsYear, kind)
                 && !ChargesClosedYear(steps, last, member, bsYear, kind)
  {
    hide Next, After, BasisOf, UsedOf;
    var last := |steps| - 1;
    var before := steps[..last];
    forall i | 0 <= i < last
      ensures ChargesClosedYear(before, i, member, bsYear, kind) <==> ChargesClosedYear(steps, i, member, bsYear, kind)
    {
      assert before[..i] == steps[..i];
    }
    hide ChargesClosedYear;
    OutOfRangeChargesNothing(before, member, bsYear, kind);
    OutOfRangeChargesNothing(steps, member, bsYear, kind);
  }

  lemma OutOfRangeChargesNothing(steps: seq<Step>, member: nat, bsYear: int, kind: Leaves.LeaveType)
    ensures forall i :: !(0 <= i < |steps|) ==> !ChargesClosedYear(steps, i, member, bsYear, kind)
  {
  }

  /** Days are used late only by a decision that comes after the next year was initialized; and without
      refunds every such decision leaves its days there. */
  lemma {:induction false} LateDaysIff(steps: seq<Step>, member: nat, bsYear: int, kind: Leaves.LeaveType)
    requires IsTracked(kind) && Key(member, bsYear + 1) in After(steps).balances
    ensures NoneCharged(steps, member, bsYear, kind) ==> LateDays(steps, member, bsYear, kind) == 0
    ensures NoRefunds(steps, kind) ==>
              && LateDays(steps, member, bsYear, kind) >= 0
              && (LateDays(steps, member, bsYear, kind) == 0 ==> NoneCharged(steps, member, bsYear, kind))
  {
    hide Next;
    var last := |steps| - 1;
    var before := steps[..last];
    NoneChargedStep(steps, member, bsYear, kind);
    StepOnUsed(After(before), steps[last], Key(member, bsYear), kind);
    if Key(member, bsYear + 1) in After(before).balances {
      LateDaysIff(before, member, bsYear, kind);
      assert NoRefunds(steps, kind) ==> NoRefunds(before, kind);
    } else {
      forall i | 0 <= i <= last ensures !ChargesClosedYear(steps, i, member, bsYear, kind) {
        if Key(member, bsYear + 1) in After(steps[..i]).balances {
          assert before[..i] == steps[..i];
          BalancesStay(before, i, Key(member, bsYear + 1));
        }
      }
      OnlyInitializeCreates(After(before), steps[last], Key(member, bsYear + 1));
    }
  }

  lemma OnlyInitializeCreates(l: Ledger, step: Step, key: Key)
    requires key !in l.balances && key in Next(l, step).balances
    ensures step.Initialize?
  {
  }

  /** The days by which decisions change the used count of a year after the next was initialized from it. */
  ghost function ChangedAfterClose(steps: seq<Step>, member: nat, bsYear: int, kind: Leaves.LeaveType): int
    requires IsTracked(kind)
  {
    if steps == [] then 0
    else
      var last, key := |steps| - 1, Key(member, bsYear);
      var before := After(steps[..last]);
      ChangedAfterClose(steps[..last], member, bsYear, kind)
      + if ChargesClosedYear(steps, last, member, bsYear, kind)
        then UsedOf(Next(before, steps[last]), key, kind) - UsedOf(before, key, kind) else 0
  }

  lemma {:induction false} NothingChangedBeforeClose(steps: seq<Step>, member: nat, bsYear: int, kind: Leaves.LeaveType)
    requires IsTracked(kind)
    requires Key(member, bsYear + 1) !in After(steps).balances || BasisOf(steps, member, bsYear + 1).None?
    ensures ChangedAfterClose(steps, member, bsYear, kind) == 0
  {
    if steps != [] {
      var before := steps[..|steps| - 1];
      assert steps[..|before|] == before;
      if Key(member, bsYear + 1) in After(before).balances {
        StepOnUsed(After(before), steps[|steps| - 1], Key(member, bsYear + 1), kind);
      }
      NothingChangedBeforeClose(before, member, bsYear, kind);
      hide Next;
    }
  }

  /** Late days are exactly those, over every run. */
  lemma {:induction false} LateDaysAre(steps: seq<Step>, member: nat, bsYear: int, kind: Leaves.LeaveType)
    requires IsTracked(kind) && Key(member, bsYear + 1) in After(steps).balances
    ensures LateDays(steps, member, bsYear, kind) == ChangedAfterClose(steps, member, bsYear, kind)
  {
    hide Next;
    if BasisOf(steps, member, bsYear + 1).None? {
      NothingChangedBeforeClose(steps, member, bsYear, kind);
    } else {
      var last := |steps| - 1;
      var before := steps[..last];
      if Key(member, bsYear + 1) in After(before).balances {
        LateDaysAre(before, member, bsYear, kind);
      } else {
        NothingChangedBeforeClose(before, member, bsYear, kind);
        StepOnUsed(After(before), steps[last], Key(member, bsYear), kind);
        OnlyInitializeCreates(After(before), steps[last], Key(member, bsYear + 1));
      }
    }
  }

  ghost function TotalChangedAfterClose(steps: seq<Step>, member: nat, kind: Leaves.LeaveType, from: int,
                                        until: int): int
    requires IsTracked(kind) && from <= until
    decreases until - from
  {
    if from == until then 0
    else
      TotalChangedAfterClose(steps, member, kind, from, until - 1) + ChangedAfterClose(steps, member, until - 1, kind)
  }

  lemma {:induction false} LateDaysAddUp(steps: seq<Step>, member: nat, kind: Leaves.LeaveType, from: int, until: int)
    requires IsTracked(kind) && from <= until && HasYears(After(steps), member, from, until)
    ensures AccountsOf(steps, member, kind, from, until).late
            == TotalChangedAfterClose(steps, member, kind, from, until)
    decreases until - from
  {
    hide ChangedAfterClose, LateDays, Closing, BasisOf, Forfeited, After;
    if from < until {
      LateDaysAddUp(steps, member, kind, from, until - 1);
      assert Key(member, until) in After(steps).balances;
      LateDaysAre(steps, member, until - 1, kind);
    }
  }

  /** The plain law, in which no day is taken after its year has closed. */
  ghost predicate IsConserved(steps: seq<Step>, member: nat, kind: Leaves.LeaveType, from: int, until: int)
    requires IsTracked(kind) && from <= until
  {
    var a := AccountsOf(steps, member, kind, from, until);
    BucketAt(After(steps), member, from, kind).carriedOver + a.granted + a.overdrawn
    == a.taken + a.lost + BucketAt(After(steps), member, until, kind).Unused()
  }

  /** The plain law holds over any run and any years exactly when the decisions about years that had been
      carried over already cancel out. */
  lemma ConservedIff(steps: seq<Step>, member: nat, kind: Leaves.LeaveType, from: int, until: int)
    requires IsTracked(kind) && from <= until && HasYears(After(steps), member, from, until)
    ensures IsConserved(steps, member, kind, from, until)
            <==> TotalChangedAfterClose(steps, member, kind, from, until) == 0
  {
    DaysAreConserved(steps, member, kind, from, until);
    LateDaysAddUp(steps, member, kind, from, until);
  }

  /** The plain law holds when no decision changes a year from which the next has been initialized; in runs
      that write no refunds of that kind it holds exactly then. */
  lemma ConservedIffNoneCharged(steps: seq<Step>, member: nat, kind: Leaves.LeaveType, from: int, until: int)
    requires IsTracked(kind) && from <= until && HasYears(After(steps), member, from, until)
    ensures (forall y :: from <= y < until ==> NoneCharged(steps, member, y, kind)) ==>
            IsConserved(steps, member, kind, from, until)
    ensures NoRefunds(steps, kind) && IsConserved(steps, member, kind, from, until) ==>
              forall y :: from <= y < until ==> NoneCharged(steps, member, y, kind)
  {
    DaysAreConserved(steps, member, kind, from, until);
    LateIsZeroIff(steps, member, kind, from, until);
  }

  lemma {:induction false} LateIsZeroIff(steps: seq<Step>, member: nat, kind: Leaves.LeaveType, from: int, until: int)
    requires IsTracked(kind) && from <= until && HasYears(After(steps), member, from, until)
    ensures (forall y :: from <= y < until ==> NoneCharged(steps, member, y, kind)) ==>
              AccountsOf(steps, member, kind, from, until).late == 0
    ensures NoRefunds(steps, kind) ==>
              && AccountsOf(steps, member, kind, from, until).late >= 0
              && (AccountsOf(steps, member, kind, from, until).late == 0 ==>
                    forall y :: from <= y < until ==> NoneCharged(steps, member, y, kind))
    decreases until - from
  {
    hide NoneCharged, LateDays, Closing, BasisOf, Forfeited, After;
    if from < until {
      LateIsZeroIff(steps, member, kind, from, until - 1);
      assert Key(member, until) in After(steps).balances;
      LateDaysIff(steps, member, until - 1, kind);
    }
  }

  /** It does fail: five days approved for a year that has already been carried over in full are taken twice. */
  lemma LateApprovalIsNotDeducted(policy: Policy)
    requires policy == Policy(true, 18, 12, 6)
    ensures var steps := [Initialize(policy, 2081, [1], false), Initialize(policy, 2082, [1], false),
                          ApproveLeave(true, Key(1, 2081), Leaves.Annual, 5)];
            && HasYears(After(steps), 1, 2081, 2082)
            && BucketAt(After(steps), 1, 2081, Leaves.Annual) == Bucket(18, 0, 5)
            && BucketAt(After(steps), 1, 2082, Leaves.Annual) == Bucket(18, 18, 0)
            && !IsConserved(steps, 1, Leaves.Annual, 2081, 2082)
  {
    var a, b, c := Initialize(policy, 2081, [1], false), Initialize(policy, 2082, [1], false),
                   ApproveLeave(true, Key(1, 2081), Leaves.Annual, 5);
    assert [a, b, c][..2] == [a, b] && [a, b][..1] == [a] && [a][..0] == [];
    var fresh1 := Balance(Bucket(18, 0, 0), Bucket(12, 0, 0), Bucket(6, 0, 0));
    var fresh2 := Balance(Bucket(18, 18, 0), Bucket(12, 12, 0), Bucket(6, 6, 0));
    InitializeOne(map[], policy, 2081);
    assert After([a]).balances == map[Key(1, 2081) := fresh1];
    InitializeOne(After([a]).balances, policy, 2082);
    assert After([a, b]).balances == map[Key(1, 2081) := fresh1, Key(1, 2082) := fresh2];
    DaysAreConserved([a, b, c], 1, Leaves.Annual, 2081, 2082);
    assert BasisOf([a, b], 1, 2082) == Some(fresh1);
    assert BasisOf([a, b, c], 1, 2082) == Some(fresh1);
    assert AccountsOf([a, b, c], 1, Leaves.Annual, 2081, 2082).late == 5;
  }

  lemma InitializeOne(balances: map<Key, Balance>, policy: Policy, bsYear: int)
    requires Key(1, bsYear) !in balances
    ensures Initialized(balances, policy, bsYear, [1])
            == balances[Key(1, bsYear) := PreviewFor(balances, policy, bsYear, 1).balance]
  {
    assert [1][..0] == [];
    assert Initialized(balances, policy, bsYear, []) == balances;
  }

  // ---- What a balance is made of ----

  /** Step i creates the row of that key. */
  ghost predicate CreatesAt(steps: seq<Step>, i: int, key: Key) {
    && 0 <= i < |steps| && steps[i].Initialize? && steps[i].policy.enabled && !steps[i].dryRun
    && steps[i].bsYear == key.bsYear && key.member in steps[i].members
    && key !in After(steps[..i]).balances
  }

  /** The carry-over is what was left of the year before, but at least nothing and at most what the cap leaves. */
  ghost predicate Carries(b: Bucket, previous: Option<Bucket>, cap: int) {
    match previous
    case None => b.carriedOver == 0
    case Some(p) =>
      var left, room := p.entitlement + p.carriedOver - p.used, cap - b.entitlement;
      if left <= 0 || room <= 0 then b.carriedOver == 0 else b.carriedOver == if left < room then left else room
  }

  /** The row of a policy, given the row of the year before. */
  ghost predicate IsOf(b: Balance, policy: Policy, previous: Option<Balance>) {
    && b.annual.entitlement == policy.annual && b.sick.entitlement == policy.sick
    && b.casual.entitlement == policy.casual
    && Carries(b.annual, if previous.Some? then Some(previous.value.annual) else None, 90)
    && Carries(b.sick, if previous.Some? then Some(previous.value.sick) else None, 45)
    && Carries(b.casual, if previous.Some? then Some(previous.value.casual) else None, 90)
  }

  lemma NewBalanceIsOf(previous: Option<Balance>, policy: Policy)
    ensures IsOf(NewBalance(previous, policy), policy, previous)
    ensures previous.None? ==> !CappedWarning(previous, policy)
  {
  }

  lemma StepOfPolicy(l: Ledger, step: Step, key: Key)
    requires key !in l.balances
    ensures key in Next(l, step).balances <==>
            && step.Initialize? && step.policy.enabled && !step.dryRun
            && step.bsYear == key.bsYear && key.member in step.members
    ensures key in Next(l, step).balances ==>
              IsOf(Next(l, step).balances[key], step.policy, Lookup(l.balances, Key(key.member, key.bsYear - 1)))
  {
    hide Initialized, IsOf, NewBalance;
    if step.Initialize? {
      InitializedAt(l.balances, step.policy, step.bsYear, step.members, key);
      NewBalanceIsOf(Lookup(l.balances, Key(key.member, key.bsYear - 1)), step.policy);
    }
  }

  lemma {:induction false} RowIsCreated(steps: seq<Step>, key: Key)
    ensures key in After(steps).balances <==> exists i :: CreatesAt(steps, i, key)
  {
    if steps != [] {
      var last := |steps| - 1;
      var before := steps[..last];
      RowIsCreated(before, key);
      CreatesStep(steps, key);
      if key in After(before).balances {
        StepKeepsGrants(After(before), steps[last], key);
        var i :| CreatesAt(before, i, key);
        assert CreatesAt(steps, i, key);
      } else {
        StepOfPolicy(After(before), steps[last], key);
        assert CreatesAt(steps, last, key) <==> key in After(steps).balances;
        assert forall i :: i != last ==> !CreatesAt(before, i, key);
      }
      hide Next, CreatesAt, IsOf, SameGrants;
    }
  }

  lemma CreatesStep(steps: seq<Step>, key: Key)
    requires steps != []
    ensures forall i :: i != |steps| - 1 ==> (CreatesAt(steps, i, key) <==> CreatesAt(steps[..|steps| - 1], i, key))
  {
    var before := steps[..|steps| - 1];
    hide After;
    assert forall i :: 0 <= i < |before| ==> before[..i] == steps[..i];
  }

  lemma {:induction false} RowIsOf(steps: seq<Step>, i: nat, key: Key)
    requires CreatesAt(steps, i, key)
    ensures key in After(steps).balances
    ensures IsOf(After(steps).balances[key], steps[i].policy,
                 Lookup(After(steps[..i]).balances, Key(key.member, key.bsYear - 1)))
  {
    hide Next, IsOf;
    var last := |steps| - 1;
    var before := steps[..last];
    if i == last {
      StepOfPolicy(After(before), steps[last], key);
    } else {
      CreatesStep(steps, key);
      RowIsOf(before, i, key);
      assert before[..i] == steps[..i];
      StepKeepsGrants(After(before), steps[last], key);
      GrantsMakeTheRow(After(before).balances[key], After(steps).balances[key], steps[i].policy,
                       Lookup(After(steps[..i]).balances, Key(key.member, key.bsYear - 1)));
    }
  }

  lemma GrantsMakeTheRow(a: Balance, b: Balance, policy: Policy, previous: Option<Balance>)
    requires SameGrants(b, a) && IsOf(a, policy, previous)
    ensures IsOf(b, policy, previous)
  {
  }

  /** In every run a row exists exactly when some initialization of the year, not a dry one, found the member
      without it; and it then carries the annual, sick and casual days of that initialization's policy, and over
      from the year before what the caps of 90, 45 and 90 days leave room for. */
  lemma BalanceIsOfItsPolicy(steps: seq<Step>, key: Key)
    ensures key in After(steps).balances <==> exists i :: CreatesAt(steps, i, key)
    ensures forall i :: CreatesAt(steps, i, key) ==>
              && key in After(steps).balances
              && IsOf(After(steps).balances[key], steps[i].policy,
                      Lookup(After(steps[..i]).balances, Key(key.member, key.bsYear - 1)))
  {
    hide After, IsOf;
    RowIsCreated(steps, key);
    forall i | CreatesAt(steps, i, key)
      ensures IsOf(After(steps).balances[key], steps[i].policy,
                   Lookup(After(steps[..i]).balances, Key(key.member, key.bsYear - 1)))
    {
      RowIsOf(steps, i, key);
    }
  }

  ghost function WithMore(b: Balance, kind: Leaves.LeaveType, days: int): Balance {
    match kind
    case Annual => b.(annual := b.annual.(used := b.annual.used + days))
    case Sick => b.(sick := b.sick.(used := b.sick.used + days))
    case Casual => b.(casual := b.casual.(used := b.casual.used + days))
    case _ => b
  }

  ghost function WithLess(b: Balance, kind: Leaves.LeaveType, days: int): Balance {
    match kind
    case Annual => b.(annual := b.annual.(used := Max(0, b.annual.used - days)))
    case Sick => b.(sick := b.sick.(used := Max(0, b.sick.used - days)))
    case Casual => b.(casual := b.casual.(used := Max(0, b.casual.used - days)))
    case _ => b
  }

  /** An approval adds its days to the used count of its own key and kind, and to nothing else; kinds other than the
      three, and organizations without the feature, have no balance to change. */
  lemma ApprovalTouchesItsKind(l: Ledger, enabled: bool, key: Key, kind: Leaves.LeaveType, days: nat, other: Key)
    requires key in l.balances && other in l.balances
    ensures var after := Next(l, ApproveLeave(enabled, key, kind, days)).balances;
            && after.Keys == l.balances.Keys
            && after[other] == if other == key && enabled then WithMore(l.balances[key], kind, days)
                               else l.balances[other]
  {
  }

  /** A rejection whose refund is written at once takes them back from there as far as it goes. */
  lemma RefundTouchesItsKind(l: Ledger, enabled: bool, key: Key, kind: Leaves.LeaveType, days: nat, other: Key)
    requires key in l.balances && other in l.balances
    ensures var read := Next(l, BeginReject(enabled, key, kind, days));
            var refund := RefundFor(l.balances, enabled, key, kind, days);
            && read.balances == l.balances
            && (refund.None? <==> !enabled || kind in {Leaves.Unpaid, Leaves.Maternity, Leaves.Paternity})
            && (refund.Some? ==>
                  && refund.value in read.pending
                  && Next(read, FinishReject(refund.value)).pending == l.pending
                  && var after := Next(read, FinishReject(refund.value)).balances;
                  && after.Keys == l.balances.Keys
                  && after[other] == if other == key then WithLess(l.balances[key], kind, days) else l.balances[other])
  {
  }

  /** A leave takes every day from its first to its last, both included. */
  lemma DaysOfAreInclusive(startDate: int, endDate: int)
    requires IsDate(startDate) && IsDate(endDate) && startDate <= endDate
    ensures DaysOf(startDate, endDate) == |Leaves.DaySet(Day(startDate), Day(endDate))|
  {
    DaySplit(startDate);
    DaySplit(endDate);
    Leaves.DaySetSize(Day(startDate), Day(endDate));
  }
}
