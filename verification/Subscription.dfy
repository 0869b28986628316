/** Organization subscriptions, driven by four daily jobs and by the super admin. */
module Subscription {
  import opened Prelude
  import opened Clock

  datatype Status = Trialing | GracePeriod | Active | PastDue | Suspended | Cancelled | Expired

  datatype Plan = Plan(trialDays: int, graceDays: int)

  datatype Sub = Sub(
    plan: Plan, status: Status,
    trialStartedAt: Option<int>, trialEndsAt: Option<int>, isTrialUsed: bool,
    trialReminderSentAt: Option<int>, trialFinalReminderAt: Option<int>,
    graceEndsAt: Option<int>, graceReminderSentAt: Option<int>,
    suspendedAt: Option<int>,
    currentPeriodStart: Option<int>, currentPeriodEnd: Option<int>,
    nextBillingDate: Option<int>, billingReminderSentAt: Option<int>)

  datatype SubError = NoSubscription | AlreadySuspended | NotSuspended | NotInTrial | AlreadyActive

  // ---- Super-admin actions on one row ----

  function CanUseTrial(existing: Option<Sub>, plan: Plan, forceTrial: bool): bool {
    plan.trialDays > 0 && (forceTrial || !(existing.Some? && existing.value.isTrialUsed))
  }

  /** assignTier: a trial if allowed, else an active period; fields the update does not name are kept. */
  function AssignTier(existing: Option<Sub>, plan: Plan, forceTrial: bool, annual: bool, now: int): Sub {
    var trial := CanUseTrial(existing, plan, forceTrial);
    var kept := if existing.Some? then existing.value
                else Sub(plan, Trialing, None, None, false, None, None, None, None, None, None, None, None, None);
    kept.(plan := plan, status := if trial then Trialing else Active,
    trialStartedAt := if trial then Some(now) else None,
    trialEndsAt := if trial then Some(AddDays(now, plan.trialDays)) else None,
    isTrialUsed := trial || kept.isTrialUsed,
    graceEndsAt := None, graceReminderSentAt := None, suspendedAt := None,
    currentPeriodStart := if trial then None else Some(now),
    currentPeriodEnd := if trial then None else Some(AddDays(now, if annual then 365 else 30)))
  }

  function Suspend(s: Sub, now: int): Result<Sub, SubError> {
    if s.status == Suspended then Err(AlreadySuspended) else Ok(s.(status := Suspended, suspendedAt := Some(now)))
  }

  function MarkExpired(s: Sub): Result<Sub, SubError> {
    if s.status != Suspended then Err(NotSuspended) else Ok(s.(status := Expired))
  }

  function ExtendTrial(s: Sub, days: int, now: int): Result<Sub, SubError> {
    if s.status != Trialing && s.status != GracePeriod then Err(NotInTrial)
    else
      var base := if s.trialEndsAt.Some? && s.trialEndsAt.value > now then s.trialEndsAt.value else now;
      Ok(s.(status := Trialing, trialEndsAt := Some(AddDays(base, days)), graceEndsAt := None,
         graceReminderSentAt := None,
         trialReminderSentAt := None, trialFinalReminderAt := None))
  }

  function Reactivate(s: Sub): Result<Sub, SubError> {
    if s.status == Active then Err(AlreadyActive)
    else Ok(s.(status := Active, suspendedAt := None, graceEndsAt := None, graceReminderSentAt := None))
  }

  // ---- The jobs on one row ----

  /** Whether the first and the second e-mail a job may send for a row go through. A failure throws and
      skips what is left of the row. */
  datatype Mail = Mail(first: bool, second: bool)

  function DaysLeft(until: int, now: int): int { CeilDays(until - now) }

  function TrialWarnings(s: Sub, daysLeft: int, now: int, mail: Mail): Sub {
    var warn, last := daysLeft <= 7 && s.trialReminderSentAt.None?, daysLeft <= 1 && s.trialFinalReminderAt.None?;
    if warn && !mail.first then s
    else
      var warned := if warn then s.(trialReminderSentAt := Some(now)) else s;
      if last && mail.second then warned.(trialFinalReminderAt := Some(now)) else warned
  }

  function TrialExpiryRow(s: Sub, now: int, mail: Mail): Sub {
    if s.status != Trialing || s.trialEndsAt.None? then s
    else if DaysLeft(s.trialEndsAt.value, now) <= 0 then
      s.(status := GracePeriod, graceEndsAt := Some(AddDays(now, s.plan.graceDays)))
    else TrialWarnings(s, DaysLeft(s.trialEndsAt.value, now), now, mail)
  }

  /** The mid-grace reminder is due once, from halfway between trial end and grace end. */
  function ReminderDue(s: Sub, now: int): bool {
    && s.graceReminderSentAt.None?
    && s.graceEndsAt.Some?
    && var from := if s.trialEndsAt.Some? then s.trialEndsAt.value else now;
    now >= from + (s.graceEndsAt.value - from) / 2
  }

  function GraceRow(s: Sub, now: int, mail: Mail): Sub {
    if s.status != GracePeriod then s
    else if ReminderDue(s, now) && !mail.first then s
    else
      var reminded := if ReminderDue(s, now) then s.(graceReminderSentAt := Some(now)) else s;
      if s.graceEndsAt.None? || now < s.graceEndsAt.value then reminded
      else s.(status := Suspended, suspendedAt := Some(now), graceEndsAt := None, graceReminderSentAt := None)
  }

  /** The configured threshold if it is a positive number, else 60 days. */
  function AbandonedAfterDays(config: Option<int>): int {
    if config.Some? && config.value > 0 then config.value else 60
  }

  function AbandonedRow(s: Sub, now: int, days: int): Sub {
    if s.status == Suspended && s.suspendedAt.Some? && s.suspendedAt.value <= AddDays(now, -days) then
      s.(status := Expired)
    else s
  }

  predicate BillingReminderDue(s: Sub, now: int) {
    && s.status == Active && s.billingReminderSentAt.None?
    && s.nextBillingDate.Some? && now <= s.nextBillingDate.value <= AddDays(now, 7)
  }

  predicate Overdue(s: Sub, now: int) {
    s.status == Active && s.nextBillingDate.Some? && s.nextBillingDate.value < now
  }

  predicate OverdueBeyondGrace(s: Sub, now: int, graceDays: int) {
    s.status == PastDue && s.nextBillingDate.Some? && s.nextBillingDate.value < AddDays(now, -graceDays)
  }

  /** The first loops of the billing job, in turn; suspending does not set `suspendedAt`. */
  function BillingRowAfter(s: Sub, now: int, graceDays: int, mail: Mail, loops: nat): Sub {
    var s1 := if BillingReminderDue(s, now) && mail.first then s.(billingReminderSentAt := Some(now)) else s;
    var s2 := if Overdue(s1, now) then s1.(status := PastDue) else s1;
    if loops == 0 then s
    else if loops == 1 then s1
    else if loops == 2 then s2
    else if OverdueBeyondGrace(s2, now, graceDays) then s2.(status := Suspended) else s2
  }

  function BillingRow(s: Sub, now: int, graceDays: int, mail: Mail): Sub { BillingRowAfter(s, now, graceDays, mail, 3) }

  predicate Reaches(until: Option<nat>, i: nat) { until.Some? ==> i < until.value }

  /** How many loops get to slot i: a write that throws in the second or third loop ends the whole job. */
  function LoopsReaching(i: nat, flipsUntil: Option<nat>, suspendsUntil: Option<nat>): nat {
    if !Reaches(flipsUntil, i) then 1 else if flipsUntil.Some? || !Reaches(suspendsUntil, i) then 2 else 3
  }

  // ---- The table ----

  /** One slot per organization; `None` is an organization without a subscription. */
  class SubscriptionTable {
    var rows: seq<Option<Sub>>

    /** A job leaves every slot in place and turns each row r into f(i, r). */
    static ghost predicate Mapped(before: seq<Option<Sub>>, after: seq<Option<Sub>>, f: (nat, Sub) -> Sub) {
      && |after| == |before|
      && forall i :: 0 <= i < |before| ==>
           after[i] == if before[i].Some? then Some(f(i, before[i].value)) else None
    }

    /** Only slot o may change. */
    static ghost predicate OnlyAt(before: seq<Option<Sub>>, after: seq<Option<Sub>>, o: nat) {
      |after| == |before| && forall i :: 0 <= i < |before| && i != o ==> after[i] == before[i]
    }

    method AssignTierTo(o: nat, plan: Plan, forceTrial: bool, annual: bool, now: int)
      requires o < |rows|
      modifies this
      ensures OnlyAt(old(rows), rows, o)
      ensures rows[o] == Some(AssignTier(old(rows)[o], plan, forceTrial, annual, now))
    {
      var existing := rows[o];
      var canUseTrial := plan.trialDays > 0;
      if !forceTrial && existing.Some? && existing.value.isTrialUsed {
        canUseTrial := false;
      }
      var status := Active;
      var trialStartedAt, trialEndsAt, periodStart, periodEnd := None, None, Some(now), Some(AddDays(now, 30));
      if annual {
        periodEnd := Some(AddDays(now, 365));
      }
      if canUseTrial {
        status := Trialing;
        trialStartedAt, trialEndsAt := Some(now), Some(AddDays(now, plan.trialDays));
        periodStart, periodEnd := None, None;
      }
      if existing.Some? {
        var s := existing.value;
        rows := rows[o := Some(s.(plan := plan, status := status, trialStartedAt := trialStartedAt,
        trialEndsAt := trialEndsAt, isTrialUsed := if canUseTrial then true else s.isTrialUsed,
        graceEndsAt := None, graceReminderSentAt := None, suspendedAt := None,
        currentPeriodStart := periodStart, currentPeriodEnd := periodEnd))];
      } else {
        rows := rows[o := Some(Sub(plan, status, trialStartedAt, trialEndsAt, canUseTrial, None, None, None, None, None,
                                   periodStart, periodEnd, None, None))];
      }
    }

    method SuspendSubscription(o: nat, now: int) returns (error: Option<SubError>)
      requires o < |rows|
      modifies this
      ensures OnlyAt(old(rows), rows, o)
      ensures old(rows)[o].None? ==> error == Some(NoSubscription) && rows == old(rows)
      ensures old(rows)[o].Some? ==>
                var r := Suspend(old(rows)[o].value, now);
                if r.Ok? then error == None && rows[o] == Some(r.value) else error == Some(r.error) && rows == old(rows)
    {
      if rows[o].None? {
        return Some(NoSubscription);
      }
      if rows[o].value.status == Suspended {
        return Some(AlreadySuspended);
      }
      rows := rows[o := Some(rows[o].value.(status := Suspended, suspendedAt := Some(now)))];
      return None;
    }

    method MarkAsExpired(o: nat) returns (error: Option<SubError>)
      requires o < |rows|
      modifies this
      ensures OnlyAt(old(rows), rows, o)
      ensures old(rows)[o].None? ==> error == Some(NoSubscription) && rows == old(rows)
      ensures old(rows)[o].Some? ==>
                var r := MarkExpired(old(rows)[o].value);
                if r.Ok? then error == None && rows[o] == Some(r.value) else error == Some(r.error) && rows == old(rows)
    {
      if rows[o].None? {
        return Some(NoSubscription);
      }
      if rows[o].value.status != Suspended {
        return Some(NotSuspended);
      }
      rows := rows[o := Some(rows[o].value.(status := Expired))];
      return None;
    }

    method ExtendTrialOf(o: nat, days: int, now: int) returns (error: Option<SubError>)
      requires o < |rows|
      modifies this
      ensures OnlyAt(old(rows), rows, o)
      ensures old(rows)[o].None? ==> error == Some(NoSubscription) && rows == old(rows)
      ensures old(rows)[o].Some? ==>
                var r := ExtendTrial(old(rows)[o].value, days, now);
                if r.Ok? then error == None && rows[o] == Some(r.value) else error == Some(r.error) && rows == old(rows)
    {
      if rows[o].None? {
        return Some(NoSubscription);
      }
      var s := rows[o].value;
      if s.status != Trialing && s.status != GracePeriod {
        return Some(NotInTrial);
      }
      var base := now;
      if s.trialEndsAt.Some? && s.trialEndsAt.value > now {
        base := s.trialEndsAt.value;
      }
      rows := rows[o := Some(s.(status := Trialing, trialEndsAt := Some(AddDays(base, days)), graceEndsAt := None,
      graceReminderSentAt := None, trialReminderSentAt := None, trialFinalReminderAt := None))];
      return None;
    }

    method ReactivateSubscription(o: nat) returns (error: Option<SubError>)
      requires o < |rows|
      modifies this
      ensures OnlyAt(old(rows), rows, o)
      ensures old(rows)[o].None? ==> error == Some(NoSubscription) && rows == old(rows)
      ensures old(rows)[o].Some? ==>
                var r := Reactivate(old(rows)[o].value);
                if r.Ok? then error == None && rows[o] == Some(r.value) else error == Some(r.error) && rows == old(rows)
    {
      if rows[o].None? {
        return Some(NoSubscription);
      }
      if rows[o].value.status == Active {
        return Some(AlreadyActive);
      }
      rows := rows[o := Some(rows[o].value.(status := Active, suspendedAt := None, graceEndsAt := None,
      graceReminderSentAt := None))];
      return None;
    }

    method RunTrialExpiryJob(now: int, mail: nat -> Mail)
      modifies this
      ensures Mapped(old(rows), rows, (i: nat, s: Sub) => TrialExpiryRow(s, now, mail(i)))
    {
      var trialing := rows;
      for i := 0 to |trialing|
        invariant |rows| == |trialing|
        invariant forall j :: i <= j < |rows| ==> rows[j] == trialing[j]
        invariant forall j :: 0 <= j < i ==>
                    rows[j] == if trialing[j].Some? then Some(TrialExpiryRow(trialing[j].value, now, mail(j))) else None
      {
        if trialing[i].None? || trialing[i].value.status != Trialing || trialing[i].value.trialEndsAt.None? {
          continue;
        }
        var s := trialing[i].value;
        var daysLeft := CeilDays(s.trialEndsAt.value - now);
        if daysLeft <= 0 {
          rows := rows[i := Some(s.(status := GracePeriod, graceEndsAt := Some(AddDays(now, s.plan.graceDays))))];
          continue;
        }
        if daysLeft <= 7 && s.trialReminderSentAt.None? {
          if !mail(i).first {
            continue;
          }
          s := s.(trialReminderSentAt := Some(now));
          rows := rows[i := Some(s)];
        }
        if daysLeft <= 1 && s.trialFinalReminderAt.None? {
          if !mail(i).second {
            continue;
          }
          s := s.(trialFinalReminderAt := Some(now));
          rows := rows[i := Some(s)];
        }
      }
    }

    method RunGracePeriodJob(now: int, mail: nat -> Mail)
      modifies this
      ensures Mapped(old(rows), rows, (i: nat, s: Sub) => GraceRow(s, now, mail(i)))
    {
      var graceSubs := rows;
      for i := 0 to |graceSubs|
        invariant |rows| == |graceSubs|
        invariant forall j :: i <= j < |rows| ==> rows[j] == graceSubs[j]
        invariant forall j :: 0 <= j < i ==>
                    rows[j] == if graceSubs[j].Some? then Some(GraceRow(graceSubs[j].value, now, mail(j))) else None
      {
        if graceSubs[i].None? || graceSubs[i].value.status != GracePeriod {
          continue;
        }
        var s := graceSubs[i].value;
        if ReminderDue(s, now) {
          if !mail(i).first {
            continue;
          }
          rows := rows[i := Some(s.(graceReminderSentAt := Some(now)))];
        }
        if s.graceEndsAt.None? || now < s.graceEndsAt.value {
          continue;
        }
        s := s.(status := Suspended, suspendedAt := Some(now), graceEndsAt := None, graceReminderSentAt := None);
        rows := rows[i := Some(s)];
      }
    }

    method RunAbandonedJob(now: int, config: Option<int>)
      modifies this
      ensures Mapped(old(rows), rows, (i: nat, s: Sub) => AbandonedRow(s, now, AbandonedAfterDays(config)))
    {
      var days := AbandonedAfterDays(config);
      var cutoffDate := AddDays(now, -days);
      var subs := rows;
      for i := 0 to |subs|
        invariant |rows| == |subs|
        invariant forall j :: i <= j < |rows| ==> rows[j] == subs[j]
        invariant forall j :: 0 <= j < i ==>
                    rows[j] == if subs[j].Some? then Some(AbandonedRow(subs[j].value, now, days)) else None
      {
        if subs[i].Some? {
          var s := subs[i].value;
          if s.status == Suspended && s.suspendedAt.Some? && s.suspendedAt.value <= cutoffDate {
            rows := rows[i := Some(s.(status := Expired))];
          }
        }
      }
    }

    /** The second and the third loop reach the slots before `flipsUntil` and `suspendsUntil`, where a
        database write throws; `None` is a loop that completes. */
    method RunBillingJob(now: int, graceDays: int, mail: nat -> Mail, flipsUntil: Option<nat>,
                         suspendsUntil: Option<nat>)
      modifies this
      ensures Mapped(old(rows), rows, (i: nat, s: Sub) =>
                BillingRowAfter(s, now, graceDays, mail(i), LoopsReaching(i, flipsUntil, suspendsUntil)))
    {
      hide BillingRowAfter;
      ghost var start := rows;
      SendReminders(now, graceDays, mail);
      FlipOverdue(start, now, graceDays, mail, flipsUntil);
      if flipsUntil.None? {
        SuspendOverdue(start, now, graceDays, mail, suspendsUntil);
        assert forall j: nat ::
          LoopsReaching(j, flipsUntil, suspendsUntil) == if Reaches(suspendsUntil, j) then 3 else 2;
      } else {
        assert forall j: nat :: LoopsReaching(j, flipsUntil, suspendsUntil) == if Reaches(flipsUntil, j) then 2 else 1;
      }
    }

    method SendReminders(now: int, graceDays: int, mail: nat -> Mail)
      modifies this
      ensures |rows| == |old(rows)|
      ensures forall j :: 0 <= j < |rows| ==> rows[j] == SlotAfter(old(rows)[j], now, graceDays, mail(j), 1)
    {
      var dueSoon := rows;
      for i := 0 to |dueSoon|
        invariant |rows| == |dueSoon|
        invariant forall j :: i <= j < |rows| ==> rows[j] == dueSoon[j]
        invariant forall j :: 0 <= j < i ==> rows[j] == SlotAfter(dueSoon[j], now, graceDays, mail(j), 1)
      {
        if rows[i].Some? && BillingReminderDue(rows[i].value, now) && mail(i).first {
          rows := rows[i := Some(rows[i].value.(billingReminderSentAt := Some(now)))];
        }
      }
    }

    method FlipOverdue(ghost start: seq<Option<Sub>>, now: int, graceDays: int, mail: nat -> Mail, until: Option<nat>)
      requires |rows| == |start|
      requires forall j :: 0 <= j < |rows| ==> rows[j] == SlotAfter(start[j], now, graceDays, mail(j), 1)
      modifies this
      ensures |rows| == |start|
      ensures forall j :: 0 <= j < |rows| ==>
                rows[j] == SlotAfter(start[j], now, graceDays, mail(j), if Reaches(until, j) then 2 else 1)
    {
      var overdue := rows;
      for i := 0 to |overdue|
        invariant |rows| == |overdue|
        invariant forall j :: i <= j < |rows| ==> rows[j] == overdue[j]
        invariant forall j :: 0 <= j < i ==>
                    rows[j] == SlotAfter(start[j], now, graceDays, mail(j), if Reaches(until, j) then 2 else 1)
      {
        if Reaches(until, i) && rows[i].Some? && Overdue(rows[i].value, now) {
          rows := rows[i := Some(rows[i].value.(status := PastDue))];
        }
      }
    }

    method SuspendOverdue(ghost start: seq<Option<Sub>>, now: int, graceDays: int, mail: nat -> Mail,
                          until: Option<nat>)
      requires |rows| == |start|
      requires forall j :: 0 <= j < |rows| ==> rows[j] == SlotAfter(start[j], now, graceDays, mail(j), 2)
      modifies this
      ensures |rows| == |start|
      ensures forall j :: 0 <= j < |rows| ==>
                rows[j] == SlotAfter(start[j], now, graceDays, mail(j), if Reaches(until, j) then 3 else 2)
    {
      var toSuspend := rows;
      for i := 0 to |toSuspend|
        invariant |rows| == |toSuspend|
        invariant forall j :: i <= j < |rows| ==> rows[j] == toSuspend[j]
        invariant forall j :: 0 <= j < i ==>
                    rows[j] == SlotAfter(start[j], now, graceDays, mail(j), if Reaches(until, j) then 3 else 2)
      {
        if Reaches(until, i) && rows[i].Some? && OverdueBeyondGrace(rows[i].value, now, graceDays) {
          rows := rows[i := Some(rows[i].value.(status := Suspended))];
        }
      }
    }
  }

  /** A slot after some loops of the billing job. */
  ghost function SlotAfter(row: Option<Sub>, now: int, graceDays: int, mail: Mail, loops: nat): Option<Sub> {
    if row.Some? then Some(BillingRowAfter(row.value, now, graceDays, mail, loops)) else None
  }
}
