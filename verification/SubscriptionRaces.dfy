/**
 The jobs query their rows first and write them one by one later, by id and without looking at the status
 again. What then holds of one organization's subscription, with super-admin actions in between.
 */
module SubscriptionRaces {
  import opened Prelude
  import opened Clock
  import opened Subscription
  import S = SubscriptionRuns

  /** One database write of a job. */
  datatype Write =
    | MarkReminder(at: int)
    | MarkFinalReminder(at: int)
    | StartGrace(graceEndsAt: int)
    | MarkGraceReminder(at: int)
    | EndGrace(at: int)
    | Expire
    | MarkBillingReminder(at: int)
    | FlagPastDue
    | SuspendUnpaid

  /** The write changes the columns it names and no others. */
  function Land(s: Sub, w: Write): Sub {
    match w
    case MarkReminder(at) => s.(trialReminderSentAt := Some(at))
    case MarkFinalReminder(at) => s.(trialFinalReminderAt := Some(at))
    case StartGrace(graceEndsAt) => s.(status := GracePeriod, graceEndsAt := Some(graceEndsAt))
    case MarkGraceReminder(at) => s.(graceReminderSentAt := Some(at))
    case EndGrace(at) => s.(status := Suspended, suspendedAt := Some(at), graceEndsAt := None,
                            graceReminderSentAt := None)
    case Expire => s.(status := Expired)
    case MarkBillingReminder(at) => s.(billingReminderSentAt := Some(at))
    case FlagPastDue => s.(status := PastDue)
    case SuspendUnpaid => s.(status := Suspended)
  }

  function LandAll(s: Sub, writes: seq<Write>): Sub
    decreases |writes|
  {
    if writes == [] then s else LandAll(Land(s, writes[0]), writes[1..])
  }

  /** A query of one of the jobs. The billing job makes three. */
  datatype Query =
    | TrialQuery(mail: Mail)
    | GraceQuery(mail: Mail)
    | AbandonedQuery(days: int)
    | DueSoonQuery(mail: Mail)
    | OverdueQuery
    | UnpaidQuery(graceDays: int)

  /** What a job goes on to write for the row its query returned. */
  function Planned(s: Sub, q: Query, now: int): seq<Write> {
    match q
    case TrialQuery(mail) =>
      if s.status != Trialing || s.trialEndsAt.None? then []
      else
        var left := DaysLeft(s.trialEndsAt.value, now);
        if left <= 0 then [StartGrace(AddDays(now, s.plan.graceDays))]
        else
          var warn, final := left <= 7 && s.trialReminderSentAt.None?, left <= 1 && s.trialFinalReminderAt.None?;
          if warn && !mail.first then []
          else
            (if warn then [MarkReminder(now)] else [])
            + (if final && mail.second then [MarkFinalReminder(now)] else [])
    case GraceQuery(mail) =>
      if s.status != GracePeriod || (ReminderDue(s, now) && !mail.first) then []
      else
        (if ReminderDue(s, now) then [MarkGraceReminder(now)] else [])
        + (if s.graceEndsAt.None? || now < s.graceEndsAt.value then [] else [EndGrace(now)])
    case AbandonedQuery(days) => if AbandonedRow(s, now, days) != s then [Expire] else []
    case DueSoonQuery(mail) => if BillingReminderDue(s, now) && mail.first then [MarkBillingReminder(now)] else []
    case OverdueQuery => if Overdue(s, now) then [FlagPastDue] else []
    case UnpaidQuery(graceDays) => if OverdueBeyondGrace(s, now, graceDays) then [SuspendUnpaid] else []
  }

  /** Writes that land at once make the job of one step. */
  lemma PlansRefineTheJobs(s: Sub, now: int, mail: Mail, days: int)
    ensures LandAll(s, Planned(s, TrialQuery(mail), now)) == TrialExpiryRow(s, now, mail)
    ensures LandAll(s, Planned(s, GraceQuery(mail), now)) == GraceRow(s, now, mail)
    ensures LandAll(s, Planned(s, AbandonedQuery(days), now)) == AbandonedRow(s, now, days)
  {
    LandShort(s, Planned(s, TrialQuery(mail), now));
    LandShort(s, Planned(s, GraceQuery(mail), now));
    LandShort(s, Planned(s, AbandonedQuery(days), now));
    hide LandAll, ReminderDue, DaysLeft;
  }

  lemma PlansRefineTheBillingJob(s: Sub, now: int, mail: Mail, graceDays: int)
    ensures var a := LandAll(s, Planned(s, DueSoonQuery(mail), now));
            var b := LandAll(a, Planned(a, OverdueQuery, now));
            LandAll(b, Planned(b, UnpaidQuery(graceDays), now)) == BillingRow(s, now, graceDays, mail)
  {
  }

  lemma LandShort(s: Sub, writes: seq<Write>)
    requires |writes| <= 2
    ensures LandAll(s, writes)
            == if |writes| == 0 then s
               else if |writes| == 1 then Land(s, writes[0])
               else Land(Land(s, writes[0]), writes[1])
    decreases |writes|
  {
    hide Land;
    if writes != [] {
      LandShort(Land(s, writes[0]), writes[1..]);
    }
  }

  // ---- Interleavings ----

  /** A super-admin action in one step, a query, or the next write of a job. */
  datatype Event = Admin(event: S.Event) | Begin(query: Query, now: int) | Finish(task: seq<Write>)

  /** The row, and what is still to be written of the queries made so far. */
  datatype Store = Store(row: Option<Sub>, pending: multiset<seq<Write>>)

  ghost predicate Admissible(e: Event) { e.Admin? ==> !S.IsJob(e.event) }

  ghost function Next(s: Store, e: Event): Store {
    match e
    case Admin(event) => s.(row := S.Step(s.row, event))
    case Begin(query, now) =>
      if s.row.None? || Planned(s.row.value, query, now) == [] then s
      else s.(pending := s.pending + multiset{Planned(s.row.value, query, now)})
    case Finish(task) =>
      if task !in s.pending || task == [] || s.row.None? then s
      else
        var rest := if |task| == 1 then multiset{} else multiset{task[1..]};
        Store(Some(Land(s.row.value, task[0])), s.pending - multiset{task} + rest)
  }

  ghost function After(events: seq<Event>): Store {
    if events == [] then Store(None, multiset{}) else Next(After(events[..|events| - 1]), events[|events| - 1])
  }

  ghost predicate IsRun(events: seq<Event>) { forall i :: 0 <= i < |events| ==> Admissible(events[i]) }

  /** The writes of a task, one after the other. */
  ghost function FinishAll(s: Store, task: seq<Write>): Store
    decreases |task|
  {
    if task == [] then s else FinishAll(Next(s, Finish(task)), task[1..])
  }

  /** They land in turn and leave nothing behind: a query and all its writes at once are a job. */
  lemma {:induction false} TaskRunsOff(s: Store, task: seq<Write>)
    requires s.row.Some? && (task != [] ==> task in s.pending)
    ensures FinishAll(s, task)
            == Store(Some(LandAll(s.row.value, task)), if task == [] then s.pending else s.pending - multiset{task})
    decreases |task|
  {
    hide Land;
    if task != [] {
      TaskRunsOff(Next(s, Finish(task)), task[1..]);
    }
  }

  // ---- The invariant under late writes ----

  /** A late write that the life-cycle invariant survives: only two kinds depend on the row they find. */
  predicate Harmless(s: Sub, w: Write) {
    match w
    case StartGrace(_) => s.isTrialUsed && s.trialEndsAt.Some? && s.suspendedAt.None?
    case FlagPastDue => s.suspendedAt.None?
    case _ => true
  }

  /** Whatever happened since the query, a write keeps the invariant exactly when it is harmless where it lands. */
  lemma LandKeepsInvIff(s: Sub, w: Write)
    requires S.Inv(Some(s))
    ensures S.Inv(Some(Land(s, w))) <==> Harmless(s, w)
  {
  }

  /** Event k lands a write that is not. */
  ghost predicate HarmsAt(events: seq<Event>, k: int) {
    && 0 <= k < |events| && events[k].Finish?
    && var before := After(events[..k]);
    && events[k].task in before.pending && events[k].task != [] && before.row.Some?
    && !Harmless(before.row.value, events[k].task[0])
  }

  ghost predicate InvAt(events: seq<Event>, k: int) { 0 <= k <= |events| ==> S.Inv(After(events[..k]).row) }

  ghost predicate InvThroughout(events: seq<Event>) { forall k :: InvAt(events, k) }

  ghost predicate NoneHarms(events: seq<Event>) { forall k :: !HarmsAt(events, k) }

  lemma ThroughoutStep(events: seq<Event>)
    requires events != []
    ensures InvThroughout(events) <==> InvThroughout(events[..|events| - 1]) && S.Inv(After(events).row)
    ensures InvThroughout(events[..|events| - 1]) ==> S.Inv(After(events[..|events| - 1]).row)
  {
    hide After, S.Inv;
    var before := events[..|events| - 1];
    assert events[..|events|] == events && before[..|before|] == before;
    forall k | k != |events|
      ensures InvAt(before, k) <==> InvAt(events, k)
    {
      assert 0 <= k <= |before| ==> before[..k] == events[..k];
    }
    assert InvAt(events, |events|) <==> S.Inv(After(events).row);
    assert InvAt(before, |events|) && (InvAt(before, |before|) <==> S.Inv(After(before).row));
    hide InvAt;
  }

  lemma NoneHarmsStep(events: seq<Event>)
    requires events != []
    ensures NoneHarms(events) <==> NoneHarms(events[..|events| - 1]) && !HarmsAt(events, |events| - 1)
  {
    hide After, Harmless;
    var before := events[..|events| - 1];
    forall k | 0 <= k < |before|
      ensures HarmsAt(before, k) <==> HarmsAt(events, k)
    {
      assert before[..k] == events[..k];
    }
  }

  lemma EventKeepsInvIff(s: Store, e: Event)
    requires S.Inv(s.row) && Admissible(e)
    ensures S.Inv(Next(s, e).row)
            <==> !(e.Finish? && e.task in s.pending && e.task != [] && s.row.Some? && !Harmless(s.row.value, e.task[0]))
  {
    match e
    case Admin(event) => AdminKeepsInv(s.row, event);
    case Begin(_, _) =>
    case Finish(task) =>
      if task in s.pending && task != [] && s.row.Some? {
        LandKeepsInvIff(s.row.value, task[0]);
      }
  }

  lemma AdminKeepsInv(row: Option<Sub>, e: S.Event)
    requires S.Inv(row)
    ensures S.Inv(S.Step(row, e))
  {
  }

  /** In every interleaving the invariant of the life cycle holds throughout exactly when no write lands where
      it does harm. */
  lemma {:induction false} InvThroughoutIff(events: seq<Event>)
    requires IsRun(events)
    ensures InvThroughout(events) <==> NoneHarms(events)
  {
    if events == [] {
      assert After([]).row == None;
    } else {
      var before := events[..|events| - 1];
      InvThroughoutIff(before);
      ThroughoutStep(events);
      NoneHarmsStep(events);
      if InvThroughout(before) {
        EventKeepsInvIff(After(before), events[|events| - 1]);
      }
      hide InvThroughout, NoneHarms, S.Inv, Harmless;
    }
  }

  /** It does break: a trial ends and is queried, a tier without a second trial is assigned and the subscription
      becomes active, and the late write puts it into a grace period that belongs to no trial. */
  lemma LateGraceBreaksInv(s: Sub, plan: Plan, annual: bool, now: int, later: int, mail: Mail)
    requires S.Inv(Some(s)) && s.status == Trialing && s.trialEndsAt.Some? && s.trialEndsAt.value <= now
    ensures Planned(s, TrialQuery(mail), now) == [StartGrace(AddDays(now, s.plan.graceDays))]
    ensures var active := AssignTier(Some(s), plan, false, annual, later);
            var late := Land(active, StartGrace(AddDays(now, s.plan.graceDays)));
            active.status == Active && late.status == GracePeriod && late.trialEndsAt == None && !S.Inv(Some(late))
  {
  }

  // ---- What late writes cannot break ----

  /** The used-trial flag survives every interleaving, */
  lemma {:induction false} TrialUsedStays(events: seq<Event>, i: nat, j: nat)
    requires i <= j <= |events| && S.TrialUsed(After(events[..i]).row)
    ensures S.TrialUsed(After(events[..j]).row)
    decreases j
  {
    hide Next, S.TrialUsed;
    if i < j {
      TrialUsedStays(events, i, j - 1);
      assert events[..j][..j - 1] == events[..j - 1];
      EventKeepsTrialUsed(After(events[..j - 1]), events[j - 1]);
    }
  }

  lemma EventKeepsTrialUsed(s: Store, e: Event)
    requires S.TrialUsed(s.row)
    ensures S.TrialUsed(Next(s, e).row)
  {
    if e.Admin? {
      S.TrialUsedKept(s.row, e.event);
    }
    hide S.Step;
  }

  ghost predicate GrantsTrial(events: seq<Event>, i: int) {
    && 0 <= i < |events| && events[i].Admin?
    && events[i].event.action.Assign? && !events[i].event.action.forceTrial
    && CanUseTrial(After(events[..i]).row, events[i].event.action.plan, false)
  }

  lemma GrantUsesTrial(events: seq<Event>, i: nat)
    requires GrantsTrial(events, i)
    ensures S.TrialUsed(After(events[..i + 1]).row) && !S.TrialUsed(After(events[..i]).row)
  {
    assert events[..i + 1][..i] == events[..i];
  }

  /** so an unforced trial is granted at most once even when jobs write late. */
  lemma UnforcedTrialAtMostOnce(events: seq<Event>, i: nat, j: nat)
    requires GrantsTrial(events, i) && GrantsTrial(events, j)
    ensures i == j
  {
    GrantUsesTrial(events, i);
    GrantUsesTrial(events, j);
    assert i < |events| && j < |events|;
    hide GrantsTrial, After, S.TrialUsed;
    if i < j {
      TrialUsedStays(events, i + 1, j);
    } else if j < i {
      TrialUsedStays(events, j + 1, i);
    }
  }

  ghost predicate SuspendedAt(events: seq<Event>, k: int) {
    && 0 <= k <= |events|
    && After(events[..k]).row.Some? && After(events[..k]).row.value.status == Suspended
  }

  ghost predicate WasSuspended(events: seq<Event>) { exists k :: SuspendedAt(events, k) }

  /** An expired subscription was suspended at some time before, by an action or by a write that had landed. */
  lemma {:induction false} ExpiredWasSuspended(events: seq<Event>)
    requires IsRun(events)
    ensures After(events).row.Some? && After(events).row.value.status == Expired ==> WasSuspended(events)
    ensures forall task :: task in After(events).pending && Expire in task ==> WasSuspended(events)
  {
    if events != [] {
      var before, last := events[..|events| - 1], events[|events| - 1];
      ExpiredWasSuspended(before);
      assert events[..|before|] == before && before[..|before|] == before;
      if WasSuspended(before) {
        var k :| SuspendedAt(before, k);
        assert before[..k] == events[..k];
        assert SuspendedAt(events, k);
      } else {
        assert !SuspendedAt(before, |before|);
        EventExpires(After(before), last);
      }
    }
  }

  lemma OnlyTheSuspendedArePlannedToExpire(s: Sub, q: Query, now: int)
    ensures Expire in Planned(s, q, now) ==> s.status == Suspended
  {
  }

  lemma AdminDoesNotExpire(row: Option<Sub>, e: S.Event)
    requires !S.IsJob(e) && (row.Some? ==> row.value.status != Suspended && row.value.status != Expired)
    ensures S.Step(row, e).Some? ==> S.Step(row, e).value.status != Expired
  {
  }

  lemma EventExpires(s: Store, e: Event)
    requires Admissible(e) && (s.row.Some? ==> s.row.value.status != Suspended && s.row.value.status != Expired)
    requires forall task :: task in s.pending ==> Expire !in task
    ensures Next(s, e).row.Some? ==> Next(s, e).row.value.status != Expired
    ensures forall task :: task in Next(s, e).pending ==> Expire !in task
  {
    hide Planned, S.Step;
    match e
    case Admin(event) => AdminDoesNotExpire(s.row, event);
    case Begin(q, now) =>
      if s.row.Some? {
        OnlyTheSuspendedArePlannedToExpire(s.row.value, q, now);
      }
    case Finish(task) =>
      if task in s.pending && task != [] && s.row.Some? {
        assert task[0] in task && forall w :: w in task[1..] ==> w in task;
        var n := Next(s, e);
        forall t | t in n.pending ensures Expire !in t {
          assert t in s.pending || t == task[1..];
        }
      }
  }

  // ---- What a late EXPIRED finds ----

  predicate IsDead(row: Option<Sub>) { row.Some? && (row.value.status == Suspended || row.value.status == Expired) }

  /** Whether the last of the events that can suspend or revive a subscription revives it. */
  ghost function LastRevives(events: seq<S.Event>): bool {
    if events == [] then false
    else
      var last := events[|events| - 1].action;
      if last.Assign? || last.ReactivateNow? then true
      else if last.SuspendNow? then false
      else LastRevives(events[..|events| - 1])
  }

  /** The abandoned job queries a suspended row. Whatever super-admin actions, trial and abandoned jobs come
      before its write, that write expires a live subscription exactly when the last suspension, reactivation
      or tier assignment among them was not a suspension. */
  lemma {:induction false} LateExpiryOverwritesIff(s: Sub, between: seq<S.Event>)
    requires s.status == Suspended
    requires forall i :: 0 <= i < |between| ==> !between[i].action.GraceJob? && !between[i].action.BillingJob?
    ensures S.After(Some(s), between).Some?
    ensures !IsDead(S.After(Some(s), between)) <==> LastRevives(between)
    ensures Land(S.After(Some(s), between).value, Expire) == S.After(Some(s), between).value.(status := Expired)
    decreases |between|
  {
    if between != [] {
      LateExpiryOverwritesIff(s, between[..|between| - 1]);
    }
  }
}
