/** What holds of one organization's subscription over every run of jobs and super-admin actions. */
module SubscriptionRuns {
  import opened Prelude
  import opened Clock
  import opened Subscription

  datatype Action =
    | Assign(plan: Plan, forceTrial: bool, annual: bool)
    | SuspendNow
    | ExpireNow
    | Extend(days: int)
    | ReactivateNow
    | TrialJob(mail: Mail)
    | GraceJob(mail: Mail)
    | AbandonedJob(days: int)
    | BillingJob(graceDays: int, mail: Mail)

  datatype Event = Event(action: Action, now: int)

  function OrKeep(s: Sub, r: Result<Sub, SubError>): Sub { if r.Ok? then r.value else s }

  /** The row after an event; an action that throws leaves it as it was. */
  function Step(row: Option<Sub>, e: Event): Option<Sub> {
    if e.action.Assign? then Some(AssignTier(row, e.action.plan, e.action.forceTrial, e.action.annual, e.now))
    else if row.None? then None
    else
      var s := row.value;
      Some(match e.action
           case SuspendNow => OrKeep(s, Suspend(s, e.now))
           case ExpireNow => OrKeep(s, MarkExpired(s))
           case Extend(days) => OrKeep(s, ExtendTrial(s, days, e.now))
           case ReactivateNow => OrKeep(s, Reactivate(s))
           case TrialJob(mail) => TrialExpiryRow(s, e.now, mail)
           case GraceJob(mail) => GraceRow(s, e.now, mail)
           case AbandonedJob(days) => AbandonedRow(s, e.now, days)
           case BillingJob(graceDays, mail) => BillingRow(s, e.now, graceDays, mail)
           case _ => s)
  }

  ghost function After(row: Option<Sub>, events: seq<Event>): Option<Sub> {
    if events == [] then row else Step(After(row, events[..|events| - 1]), events[|events| - 1])
  }

  lemma AfterStep(row: Option<Sub>, events: seq<Event>, i: nat)
    requires i < |events|
    ensures After(row, events[..i + 1]) == Step(After(row, events[..i]), events[i])
  {
    assert events[..i + 1][..i] == events[..i];
  }

  // ---- Invariants of the life cycle ----

  ghost predicate Inv(row: Option<Sub>) {
    row.Some? ==>
      var s := row.value;
      && (s.status == Trialing || s.status == GracePeriod ==> s.isTrialUsed && s.trialEndsAt.Some?)
      && (s.status == GracePeriod ==> s.graceEndsAt.Some?)
      && (s.suspendedAt.Some? ==> s.status == Suspended || s.status == Expired)
  }

  /** In every state reached by actions and jobs that each complete in one step: a trial or grace period means
      the trial is used and has an end, a grace period has an end, and a suspension date means suspended or
      expired. SubscriptionRaces drops the assumption. */
  lemma {:induction false} EveryRunKeepsInv(events: seq<Event>)
    ensures Inv(After(None, events))
  {
    if events != [] {
      EveryRunKeepsInv(events[..|events| - 1]);
    }
  }

  ghost predicate TrialUsed(row: Option<Sub>) { row.Some? && row.value.isTrialUsed }

  lemma {:induction false} TrialUsedNeverReverts(row: Option<Sub>, events: seq<Event>, i: nat, j: nat)
    requires i <= j <= |events| && TrialUsed(After(row, events[..i]))
    ensures TrialUsed(After(row, events[..j]))
    decreases j
  {
    hide Step;
    if i < j {
      TrialUsedNeverReverts(row, events, i, j - 1);
      AfterStep(row, events, j - 1);
      TrialUsedKept(After(row, events[..j - 1]), events[j - 1]);
    }
  }

  lemma TrialUsedKept(row: Option<Sub>, e: Event)
    requires TrialUsed(row)
    ensures TrialUsed(Step(row, e))
  {
  }

  /** Event i grants a trial that was not forced. */
  ghost predicate GrantsTrial(events: seq<Event>, i: nat)
    requires i < |events|
  {
    var e := events[i];
    e.action.Assign? && !e.action.forceTrial && CanUseTrial(After(None, events[..i]), e.action.plan, false)
  }

  /** An organization gets an unforced trial at most once, whatever happens in between. */
  lemma UnforcedTrialAtMostOnce(events: seq<Event>, i: nat, j: nat)
    requires i < |events| && j < |events| && GrantsTrial(events, i) && GrantsTrial(events, j)
    ensures i == j
  {
    if i < j {
      AfterStep(None, events, i);
      TrialUsedNeverReverts(None, events, i + 1, j);
    } else if j < i {
      AfterStep(None, events, j);
      TrialUsedNeverReverts(None, events, j + 1, i);
    }
  }

  /** EXPIRED is entered only from SUSPENDED, by the abandoned job or by hand. */
  lemma ExpiredOnlyFromSuspended(row: Option<Sub>, e: Event)
    requires Step(row, e).Some? && Step(row, e).value.status == Expired
    requires row.None? || row.value.status != Expired
    ensures row.Some? && row.value.status == Suspended && (e.action.AbandonedJob? || e.action.ExpireNow?)
  {
  }

  /** Event i starts a trial, forced or not. */
  ghost predicate StartsTrial(events: seq<Event>, i: int) {
    && 0 <= i < |events|
    && events[i].action.Assign?
    && CanUseTrial(After(None, events[..i]), events[i].action.plan, events[i].action.forceTrial)
  }

  /** The used-trial flag is exactly the memory of the whole history: it is set when, and only when, some
      earlier assignment started a trial. */
  lemma {:induction false} TrialUsedIffStarted(events: seq<Event>)
    ensures TrialUsed(After(None, events)) <==> exists i :: StartsTrial(events, i)
  {
    if events != [] {
      var last := |events| - 1;
      TrialUsedIffStarted(events[..last]);
      assert forall i :: 0 <= i < last ==> events[..last][..i] == events[..i];
      assert forall i :: 0 <= i < last ==> (StartsTrial(events[..last], i) <==> StartsTrial(events, i));
      TrialUsedStep(After(None, events[..last]), events[last]);
      if TrialUsed(After(None, events)) && !TrialUsed(After(None, events[..last])) {
        assert StartsTrial(events, last);
      }
    }
  }

  lemma TrialUsedStep(row: Option<Sub>, e: Event)
    ensures TrialUsed(Step(row, e))
            <==> TrialUsed(row) || (e.action.Assign? && CanUseTrial(row, e.action.plan, e.action.forceTrial))
  {
  }

  /** After any history, an unforced tier assignment gives a trial exactly when the plan has trial days and
      no assignment before ever started a trial; otherwise the subscription is active at once. */
  lemma TierGivesTrialIff(history: seq<Event>, plan: Plan, annual: bool, now: int)
    ensures var s := Step(After(None, history), Event(Assign(plan, false, annual), now));
            && s.Some?
            && (s.value.status == Trialing <==> plan.trialDays > 0 && forall i :: !StartsTrial(history, i))
            && (s.value.status == Active <==> s.value.status != Trialing)
  {
    TrialUsedIffStarted(history);
  }

  // ---- Reminders ----

  /** A trial warning goes out at most once, in the last seven days (the last day for the final one), when
      the e-mails before it in the run went through; the job changes nothing else of a running trial. */
  lemma TrialWarningsAreTimely(s: Sub, now: int, mail: Mail)
    requires s.status == Trialing && s.trialEndsAt.Some? && now < s.trialEndsAt.value
    ensures var left, after := s.trialEndsAt.value - now, TrialExpiryRow(s, now, mail);
            var due := s.trialReminderSentAt.None? && left <= 7 * MS_PER_DAY;
            && after.trialReminderSentAt == (if due && mail.first then Some(now) else s.trialReminderSentAt)
            && after.trialFinalReminderAt
               == (if s.trialFinalReminderAt.None? && left <= MS_PER_DAY && (due ==> mail.first) && mail.second
                   then Some(now)
                   else s.trialFinalReminderAt)
            && after == s.(trialReminderSentAt := after.trialReminderSentAt,
                           trialFinalReminderAt := after.trialFinalReminderAt)
  {
  }

  /** The mid-grace reminder goes out once, in the second half of the grace period and when its e-mail does; nothing
      else changes while the grace lasts. */
  lemma GraceReminderIsTimely(s: Sub, now: int, mail: Mail)
    requires s.status == GracePeriod && s.graceEndsAt.Some? && s.trialEndsAt.Some? && now < s.graceEndsAt.value
    ensures var due := s.graceReminderSentAt.None? && s.graceEndsAt.value - now <= now - s.trialEndsAt.value + 1;
            GraceRow(s, now, mail) == if due && mail.first then s.(graceReminderSentAt := Some(now)) else s
  {
  }

  /** The grace job suspends, as of now, exactly from the end of the grace on, and only if the mid-grace reminder
      has been sent before or goes through now. */
  lemma GraceSuspendsIff(s: Sub, now: int, mail: Mail)
    requires s.status == GracePeriod
    ensures GraceRow(s, now, mail).status == Suspended
            <==> s.graceEndsAt.Some? && s.graceEndsAt.value <= now && (mail.first || !ReminderDue(s, now))
    ensures GraceRow(s, now, mail).status != Suspended ==> GraceRow(s, now, mail).status == GracePeriod
    ensures GraceRow(s, now, mail).status == Suspended ==>
              GraceRow(s, now, mail) == s.(status := Suspended, suspendedAt := Some(now), graceEndsAt := None,
                                           graceReminderSentAt := None)
  {
  }

  /** The trial job ends a trial exactly from its end on, and starts the plan's days of grace now, whatever the
      e-mails do. */
  lemma TrialEndsIff(s: Sub, now: int, mail: Mail)
    requires s.status == Trialing
    ensures var after := TrialExpiryRow(s, now, mail);
            && (after.status == GracePeriod <==> s.trialEndsAt.Some? && s.trialEndsAt.value <= now)
            && (after.status == GracePeriod ==>
                  after == s.(status := GracePeriod, graceEndsAt := Some(now + s.plan.graceDays * MS_PER_DAY)))
            && (s.trialEndsAt.None? ==> after == s)
  {
  }

  /** The abandoned job expires what has been suspended for as many days as configured, or 60 if that is not a
      positive number. */
  lemma AbandonedAfter(s: Sub, now: int, config: Option<int>, days: int)
    requires days == if config.Some? && config.value > 0 then config.value else 60
    ensures AbandonedRow(s, now, AbandonedAfterDays(config))
            == if s.status == Suspended && s.suspendedAt.Some? && s.suspendedAt.value + days * MS_PER_DAY <= now
               then s.(status := Expired)
               else s
  {
  }

  // ---- The super admin ----

  /** A tier assignment starts a trial of the plan's days exactly for a plan that has some, and an organization that
      has not used its trial unless forced; else an active period of 365 or 30 days. It ends grace and suspension,
      and keeps the marks of warnings and the billing dates. */
  lemma AssignmentGives(row: Option<Sub>, plan: Plan, forceTrial: bool, annual: bool, now: int)
    ensures var s := Step(row, Event(Assign(plan, forceTrial, annual), now));
            var trial := plan.trialDays > 0 && (forceTrial || !TrialUsed(row));
            && s.Some? && s.value.plan == plan && s.value.status == (if trial then Trialing else Active)
            && (s.value.isTrialUsed <==> trial || TrialUsed(row))
            && s.value.trialStartedAt == (if trial then Some(now) else None)
            && s.value.trialEndsAt == (if trial then Some(now + plan.trialDays * MS_PER_DAY) else None)
            && s.value.currentPeriodStart == (if trial then None else Some(now))
            && s.value.currentPeriodEnd
               == (if trial then None else if annual then Some(now + 365 * MS_PER_DAY) else Some(now + 30 * MS_PER_DAY))
            && s.value.graceEndsAt == s.value.graceReminderSentAt == s.value.suspendedAt == None
            && SameMarks(s.value, row)
  {
  }

  ghost predicate SameMarks(s: Sub, row: Option<Sub>) {
    if row.None? then
      && s.trialReminderSentAt == s.trialFinalReminderAt == s.nextBillingDate == s.billingReminderSentAt == None
    else
      && s.trialReminderSentAt == row.value.trialReminderSentAt
      && s.trialFinalReminderAt == row.value.trialFinalReminderAt
      && s.nextBillingDate == row.value.nextBillingDate
      && s.billingReminderSentAt == row.value.billingReminderSentAt
  }

  /** Suspending, expiring by hand and reactivating: which status each needs, and the columns it sets. Reactivation
      takes a suspension back, but for the grace it ends. */
  lemma ManualStatus(s: Sub, now: int, later: int)
    ensures Step(Some(s), Event(SuspendNow, now))
            == Some(if s.status == Suspended then s else s.(status := Suspended, suspendedAt := Some(now)))
    ensures Step(Some(s), Event(ExpireNow, now)) == Some(if s.status == Suspended then s.(status := Expired) else s)
    ensures Step(Some(s), Event(ReactivateNow, now))
            == Some(if s.status == Active then s
                    else s.(status := Active, suspendedAt := None, graceEndsAt := None, graceReminderSentAt := None))
    ensures s.status == Active && s.suspendedAt.None? ==>
              Step(Step(Some(s), Event(SuspendNow, now)), Event(ReactivateNow, later))
              == Some(s.(graceEndsAt := None, graceReminderSentAt := None))
    ensures (Suspend(s, now) == Err(AlreadySuspended) <==> s.status == Suspended)
            && (MarkExpired(s) == Err(NotSuspended) <==> s.status != Suspended)
            && (Reactivate(s) == Err(AlreadyActive) <==> s.status == Active)
  {
  }

  /** An extension is for trials and grace periods: a trial again, until some days after its end or now, whichever is
      later, that will be warned anew. */
  lemma ExtensionGives(s: Sub, days: int, now: int)
    ensures var end := if s.trialEndsAt.Some? && s.trialEndsAt.value > now then s.trialEndsAt.value else now;
            Step(Some(s), Event(Extend(days), now))
            == Some(if s.status != Trialing && s.status != GracePeriod then s
                    else s.(status := Trialing, trialEndsAt := Some(end + days * MS_PER_DAY), graceEndsAt := None,
                            graceReminderSentAt := None, trialReminderSentAt := None, trialFinalReminderAt := None))
    ensures ExtendTrial(s, days, now) == Err(NotInTrial) <==> s.status != Trialing && s.status != GracePeriod
  {
  }

  ghost predicate SameContract(s: Sub, t: Sub) {
    && t.plan == s.plan && t.trialStartedAt == s.trialStartedAt && t.trialEndsAt == s.trialEndsAt
    && t.isTrialUsed == s.isTrialUsed && t.currentPeriodStart == s.currentPeriodStart
    && t.currentPeriodEnd == s.currentPeriodEnd && t.nextBillingDate == s.nextBillingDate
  }

  lemma JobKeepsTheContract(s: Sub, e: Event)
    requires IsJob(e)
    ensures Step(Some(s), e).Some? && SameContract(s, Step(Some(s), e).value)
  {
  }

  /** What jobs never touch, over any run of them: plan, trial dates, used-trial flag, period and billing date. */
  lemma {:induction false} JobsKeepTheContract(s: Sub, events: seq<Event>)
    requires forall i :: 0 <= i < |events| ==> IsJob(events[i])
    ensures After(Some(s), events).Some? && SameContract(s, After(Some(s), events).value)
  {
    if events != [] {
      var before, last := events[..|events| - 1], events[|events| - 1];
      JobsKeepTheContract(s, before);
      JobKeepsTheContract(After(Some(s), before).value, last);
      hide Step;
    }
  }

  // ---- The billing job ----

  /** What one billing run makes of an active subscription: the third loop sees the second's writes, so a
      subscription overdue beyond the grace is suspended in the very run that finds it overdue. */
  lemma BillingOfActive(s: Sub, now: int, graceDays: nat, mail: Mail)
    requires s.status == Active
    ensures var status := BillingRow(s, now, graceDays, mail).status;
            && (status == Suspended <==> s.nextBillingDate.Some? && AddDays(s.nextBillingDate.value, graceDays) < now)
            && (status == PastDue
                <==> s.nextBillingDate.Some?
                     && s.nextBillingDate.value < now <= AddDays(s.nextBillingDate.value, graceDays))
            && (status == Active <==> s.nextBillingDate.None? || now <= s.nextBillingDate.value)
  {
  }

  /** The rest of a billing run: the reminder goes out once, in the last seven days before the billing date; what is
      past due is suspended beyond the grace; other statuses and other columns stay. */
  lemma BillingChanges(s: Sub, now: int, graceDays: int, mail: Mail)
    ensures Step(Some(s), Event(BillingJob(graceDays, mail), now)).Some?
    ensures var t := Step(Some(s), Event(BillingJob(graceDays, mail), now)).value;
            var due := s.status == Active && s.billingReminderSentAt.None? && s.nextBillingDate.Some?
                       && now <= s.nextBillingDate.value <= now + 7 * MS_PER_DAY;
            && t == s.(status := t.status, billingReminderSentAt := t.billingReminderSentAt)
            && t.billingReminderSentAt == (if due && mail.first then Some(now) else s.billingReminderSentAt)
            && (s.status == PastDue ==>
                  t.status == if s.nextBillingDate.Some? && s.nextBillingDate.value + graceDays * MS_PER_DAY < now
                              then Suspended else PastDue)
            && (s.status != Active && s.status != PastDue ==> t == s)
  {
  }

  /** Running the billing job again at the same instant completes it: whichever of its loops the first run
      got through for a row before a write threw, the two runs together are one whole run. */
  lemma BillingIsIdempotent(s: Sub, now: int, graceDays: int, mail: Mail, loops: nat)
    ensures BillingRow(BillingRowAfter(s, now, graceDays, mail, loops), now, graceDays, mail)
            == BillingRow(s, now, graceDays, mail)
  {
  }

  /** The billing and the grace job touch different statuses, so their order does not matter to any field. */
  lemma BillingAndGraceCommute(s: Sub, billingNow: int, graceDays: int, billingMail: Mail, graceNow: int,
                               graceMail: Mail)
    ensures GraceRow(BillingRow(s, billingNow, graceDays, billingMail), graceNow, graceMail)
            == BillingRow(GraceRow(s, graceNow, graceMail), billingNow, graceDays, billingMail)
  {
  }

  ghost predicate IsJob(e: Event) {
    e.action.TrialJob? || e.action.GraceJob? || e.action.AbandonedJob? || e.action.BillingJob?
  }

  /** An abandoned job that finds the suspension old enough. */
  ghost predicate AbandonsAt(events: seq<Event>, i: int, suspendedAt: int) {
    && 0 <= i < |events|
    && events[i].action.AbandonedJob?
    && suspendedAt <= AddDays(events[i].now, -events[i].action.days)
  }

  /** Over any run of jobs a suspended subscription expires exactly when it has a suspension date and some
      abandoned job finds that date old enough; until then not one field of it changes. */
  lemma {:induction false} SuspendedExpiresIff(s: Sub, events: seq<Event>)
    requires s.status == Suspended && forall i :: 0 <= i < |events| ==> IsJob(events[i])
    ensures var expires := s.suspendedAt.Some? && exists i :: AbandonsAt(events, i, s.suspendedAt.value);
            After(Some(s), events) == Some(if expires then s.(status := Expired) else s)
  {
    if events != [] {
      var last := |events| - 1;
      SuspendedExpiresIff(s, events[..last]);
      if s.suspendedAt.Some? {
        var at := s.suspendedAt.value;
        assert forall i :: 0 <= i < last ==> (AbandonsAt(events[..last], i, at) <==> AbandonsAt(events, i, at));
        assert AbandonsAt(events, last, at) ==> After(Some(s), events) == Some(s.(status := Expired));
      }
    }
  }

  /** The billing job does not set the suspension date. So a subscription that it suspends, from any state
      the life cycle allows, is never expired by the jobs, however long it stays suspended. */
  lemma BillingSuspensionIsNeverAbandoned(s: Sub, e: Event, later: seq<Event>)
    requires Inv(Some(s)) && e.action.BillingJob? && s.status != Suspended && Step(Some(s), e).value.status == Suspended
    requires forall i :: 0 <= i < |later| ==> IsJob(later[i])
    ensures var suspended := Step(Some(s), e);
            suspended.value.suspendedAt == None && After(suspended, later) == suspended
  {
    SuspendedExpiresIff(Step(Some(s), e).value, later);
  }

  /** Such a state needs a billing date, and nothing in the life cycle writes one: in every run from an
      organization without a subscription the billing job changes nothing at all. */
  lemma {:induction false} BillingNeverActs(history: seq<Event>, e: Event)
    requires e.action.BillingJob?
    ensures Step(After(None, history), e) == After(None, history)
    ensures After(None, history).Some? ==>
              After(None, history).value.nextBillingDate == None && After(None, history).value.status != PastDue
  {
    if history != [] {
      BillingNeverActs(history[..|history| - 1], e);
      NoBillingDateStays(After(None, history[..|history| - 1]), history[|history| - 1]);
    }
  }

  lemma NoBillingDateStays(row: Option<Sub>, e: Event)
    requires row.Some? ==> row.value.nextBillingDate == None && row.value.status != PastDue
    ensures Step(row, e).Some? ==> Step(row, e).value.nextBillingDate == None && Step(row, e).value.status != PastDue
  {
  }

  // ---- How long an unpaid trial lasts ----

  /** A run of jobs only, in time order, with a fixed abandonment threshold. */
  ghost predicate JobRun(events: seq<Event>, start: int, abandonDays: int) {
    && (forall i :: 0 <= i < |events| ==> IsJob(events[i]) && start <= events[i].now)
    && (forall i, j :: 0 <= i < j < |events| ==> events[i].now <= events[j].now)
    && (forall i :: 0 <= i < |events| && events[i].action.AbandonedJob? ==> events[i].action.days == abandonDays)
  }

  ghost predicate InTrialUntil(s: Sub, trialEnd: int) {
    s.status == Trialing && s.trialEndsAt == Some(trialEnd)
  }

  /** Where a subscription that started in such a trial can be at a given time. */
  ghost predicate Phase(row: Option<Sub>, trialEnd: int, graceDays: int, abandonDays: int, now: int) {
    && row.Some? && row.value.plan.graceDays == graceDays
    && match row.value.status
       case Trialing => row.value.trialEndsAt == Some(trialEnd)
       case GracePeriod => row.value.graceEndsAt.Some?
                           && AddDays(trialEnd, graceDays) <= row.value.graceEndsAt.value <= AddDays(now, graceDays)
       case Suspended => row.value.suspendedAt.Some?
                         && AddDays(trialEnd, graceDays) <= row.value.suspendedAt.value <= now
       case Expired => AddDays(trialEnd, graceDays + abandonDays) <= now
       case _ => false
  }

  lemma StepKeepsPhase(row: Option<Sub>, e: Event, trialEnd: int, graceDays: int, abandonDays: int, before: int)
    requires Phase(row, trialEnd, graceDays, abandonDays, before) && before <= e.now
    requires IsJob(e) && (e.action.AbandonedJob? ==> e.action.days == abandonDays)
    ensures Phase(Step(row, e), trialEnd, graceDays, abandonDays, e.now)
  {
  }

  /** The time known before event i. */
  ghost function ClockBefore(events: seq<Event>, start: int, i: nat): int
    requires i <= |events|
  {
    if i == 0 then start else events[i - 1].now
  }

  lemma {:induction false} RunKeepsPhase(s: Sub, events: seq<Event>, start: int, trialEnd: int, abandonDays: int,
                                         i: nat)
    requires InTrialUntil(s, trialEnd) && JobRun(events, start, abandonDays) && i <= |events|
    ensures Phase(After(Some(s), events[..i]), trialEnd, s.plan.graceDays, abandonDays, ClockBefore(events, start, i))
    decreases i
  {
    if i > 0 {
      RunKeepsPhase(s, events, start, trialEnd, abandonDays, i - 1);
      AfterStep(Some(s), events, i - 1);
      StepKeepsPhase(After(Some(s), events[..i - 1]), events[i - 1], trialEnd, s.plan.graceDays, abandonDays,
                     ClockBefore(events, start, i - 1));
    }
  }

  /** Whatever the e-mails do and however the jobs are spaced, a trial that ends at T with g days of grace
      is not suspended before T + g days, nor expired before T + g + X days. */
  lemma NeverEndedEarly(s: Sub, events: seq<Event>, start: int, trialEnd: int, abandonDays: int, i: nat)
    requires InTrialUntil(s, trialEnd) && JobRun(events, start, abandonDays) && i < |events|
    ensures var after := After(Some(s), events[..i + 1]);
            && after.Some?
            && (after.value.status == Suspended ==> AddDays(trialEnd, s.plan.graceDays) <= events[i].now)
            && (after.value.status == Expired ==> AddDays(trialEnd, s.plan.graceDays + abandonDays) <= events[i].now)
  {
    RunKeepsPhase(s, events, start, trialEnd, abandonDays, i + 1);
  }

  /** An extension by some days holds over every later run of jobs: before the later of the trial's end and
      now, plus those days and the grace, the subscription is neither suspended nor expired. */
  lemma ExtensionHolds(s: Sub, days: int, now: int, events: seq<Event>, start: int, abandonDays: nat, i: nat)
    requires ExtendTrial(s, days, now).Ok? && s.trialEndsAt.Some?
    requires JobRun(events, start, abandonDays) && i < |events|
    requires events[i].now < AddDays(Max(s.trialEndsAt.value, now), days + s.plan.graceDays)
    ensures var after := After(Some(ExtendTrial(s, days, now).value), events[..i + 1]);
            after.Some? && after.value.status in {Trialing, GracePeriod}
  {
    var extended, end := ExtendTrial(s, days, now).value, AddDays(Max(s.trialEndsAt.value, now), days);
    RunKeepsPhase(extended, events, start, end, abandonDays, i + 1);
  }

  /** A run of the trial job in the last seven days before trialEnd whose first e-mail goes through. */
  ghost predicate WarnsAt(events: seq<Event>, i: int, trialEnd: int) {
    && 0 <= i < |events|
    && events[i].action.TrialJob? && events[i].action.mail.first
    && trialEnd - events[i].now <= 7 * MS_PER_DAY
  }

  /** One on the last day whose second e-mail goes through, after the first warning or with it. */
  ghost predicate WarnsFinallyAt(s: Sub, events: seq<Event>, i: int, trialEnd: int) {
    && 0 <= i < |events|
    && events[i].action.TrialJob? && events[i].action.mail.second
    && trialEnd - events[i].now <= MS_PER_DAY
    && (s.trialReminderSentAt.Some? || exists j :: WarnsAt(events, j, trialEnd) && j <= i)
  }

  ghost predicate SomeWarns(events: seq<Event>, trialEnd: int) { exists i :: WarnsAt(events, i, trialEnd) }

  ghost predicate SomeWarnsFinally(s: Sub, events: seq<Event>, trialEnd: int) {
    exists i :: WarnsFinallyAt(s, events, i, trialEnd)
  }

  lemma WarnsStep(s: Sub, events: seq<Event>, trialEnd: int)
    requires events != []
    ensures var last := |events| - 1;
            && (SomeWarns(events, trialEnd) <==> SomeWarns(events[..last], trialEnd) || WarnsAt(events, last, trialEnd))
            && (SomeWarnsFinally(s, events, trialEnd)
                <==> || SomeWarnsFinally(s, events[..last], trialEnd)
                     || (&& events[last].action.TrialJob? && events[last].action.mail.second
                         && trialEnd - events[last].now <= MS_PER_DAY
                         && (s.trialReminderSentAt.Some? || SomeWarns(events, trialEnd))))
  {
    var last := |events| - 1;
    var before := events[..last];
    assert forall j :: 0 <= j < last ==> (WarnsAt(before, j, trialEnd) <==> WarnsAt(events, j, trialEnd));
    forall i | 0 <= i < last
      ensures WarnsFinallyAt(s, before, i, trialEnd) <==> WarnsFinallyAt(s, events, i, trialEnd)
    {
      if j :| WarnsAt(events, j, trialEnd) && j <= i {
        assert WarnsAt(before, j, trialEnd);
      }
    }
    if SomeWarnsFinally(s, before, trialEnd) {
      var i :| WarnsFinallyAt(s, before, i, trialEnd);
      assert WarnsFinallyAt(s, events, i, trialEnd);
    }
    assert WarnsFinallyAt(s, events, last, trialEnd)
        <==> && events[last].action.TrialJob? && events[last].action.mail.second
             && trialEnd - events[last].now <= MS_PER_DAY
             && (s.trialReminderSentAt.Some? || SomeWarns(events, trialEnd)) by {
      if j :| WarnsAt(events, j, trialEnd) {
        assert j <= last;
      }
    }
    hide WarnsAt, WarnsFinallyAt;
  }

  /** When a running trial is warned, over any run of jobs before its end: exactly when it carries the mark of
      the warning already, or some run of the trial job in its last week (on its last day for the final one)
      gets the e-mail through. Nothing else about the trial changes. */
  lemma {:induction false} TrialIsWarnedIff(s: Sub, events: seq<Event>, trialEnd: int)
    requires InTrialUntil(s, trialEnd)
    requires forall i :: 0 <= i < |events| ==> IsJob(events[i]) && events[i].now < trialEnd
    ensures After(Some(s), events).Some?
    ensures var t := After(Some(s), events).value;
            && t == s.(trialReminderSentAt := t.trialReminderSentAt, trialFinalReminderAt := t.trialFinalReminderAt)
            && (t.trialReminderSentAt.Some? <==> s.trialReminderSentAt.Some? || SomeWarns(events, trialEnd))
            && (t.trialFinalReminderAt.Some?
                <==> s.trialFinalReminderAt.Some? || SomeWarnsFinally(s, events, trialEnd))
            && (s.trialReminderSentAt.Some? ==> t.trialReminderSentAt == s.trialReminderSentAt)
            && (s.trialFinalReminderAt.Some? ==> t.trialFinalReminderAt == s.trialFinalReminderAt)
  {
    if events != [] {
      TrialIsWarnedIff(s, events[..|events| - 1], trialEnd);
      WarnsStep(s, events, trialEnd);
      hide SomeWarns, SomeWarnsFinally;
    }
  }

  /** A tier assignment keeps the marks that an extension clears. So a forced second trial of an organization
      warned during its first one is never warned: until its end no job changes anything about it. */
  lemma SecondTrialIsNeverWarned(first: Sub, plan: Plan, annual: bool, now: int, events: seq<Event>)
    requires plan.trialDays > 0 && first.trialReminderSentAt.Some? && first.trialFinalReminderAt.Some?
    requires var end := AddDays(now, plan.trialDays);
             forall i :: 0 <= i < |events| ==> IsJob(events[i]) && events[i].now < end
    ensures var second := AssignTier(Some(first), plan, true, annual, now);
            InTrialUntil(second, AddDays(now, plan.trialDays)) && After(Some(second), events) == Some(second)
  {
    TrialIsWarnedIff(AssignTier(Some(first), plan, true, annual, now), events, AddDays(now, plan.trialDays));
  }

  datatype Kind = TrialKind | GraceKind | AbandonedKind

  ghost predicate IsKind(e: Event, kind: Kind) {
    match kind
    case TrialKind => e.action.TrialJob?
    case GraceKind => e.action.GraceJob?
    case AbandonedKind => e.action.AbandonedJob?
  }

  ghost predicate RunsAt(events: seq<Event>, kind: Kind, t: int, i: int) {
    0 <= i < |events| && IsKind(events[i], kind) && t < events[i].now <= AddDays(t, 1)
  }

  ghost predicate RunsAfter(events: seq<Event>, kind: Kind, t: int) {
    exists i :: RunsAt(events, kind, t, i)
  }

  /** Each of the three jobs runs at least once in every 24 hours between two times, and e-mails go through. */
  ghost predicate Daily(events: seq<Event>, from: int, until: int) {
    && (forall kind, t :: from <= t && AddDays(t, 1) <= until ==> RunsAfter(events, kind, t))
    && (forall i :: 0 <= i < |events| && events[i].action.GraceJob? ==> events[i].action.mail.first)
  }

  function Rank(status: Status): int {
    match status
    case Trialing => 0
    case GracePeriod => 1
    case Suspended => 2
    case _ => 3
  }

  /** The dates a status depends on do not move while the status stays, and jobs never turn it back. */
  ghost predicate Forward(a: Option<Sub>, b: Option<Sub>) {
    && a.Some? && b.Some?
    && Rank(a.value.status) <= Rank(b.value.status)
    && (a.value.status == b.value.status == GracePeriod ==> a.value.graceEndsAt == b.value.graceEndsAt)
    && (a.value.status == b.value.status == Suspended ==> a.value.suspendedAt == b.value.suspendedAt)
  }

  lemma {:induction false} RunGoesForward(s: Sub, events: seq<Event>, start: int, trialEnd: int, abandonDays: int,
                                          i: nat, j: nat)
    requires InTrialUntil(s, trialEnd) && JobRun(events, start, abandonDays) && i <= j <= |events|
    ensures Forward(After(Some(s), events[..i]), After(Some(s), events[..j]))
    decreases j
  {
    hide Step;
    RunKeepsPhase(s, events, start, trialEnd, abandonDays, i);
    if i < j {
      RunGoesForward(s, events, start, trialEnd, abandonDays, i, j - 1);
      RunKeepsPhase(s, events, start, trialEnd, abandonDays, j - 1);
      AfterStep(Some(s), events, j - 1);
      StepGoesForward(After(Some(s), events[..j - 1]), events[j - 1], trialEnd, s.plan.graceDays, abandonDays,
                      ClockBefore(events, start, j - 1));
    }
  }

  lemma StepGoesForward(row: Option<Sub>, e: Event, trialEnd: int, graceDays: int, abandonDays: int, now: int)
    requires Phase(row, trialEnd, graceDays, abandonDays, now) && IsJob(e)
    ensures Forward(row, Step(row, e))
  {
  }

  /** With every job run once a day and e-mails going through, the trial is over within a day of T, the
      grace period within two days of T + g, and the subscription is expired by T + g + X + 3 days. */
  lemma ExpiredWithinThreeDays(s: Sub, events: seq<Event>, start: int, trialEnd: int, abandonDays: int, until: int)
    requires InTrialUntil(s, trialEnd) && JobRun(events, start, abandonDays)
    requires s.plan.graceDays >= 0 && abandonDays >= 0
    requires Daily(events, trialEnd, until) && AddDays(trialEnd, s.plan.graceDays + abandonDays + 3) <= until
    ensures After(Some(s), events).Some? && After(Some(s), events).value.status == Expired
    ensures forall i :: 0 <= i < |events| && AddDays(trialEnd, s.plan.graceDays + abandonDays + 3) < events[i].now ==>
              After(Some(s), events[..i]).Some? && After(Some(s), events[..i]).value.status == Expired
  {
    hide Step, After, Phase, InTrialUntil;
    var a, b, c := DailyWitnesses(events, start, trialEnd, s.plan.graceDays, abandonDays, until);
    TrialIsOver(s, events, start, trialEnd, abandonDays, a);
    GraceIsOver(s, events, start, trialEnd, abandonDays, a, b);
    AbandonmentIsOver(s, events, start, trialEnd, abandonDays, b, c);
    forall i | c < i <= |events|
      ensures After(Some(s), events[..i]).Some? && After(Some(s), events[..i]).value.status == Expired
    {
      StaysExpired(s, events, start, trialEnd, abandonDays, c + 1, i);
    }
    assert events[..|events|] == events;
  }

  /** A trial, a grace and an abandoned run, each inside the day it is needed in. */
  lemma DailyWitnesses(events: seq<Event>, start: int, trialEnd: int, graceDays: int, abandonDays: int, until: int)
    returns (a: nat, b: nat, c: nat)
    requires JobRun(events, start, abandonDays) && graceDays >= 0 && abandonDays >= 0
    requires Daily(events, trialEnd, until) && AddDays(trialEnd, graceDays + abandonDays + 3) <= until
    ensures RunsAt(events, TrialKind, trialEnd, a)
    ensures RunsAt(events, GraceKind, AddDays(trialEnd, 1 + graceDays), b) && events[b].action.mail.first
    ensures RunsAt(events, AbandonedKind, AddDays(trialEnd, 2 + graceDays + abandonDays), c)
    ensures a < b < c
  {
    var t2, t3 := AddDays(trialEnd, 1 + graceDays), AddDays(trialEnd, 2 + graceDays + abandonDays);
    assert RunsAfter(events, TrialKind, trialEnd) && RunsAfter(events, GraceKind, t2)
        && RunsAfter(events, AbandonedKind, t3);
    a :| RunsAt(events, TrialKind, trialEnd, a);
    b :| RunsAt(events, GraceKind, t2, b);
    c :| RunsAt(events, AbandonedKind, t3, c);
  }

  lemma StaysExpired(s: Sub, events: seq<Event>, start: int, trialEnd: int, abandonDays: int, i: nat, j: nat)
    requires InTrialUntil(s, trialEnd) && JobRun(events, start, abandonDays) && i <= j <= |events|
    requires After(Some(s), events[..i]).Some? && After(Some(s), events[..i]).value.status == Expired
    ensures After(Some(s), events[..j]).Some? && After(Some(s), events[..j]).value.status == Expired
  {
    hide Step, After;
    RunGoesForward(s, events, start, trialEnd, abandonDays, i, j);
    RunKeepsPhase(s, events, start, trialEnd, abandonDays, j);
  }

  lemma TrialIsOver(s: Sub, events: seq<Event>, start: int, trialEnd: int, abandonDays: int, a: nat)
    requires InTrialUntil(s, trialEnd) && JobRun(events, start, abandonDays)
    requires RunsAt(events, TrialKind, trialEnd, a)
    ensures var after := After(Some(s), events[..a + 1]);
            && after.Some? && Rank(after.value.status) >= 1
            && (after.value.status == GracePeriod ==>
                  && after.value.graceEndsAt.Some?
                  && after.value.graceEndsAt.value <= AddDays(trialEnd, 1 + s.plan.graceDays))
  {
    RunKeepsPhase(s, events, start, trialEnd, abandonDays, a);
    RunKeepsPhase(s, events, start, trialEnd, abandonDays, a + 1);
    AfterStep(Some(s), events, a);
  }

  lemma GraceIsOver(s: Sub, events: seq<Event>, start: int, trialEnd: int, abandonDays: int, a: nat, b: nat)
    requires InTrialUntil(s, trialEnd) && JobRun(events, start, abandonDays) && a < b < |events|
    requires events[b].action.GraceJob? && events[b].action.mail.first
    requires AddDays(trialEnd, 1 + s.plan.graceDays) < events[b].now <= AddDays(trialEnd, 2 + s.plan.graceDays)
    requires var after := After(Some(s), events[..a + 1]);
             && after.Some? && Rank(after.value.status) >= 1
             && (after.value.status == GracePeriod ==>
                   && after.value.graceEndsAt.Some?
                   && after.value.graceEndsAt.value <= AddDays(trialEnd, 1 + s.plan.graceDays))
    ensures var after := After(Some(s), events[..b + 1]);
            && after.Some? && Rank(after.value.status) >= 2
            && (after.value.status == Suspended ==>
                  && after.value.suspendedAt.Some?
                  && after.value.suspendedAt.value <= AddDays(trialEnd, 2 + s.plan.graceDays))
  {
    hide After;
    RunGoesForward(s, events, start, trialEnd, abandonDays, a + 1, b);
    RunKeepsPhase(s, events, start, trialEnd, abandonDays, b);
    RunKeepsPhase(s, events, start, trialEnd, abandonDays, b + 1);
    AfterStep(Some(s), events, b);
  }

  lemma AbandonmentIsOver(s: Sub, events: seq<Event>, start: int, trialEnd: int, abandonDays: int, b: nat, c: nat)
    requires InTrialUntil(s, trialEnd) && JobRun(events, start, abandonDays) && b < c < |events|
    requires events[c].action.AbandonedJob? && AddDays(trialEnd, 2 + s.plan.graceDays + abandonDays) < events[c].now
    requires var after := After(Some(s), events[..b + 1]);
             && after.Some? && Rank(after.value.status) >= 2
             && (after.value.status == Suspended ==>
                   && after.value.suspendedAt.Some?
                   && after.value.suspendedAt.value <= AddDays(trialEnd, 2 + s.plan.graceDays))
    ensures After(Some(s), events[..c + 1]).Some? && After(Some(s), events[..c + 1]).value.status == Expired
  {
    hide After;
    RunGoesForward(s, events, start, trialEnd, abandonDays, b + 1, c);
    RunKeepsPhase(s, events, start, trialEnd, abandonDays, c);
    RunKeepsPhase(s, events, start, trialEnd, abandonDays, c + 1);
    AfterStep(Some(s), events, c);
  }

  /** A run of the grace job that gets past the reminder once the grace has ended: the reminder is not due,
      its e-mail goes through, or a run before has sent it. */
  ghost predicate PassesReminder(s: Sub, events: seq<Event>, i: int) {
    && 0 <= i < |events|
    && events[i].action.GraceJob?
    && s.graceEndsAt.Some? && s.graceEndsAt.value <= events[i].now
    && (events[i].action.mail.first || !ReminderDue(s, events[i].now) || exists j :: Reminds(s, events, j) && j < i)
  }

  /** A run of the grace job in the second half of the grace whose reminder e-mail goes through. */
  ghost predicate Reminds(s: Sub, events: seq<Event>, j: int) {
    && 0 <= j < |events|
    && events[j].action.GraceJob? && events[j].action.mail.first
    && ReminderDue(s.(graceReminderSentAt := None), events[j].now)
  }

  ghost predicate SomePasses(s: Sub, events: seq<Event>) { exists i :: PassesReminder(s, events, i) }

  ghost predicate SomeReminds(s: Sub, events: seq<Event>) { exists j :: Reminds(s, events, j) }

  lemma PassesStep(s: Sub, events: seq<Event>)
    requires events != []
    ensures var last := |events| - 1;
            && (SomePasses(s, events) <==> SomePasses(s, events[..last]) || PassesReminder(s, events, last))
            && (SomeReminds(s, events) <==> SomeReminds(s, events[..last]) || Reminds(s, events, last))
            && (PassesReminder(s, events, last) <==>
                  && events[last].action.GraceJob?
                  && s.graceEndsAt.Some? && s.graceEndsAt.value <= events[last].now
                  && (events[last].action.mail.first || !ReminderDue(s, events[last].now)
                      || SomeReminds(s, events[..last])))
  {
    var last := |events| - 1;
    var before := events[..last];
    assert forall j :: 0 <= j < last ==> (Reminds(s, before, j) <==> Reminds(s, events, j));
    assert forall i :: 0 <= i < last ==> (PassesReminder(s, before, i) <==> PassesReminder(s, events, i));
    if SomePasses(s, before) {
      var i :| PassesReminder(s, before, i);
      assert PassesReminder(s, events, i);
    }
    if SomeReminds(s, before) {
      var j :| Reminds(s, before, j);
      assert Reminds(s, events, j);
    }
  }

  /** Where failing e-mails can hold up a subscription in its grace period: over any run of jobs it leaves
      the grace period exactly when some run of the grace job after its end gets past the reminder. */
  lemma {:induction false} StaysInGraceIff(s: Sub, events: seq<Event>)
    requires s.status == GracePeriod && s.trialEndsAt.Some?
    requires forall i :: 0 <= i < |events| ==> IsJob(events[i])
    ensures var after := After(Some(s), events);
            && after.Some?
            && (after.value.status == GracePeriod <==> !SomePasses(s, events))
            && (after.value.status == GracePeriod ==>
                  && after.value == s.(graceReminderSentAt := after.value.graceReminderSentAt)
                  && (after.value.graceReminderSentAt.Some? <==> s.graceReminderSentAt.Some? || SomeReminds(s, events)))
            && after.value.status in {GracePeriod, Suspended, Expired}
  {
    if events != [] {
      StaysInGraceIff(s, events[..|events| - 1]);
      PassesStep(s, events);
      hide PassesReminder, SomePasses, SomeReminds;
    }
  }
}
