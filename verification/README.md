# Attendance, calendar, payroll and subscription rules of Attend-Xpress

A Dafny model of the parts of the Attend-Xpress backend that carry state, calendar arithmetic and money
arithmetic, with proofs of what they keep over every run. Database reads are arguments, database writes
are field updates.

| file | content |
|---|---|
| Prelude, Clock, Money | options and results; Nepal local time in whole milliseconds; rupees as exact reals with `Math.round` |
| BikramSambat | `adToBS`, `bsToAD` and month ranges over an arbitrary table of month lengths |
| Roster, Shifts | roster schedules, and the shift of a check-in as scans, the auto-close job and payroll each resolve it |
| Attendance, AttendanceRules, AttendanceRuns, AttendanceRaces | the record log of one membership: scans, admin actions, edits, the auto-close job, what each does in the figures of its configuration, all their runs, and runs with late writes |
| AttendanceEdits | which payroll months an edit of a record changes and flags |
| PayrollHours, WorkedTime | presence, minutes and overtime drawn from the records, and what bounds them |
| Leaves, LeaveBalances | leave requests, leave days counted by payroll, yearly balances |
| Tax, Payslip | progressive slab tax, one payslip |
| PayrollWorkflow, MultiMonth | the payslip workflow over interleavings; the multi-month report |
| Subscription, SubscriptionRuns, SubscriptionRaces | the four daily jobs and the super-admin actions on a subscription, in runs and with late writes |

Code that updates rows or runs a loop is a class or a method, specified by a function on values; what the
code promises is then proved about that function, over all inputs and all runs. Every figure of the
configuration (grace, limits, entitlements, slab widths, rates, periods) is pinned by a lemma that states its
effect without the function that computes it. `hide` statements only shorten what the solver looks at.

Where the code and its own words differ, the model follows the code:

- Overtime counts all minutes once the grace is exceeded, while the comment subtracts the grace
  (src/services/payroll.service.ts:1350-1353, 1461-1462).
- Without a shift end, a forgotten record is closed at the end of yesterday, while the comment says the end
  of the clock-in day (src/services/attendance.service.ts:1290, 1302): NoShiftEndClosesYesterday.
- A flagged payslip "must be regenerated", yet a bulk update to PROCESSED accepts it
  (src/services/payroll.service.ts:886-891, 998): FlaggedMovesWithoutRegenerationIff.
- Weekday-split rosters on the same dates are allowed, yet the lookup stops at the first schedule of the
  dates (src/services/roster.service.ts:463-467, 358-360): LookupFindsEntryIffFirst, LookupCanMissAnEntry.
- Casual leave is carried over up to 90 days, while the schema comment says it never is
  (src/services/leaveBalance.service.ts:11, 158; prisma/schema.prisma:813-814). The warning that a
  carry-over was capped ignores it: CasualForfeitsSilently.
- Days present are distinct UTC dates, not local ones (src/services/payroll.service.ts:1407):
  DaysPresentAgainstLocalDays, OneDayCanCountTwice, TwoDaysCanCountOnce.
- The cooldown can be missed through a tie, and through the auto-close job: MayPassIff, CooldownMissesATie,
  NightOrganizationBreaksCooldown.
- An edited record flags the month of its new check-in only (src/services/attendance.service.ts:704-713):
  ChangedMonthsAreFlaggedIff.
- A rejected request refunds days it never took (src/services/leaveBalance.service.ts:293-300):
  UsedIsChargedIff. Days approved for a year already carried over are not deducted from the next:
  ConservedIff, LateApprovalIsNotDeducted.
- The first slab of a tax configuration is not validated and may be negative
  (src/services/payroll.service.ts:68-77): TaxAndTakeHomeAreMonotoneIff, NegativeFirstSlabTakesAll.
- A leave that ended on the eve of a month counts in it as one day, because the query compares UTC dates
  (src/services/payroll.service.ts:1327-1334): LeaveBeforeTheMonthCounts.
- A forced second trial is not warned of its end (src/services/superadmin.subscription.service.ts:211-229):
  SecondTrialIsNeverWarned.
- The roster page resolves a schedule by date, payroll and the auto-close job by the instant of the check-in
  (src/services/roster.service.ts:328, 358-360; src/services/payroll.service.ts:1417-1432): LookupsAgreeIff.
- The grace job is described as running at 08:30 Nepal time, but unlike the billing job its schedule names
  no time zone (src/jobs/grace-period.job.ts:3, 135-138; src/jobs/billing.job.ts:198-202). The proofs do
  not depend on the hour.

## Model

| member | source | states |
|---|---|---|
| BikramSambat.AdToBS | src/lib/nepali-date.ts:67-104 | the forward month walk ends, and succeeds or fails as the specification says, for every table and instant |
| BikramSambat.WalkForward | src/lib/nepali-date.ts:80-101 | the date reached is valid and is exactly n days after the start |
| BikramSambat.BsToAD | src/lib/nepali-date.ts:110-160 | the sum of full years, full months and days is the number of the day; each invalid field has its error |
| BikramSambat.DayNumberIsMonotone | src/lib/nepali-date.ts:136-153 | numbering valid dates is strictly increasing, one to one and within the table |
| BikramSambat.RoundTripFromBS | src/lib/nepali-date.ts:67-160 | every instant of a valid day converts back to that day; the time of day is ignored |
| BikramSambat.RoundTripFromAD | src/lib/nepali-date.ts:67-160 | an instant converts exactly when its day is in the table, to a valid date whose midnight is its own midnight |
| BikramSambat.ConversionsPreserveOrder | src/lib/nepali-date.ts:67-160 | both conversions preserve order strictly |
| BikramSambat.ConversionErrors | src/lib/nepali-date.ts:67-134 | which error: before 2070-01-01, after the table, month out of 1-12, day out of the month |
| BikramSambat.GetBSMonthADRange | src/lib/nepali-date.ts:267-279 | the range runs from the first midnight of the month to the last millisecond of its last day |
| BikramSambat.MonthRangeIsPreimage | src/lib/nepali-date.ts:267-279 | an instant is in the range of a month exactly when it converts to that month |
| BikramSambat.MonthRangesTile | src/lib/nepali-date.ts:267-279 | month ranges follow one another without gap or overlap over the whole table |
| BikramSambat.RepositoryTable | src/lib/nepali-date.ts:32-58 | the table of 2070-2090 is well formed, so the theorems apply to it |
| BikramSambat.TableHasLeapYears | src/lib/nepali-date.ts:36-58 | 21 years of 365 days, but for every fourth one from 2072 on |
| BikramSambat.YearsBeginInApril | src/lib/nepali-date.ts:32-62 | in such a table the first of Baishakh is 14 April in every year, counted in Gregorian years |
| Clock.ClockReading | src/services/attendance.service.ts:1272-1273 | a clock reading is the instant of that day whose hour and minute it names |
| Clock.WeekdayCycles | src/services/payroll.service.ts:1415-1416 | weekdays cycle by seven, Sunday being 0 |
| Clock.RoundingDirections | src/services/attendance.service.ts:1305-1307 | minutes are cut off, days rounded up, and Nepal is 5:45 ahead of UTC |
| Money.Round2IsNear | src/services/payroll.service.ts:409-414 | amounts are rounded to the nearest paisa, halves up |
| Roster.RangesOverlapIsExact | src/services/roster.service.ts:71-84 | for ranges not inverted, the interval test holds exactly when some date is in both |
| Roster.RosterTable.AssertNoOverlap | src/services/roster.service.ts:468-506 | accepts exactly the candidates without a conflicting live schedule in their scope |
| Roster.RosterTable.CreateSchedule | src/services/roster.service.ts:183-249 | the checks in order, the branch admin's included, and the row to insert |
| Roster.RosterTable.UpdateSchedule | src/services/roster.service.ts:254-305 | the checks in order; absent fields keep what was read, and the scope is immutable |
| Roster.RosterTable.DeleteSchedule | src/services/roster.service.ts:310-317 | the live schedule to mark deleted, or that there is none |
| Roster.RosterTable.CompleteWrite | src/services/roster.service.ts:222-316 | the write by id that follows, whatever the table has become |
| Roster.CreateIff | src/services/roster.service.ts:183-249 | a schedule is created exactly by an admin who may, for an employee there is, and without a live schedule of its scope that shares a date and a weekday; each refusal has its error |
| Roster.ChangeAndDelete | src/services/roster.service.ts:254-317 | a change keeps what it leaves out and the scope, deleting only marks the row, and no other row is touched |
| Roster.FarFutureIsTheLastDate | src/services/roster.service.ts:75-76 | an open range ends on 31 December 9999 in Gregorian years |
| Roster.RunKeepsNoConflicts | src/services/roster.service.ts:213-317 | no run of requests that complete one after the other creates a conflict between live schedules of a scope |
| Roster.WriteKeepsNoConflictsIff | src/services/roster.service.ts:213-305 | whatever was checked before, a write keeps the table free of conflicts exactly when its check would still succeed |
| Roster.InterleavingsKeepNoConflictsIff | src/services/roster.service.ts:213-317 | in every interleaving of checks and writes the table stays free of conflicts exactly when no write comes that its check would refuse by then |
| Roster.AtMostOneScheduleCovers | src/services/roster.service.ts:71-84 | after such a run at most one live schedule of a scope covers a date and weekday, open and inverted ranges included |
| Roster.FindSchedule | src/services/roster.service.ts:357-375 | finds a schedule of the scope covering the date exactly when there is one |
| Roster.LookupIgnoresRowOrder | src/services/payroll.service.ts:1417-1432 | with one schedule per scope on the date, the entry found does not depend on row order |
| Roster.EntryIsFoundIff | src/services/payroll.service.ts:1417-1430 | then the entry found is that of the employee's own schedule on the date, and the organization's exactly if there is none |
| Roster.LookupFindsEntryIffFirst | src/services/payroll.service.ts:1417-1432 | the entry of a row for the weekday is found exactly when no earlier row of the employee has the date |
| Roster.LookupCanMissAnEntry | src/jobs/midnight-autoclose.job.ts:91-109 | a reachable table with a covering entry that the lookup misses |
| Roster.InstantInRangeIff | src/services/roster.service.ts:79-84 | a check-in is within a schedule's dates exactly when its local date is, except before 05:45 on the first day and after it on the last |
| Roster.LookupsAgreeIff | src/services/roster.service.ts:358-375 | in any table, looking up by check-in finds what looking up by date finds, exactly unless the check-in is at an edge of that schedule |
| Shifts.ScanCapIsFirstShiftEndAfter | src/services/attendance.service.ts:1269-1300 | the scan cap is the first shift end strictly after the check-in |
| Shifts.ScanCapWithinDayIff | src/services/attendance.service.ts:1269-1300 | it has the shift end's time of day, and comes at most 24 hours later exactly when the clock reading is no further than that from the check-in |
| Shifts.CapsAgreeIff | src/jobs/midnight-autoclose.job.ts:111-147 | without a roster entry, scan and job cap alike exactly for check-ins before a day shift's end, or at or after a night shift's end time on the starting day |
| Shifts.ShiftLevels | src/services/payroll.service.ts:1433-1444 | roster entry, membership, organization, 10:00 and 18:00 decide in turn; the job differs from payroll exactly where a membership time is blank, and scans stop before the default |
| Shifts.ShiftEndFollowsStart | src/services/payroll.service.ts:1445-1456 | a shift starts on the day of the check-in and ends with the first reading of its end from there, less than a day later |
| Attendance.AttendanceLog.FindRecentAction | src/services/attendance.service.ts:1216-1226 | some record within the cooldown with the latest check-in, or none if there is none |
| Attendance.AttendanceLog.FindOpen | src/services/attendance.service.ts:1240-1242 | the open record, if any |
| Attendance.AttendanceLog.CountToday | src/services/attendance.service.ts:1201-1206 | the number of check-ins on the calendar day of now |
| Attendance.AttendanceLog.TryClockIn | src/services/attendance.service.ts:1426-1466 | the clock-in guards in order, then one new record |
| Attendance.AttendanceLog.Scan | src/services/attendance.service.ts:1182-1482 | one scan: cooldown, auto-close, clock-in or clock-out; a rejected scan leaves the records unchanged |
| Attendance.AttendanceLog.ManualClockIn | src/services/attendance.service.ts:538-556 | opens a record unless one is open |
| Attendance.AttendanceLog.ManualClockOut | src/services/attendance.service.ts:564-583 | closes the open record now, or reports that there is none |
| Attendance.AttendanceLog.RunAutoClose | src/jobs/midnight-autoclose.job.ts:26-184 | each open record is closed, skipped or failed on its own merits, and the three counters count exactly those |
| AttendanceRules.ScanClocksOutIff | src/services/attendance.service.ts:1269-1286 | past the cooldown a scan clocks out exactly while an open record is within its grace, the configured minutes or 240 after the cap, else begun today; it sets the columns of a clock-out only |
| AttendanceRules.ScanClocksInIff | src/services/attendance.service.ts:1426-1466 | otherwise it clocks in exactly within hours, below the limit and in the calendar, capping a forgotten record and adding one that begins now; each refusal has its error |
| AttendanceRules.ManualActionsIff | src/services/attendance.service.ts:538-583 | an admin clocks in exactly who is out and out exactly who is in, and what that writes |
| AttendanceRules.JobClosesIff | src/jobs/midnight-autoclose.job.ts:135-163 | the job closes exactly the open records whose shift ended more than the configured minutes, or 240, ago, fails on unreadable ends, and what closing writes |
| AttendanceRules.JobTreatsEachRecord | src/jobs/midnight-autoclose.job.ts:65-184 | a run of the job treats every record on its own |
| AttendanceRules.ClosedAreChanged | src/jobs/midnight-autoclose.job.ts:152-166 | the closed counter is the number of records that the run changes |
| AttendanceRules.CountersAddUp | src/jobs/midnight-autoclose.job.ts:140-184 | closed, skipped and failed add up to the open records, for any records |
| AttendanceRuns.ForgottenIsClosedInThePast | src/services/attendance.service.ts:1269-1307 | an auto-closed record ends after its check-in and, with a known shift end, earlier than now minus the grace |
| AttendanceRuns.StepKeepsInv | src/services/attendance.service.ts:1182-1482 | every event keeps the records sound and in order |
| AttendanceRuns.RunKeepsInv | src/services/attendance.service.ts:1182-1482 | after every event of every run the records are sound and in order |
| AttendanceRuns.RecordsNeverOverlap | src/services/attendance.service.ts:530-583 | after every run each closed record ends by now and, unless the job capped it, not before it began; of two records the earlier is closed before the later begins |
| AttendanceRuns.LateClockInKeepsInvIff | src/services/attendance.service.ts:530-556 | a manual clock-in written after its check keeps the order exactly when no record is open by then |
| AttendanceRuns.LateClockOutKeepsInvIff | src/services/attendance.service.ts:561-583 | a manual clock-out written after its check keeps it exactly when no later record has begun |
| AttendanceRuns.LateCapKeepsInv | src/jobs/midnight-autoclose.job.ts:135-163 | a cap written after the query always keeps the order |
| AttendanceRaces.PlansRefineTheActions | src/services/attendance.service.ts:530-583 | checks and writes that follow one another at once are the manual actions and the job of one step |
| AttendanceRaces.CheckAndFinish | src/services/attendance.service.ts:530-583 | a check and its write leave nothing pending |
| AttendanceRaces.OrderIsKeptIff | src/services/attendance.service.ts:530-583 | in every interleaving of scans with separate checks and writes of manual actions and the job, the records stay sound and in order exactly when no manual clock-in lands on an open record and no clock-out on one that another has followed |
| AttendanceRuns.NoShiftEndClosesYesterday | src/services/attendance.service.ts:1287-1307 | without a shift end a forgotten record ends yesterday, which is the clock-in day exactly for yesterday's check-ins |
| AttendanceRuns.JobCapsBeforeCheckInIff | src/jobs/midnight-autoclose.job.ts:125-150 | the job ends a record before its check-in exactly when it began after the end of a day shift |
| AttendanceRuns.ScanAndJobCloseAlike | src/jobs/midnight-autoclose.job.ts:135-147 | where the caps agree, scan and job close the same records at the same instant |
| AttendanceRuns.ClockInClosedIff | src/services/attendance.service.ts:1428-1444 | clock-in is closed exactly after a shift end from noon on, never by a morning end |
| AttendanceRuns.MayPassIff | src/services/attendance.service.ts:1216-1237 | for any records a run can produce, a scan gets past the cooldown exactly when a record that began with the last one was acted on 120 seconds ago and may be the answer of the query |
| AttendanceRuns.MayPassIffWaited | src/services/attendance.service.ts:1216-1237 | without job-capped records, exactly 120 seconds after the last action, or in the tie one cooldown old |
| AttendanceRuns.MayPassIffCapped | src/services/attendance.service.ts:1227-1231 | after a cap by the job, exactly 120 seconds after the cap |
| AttendanceRuns.CooldownIff | src/services/attendance.service.ts:1216-1237 | in every run without the job, a scan gets past exactly 120 seconds after the last accepted action, or in that tie |
| AttendanceRuns.CooldownHolds | src/services/attendance.service.ts:1216-1237 | hence an accepted scan comes 120 seconds after every earlier accepted action, ties aside |
| AttendanceRuns.CooldownMissesATie | src/services/attendance.service.ts:1217-1231 | a run in which the tie lets a scan through after 60 seconds |
| AttendanceRuns.JobBreaksCooldown | src/jobs/midnight-autoclose.job.ts:125-163 | whenever the job caps a fresh record well before its check-in, a scan one second later is accepted |
| AttendanceRuns.NightOrganizationCapsEarly | src/jobs/midnight-autoclose.job.ts:125-133 | an organization and check-in for which that happens |
| AttendanceRuns.NightOrganizationBreaksCooldown | src/jobs/midnight-autoclose.job.ts:125-163 | on any day of any calendar that organization has a run with a scan one second after a clock-in |
| AttendanceRuns.StepCounts | src/services/attendance.service.ts:1199-1213 | an event adds at most one check-in, on the day of now, and only when it clocks in |
| AttendanceRuns.DailyLimitHolds | src/services/attendance.service.ts:1199-1213 | under a fixed limit and without manual clock-ins no day ever holds more check-ins than the limit |
| AttendanceRuns.LimitNeverBlocksClockOut | src/services/attendance.service.ts:1191-1193 | whether and how a scan clocks out does not depend on the limit |
| Attendance.AttendanceLog.Edit | src/services/attendance.service.ts:612-723 | an edit's permission, time and order checks, the stored record, and the flagged month; nothing changes on a refused edit |
| AttendanceRules.EditIsStoredIff | src/services/attendance.service.ts:630-681 | an edit is stored exactly by who may make it, with times of the last 90 days, in order; each refusal has its error and changes nothing |
| AttendanceRules.EditStores | src/services/attendance.service.ts:661-705 | what it stores: a new check-out closes with the nearest minutes, a new check-in alone keeps the rest; the flagged month is that of the resulting check-in |
| AttendanceEdits.EditMovesFigures | src/services/attendance.service.ts:669-687 | minutes and overtime of any month lose the old record's part and gain the new one's |
| AttendanceEdits.OnlyTwoMonthsChange | src/services/attendance.service.ts:704-713 | no month other than the flagged one and the one the check-in came from changes in days, minutes or overtime |
| AttendanceEdits.ChangedMonthsAreFlaggedIff | src/services/attendance.service.ts:704-713 | every month whose payroll rows change is flagged exactly when the check-in stays in its BS month |
| AttendanceEdits.MovedCheckInLeavesMonthUnflagged | src/services/attendance.service.ts:704-713 | an edit that takes an hour from a month it does not flag |
| AttendanceRuns.StoredMonthIsTheMonthThatCounts | src/services/attendance.service.ts:1449-1460 | in every run the BS month stored with a record is the one payroll counts it in |
| PayrollHours.GetDaysPresent | src/services/payroll.service.ts:1355-1480 | days present are the distinct day keys, hours and overtime the sums over the month's records |
| PayrollHours.OvertimeOf | src/services/payroll.service.ts:1410-1464 | early and late minutes of one record count in full once beyond their grace |
| PayrollHours.OvertimeIs | src/services/payroll.service.ts:1448-1464 | overtime is the full minutes before the start and after the end of the shift, each in full if more than its grace |
| PayrollHours.HoursAreNear | src/services/payroll.service.ts:1476-1477 | hours are minutes over 60 to the nearest hundredth |
| PayrollHours.IsoDayIsLocalDayIff | src/services/payroll.service.ts:1407 | the day key is the local day exactly from 05:45 on |
| PayrollHours.DaysSplitAtCatchUp | src/services/payroll.service.ts:1402-1407 | the days present are the local days of check-ins from 05:45 and the day before each earlier one |
| PayrollHours.DaysPresentAgainstLocalDays | src/services/payroll.service.ts:1402-1407 | by how many the days present differ from the distinct local days, for any records |
| PayrollHours.OneDayCanCountTwice | src/services/payroll.service.ts:1407 | two check-ins of one local day that count as two days |
| PayrollHours.TwoDaysCanCountOnce | src/services/payroll.service.ts:1407 | two check-ins of consecutive local days that count as one day |
| PayrollHours.JobClosedHasNoLateOvertime | src/services/payroll.service.ts:1435-1464 | a record closed by the job has no late overtime under the same schedules, whatever the grace |
| PayrollHours.RecordOvertimeBounded | src/services/payroll.service.ts:1448-1464 | a record that meets its shift has at most its duration as overtime |
| PayrollHours.NothingOutsideShiftIsLost | src/services/payroll.service.ts:1448-1464 | without grace, what a stay has beyond its overtime is at most the shift's length, to two minutes of rounding |
| PayrollHours.OvertimeAtMostWorked | src/services/payroll.service.ts:1406-1466 | over any records that meet their shifts, overtime is at most the minutes worked |
| PayrollHours.OvercountsIff | src/services/payroll.service.ts:1448-1464 | a record counts more overtime than it lasted exactly when the minutes on one side of its shift exceed grace and stay, or it ends before it began |
| PayrollHours.EarlyAndLateStaysOvercount | src/services/payroll.service.ts:1458-1464 | an hour before and an hour after the shift that count three hours each |
| WorkedTime.WorkedTimeFitsTheClock | src/services/payroll.service.ts:1406-1474 | after every run, the minutes added up for a month fit between its start and the end of the last stay that begins in it: no time counts twice |
| WorkedTime.MinutesAreStays | src/services/payroll.service.ts:1406-1474 | after every run the minutes of a month are exactly those of the stays that begin in it, open ones until now |
| WorkedTime.OvertimeFitsTheClock | src/services/payroll.service.ts:1406-1466 | the same for overtime when the records meet their shifts |
| WorkedTime.DaysPresentFitTheMonth | src/services/payroll.service.ts:1402-1407 | the days present are at most the month's length, and one more only by a check-in before 05:45 on its first day |
| Leaves.LeaveBook.RequestLeave | src/services/leave.service.ts:17-64 | the checks of a request in order, with the dates the columns keep, and the row it goes on to insert |
| Leaves.LeaveBook.UpdateLeaveStatus | src/services/leave.service.ts:134-171 | the checks of a decision and the status it goes on to write |
| Leaves.LeaveBook.CancelLeave | src/services/leave.service.ts:442-455 | the checks of a cancellation, after which it deletes |
| Leaves.LeaveBook.CompleteWrite | src/services/leave.service.ts:166-176 | the write by id that follows, whatever the row has become; a row that is gone is an error |
| Leaves.AskIff | src/services/leave.service.ts:17-54 | a row is granted exactly when no pending or approved leave of the member has a date in common, dates are in order and in the calendar; each refusal has its error |
| Leaves.StoredAsAsked | src/services/leave.service.ts:37-54 | in every run each stored leave has the member, kind, UTC dates and BS dates of the request of its number |
| Leaves.OnlyTheOwnerCancels | src/services/leave.service.ts:442-455 | in every run a leave disappears exactly when its own employee cancels it while pending |
| Leaves.DecideIff | src/services/leave.service.ts:150-171 | only a pending leave is decided, and it gets the status decided; a late write fails exactly if the row is gone |
| Leaves.BeginAndFinishMakeAStep | src/services/leave.service.ts:29-54 | checks and a write at once are the request of one step, with nothing left pending |
| Leaves.RunKeepsLeavesApart | src/services/leave.service.ts:24-56 | when requests complete one after the other, the pending and approved leaves of a member are always pairwise disjoint |
| Leaves.InterleavingsKeepApartIff | src/services/leave.service.ts:29-56 | in every interleaving of checks and writes they stay disjoint exactly when no write comes that its check would refuse by then |
| Leaves.FinishKeepsApartIff | src/services/leave.service.ts:162-176 | which single write breaks it: dates taken meanwhile, or an approval that revives a rejected leave over another |
| Leaves.FirstDecisionStands | src/services/leave.service.ts:162-171 | when requests complete one after the other, the status of a leave is the first decision about it |
| Leaves.DecidedLeavesAreFinal | src/services/leave.service.ts:162-163 | and a decided leave never changes or disappears |
| Leaves.DecisionIsFinalIff | src/services/leave.service.ts:162-171 | over every interleaved continuation a decided leave stays as it is exactly when no cancellation or contrary decision already checked is still to be written |
| Leaves.RacingWritesUndoADecision | src/services/leave.service.ts:450-455 | of two decisions checked together the last write stands, and a cancellation deletes the approved leave |
| Leaves.GetApprovedLeaves | src/services/payroll.service.ts:1326-1344 | paid and unpaid days are the sums of the clipped day counts |
| Leaves.CountedAgainstCovered | src/services/payroll.service.ts:1337-1341 | a leave counts the days it covers, and one more exactly when a month end clips it |
| Leaves.LeaveBeforeTheMonthCounts | src/services/payroll.service.ts:1327-1341 | a leave that ended on the eve of the month covers none of its days and counts as one |
| Leaves.PaidAndUnpaidAgainstCovered | src/services/payroll.service.ts:1335-1343 | paid plus unpaid days are the distinct days covered plus the clipped leaves; the distinct days fit the month |
| Leaves.EachSideAgainstCovered | src/services/payroll.service.ts:1335-1343 | and so for each side: unpaid days are those of the leaves of kind UNPAID, paid days those of all others |
| Leaves.TouchesIff | src/services/payroll.service.ts:1327-1334 | a dated leave is read for the month exactly when it meets the month or its eve |
| Leaves.BSMonthIsMonth | src/lib/nepali-date.ts:267-279 | a BS month range is whole local days, as many as the table says |
| Leaves.ApprovedLeavesAreMonthly | src/services/payroll.service.ts:1327-1334 | the approved leaves of a member after any run are dated and disjoint, as the counting theorem needs |
| LeaveBalances.LeaveLedger.InitializeYear | src/services/leaveBalance.service.ts:74-221 | preview, counts and writes of a run; a dry run, a missing organization and a disabled feature write nothing |
| LeaveBalances.LeaveLedger.PreviewRowOf | src/services/leaveBalance.service.ts:136-186 | the row of one member: fresh entitlements, capped carry-over of each kind, and the warning |
| LeaveBalances.BalanceIsOfItsPolicy | src/services/leaveBalance.service.ts:136-209 | in every run a row exists exactly if some initialization created it, with the annual, sick and casual days of that policy and the carry-over that caps of 90, 45 and 90 days allow |
| LeaveBalances.LeaveLedger.WriteNew | src/services/leaveBalance.service.ts:191-209 | creates the rows previewed as not skipped |
| LeaveBalances.LeaveLedger.Approve | src/services/leaveBalance.service.ts:246-292 | adds the days to the used count of the tracked kind, or skips |
| LeaveBalances.LeaveLedger.RejectRead | src/services/leaveBalance.service.ts:269-296 | computes the refund, floored at zero, or skips |
| LeaveBalances.LeaveLedger.RejectWrite | src/services/leaveBalance.service.ts:297-300 | writes a refund computed earlier |
| LeaveBalances.ApprovalTouchesItsKind | src/services/leaveBalance.service.ts:246-292 | an approval changes the used days of its own kind and key only, and nothing for other kinds or without the feature |
| LeaveBalances.RefundTouchesItsKind | src/services/leaveBalance.service.ts:293-300 | a refund written at once likewise, and leaves nothing pending |
| LeaveBalances.DaysOfAreInclusive | src/services/leaveBalance.service.ts:280 | a leave counts every date from its first to its last |
| LeaveBalances.CarryOverConserves | src/services/leaveBalance.service.ts:146-158 | the capped carry-over and the days beyond the cap are last year's available days; entitlement plus carry-over keeps to the cap |
| LeaveBalances.WarningMeansAnnualOrSickForfeited | src/services/leaveBalance.service.ts:160-166 | the warning is shown exactly when annual or sick days are forfeited |
| LeaveBalances.CasualForfeitsSilently | src/services/leaveBalance.service.ts:154-166 | casual days can be forfeited without it |
| LeaveBalances.RerunChangesNothing | src/services/leaveBalance.service.ts:106-111 | a second run for the same members changes nothing, whatever the policy |
| LeaveBalances.PreviewIsWhatIsWritten | src/services/leaveBalance.service.ts:169-209 | a real run writes exactly what the dry run previews |
| LeaveBalances.EveryRunKeepsBalances | src/services/leaveBalance.service.ts:136-302 | over all years, policies and decisions, with refunds written late, balances keep to their caps and used days lie between 0 and the approved days |
| LeaveBalances.ImmediateRefund | src/services/leaveBalance.service.ts:293-300 | a refund takes back the request's days as far as days are used, and nothing exactly when there are none of either |
| LeaveBalances.UsedIsChargedIff | src/services/leaveBalance.service.ts:280-302 | over every run with refunds written at once, used days are the days charged exactly when no rejection took any back, else fewer |
| LeaveBalances.UsedIsChargedWithoutRefunds | src/services/leaveBalance.service.ts:286-292 | in every run in which no refund is written, used days are exactly the days charged since the row was created |
| LeaveBalances.Origin | src/services/leaveBalance.service.ts:136-158 | in every run a carry-over is that of the previous year as it was at initialization, whose grants never change |
| LeaveBalances.DaysAreConserved | src/services/leaveBalance.service.ts:136-158 | over every run and any years, granted, overdrawn and late days balance taken, lost and unused days |
| LeaveBalances.LateDaysAre | src/services/leaveBalance.service.ts:280-302 | over every run they are exactly what decisions changed in a year after the next was initialized from it |
| LeaveBalances.ConservedIff | src/services/leaveBalance.service.ts:136-302 | over every run the plain law, without late days, holds exactly when those changes cancel out |
| LeaveBalances.ConservedIffNoneCharged | src/services/leaveBalance.service.ts:280-302 | in particular when there are none, and in runs without refunds only then |
| LeaveBalances.LateApprovalIsNotDeducted | src/services/leaveBalance.service.ts:286-292 | a reachable ledger in which five days are carried over and taken |
| Tax.SlabsAreProper | src/services/payroll.service.ts:68-107 | the slabs of any configuration are proper exactly when the first width is not negative |
| Tax.CalculateNepalTDS | src/services/payroll.service.ts:79-120 | the early-exit loop over the slabs, rounded to a month |
| Tax.ConfiguredTax | src/services/payroll.service.ts:79-117 | for every usable configuration and positive income: the first rate up to the width stored for the marital status (600000, 500000), unless SSF waives it, and each stored rate on its stretch |
| Tax.FirstSlabTax | src/services/payroll.service.ts:87-91 | so up to that width the tax is exactly the first rate, or nothing with SSF |
| Tax.DefaultTax | src/services/payroll.service.ts:87-99 | every other configuration is taxed at 1, 10, 20, 30, 36 and 39 percent on the built-in stretches |
| Tax.MarriageSaves | src/services/payroll.service.ts:89-91 | between 500000 and 600000 a married employee then pays nine percent of the excess less, strictly |
| Tax.MonthlyIsTwelfth | src/services/payroll.service.ts:119 | the monthly tax is a twelfth to the nearest rupee, halves up |
| Tax.LoopIsClosedForm | src/services/payroll.service.ts:109-117 | the loop equals the sum of rate times the part of the income inside each slab, for any proper slabs and income |
| Tax.LoopAfterFirst | src/services/payroll.service.ts:109-117 | what the loop computes for a first slab of either sign |
| Tax.TaxGrowsWithIncome | src/services/payroll.service.ts:79-120 | among positive incomes tax and income after tax never fall, for every configuration |
| Tax.TaxAndTakeHomeAreMonotoneIff | src/services/payroll.service.ts:68-120 | over all incomes tax is monotone, and never a refund, exactly when it does not start below zero, and income after tax is monotone exactly when it does not start above zero; for a negative first slab the start is given in closed form |
| Tax.MonthlyTaxIsMonotone | src/services/payroll.service.ts:79-120 | the monthly tax is then never negative and never falls |
| Tax.SsfWaiver | src/services/payroll.service.ts:87 | for every configuration the waiver lowers the annual tax on a positive income by exactly the first rate on its part in the first slab |
| Tax.WiderIsNeverDearerIff | src/services/payroll.service.ts:89-107 | a wider first slab, of whatever sign, never costs more at any income, exactly when no rate up to an unbounded slab is below the first |
| Tax.MarriedPaysNoMore | src/services/payroll.service.ts:89-91 | under that condition married employees pay no more than unmarried ones |
| Tax.DefaultNeverUndercuts | src/services/payroll.service.ts:93-99 | the built-in slabs meet the condition |
| Tax.NegativeFirstSlabRefunds | src/services/payroll.service.ts:68-77 | a configuration that validates and refunds tax |
| Tax.NegativeFirstSlabTakesAll | src/services/payroll.service.ts:68-77 | and one that takes more than the whole of a small income |
| Payslip.CalculateEmployeePayroll | src/services/payroll.service.ts:332-497 | presence, leave, override and tax combine into the specified payslip |
| Payslip.EarningsAndContributions | src/services/payroll.service.ts:406-450 | the part of it up to the tax, column by column |
| Payslip.PaidLeaveIsPresence | src/services/payroll.service.ts:365-406 | moving days between presence and paid leave changes no column but that of the paid leave |
| Payslip.AbsentDaysAre | src/services/payroll.service.ts:365-406 | days absent are what presence and paid leave leave of the working days, none exactly when they reach them |
| Payslip.NoPresenceNoPay | src/services/payroll.service.ts:366-404 | without presence and paid leave every amount is zero |
| Payslip.ColumnsAddUp | src/services/payroll.service.ts:407-460 | gross is the sum of its six parts, deductions the sum of their five up to what was earned, net the rest |
| Payslip.DeductionColumns | src/services/payroll.service.ts:416-446 | when SSF, PF, CIT and advance apply, to what and at which rate |
| Payslip.TaxAndBonusColumns | src/services/payroll.service.ts:448-456 | the tax is that on twelve months of gross and bonus less SSF, PF and CIT; the bonus is paid in its month only |
| Payslip.SettleConserves | src/services/payroll.service.ts:458-460 | the cap and the roundings of the settlement conserve money |
| Payslip.PayslipConserves | src/services/payroll.service.ts:366-460 | net plus deductions equals gross plus bonus exactly, net is never negative, deductions are not negative unless earnings are |
| Payslip.SwitchesCombine | src/services/payroll.service.ts:324-330 | the organization's and the employee's switch of a deduction can be exchanged: the payslip depends on both being on, and on nothing else |
| Payslip.ProvidentFundNeverPaysForItself | src/services/payroll.service.ts:434-460 | with the provident fund net pay is at most what it is without, to the rupee that rounding the tax can cost |
| Payslip.ContributionsAreBounded | src/services/payroll.service.ts:416-443 | SSF and PF never exceed the earned basic salary, nor that the basic salary |
| Payslip.PresentAndAbsentAddUp | src/services/payroll.service.ts:366-406 | present and absent days make up the working days |
| Payslip.RoundingErrors | src/services/payroll.service.ts:409-450 | each amount is its exact value to half a paisa, the absence deduction to half a paisa more per absent day |
| Payslip.GrossIsExact | src/services/payroll.service.ts:406-414 | the gross salary is the exact sum of its parts, so it is negative exactly when absences cost more than was earned |
| Payslip.GrossCanBeNegative | src/services/payroll.service.ts:409-414 | an employee with a negative gross salary |
| PayrollWorkflow.PayrollTable.GenerateRead | src/services/payroll.service.ts:581-606 | the checks generation makes on what it reads |
| PayrollWorkflow.PayrollTable.RegenerateRead | src/services/payroll.service.ts:694-704 | the checks regeneration makes on what it reads |
| PayrollWorkflow.PayrollTable.FlagRead | src/services/payroll.service.ts:1133-1140 | which payslips a flag goes on to write |
| PayrollWorkflow.PayrollTable.CompleteWrite | src/services/payroll.service.ts:625-630 | a figure write lands in DRAFT, a flag in NEEDS_RECALCULATION, whatever the status has become |
| PayrollWorkflow.PayrollTable.SetStatus | src/services/payroll.service.ts:854-950 | a status change follows the role table or is refused with nothing changed |
| PayrollWorkflow.PayrollTable.BulkSetStatus | src/services/payroll.service.ts:970-1063 | all payslips in scope move, or none |
| PayrollWorkflow.SingleMoveIff | src/services/payroll.service.ts:886-941 | a single status change succeeds exactly for a move of the role's table, and changes the status only |
| PayrollWorkflow.BulkMoveIff | src/services/payroll.service.ts:981-1062 | a bulk change succeeds exactly if every payslip in scope may make it alone, but for taking back an approval, or is flagged and goes to PROCESSED |
| PayrollWorkflow.GenerateIff | src/services/payroll.service.ts:581-606 | generating goes on exactly with presence or overtime, and over a paid payslip only for others than accountants with ten words of reason |
| PayrollWorkflow.RegenerateAndFlagIff | src/services/payroll.service.ts:699-704 | regenerating is refused exactly for approved and paid payslips; flags go to processed, approved and paid ones |
| PayrollWorkflow.FinishLands | src/services/payroll.service.ts:625-630 | new figures land as a draft, a flag on the figures there are, and no other payslip changes |
| PayrollWorkflow.EveryTraceIsLegal | src/services/payroll.service.ts:899-941 | in every interleaving every status change of every payslip is one that its role may make |
| PayrollWorkflow.StepKeepsInv | src/services/payroll.service.ts:586-748 | every step keeps approved and paid payslips backed by an approval of their figures |
| PayrollWorkflow.ApprovedFiguresWereApproved | src/services/payroll.service.ts:872-877 | in every interleaving, approved and paid figures were approved by a non-accountant since they were last written, and payment came after |
| PayrollWorkflow.FlaggedMovesWithoutRegenerationIff | src/services/payroll.service.ts:997-1001 | a flagged payslip moves on without new figures exactly through a bulk update to PROCESSED |
| PayrollWorkflow.GenerateCanOverwritePaid | src/services/payroll.service.ts:592-630 | a payment between the read and the write of a generation is overwritten without the reason asked for |
| PayrollWorkflow.PaidOverwriteAskedForReasonIff | src/services/payroll.service.ts:592-603 | in every interleaving, a write over a paid payslip passed the demand for a reason from a non-accountant exactly when the payslip was paid as it was checked; otherwise the payment came in between |
| PayrollWorkflow.PaidTwiceWasFlagged | src/services/payroll.service.ts:1133-1145 | in every interleaving, between two payments without new figures the payslip was flagged |
| PayrollWorkflow.FlaggedPaidSlipIsPaidAgain | src/services/payroll.service.ts:1133-1145 | and a flagged paid payslip can be processed in bulk, approved and paid again as it was |
| MultiMonth.ListMonths | src/services/payroll.service.ts:1169-1176 | ends for all integers, lists consecutive months and stops only past the end |
| MultiMonth.MonthsAreExact | src/services/payroll.service.ts:1169-1176 | exactly the months between the endpoints, in order, 12 (Y2 - Y1) + M2 - M1 + 1 of them |
| MultiMonth.GroupByEmployee | src/services/payroll.service.ts:1207-1262 | one group per employee with the exact totals and count; the groups add up to the records |
| MultiMonth.TotalsAddUp | src/services/payroll.service.ts:1278-1287 | each of the seven columns of the sum is the real sum of that column over the rows |
| MultiMonth.EmployeeTotalsAddUp | src/services/payroll.service.ts:1254-1261 | likewise over one employee's rows, and the months are their number |
| MultiMonth.GrandTotals | src/services/payroll.service.ts:1264-1300 | each group rounded, then the rounded sum of the rounded groups |
| MultiMonth.GetMultiMonthData | src/services/payroll.service.ts:1168-1302 | more than 12 months are refused; otherwise each of the seven columns of every group and of the grand totals is the sum of that column over the rows |
| Subscription.SubscriptionTable.AssignTierTo | src/services/superadmin.subscription.service.ts:179-268 | the two branches, update and create, give one organization the specified row and touch no other |
| Subscription.SubscriptionTable.SuspendSubscription | src/services/superadmin.subscription.service.ts:360-401 | suspends unless suspended already |
| Subscription.SubscriptionTable.MarkAsExpired | src/services/superadmin.subscription.service.ts:404-447 | expires a suspended subscription only |
| Subscription.SubscriptionTable.ExtendTrialOf | src/services/superadmin.subscription.service.ts:450-499 | extends a trial or grace period only |
| Subscription.SubscriptionTable.ReactivateSubscription | src/services/superadmin.subscription.service.ts:502-539 | activates unless active already |
| Subscription.SubscriptionTable.RunTrialExpiryJob | src/jobs/trial-expiry.job.ts:28-149 | every row changes as the row rule says, e-mail failures included |
| Subscription.SubscriptionTable.RunGracePeriodJob | src/jobs/grace-period.job.ts:22-128 | every row changes as the row rule says; a failed reminder skips the row |
| Subscription.SubscriptionTable.RunAbandonedJob | src/jobs/abandoned.job.ts:25-100 | rows suspended longer than the threshold expire, with 60 days as fallback |
| Subscription.SubscriptionTable.RunBillingJob | src/jobs/billing.job.ts:30-194 | three loops over the table, each seeing the writes of the one before; a write that throws ends the job there |
| SubscriptionRuns.EveryRunKeepsInv | src/services/superadmin.subscription.service.ts:195-244 | in every run of actions and jobs of one step each: trial and grace mean a used trial with an end, grace has an end, a suspension date means suspended or expired |
| SubscriptionRuns.TrialWarningsAreTimely | src/jobs/trial-expiry.job.ts:107-141 | each warning goes out once, in the last seven days or the last day, and nothing else of a running trial changes |
| SubscriptionRuns.TrialIsWarnedIff | src/jobs/trial-expiry.job.ts:107-141 | over every run of jobs before its end a trial is warned exactly when it was before or an e-mail of its last week goes through, and finally likewise on its last day |
| SubscriptionRuns.SecondTrialIsNeverWarned | src/services/superadmin.subscription.service.ts:211-229 | a forced second trial keeps the marks of the first and gets no warning at all |
| SubscriptionRuns.TrialEndsIff | src/jobs/trial-expiry.job.ts:66-90 | the trial job ends a trial exactly from its end on and starts the plan's days of grace now |
| SubscriptionRuns.GraceReminderIsTimely | src/jobs/grace-period.job.ts:59-86 | while the grace lasts the reminder goes out exactly once, in its second half and with its e-mail, and nothing else changes |
| SubscriptionRuns.GraceSuspendsIff | src/jobs/grace-period.job.ts:59-113 | a run of the job suspends, as of now, exactly when the grace is over and the reminder was sent or goes through |
| SubscriptionRuns.AbandonedAfter | src/jobs/abandoned.job.ts:25-56 | what has been suspended for the configured days, or 60 if that is no positive number, expires |
| SubscriptionRuns.AssignmentGives | src/services/superadmin.subscription.service.ts:195-244 | which assignment starts a trial, until when, the 365 or 30 days of an active period, and the columns it clears and keeps |
| SubscriptionRuns.ManualStatus | src/services/superadmin.subscription.service.ts:360-539 | suspension, manual expiry and reactivation: from which status, to which, the columns and the refusals; reactivation takes a suspension back |
| SubscriptionRuns.ExtensionGives | src/services/superadmin.subscription.service.ts:458-481 | a trial or grace period becomes a trial until the later of its end and now plus the days, to be warned anew |
| SubscriptionRuns.JobsKeepTheContract | src/jobs/grace-period.job.ts:90-99 | no run of jobs touches plan, trial dates, used-trial flag, period or billing date |
| SubscriptionRuns.TrialUsedNeverReverts | src/services/superadmin.subscription.service.ts:220 | a used trial stays used in every run |
| SubscriptionRuns.UnforcedTrialAtMostOnce | src/services/superadmin.subscription.service.ts:195-204 | an organization gets an unforced trial at most once |
| SubscriptionRuns.ExpiredOnlyFromSuspended | src/services/superadmin.subscription.service.ts:411-421 | when jobs run in one step, EXPIRED is entered only from SUSPENDED, by the abandoned job or by hand |
| SubscriptionRuns.ExtensionHolds | src/services/superadmin.subscription.service.ts:464-481 | over every later run of jobs, an extended trial is neither suspended nor expired before the later of its end and now, plus the days and the grace |
| SubscriptionRuns.TrialUsedIffStarted | src/services/superadmin.subscription.service.ts:195-220 | after every run a trial is used exactly when some assignment started one |
| SubscriptionRuns.TierGivesTrialIff | src/services/superadmin.subscription.service.ts:195-225 | after any history an unforced assignment gives a trial exactly when none was ever started, else an active period |
| SubscriptionRuns.BillingOfActive | src/jobs/billing.job.ts:84-168 | which status one billing run gives an active subscription, PAST_DUE and SUSPENDED in one run included |
| SubscriptionRuns.BillingChanges | src/jobs/billing.job.ts:37-157 | the renewal reminder goes out once in the last seven days, PAST_DUE is suspended beyond the grace, and nothing else changes |
| SubscriptionRuns.BillingIsIdempotent | src/jobs/billing.job.ts:30-168 | a second run at the same instant completes the first, wherever a failing write ended it |
| SubscriptionRuns.BillingAndGraceCommute | src/jobs/grace-period.job.ts:85-113 | billing and grace jobs commute on every field |
| SubscriptionRuns.SuspendedExpiresIff | src/jobs/abandoned.job.ts:43-85 | over every run of jobs a suspended subscription expires exactly when it has a suspension date that some abandoned job finds old enough, and else does not change |
| SubscriptionRuns.BillingSuspensionIsNeverAbandoned | src/jobs/billing.job.ts:153-157 | from any state of the life cycle, jobs never expire a subscription that billing suspended, for want of that date |
| SubscriptionRuns.BillingNeverActs | src/jobs/billing.job.ts:84-157 | in every run from no subscription the billing job changes nothing, because nothing writes a billing date |
| SubscriptionRuns.RunKeepsPhase | src/jobs/trial-expiry.job.ts:66-90 | where an unpaid trial can be at any time of a run of jobs |
| SubscriptionRuns.NeverEndedEarly | src/jobs/abandoned.job.ts:43-85 | an unpaid trial is never suspended before T + g nor expired before T + g + X, whatever the jobs' spacing and e-mails |
| SubscriptionRuns.ExpiredWithinThreeDays | src/jobs/grace-period.job.ts:85-113 | with daily jobs and working e-mail it is expired by T + g + X + 3 days |
| SubscriptionRuns.StaysInGraceIff | src/jobs/grace-period.job.ts:59-113 | over every run of jobs a subscription leaves its grace period exactly when some run of the grace job after its end gets past the reminder |
| SubscriptionRaces.PlansRefineTheJobs | src/jobs/trial-expiry.job.ts:28-149 | the writes that a trial, grace or abandoned job plans from its query make, landing at once, the job of one step |
| SubscriptionRaces.PlansRefineTheBillingJob | src/jobs/billing.job.ts:40-170 | the same for the three queries of the billing job |
| SubscriptionRaces.TaskRunsOff | src/jobs/grace-period.job.ts:75-99 | the writes of a task land in turn and leave nothing pending |
| SubscriptionRaces.LandKeepsInvIff | src/jobs/trial-expiry.job.ts:74-80 | a late write keeps the life-cycle invariant exactly when it starts no grace without a used trial, an end and no suspension date, and flags nothing overdue with one |
| SubscriptionRaces.InvThroughoutIff | src/jobs/trial-expiry.job.ts:66-90 | in every interleaving of actions, queries and writes the invariant holds throughout exactly when each write lands so |
| SubscriptionRaces.LateGraceBreaksInv | src/services/superadmin.subscription.service.ts:211-229 | an assignment between query and write that leaves a grace period without a trial |
| SubscriptionRaces.TrialUsedStays | src/services/superadmin.subscription.service.ts:220 | a used trial stays used in every interleaving |
| SubscriptionRaces.UnforcedTrialAtMostOnce | src/services/superadmin.subscription.service.ts:195-204 | an unforced trial is granted at most once in every interleaving |
| SubscriptionRaces.ExpiredWasSuspended | src/jobs/abandoned.job.ts:43-85 | in every interleaving an expired subscription was suspended before |
| SubscriptionRaces.LateExpiryOverwritesIff | src/jobs/abandoned.job.ts:47-85 | whatever actions come between query and write, the job expires a live subscription exactly when the last suspension, reactivation or assignment among them was not a suspension; the write looks at nothing |

## Left out

- Routes, middleware, validation schemas, authentication, PINs, geofencing, QR codes, e-mail texts, PDF, reports and settings screens: wiring, display or foreign calls.
- Branch and organization scoping of the queries: each table is that of one organization, and a lookup outside the scope is the not-found case.
- `markPresent` and `adjustBalance`: admin overrides that check no other record. They, and the edits of AttendanceLog.Edit, are outside the run invariants.
- Attendance.AttendanceLog.Scan: one instant stands for the several clock reads of a scan and for the database default of the check-in time, and unreadable clock strings are possible for membership times only.
- Attendance.AttendanceLog.ManualClockIn: the check and the insert are one step, although the source runs them outside a transaction; AttendanceRaces.OrderIsKeptIff drops the assumption.
- Attendance.AttendanceLog.ManualClockOut: likewise one step.
- Attendance.AttendanceLog.Edit: the original-time and modification columns are dropped; an unreadable timestamp is not representable.
- Attendance.AttendanceLog.RunAutoClose: sees the records of one membership, and reads and writes each in one step; AttendanceRaces.OrderIsKeptIff drops the latter.
- Leaves.LeaveBook.RequestLeave: reasons, approvers and messages are dropped.
- Leaves.FirstDecisionStands: holds when requests complete one after the other, as does DecidedLeavesAreFinal; DecisionIsFinalIff and InterleavingsKeepApartIff cover the interleavings.
- Roster.RosterTable.CreateSchedule: label, cycle type and authors are dropped, and dates are at most 9999-12-31 as their four-digit format implies.
- LeaveBalances.LeaveLedger.InitializeYear: reads and writes in one step; names and employee numbers of the preview are dropped.
- Payslip.CalculateEmployeePayroll: the working days of the month are an argument; columns copied unchanged from the pay settings and the AD year and month are dropped.
- Payslip.PayslipConserves: deductions are not negative for tax configurations that never refund, which Tax.TaxAndTakeHomeAreMonotoneIff characterizes.
- Tax.LoopIsClosedForm: needs a first slab that is not negative, which validateTDSConfig does not check; Tax.LoopAfterFirst covers every sign.
- PayrollWorkflow.PayrollTable.CompleteWrite: the paid-override columns, the audit log table and the retry of serialization failures are dropped.
- MultiMonth.GetMultiMonthData: the rows are those the query returns; per-month cells, names and the sort order are dropped.
- Subscription.SubscriptionTable.RunBillingJob: prices, amounts and the billing log are dropped.
- SubscriptionRuns.ExpiredOnlyFromSuspended: each job queries and writes in one step, as in all of SubscriptionRuns; the source writes later without looking at the status again. SubscriptionRaces says what late writes keep and break.
- Subscription.SubscriptionTable.AssignTierTo: price overrides, feature overrides, setup fees, notes and the billing log are dropped.
- Working-day counting, Nepali digits and date formatting of nepali-date.ts: easy loops without state.
- IEEE rounding noise, JavaScript date parsing and daylight saving: exact arithmetic and a fixed offset.
