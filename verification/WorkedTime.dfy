/** What payroll adds up over the records that a run of the attendance protocol can produce. */
module WorkedTime {
  import opened Prelude
  import opened Clock
  import opened BikramSambat
  import opened Attendance
  import opened AttendanceRuns
  import opened PayrollHours
  import Leaves

  /** When a stay ends: at its check-out, or now for one that is still open. */
  function EndOf(r: Record, now: int): int { if r.checkOut.Some? then r.checkOut.value else now }

  /** The latest end of the stays that begin by the end of the month, or its start if there is none. */
  ghost function LastEnd(log: seq<Record>, range: Range, now: int): int {
    if log == [] then range.start
    else
      var last := log[|log| - 1];
      var before := LastEnd(log[..|log| - 1], range, now);
      if last.checkIn <= range.end then Max(before, EndOf(last, now)) else before
  }

  lemma {:induction false} LastEndBefore(log: seq<Record>, range: Range, now: int, t: int)
    requires forall i :: 0 <= i < |log| ==> log[i].checkOut.Some? && log[i].checkOut.value <= t
    ensures range.start <= LastEnd(log, range, now) <= Max(range.start, t)
  {
    if log != [] {
      LastEndBefore(log[..|log| - 1], range, now, t);
    }
  }

  lemma MinutesOfOne(cal: Calendar, r: Record, before: int, now: int)
    requires Sound(cal, r, before) && before <= now
    ensures Minutes(r, now) == WholeMinutes(EndOf(r, now) - r.checkIn)
  {
  }

  /** The stays that begin in the month, each in full minutes. */
  ghost function StayMinutes(log: seq<Record>, range: Range, now: int): int {
    if log == [] then 0
    else
      var last := log[|log| - 1];
      StayMinutes(log[..|log| - 1], range, now)
      + if range.Contains(last.checkIn) then WholeMinutes(EndOf(last, now) - last.checkIn) else 0
  }

  lemma {:induction false} MinutesOfStays(cal: Calendar, log: seq<Record>, before: int, now: int, range: Range)
    requires (forall j :: 0 <= j < |log| ==> Sound(cal, log[j], before)) && before <= now
    ensures MonthMinutes(log, range, now) == StayMinutes(log, range, now)
  {
    hide Sound, Minutes, WholeMinutes, EndOf;
    if log != [] {
      var last := log[|log| - 1];
      MinutesOfStays(cal, log[..|log| - 1], before, now, range);
      assert Sound(cal, last, before);
      MinutesOfOne(cal, last, before, now);
    }
  }

  /** After every run, the minutes of a month are those of the stays that begin in it, from check-in to check-out, or
      to now for one that is still open. */
  lemma MinutesAreStays(cal: Calendar, events: seq<Event>, states: seq<seq<Record>>, i: nat, range: Range, now: int)
    requires Run(cal, events, states) && i < |events| && events[i].now <= now
    ensures MonthMinutes(states[i + 1], range, now) == StayMinutes(states[i + 1], range, now)
  {
    hide Sound, Step, Enabled, MonthMinutes, StayMinutes;
    RunKeepsInv(cal, events, states, i);
    MinutesOfStays(cal, states[i + 1], events[i].now, now, range);
  }

  lemma PrefixStep(log: seq<Record>, n: nat, range: Range, now: int)
    requires n < |log|
    ensures MonthMinutes(log[..n + 1], range, now)
            == MonthMinutes(log[..n], range, now) + if range.Contains(log[n].checkIn) then Minutes(log[n], now) else 0
    ensures LastEnd(log[..n + 1], range, now)
            == if log[n].checkIn <= range.end then Max(LastEnd(log[..n], range, now), EndOf(log[n], now))
               else LastEnd(log[..n], range, now)
  {
    hide Minutes;
    assert log[..n + 1][..n] == log[..n];
  }

  lemma PrefixEndsBefore(cal: Calendar, log: seq<Record>, n: nat, before: int, now: int, range: Range)
    requires Inv(cal, log, before) && n < |log|
    ensures range.start <= LastEnd(log[..n], range, now) <= Max(range.start, log[n].checkIn)
  {
    forall i | 0 <= i < n
      ensures log[..n][i].checkOut.Some? && log[..n][i].checkOut.value <= log[n].checkIn
    {
      assert InOrder(log[i], log[n]);
    }
    hide Inv;
    LastEndBefore(log[..n], range, now, log[n].checkIn);
  }

  lemma SoundAt(cal: Calendar, log: seq<Record>, before: int, n: nat)
    requires Inv(cal, log, before) && n < |log|
    ensures Sound(cal, log[n], before)
  {
    hide Sound, InOrder;
  }

  /** A stay that begins at or after the last end adds no more minutes than the last end moves. */
  lemma StayFits(lastEnd: int, checkIn: int, end: int, start: int)
    requires start <= lastEnd <= Max(start, checkIn)
    ensures WholeMinutes(lastEnd - start) <= WholeMinutes(Max(lastEnd, end) - start)
    ensures start <= checkIn ==>
              WholeMinutes(lastEnd - start) + WholeMinutes(end - checkIn) <= WholeMinutes(Max(lastEnd, end) - start)
  {
  }

  lemma OneMoreFits(minutes: int, lastEnd: int, r: Record, end: int, range: Range)
    requires minutes <= WholeMinutes(lastEnd - range.start) && range.start <= lastEnd <= Max(range.start, r.checkIn)
    ensures minutes + (if range.Contains(r.checkIn) then WholeMinutes(end - r.checkIn) else 0)
            <= WholeMinutes((if r.checkIn <= range.end then Max(lastEnd, end) else lastEnd) - range.start)
  {
    StayFits(lastEnd, r.checkIn, end, range.start);
    hide WholeMinutes;
  }

  lemma NothingFits(log: seq<Record>, range: Range, now: int)
    ensures MonthMinutes(log[..0], range, now) <= WholeMinutes(LastEnd(log[..0], range, now) - range.start)
  {
    assert log[..0] == [];
  }

  lemma {:induction false} PrefixFits(cal: Calendar, log: seq<Record>, n: nat, before: int, now: int, range: Range)
    requires Inv(cal, log, before) && before <= now && n <= |log|
    ensures MonthMinutes(log[..n], range, now) <= WholeMinutes(LastEnd(log[..n], range, now) - range.start)
    decreases n
  {
    hide *;
    if n == 0 {
      NothingFits(log, range, now);
    } else {
      var r := log[n - 1];
      PrefixFits(cal, log, n - 1, before, now, range);
      PrefixEndsBefore(cal, log, n - 1, before, now, range);
      PrefixStep(log, n - 1, range, now);
      SoundAt(cal, log, before, n - 1);
      MinutesOfOne(cal, r, before, now);
      OneMoreFits(MonthMinutes(log[..n - 1], range, now), LastEnd(log[..n - 1], range, now), r, EndOf(r, now), range);
    }
  }

  /** Time is never counted twice: after every run, the minutes payroll adds up for a month, closed and open
      records together, fit between its start and the end of the last stay that begins in it. So they fit the
      month, but for the part of that one stay that runs beyond its end. */
  lemma WorkedTimeFitsTheClock(cal: Calendar, events: seq<Event>, states: seq<seq<Record>>, i: nat, log: seq<Record>,
                               range: Range, now: int)
    requires Run(cal, events, states) && i < |events| && events[i].now <= now && log == states[i + 1]
    ensures MonthMinutes(log, range, now) <= WholeMinutes(LastEnd(log, range, now) - range.start)
    ensures range.start <= LastEnd(log, range, now) <= Max(range.start, now)
  {
    hide *;
    RunKeepsInv(cal, events, states, i);
    LogFits(cal, log, events[i].now, now, range);
  }

  lemma LogFits(cal: Calendar, log: seq<Record>, before: int, now: int, range: Range)
    requires Inv(cal, log, before) && before <= now
    ensures MonthMinutes(log, range, now) <= WholeMinutes(LastEnd(log, range, now) - range.start)
    ensures range.start <= LastEnd(log, range, now) <= Max(range.start, now)
  {
    hide Sound, InOrder, MonthMinutes, LastEnd, WholeMinutes;
    LastEndByNow(cal, log, range, before, now);
    hide Inv;
    PrefixFits(cal, log, |log|, before, now, range);
    assert log[..|log|] == log;
  }

  lemma {:induction false} LastEndByNow(cal: Calendar, log: seq<Record>, range: Range, before: int, now: int)
    requires (forall i :: 0 <= i < |log| ==> Sound(cal, log[i], before)) && before <= now
    ensures range.start <= LastEnd(log, range, now) <= Max(range.start, now)
  {
    if log != [] {
      LastEndByNow(cal, log[..|log| - 1], range, before, now);
      assert Sound(cal, log[|log| - 1], before);
    }
  }

  /** If moreover each closed record of the month meets its shift, its overtime fits as well. */
  lemma OvertimeFitsTheClock(cal: Calendar, events: seq<Event>, states: seq<seq<Record>>, i: nat, log: seq<Record>,
                             cfg: HoursConfig, range: Range, now: int)
    requires Run(cal, events, states) && i < |events| && events[i].now <= now && log == states[i + 1]
    requires forall j :: 0 <= j < |log| && Selected(log[j], range, false) ==> MeetsShift(cfg, log[j])
    ensures TotalOvertime(cfg, log, range) <= WholeMinutes(LastEnd(log, range, now) - range.start)
  {
    hide Run, MeetsShift, Overtime, Minutes, Step, Enabled;
    RunKeepsInv(cal, events, states, i);
    LogFits(cal, log, events[i].now, now, range);
    OvertimeAtMostWorked(cfg, log, range, now);
    OpenMinutesAreNotNegative(cal, log, events[i].now, now, range);
    hide Inv, TotalMinutes, TotalOvertime, LastEnd, WholeMinutes, Selected;
  }

  lemma {:induction false} OpenMinutesAreNotNegative(cal: Calendar, log: seq<Record>, before: int, now: int,
                                                     range: Range)
    requires (forall j :: 0 <= j < |log| ==> Sound(cal, log[j], before)) && before <= now
    ensures TotalMinutes(log, range, true, now) >= 0
  {
    if log != [] {
      var last := |log| - 1;
      assert Sound(cal, log[last], before);
      OpenMinutesAreNotNegative(cal, log[..last], before, now, range);
    }
  }

  /** The days present of a month are at most its length, and one more only by a check-in on the first day of
      the month before 05:45, the hour at which the UTC date catches up with the local one. */
  lemma DaysPresentFitTheMonth(records: seq<Record>, range: Range)
    requires Leaves.IsMonth(range)
    ensures |MonthDays(records, range)|
            <= Day(range.end) - Day(range.start) + 1
               + if Day(range.start) in DaysWith(records, range, true) then 1 else 0
  {
    var early, late := DaysWith(records, range, true), DaysWith(records, range, false);
    DaysSplitAtCatchUp(records, range);
    DaysWithInMonth(records, range, true);
    DaysWithInMonth(records, range, false);
    assert Day(range.start) <= Day(range.end);
    DaysFit(early, late, Day(range.start), Day(range.end));
  }

  lemma DaysFit(early: set<int>, late: set<int>, first: int, last: int)
    requires first <= last && early <= Leaves.DaySet(first, last) && late <= Leaves.DaySet(first, last)
    ensures |Yesterdays(early) + late| <= last - first + 1 + if first in early then 1 else 0
  {
    var days, from := Yesterdays(early) + late, if first in early then first - 1 else first;
    InYesterdays(early);
    Leaves.DaySetSize(from, last);
    var month := Leaves.DaySet(from, last);
    forall d | d in days ensures d in month {
      assert d in Yesterdays(early) <==> d + 1 in early;
      assert Leaves.IsBetween(from, d, last);
    }
    assert days + (month - days) == month;
  }

  lemma {:induction false} DaysWithInMonth(records: seq<Record>, range: Range, early: bool)
    ensures DaysWith(records, range, early) <= Leaves.DaySet(Day(range.start), Day(range.end))
  {
    if records != [] {
      DaysWithInMonth(records[..|records| - 1], range, early);
      DaySplit(range.start);
      DaySplit(range.end);
      DaySplit(records[|records| - 1].checkIn);
    }
  }
}
