/** Which payroll months an edit of an attendance record changes, and which one it flags. */
module AttendanceEdits {
  import opened Prelude
  import opened Clock
  import opened BikramSambat
  import opened Attendance
  import opened PayrollHours

  /** The rows payroll reads for a month, closed and open ones together. */
  ghost function MonthRows(records: seq<Record>, range: Range): seq<Record> {
    if records == [] then []
    else
      var last := records[|records| - 1];
      MonthRows(records[..|records| - 1], range) + if range.Contains(last.checkIn) then [last] else []
  }

  function Part(inMonth: bool, amount: int): int { if inMonth then amount else 0 }

  /** What an edit does to the minutes and the overtime of any month: the old record's part goes, the new
      record's part comes. A month with neither check-in keeps its days, minutes and overtime. */
  lemma {:induction false} EditMovesFigures(cfg: HoursConfig, records: seq<Record>, id: nat, r: Record, range: Range,
                                            now: int)
    requires id < |records|
    ensures var after, stored := records[id := r], records[id];
            && MonthMinutes(after, range, now)
               == MonthMinutes(records, range, now) - Part(range.Contains(stored.checkIn), Minutes(stored, now))
                  + Part(range.Contains(r.checkIn), Minutes(r, now))
            && TotalOvertime(cfg, after, range)
               == TotalOvertime(cfg, records, range) - Part(Selected(stored, range, false), Overtime(cfg, stored))
                  + Part(Selected(r, range, false), Overtime(cfg, r))
            && (!range.Contains(stored.checkIn) && !range.Contains(r.checkIn) ==>
                MonthDays(after, range) == MonthDays(records, range))
  {
    hide Overtime, Minutes;
    var last, after := |records| - 1, records[id := r];
    if id < last {
      EditMovesFigures(cfg, records[..last], id, r, range, now);
      assert after[..last] == records[..last][id := r];
    } else {
      assert after[..last] == records[..last];
    }
  }

  lemma {:induction false} EditMovesRows(records: seq<Record>, id: nat, r: Record, range: Range)
    requires id < |records|
    ensures |MonthRows(records[id := r], range)|
            == |MonthRows(records, range)| - Part(range.Contains(records[id].checkIn), 1)
               + Part(range.Contains(r.checkIn), 1)
    ensures !range.Contains(records[id].checkIn) && !range.Contains(r.checkIn) ==>
              MonthRows(records[id := r], range) == MonthRows(records, range)
  {
    var last, after := |records| - 1, records[id := r];
    if id < last {
      EditMovesRows(records[..last], id, r, range);
      assert after[..last] == records[..last][id := r];
    } else {
      assert after[..last] == records[..last];
    }
  }

  ghost predicate IsMonthOf(cal: Calendar, t: int, m: Month) {
    AdToBSSpec(cal, t).Ok? && Month(AdToBSSpec(cal, t).value.year, AdToBSSpec(cal, t).value.month) == m
  }

  ghost predicate InCalendar(cal: Calendar, m: Month) { InTable(cal, m.year) && 1 <= m.month <= 12 }

  /** The rows that payroll reads for month m are not the same before and after. */
  ghost predicate RowsChange(cal: Calendar, before: seq<Record>, after: seq<Record>, m: Month) {
    && InCalendar(cal, m)
    && MonthRangeSpec(cal, m.year, m.month).Ok?
    && var range := MonthRangeSpec(cal, m.year, m.month).value;
    MonthRows(before, range) != MonthRows(after, range)
  }

  /** The month an edit flags is the one whose payroll counts the resulting check-in; the figures of any
      other month but the one the record was in before are untouched. */
  lemma OnlyTwoMonthsChange(cal: Calendar, cfg: HoursConfig, log: seq<Record>, id: nat, editor: Editor,
                            checkIn: Option<int>, checkOut: Option<int>, now: int, m: Month)
    requires id < |log| && InCalendar(cal, m)
    requires var flagged := EditStep(cal, log, id, editor, checkIn, checkOut, now).1; flagged.Ok? && flagged.value != m
    requires !IsMonthOf(cal, log[id].checkIn, m)
    ensures MonthRangeSpec(cal, m.year, m.month).Ok?
    ensures var after, range :=
            EditStep(cal, log, id, editor, checkIn, checkOut, now).0, MonthRangeSpec(cal, m.year, m.month).value;
            && MonthDays(after, range) == MonthDays(log, range)
            && MonthMinutes(after, range, now) == MonthMinutes(log, range, now)
            && TotalOvertime(cfg, after, range) == TotalOvertime(cfg, log, range)
  {
    hide Days, TotalMinutes, TotalOvertime, Overtime, Minutes, MonthDays, MonthMinutes, EditProblem;
    var r := Edited(log[id], checkIn, checkOut);
    MonthRangeIsPreimage(cal, m.year, m.month, log[id].checkIn);
    MonthRangeIsPreimage(cal, m.year, m.month, r.checkIn);
    EditMovesFigures(cfg, log, id, r, MonthRangeSpec(cal, m.year, m.month).value, now);
  }

  /** Every month whose payroll rows an edit changes is flagged, exactly when the check-in stays in its BS
      month (or was in none of the calendar). An edit that moves it to another month leaves the month it
      came from unflagged. */
  lemma ChangedMonthsAreFlaggedIff(cal: Calendar, log: seq<Record>, id: nat, editor: Editor, checkIn: Option<int>,
                                   checkOut: Option<int>, now: int)
    requires id < |log| && EditStep(cal, log, id, editor, checkIn, checkOut, now).1.Ok?
    ensures var (after, flagged) := EditStep(cal, log, id, editor, checkIn, checkOut, now);
            (forall m :: RowsChange(cal, log, after, m) ==> m == flagged.value)
            <==> AdToBSSpec(cal, log[id].checkIn).Err? || IsMonthOf(cal, log[id].checkIn, flagged.value)
  {
    hide EditProblem;
    var (after, flagged) := EditStep(cal, log, id, editor, checkIn, checkOut, now);
    var r := Edited(log[id], checkIn, checkOut);
    assert after == log[id := r] && IsMonthOf(cal, r.checkIn, flagged.value);
    hide AdToBSSpec, MonthRangeSpec, EditStep, Edited;
    forall m | InCalendar(cal, m) && m != flagged.value
      ensures RowsChange(cal, log, after, m) <==> IsMonthOf(cal, log[id].checkIn, m)
    {
      LeavesMonthIff(cal, log, id, r, flagged.value, m);
    }
    if AdToBSSpec(cal, log[id].checkIn).Ok? {
      var bs := AdToBSSpec(cal, log[id].checkIn).value;
      ConvertsIntoCalendar(cal, log[id].checkIn);
      assert IsMonthOf(cal, log[id].checkIn, Month(bs.year, bs.month));
    }
  }

  lemma ConvertsIntoCalendar(cal: Calendar, t: int)
    requires AdToBSSpec(cal, t).Ok?
    ensures InCalendar(cal, Month(AdToBSSpec(cal, t).value.year, AdToBSSpec(cal, t).value.month))
  {
    RoundTripFromAD(cal, t);
  }

  lemma LeavesMonthIff(cal: Calendar, log: seq<Record>, id: nat, r: Record, flagged: Month, m: Month)
    requires id < |log| && InCalendar(cal, m) && m != flagged && IsMonthOf(cal, r.checkIn, flagged)
    ensures RowsChange(cal, log, log[id := r], m) <==> IsMonthOf(cal, log[id].checkIn, m)
  {
    MonthRangeIsPreimage(cal, m.year, m.month, log[id].checkIn);
    MonthRangeIsPreimage(cal, m.year, m.month, r.checkIn);
    hide AdToBSSpec, MonthRangeSpec;
    EditMovesRows(log, id, r, MonthRangeSpec(cal, m.year, m.month).value);
  }

  /** Such an edit, in any calendar: an hour worked on the first day of the first month is moved to the first
      day of the second. Only the second month is flagged, though the first has lost its hour. */
  lemma MovedCheckInLeavesMonthUnflagged(cal: Calendar, r: Record, t: int, moved: int)
    requires t == AD_REFERENCE + 36_000_000 && moved == AddDays(t, cal[0][0])
    requires r.checkIn == t && r.status == CheckedOut && r.duration == Some(60)
    ensures MonthRangeSpec(cal, BASE_YEAR, 1).Ok?
    ensures var (after, flagged) := EditStep(cal, [r], 0, Admin, Some(moved), None, moved);
            var first := MonthRangeSpec(cal, BASE_YEAR, 1).value;
            && flagged == Ok(Month(BASE_YEAR, 2))
            && MonthMinutes([r], first, moved) == 60
            && MonthMinutes(after, first, moved) == 0
  {
    var a, b := BSDate(BASE_YEAR, 1, 1), BSDate(BASE_YEAR, 2, 1);
    MonthStartStep(cal, BASE_YEAR, 1);
    RoundTripFromBS(cal, a, 36_000_000);
    RoundTripFromBS(cal, b, 36_000_000);
    assert DaysBefore(cal, 0) == 0;
    assert AdToBSSpec(cal, t) == Ok(a) && AdToBSSpec(cal, moved) == Ok(b);
    MonthRangeIsPreimage(cal, BASE_YEAR, 1, t);
    MonthRangeIsPreimage(cal, BASE_YEAR, 1, moved);
    hide AdToBSSpec, MonthRangeSpec;
    OneRecord(r, MonthRangeSpec(cal, BASE_YEAR, 1).value, moved);
    OneRecord(r.(checkIn := moved), MonthRangeSpec(cal, BASE_YEAR, 1).value, moved);
    assert [r][0 := r.(checkIn := moved)] == [r.(checkIn := moved)];
  }

  lemma OneRecord(r: Record, range: Range, now: int)
    ensures MonthMinutes([r], range, now) == Part(range.Contains(r.checkIn), Minutes(r, now))
  {
    hide Minutes;
    assert [r][..0] == [] && [r][0] == r;
    assert TotalMinutes([r], range, false, now) == Part(Selected(r, range, false), Minutes(r, now));
    assert TotalMinutes([r], range, true, now) == Part(Selected(r, range, true), Minutes(r, now));
  }
}
