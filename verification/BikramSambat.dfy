/**
 Conversion between Bikram Sambat (BS) dates and instants, by two different loops over a table of
 month lengths. Everything is proved for an arbitrary table; the table of 2070-2090 is one instance.
 */
module BikramSambat {
  import opened Prelude
  import opened Clock

  datatype BSDate = BSDate(year: int, month: int, day: int)

  datatype DateError = BeforeRange | YearOutOfRange | InvalidMonth | InvalidDay

  const BASE_YEAR := 2070

  /** Local midnight of 14 April 2013, the first of Baishakh 2070. */
  const AD_REFERENCE: int := 1_365_897_600_000

  ghost predicate WellFormed(table: seq<seq<int>>) {
    && |table| > 0
    && (forall y :: 0 <= y < |table| ==> |table[y]| == 12)
    && (forall y, m :: 0 <= y < |table| && 0 <= m < 12 ==> table[y][m] >= 1)
  }

  /** One row of twelve positive month lengths for each year from BASE_YEAR on. */
  type Calendar = c: seq<seq<int>> | WellFormed(c)
    witness [[1, 1, 1, 1, 1, 1, 1, 1, 1, 1, 1, 1]]

  predicate InTable(cal: Calendar, year: int) {
    BASE_YEAR <= year < BASE_YEAR + |cal|
  }

  predicate IsValidBSDate(cal: Calendar, d: BSDate) {
    && InTable(cal, d.year)
    && 1 <= d.month <= 12
    && 1 <= d.day <= cal[d.year - BASE_YEAR][d.month - 1]
  }

  function GetDaysInBSMonth(cal: Calendar, year: int, month: int): Result<int, DateError> {
    if !InTable(cal, year) then Err(YearOutOfRange)
    else if month < 1 || month > 12 then Err(InvalidMonth)
    else Ok(cal[year - BASE_YEAR][month - 1])
  }

  // ---- Months and days numbered from the start of the table ----

  function MonthIndex(year: int, month: int): int { 12 * (year - BASE_YEAR) + month - 1 }

  function MonthLength(cal: Calendar, k: int): (n: int)
    requires 0 <= k < 12 * |cal|
    ensures n >= 1
  {
    cal[k / 12][k % 12]
  }

  /** Days in the first k months of the table. */
  ghost function DaysBefore(cal: Calendar, k: int): (n: int)
    requires 0 <= k <= 12 * |cal|
    ensures n >= k
  {
    if k == 0 then 0 else DaysBefore(cal, k - 1) + MonthLength(cal, k - 1)
  }

  ghost function TotalDays(cal: Calendar): int { DaysBefore(cal, 12 * |cal|) }

  /** The number of a valid date, the first day of the table being day 0. */
  ghost function DayNumber(cal: Calendar, d: BSDate): int
    requires IsValidBSDate(cal, d)
  {
    DaysBefore(cal, MonthIndex(d.year, d.month)) + d.day - 1
  }

  /** The first day of a month, numbered from the start of the table; month 13 is the first of the next year. */
  ghost function MonthStart(cal: Calendar, year: int, month: int): int
    requires InTable(cal, year) && 1 <= month <= 13
  {
    DaysBefore(cal, MonthIndex(year, month))
  }

  lemma MonthStartStep(cal: Calendar, year: int, month: int)
    requires InTable(cal, year) && 1 <= month <= 12
    ensures MonthStart(cal, year, month + 1) == MonthStart(cal, year, month) + cal[year - BASE_YEAR][month - 1]
    ensures month == 12 && InTable(cal, year + 1) ==> MonthStart(cal, year + 1, 1) == MonthStart(cal, year, 13)
  {
    MonthLengthAt(cal, year, month);
  }

  lemma MonthLengthAt(cal: Calendar, year: int, month: int)
    requires InTable(cal, year) && 1 <= month <= 12
    ensures 0 <= MonthIndex(year, month) < 12 * |cal|
    ensures MonthLength(cal, MonthIndex(year, month)) == cal[year - BASE_YEAR][month - 1]
  {
    assert MonthIndex(year, month) / 12 == year - BASE_YEAR;
  }

  /** Chronological order on BS dates. */
  predicate Earlier(a: BSDate, b: BSDate) {
    a.year < b.year || (a.year == b.year && (a.month < b.month || (a.month == b.month && a.day < b.day)))
  }

  lemma {:induction false} MonthsAccumulate(cal: Calendar, j: int, k: int)
    requires 0 <= j < k <= 12 * |cal|
    ensures DaysBefore(cal, j) + MonthLength(cal, j) <= DaysBefore(cal, k)
    decreases k
  {
    if j < k - 1 {
      MonthsAccumulate(cal, j, k - 1);
    }
  }

  /** Numbering the days is strictly increasing, hence one to one, and stays inside the table. */
  lemma {:induction false} DayNumberIsMonotone(cal: Calendar, a: BSDate, b: BSDate)
    requires IsValidBSDate(cal, a) && IsValidBSDate(cal, b)
    ensures Earlier(a, b) <==> DayNumber(cal, a) < DayNumber(cal, b)
    ensures a == b <==> DayNumber(cal, a) == DayNumber(cal, b)
    ensures 0 <= DayNumber(cal, a) < TotalDays(cal)
  {
    var j, k := MonthIndex(a.year, a.month), MonthIndex(b.year, b.month);
    MonthLengthAt(cal, a.year, a.month);
    MonthLengthAt(cal, b.year, b.month);
    MonthsAccumulate(cal, j, 12 * |cal|);
    if j < k {
      MonthsAccumulate(cal, j, k);
    } else if k < j {
      MonthsAccumulate(cal, k, j);
    }
  }

  // ---- AD to BS ----

  /** The date n days after the first day of month k, walking forward one month at a time. */
  ghost function WalkForward(cal: Calendar, k: int, n: int): (d: BSDate)
    requires 0 <= k < 12 * |cal| && 0 <= n < TotalDays(cal) - DaysBefore(cal, k)
    ensures IsValidBSDate(cal, d)
    ensures DayNumber(cal, d) == DaysBefore(cal, k) + n
    decreases 12 * |cal| - k
  {
    if n < MonthLength(cal, k) then
      assert 12 * (k / 12) + k % 12 == k;
      BSDate(BASE_YEAR + k / 12, k % 12 + 1, n + 1)
    else
      WalkForward(cal, k + 1, n - MonthLength(cal, k))
  }

  ghost function DayOffset(t: int): int { (t - AD_REFERENCE) / 86_400_000 }

  /** What `adToBS` returns or throws for an instant. */
  ghost function AdToBSSpec(cal: Calendar, t: int): Result<BSDate, DateError> {
    var n := DayOffset(t);
    if n < 0 then Err(BeforeRange)
    else if n >= TotalDays(cal) then Err(YearOutOfRange)
    else Ok(WalkForward(cal, 0, n))
  }

  method AdToBS(cal: Calendar, t: int) returns (r: Result<BSDate, DateError>)
    ensures r == AdToBSSpec(cal, t)
  {
    hide MonthLength;
    var totalDays := (t - AD_REFERENCE) / 86_400_000;
    if totalDays < 0 {
      return Err(BeforeRange);
    }
    var bsYear, bsMonth, bsDay := BASE_YEAR, 1, 1;
    ghost var n := totalDays;
    while totalDays > 0
      invariant InTable(cal, bsYear) && 1 <= bsMonth <= 12
      invariant 1 <= bsDay <= cal[bsYear - BASE_YEAR][bsMonth - 1]
      invariant totalDays >= 0
      invariant DaysBefore(cal, MonthIndex(bsYear, bsMonth)) + bsDay - 1 + totalDays == n
      decreases totalDays
    {
      MonthLengthAt(cal, bsYear, bsMonth);
      var daysInCurrentMonth := cal[bsYear - BASE_YEAR][bsMonth - 1];
      var daysRemainingInMonth := daysInCurrentMonth - bsDay;
      if totalDays <= daysRemainingInMonth {
        bsDay := bsDay + totalDays;
        totalDays := 0;
      } else {
        totalDays := totalDays - (daysRemainingInMonth + 1);
        bsMonth := bsMonth + 1;
        bsDay := 1;
        if bsMonth > 12 {
          bsMonth := 1;
          bsYear := bsYear + 1;
        }
      }
      if !InTable(cal, bsYear) {
        return Err(YearOutOfRange);
      }
    }
    var d := BSDate(bsYear, bsMonth, bsDay);
    DayNumberIsMonotone(cal, d, d);
    DayNumberIsMonotone(cal, d, WalkForward(cal, 0, n));
    return Ok(d);
  }

  // ---- BS to AD ----

  /** What `bsToAD` returns or throws: local midnight of the day. */
  ghost function BsToADSpec(cal: Calendar, d: BSDate): Result<int, DateError> {
    if !InTable(cal, d.year) then Err(YearOutOfRange)
    else if d.month < 1 || d.month > 12 then Err(InvalidMonth)
    else if !IsValidBSDate(cal, d) then Err(InvalidDay)
    else Ok(AddDays(AD_REFERENCE, DayNumber(cal, d)))
  }

  method BsToAD(cal: Calendar, d: BSDate) returns (r: Result<int, DateError>)
    ensures r == BsToADSpec(cal, d)
  {
    if !InTable(cal, d.year) {
      return Err(YearOutOfRange);
    }
    if d.month < 1 || d.month > 12 {
      return Err(InvalidMonth);
    }
    var daysInMonth := cal[d.year - BASE_YEAR][d.month - 1];
    if d.day < 1 || d.day > daysInMonth {
      return Err(InvalidDay);
    }
    var totalDays := 0;
    for y := BASE_YEAR to d.year
      invariant totalDays == MonthStart(cal, y, 1)
    {
      for m := 1 to 13
        invariant totalDays == MonthStart(cal, y, m)
      {
        MonthStartStep(cal, y, m);
        totalDays := totalDays + cal[y - BASE_YEAR][m - 1];
      }
    }
    for m := 1 to d.month
      invariant totalDays == MonthStart(cal, d.year, m)
    {
      MonthStartStep(cal, d.year, m);
      totalDays := totalDays + cal[d.year - BASE_YEAR][m - 1];
    }
    totalDays := totalDays + (d.day - 1);
    return Ok(AddDays(AD_REFERENCE, totalDays));
  }

  // ---- The two conversions are inverse bijections ----

  /** Every instant of a valid day converts back to that day: the time of day is ignored. */
  lemma RoundTripFromBS(cal: Calendar, d: BSDate, timeOfDay: int)
    requires IsValidBSDate(cal, d) && 0 <= timeOfDay < 86_400_000
    ensures BsToADSpec(cal, d).Ok?
    ensures AdToBSSpec(cal, BsToADSpec(cal, d).value + timeOfDay) == Ok(d)
  {
    var t := BsToADSpec(cal, d).value + timeOfDay;
    DayNumberIsMonotone(cal, d, d);
    assert DayOffset(t) == DayNumber(cal, d);
    DayNumberIsMonotone(cal, d, WalkForward(cal, 0, DayOffset(t)));
  }

  /** An instant that converts gives a valid date whose midnight is the instant's own midnight; an
      instant converts exactly when its day lies in the table. */
  lemma RoundTripFromAD(cal: Calendar, t: int)
    ensures AdToBSSpec(cal, t).Ok? <==> 0 <= DayOffset(t) < TotalDays(cal)
    ensures AdToBSSpec(cal, t).Ok? ==>
              && IsValidBSDate(cal, AdToBSSpec(cal, t).value)
              && BsToADSpec(cal, AdToBSSpec(cal, t).value) == Ok(Midnight(Day(t)))
  {
  }

  lemma NumberOfDay(cal: Calendar, t: int)
    requires AdToBSSpec(cal, t).Ok?
    ensures IsValidBSDate(cal, AdToBSSpec(cal, t).value)
    ensures DayNumber(cal, AdToBSSpec(cal, t).value) == Day(t) - Day(AD_REFERENCE)
  {
  }

  /** Both conversions preserve order strictly. */
  lemma ConversionsPreserveOrder(cal: Calendar, a: BSDate, b: BSDate, s: int, t: int)
    requires IsValidBSDate(cal, a) && IsValidBSDate(cal, b)
    requires AdToBSSpec(cal, s).Ok? && AdToBSSpec(cal, t).Ok?
    ensures Earlier(a, b) <==> BsToADSpec(cal, a).value < BsToADSpec(cal, b).value
    ensures Day(s) < Day(t) <==> Earlier(AdToBSSpec(cal, s).value, AdToBSSpec(cal, t).value)
  {
    hide AdToBSSpec, DayNumber, Day, Earlier;
    NumberOfDay(cal, s);
    NumberOfDay(cal, t);
    DayNumberIsMonotone(cal, a, b);
    DayNumberIsMonotone(cal, AdToBSSpec(cal, s).value, AdToBSSpec(cal, t).value);
  }

  /** Which error a conversion ends in. */
  lemma ConversionErrors(cal: Calendar, t: int, d: BSDate)
    ensures AdToBSSpec(cal, t) == Err(BeforeRange) <==> t < AD_REFERENCE
    ensures AdToBSSpec(cal, t) == Err(YearOutOfRange) <==> AddDays(AD_REFERENCE, TotalDays(cal)) <= t
    ensures BsToADSpec(cal, d) == Err(YearOutOfRange) <==> !(2070 <= d.year < 2070 + |cal|)
    ensures BsToADSpec(cal, d) == Err(InvalidMonth) <==> 2070 <= d.year < 2070 + |cal| && !(1 <= d.month <= 12)
    ensures BsToADSpec(cal, d) == Err(InvalidDay)
            <==> && 2070 <= d.year < 2070 + |cal| && 1 <= d.month <= 12
                 && !(1 <= d.day <= cal[d.year - 2070][d.month - 1])
  {
  }

  // ---- Month ranges ----

  datatype Range = Range(start: int, end: int) {
    predicate Contains(t: int) { start <= t <= end }
  }

  ghost function MonthRangeSpec(cal: Calendar, year: int, month: int): Result<Range, DateError> {
    if !InTable(cal, year) then Err(YearOutOfRange)
    else if month < 1 || month > 12 then Err(InvalidMonth)
    else
      var k := MonthIndex(year, month);
      Ok(Range(AddDays(AD_REFERENCE, DaysBefore(cal, k)), AddDays(AD_REFERENCE, DaysBefore(cal, k + 1)) - 1))
  }

  /** From local midnight of the first day to 23:59:59.999 of the last. */
  method GetBSMonthADRange(cal: Calendar, year: int, month: int) returns (r: Result<Range, DateError>)
    ensures r == MonthRangeSpec(cal, year, month)
  {
    var daysInMonth := GetDaysInBSMonth(cal, year, month);
    if daysInMonth.Err? {
      return Err(daysInMonth.error);
    }
    var start := BsToAD(cal, BSDate(year, month, 1));
    var end := BsToAD(cal, BSDate(year, month, daysInMonth.value));
    var from := Midnight(Day(start.value));
    var to := Midnight(Day(end.value)) + 86_399_999;
    return Ok(Range(from, to));
  }

  /** An instant lies in the range of a month exactly when it converts to a date of that month. */
  lemma MonthRangeIsPreimage(cal: Calendar, year: int, month: int, t: int)
    requires InTable(cal, year) && 1 <= month <= 12
    ensures MonthRangeSpec(cal, year, month).Ok?
    ensures MonthRangeSpec(cal, year, month).value.Contains(t) <==>
            && AdToBSSpec(cal, t).Ok?
            && AdToBSSpec(cal, t).value.year == year
            && AdToBSSpec(cal, t).value.month == month
  {
    hide MonthLength;
    var k := MonthIndex(year, month);
    MonthLengthAt(cal, year, month);
    MonthsAccumulate(cal, k, 12 * |cal|);
    if MonthRangeSpec(cal, year, month).value.Contains(t) {
      var d := BSDate(year, month, DayOffset(t) - DaysBefore(cal, k) + 1);
      RoundTripFromBS(cal, d, TimeOfDay(t));
    } else if AdToBSSpec(cal, t).Ok? {
      var d := AdToBSSpec(cal, t).value;
      assert d.year == year && d.month == month ==> false;
    }
  }

  /** The ranges follow one another without gap or overlap, from the first day of the table to the last. */
  lemma MonthRangesTile(cal: Calendar, year: int, month: int)
    requires InTable(cal, year) && 1 <= month <= 12
    ensures MonthRangeSpec(cal, BASE_YEAR, 1).value.start == AD_REFERENCE
    ensures MonthRangeSpec(cal, BASE_YEAR + |cal| - 1, 12).value.end + 1 == AddDays(AD_REFERENCE, TotalDays(cal))
    ensures var r := MonthRangeSpec(cal, year, month).value;
            var (y, m) := if month == 12 then (year + 1, 1) else (year, month + 1);
            && r.start <= r.end
            && (InTable(cal, y) ==> MonthRangeSpec(cal, y, m).value.start == r.end + 1)
  {
  }

  // ---- The table of the repository ----

  const BS_CALENDAR_DATA: seq<seq<int>> := [
    [31, 31, 32, 31, 31, 31, 30, 29, 30, 29, 30, 30],
    [31, 31, 32, 31, 32, 30, 30, 29, 30, 29, 30, 30],
    [31, 32, 31, 32, 31, 30, 30, 30, 29, 29, 30, 31],
    [30, 32, 31, 32, 31, 30, 30, 30, 29, 30, 29, 31],
    [31, 31, 32, 31, 31, 31, 30, 29, 30, 29, 30, 30],
    [31, 31, 32, 32, 31, 30, 30, 29, 30, 29, 30, 30],
    [31, 32, 31, 32, 31, 30, 30, 30, 29, 29, 30, 31],
    [30, 32, 31, 32, 31, 31, 29, 30, 30, 29, 29, 31],
    [31, 31, 32, 31, 31, 31, 30, 29, 30, 29, 30, 30],
    [31, 31, 32, 32, 31, 30, 30, 29, 30, 29, 30, 30],
    [31, 32, 31, 32, 31, 30, 30, 30, 29, 29, 30, 31],
    [31, 31, 31, 32, 31, 31, 29, 30, 30, 29, 30, 30],
    [31, 31, 32, 31, 31, 31, 30, 29, 30, 29, 30, 30],
    [31, 31, 32, 32, 31, 30, 30, 29, 30, 29, 30, 30],
    [31, 32, 31, 32, 31, 30, 30, 30, 29, 29, 30, 31],
    [31, 31, 31, 32, 31, 31, 29, 30, 30, 29, 30, 30],
    [31, 31, 32, 31, 31, 31, 30, 29, 30, 29, 30, 30],
    [31, 32, 31, 32, 31, 30, 30, 29, 30, 29, 30, 30],
    [31, 32, 31, 32, 31, 30, 30, 30, 29, 29, 30, 31],
    [31, 31, 31, 32, 31, 31, 30, 29, 30, 29, 30, 30],
    [31, 31, 32, 31, 31, 31, 30, 29, 30, 29, 30, 30]
  ]

  /** The repository's table is well formed and ends with 2090, so every theorem above applies to it. */
  lemma RepositoryTable()
    ensures WellFormed(BS_CALENDAR_DATA)
    ensures InTable(BS_CALENDAR_DATA, 2090) && !InTable(BS_CALENDAR_DATA, 2091)
  {
  }

  ghost function Sum12(row: seq<int>): int
    requires |row| == 12
  {
    row[0] + row[1] + row[2] + row[3] + row[4] + row[5] + row[6] + row[7] + row[8] + row[9] + row[10] + row[11]
  }

  /** A year has the days of its twelve months. */
  lemma YearLength(cal: Calendar, year: int)
    requires InTable(cal, year)
    ensures MonthStart(cal, year, 13) == MonthStart(cal, year, 1) + Sum12(cal[year - BASE_YEAR])
  {
    hide MonthLength, MonthStart;
    MonthStartStep(cal, year, 1);
    MonthStartStep(cal, year, 2);
    MonthStartStep(cal, year, 3);
    MonthStartStep(cal, year, 4);
    MonthStartStep(cal, year, 5);
    MonthStartStep(cal, year, 6);
    MonthStartStep(cal, year, 7);
    MonthStartStep(cal, year, 8);
    MonthStartStep(cal, year, 9);
    MonthStartStep(cal, year, 10);
    MonthStartStep(cal, year, 11);
    MonthStartStep(cal, year, 12);
  }

  lemma YearLengths(i: nat)
    requires i < 21
    ensures |BS_CALENDAR_DATA| == 21 && |BS_CALENDAR_DATA[i]| == 12
    ensures Sum12(BS_CALENDAR_DATA[i]) == if i % 4 == 2 then 366 else 365
  {
  }

  /** Years of 365 days, but for every fourth one from 2072 (2015) on. */
  ghost predicate HasLeapYears(cal: Calendar) {
    forall i :: 0 <= i < |cal| ==> Sum12(cal[i]) == if i % 4 == 2 then 366 else 365
  }

  lemma GregorianYear(year: nat)
    requires 2013 <= year <= 2034
    ensures NewYearsDay(year + 1) == NewYearsDay(year) + if year % 4 == 0 then 366 else 365
  {
  }

  lemma ReferenceDay()
    ensures NewYearsDay(2014) - 262 == Day(AD_REFERENCE)
  {
  }

  lemma OneYearOn(cal: Calendar, year: int)
    requires HasLeapYears(cal) && InTable(cal, year) && InTable(cal, year + 1)
    ensures MonthStart(cal, year + 1, 1) == MonthStart(cal, year, 1) + if (year - 2070) % 4 == 2 then 366 else 365
  {
    hide Sum12, MonthStart, MonthLength;
    YearLength(cal, year);
    MonthStartStep(cal, year, 12);
  }

  /** Such a table begins every year on 14 April, and its first one, 2013, on a Sunday. */
  lemma {:induction false} YearsBeginInApril(cal: Calendar, year: int)
    requires HasLeapYears(cal) && InTable(cal, year) && year <= 2090
    ensures Day(AD_REFERENCE) + MonthStart(cal, year, 1) == NewYearsDay(year - 56) - 262
    ensures Weekday(AD_REFERENCE) == 0
    decreases year
  {
    hide HasLeapYears, NewYearsDay;
    if year > BASE_YEAR {
      hide MonthStart;
      YearsBeginInApril(cal, year - 1);
      OneYearOn(cal, year - 1);
      GregorianYear(year - 57);
      assert (year - 57) % 4 == 0 <==> (year - 1 - 2070) % 4 == 2;
    } else {
      ReferenceDay();
    }
  }

  /** The repository's table is such a table. */
  lemma TableHasLeapYears(cal: Calendar)
    requires cal == BS_CALENDAR_DATA
    ensures |cal| == 21 && HasLeapYears(cal)
  {
    forall i | 0 <= i < |cal|
      ensures Sum12(cal[i]) == if i % 4 == 2 then 366 else 365
    {
      YearLengths(i);
    }
  }
}
