/**
 Instants are whole milliseconds of Nepal local time, counted from local midnight of 1 January 1970.
 Kathmandu has no daylight saving, so the local calendar day of an instant is a floor division and
 its time of day the remainder; `Date.setHours` and `Date.setDate` are additions.
 */
module Clock {
  const MS_PER_MINUTE := 60_000
  const MS_PER_DAY := 86_400_000

  /** Kathmandu is 5 h 45 min ahead of UTC. */
  const UTC_OFFSET := 20_700_000

  /** A clock reading such as "18:00". The schemas accept two digits each, so "99:99" is possible too. */
  datatype ClockTime = ClockTime(hour: nat, minute: nat) {
    function Offset(): int { hour * 3_600_000 + minute * 60_000 }

    predicate WithinDay() { hour < 24 && minute < 60 }
  }

  function Day(t: int): int { t / 86_400_000 }

  function TimeOfDay(t: int): int { t % 86_400_000 }

  function Midnight(day: int): int { day * 86_400_000 }

  /** `date.setHours(hour, minute, 0, 0)`; an hour or minute out of range carries into the next days. */
  function AtClock(t: int, c: ClockTime): int { Midnight(Day(t)) + c.Offset() }

  function AddDays(t: int, n: int): int { t + n * 86_400_000 }

  /** `date.getDay()`: 0 is Sunday. The first of January 1970 was a Thursday. */
  function Weekday(t: int): int { (Day(t) + 4) % 7 }

  /** The key `date.toISOString().split('T')[0]`: the day of the instant in UTC, not in Nepal. */
  function IsoDay(t: int): int { (t - UTC_OFFSET) / 86_400_000 }

  /** What a date column keeps of an instant: midnight in UTC of its UTC date, 05:45 in Nepal. */
  function DateColumn(t: int): int { IsoDay(t) * 86_400_000 + UTC_OFFSET }

  ghost predicate IsDate(t: int) { TimeOfDay(t) == UTC_OFFSET }

  lemma DateColumnIsMonotone(a: int, b: int)
    requires a <= b
    ensures DateColumn(a) <= DateColumn(b)
  {
  }

  lemma DateColumnIsDate(t: int)
    ensures IsDate(DateColumn(t)) && Day(DateColumn(t)) == IsoDay(t)
  {
    DayOf(IsoDay(t), UTC_OFFSET);
  }

  function WholeMinutes(ms: int): int { ms / 60_000 }

  /** `Math.ceil(ms / (1000 * 60 * 60 * 24))` */
  function CeilDays(ms: int): int { -((-ms) / 86_400_000) }

  function Max(a: int, b: int): int { if a < b then b else a }

  function Min(a: int, b: int): int { if a < b then a else b }

  lemma DayOf(day: int, ms: int)
    requires 0 <= ms < 86_400_000
    ensures Day(Midnight(day) + ms) == day && TimeOfDay(Midnight(day) + ms) == ms
  {
  }

  lemma DaySplit(t: int)
    ensures t == Midnight(Day(t)) + TimeOfDay(t)
    ensures 0 <= TimeOfDay(t) < 86_400_000
  {
  }

  /** 1 January of a Gregorian year, in days after 1 January 1970. */
  function NewYearsDay(year: nat): int {
    365 * (year - 1970) + (year - 1) / 4 - (year - 1) / 100 + (year - 1) / 400 - 477
  }

  /** A clock reading within the day is the instant of the same day at which a clock shows it. */
  lemma ClockReading(t: int, c: ClockTime)
    requires c.WithinDay()
    ensures Day(AtClock(t, c)) == Day(t)
    ensures var ms := TimeOfDay(AtClock(t, c)); ms / 3_600_000 == c.hour && ms % 3_600_000 == c.minute * 60_000
  {
    DayOf(Day(t), c.Offset());
  }

  /** Minutes are cut off and days are rounded up. Nepal is 5 hours and 45 minutes ahead. */
  lemma RoundingDirections(ms: int)
    ensures WholeMinutes(ms) * 60_000 <= ms < WholeMinutes(ms) * 60_000 + 60_000
    ensures (CeilDays(ms) - 1) * 86_400_000 < ms <= CeilDays(ms) * 86_400_000
    ensures UTC_OFFSET == ClockTime(5, 45).Offset()
  {
  }

  /** Weekdays follow one another, Sunday after Saturday. */
  lemma WeekdayCycles(t: int, n: int)
    ensures Weekday(AddDays(t, n)) == (Weekday(t) + n) % 7
  {
    assert Day(AddDays(t, n)) == Day(t) + n;
  }

  /** The day before each of the days. */
  ghost function Yesterdays(days: set<int>): set<int> { set d | d in days :: d - 1 }

  lemma InYesterdays(days: set<int>)
    ensures forall x :: x in Yesterdays(days) <==> x + 1 in days
  {
    assert forall d :: d in days ==> d - 1 in Yesterdays(days);
    forall x | x + 1 in days ensures x in Yesterdays(days) {
      assert x + 1 - 1 == x;
    }
  }

  lemma AddYesterday(days: set<int>, d: int)
    ensures Yesterdays(days + {d}) == Yesterdays(days) + {d - 1}
    ensures |Yesterdays(days)| == |days| ==> |Yesterdays(days + {d})| == |days + {d}|
  {
    InYesterdays(days);
    InYesterdays(days + {d});
    hide Yesterdays;
    forall x
      ensures x in Yesterdays(days + {d}) <==> x in Yesterdays(days) || x == d - 1
    {
      assert x in Yesterdays(days + {d}) <==> x + 1 in days + {d};
      assert x in Yesterdays(days) <==> x + 1 in days;
    }
    assert d - 1 in Yesterdays(days) <==> d - 1 + 1 in days;
    if d in days {
      assert days + {d} == days;
    }
  }
}
