/** Monthly options-expiry dates on the proleptic Gregorian calendar of Python's `datetime.date`. */
module OpexCalendar {

  const MAX_YEAR := 9999

  datatype Date = Date(year: int, month: int, day: int)

  datatype Result = Dates(dates: seq<Date>) | YearOutOfRange

  predicate IsLeap(y: int) {
    y % 4 == 0 && (y % 100 != 0 || y % 400 == 0)
  }

  function DaysInMonth(y: int, m: int): (n: int)
    requires 1 <= m <= 12
    ensures 28 <= n <= 31
  {
    if m == 2 then (if IsLeap(y) then 29 else 28)
    else if m == 4 || m == 6 || m == 9 || m == 11 then 30
    else 31
  }

  predicate Valid(d: Date) {
    1 <= d.year <= MAX_YEAR && 1 <= d.month <= 12 && 1 <= d.day <= DaysInMonth(d.year, d.month)
  }

  /** Days of the year before the first of month m. */
  function DaysBeforeMonth(y: int, m: int): int
    requires 1 <= m <= 12
    decreases m
  {
    if m == 1 then 0 else DaysBeforeMonth(y, m - 1) + DaysInMonth(y, m - 1)
  }

  function DaysBeforeYear(y: int): int {
    (y - 1) * 365 + (y - 1) / 4 - (y - 1) / 100 + (y - 1) / 400
  }

  /** `date.toordinal`: 1 for 1 January of year 1. */
  function Ordinal(d: Date): int
    requires 1 <= d.month <= 12
  {
    DaysBeforeYear(d.year) + DaysBeforeMonth(d.year, d.month) + d.day
  }

  /** `date.weekday`: Monday is 0, Friday is 4. */
  function Weekday(d: Date): int
    requires 1 <= d.month <= 12
  {
    (Ordinal(d) + 6) % 7
  }

  /** Python compares dates as (year, month, day) triples. */
  predicate Before(a: Date, b: Date) {
    a.year < b.year
    || (a.year == b.year && (a.month < b.month || (a.month == b.month && a.day < b.day)))
  }

  predicate AtMost(a: Date, b: Date) { a == b || Before(a, b) }

  // ----- the calendar is one line of days

  function FirstOfNext(y: int, m: int): Date {
    if m < 12 then Date(y, m + 1, 1) else Date(y + 1, 1, 1)
  }

  lemma MonthLengthsAddUp(y: int)
    ensures DaysBeforeMonth(y, 12) + 31 == if IsLeap(y) then 366 else 365
  {
    assert DaysBeforeMonth(y, 3) == DaysBeforeMonth(y, 2) + DaysInMonth(y, 2) == 31 + DaysInMonth(y, 2);
    assert DaysBeforeMonth(y, 6) == DaysBeforeMonth(y, 3) + 92;
    assert DaysBeforeMonth(y, 9) == DaysBeforeMonth(y, 6) + 92;
    assert DaysBeforeMonth(y, 12) == DaysBeforeMonth(y, 9) + 91;
  }

  lemma YearLength(y: int)
    requires y >= 1
    ensures DaysBeforeYear(y + 1) == DaysBeforeYear(y) + if IsLeap(y) then 366 else 365
  {
    assert y / 4 == (y - 1) / 4 + if y % 4 == 0 then 1 else 0;
    assert y / 100 == (y - 1) / 100 + if y % 100 == 0 then 1 else 0;
    assert y / 400 == (y - 1) / 400 + if y % 400 == 0 then 1 else 0;
  }

  /** The first of the next month comes right after the last day of this one. */
  lemma MonthsAreContiguous(y: int, m: int)
    requires y >= 1 && 1 <= m <= 12
    ensures Ordinal(FirstOfNext(y, m)) == Ordinal(Date(y, m, 1)) + DaysInMonth(y, m)
  {
    if m == 12 {
      MonthLengthsAddUp(y);
      YearLength(y);
    }
  }

  /** Later months start strictly later. */
  lemma {:induction false} MonthStartsIncrease(y: int, m: int, y': int, m': int)
    requires 1 <= y && 1 <= m <= 12 && 1 <= m' <= 12 && (y < y' || (y == y' && m < m'))
    ensures Ordinal(Date(y, m, 1)) + DaysInMonth(y, m) <= Ordinal(Date(y', m', 1))
    decreases 12 * (y' - y) + m' - m
  {
    var next := FirstOfNext(y, m);
    MonthsAreContiguous(y, m);
    if next != Date(y', m', 1) {
      MonthStartsIncrease(next.year, next.month, y', m');
    }
  }

  /** Comparing dates as triples is comparing day numbers. */
  lemma OrderIsOrdinalOrder(a: Date, b: Date)
    requires Valid(a) && Valid(b)
    ensures Before(a, b) <==> Ordinal(a) < Ordinal(b)
  {
    if a.year < b.year || (a.year == b.year && a.month < b.month) {
      MonthStartsIncrease(a.year, a.month, b.year, b.month);
    } else if b.year < a.year || (a.year == b.year && b.month < a.month) {
      MonthStartsIncrease(b.year, b.month, a.year, a.month);
    }
  }

  /** Day 1 is Monday, 1 January of year 1, and the weekdays run on from there. */
  lemma WeekdaysRunOn(a: Date, b: Date)
    requires 1 <= a.month <= 12 && 1 <= b.month <= 12 && Ordinal(b) == Ordinal(a) + 1
    ensures Ordinal(Date(1, 1, 1)) == 1 && Weekday(Date(1, 1, 1)) == 0
    ensures Weekday(b) == (Weekday(a) + 1) % 7
  {
    FirstDay();
    hide Ordinal;
    ShiftModSeven(Ordinal(a) + 6, 1);
  }

  lemma FirstDay()
    ensures Ordinal(Date(1, 1, 1)) == 1 && Weekday(Date(1, 1, 1)) == 0
  {
    assert DaysBeforeYear(1) == 0;
    assert DaysBeforeMonth(1, 1) == 0;
    assert Ordinal(Date(1, 1, 1)) == 1;
    assert 7 % 7 == 0;
  }

  /** Thirty days have the fourth, sixth, ninth and eleventh month, all others thirty-one, but the second has 28, and 29 in
      every fourth year that is not a hundredth, and in every four-hundredth. */
  lemma MonthLengths(y: int, m: int)
    requires 1 <= m <= 12
    ensures m == 4 || m == 6 || m == 9 || m == 11 ==> DaysInMonth(y, m) == 30
    ensures m != 2 && m != 4 && m != 6 && m != 9 && m != 11 ==> DaysInMonth(y, m) == 31
    ensures DaysInMonth(y, 2) == 29 <==> y % 400 == 0 || (y % 4 == 0 && y % 100 != 0)
    ensures DaysInMonth(y, 2) == 28 || DaysInMonth(y, 2) == 29
  {
    FourHundredths(y);
  }

  lemma FourHundredths(y: int)
    ensures y % 400 == 0 ==> y % 4 == 0
  {
    if y % 400 == 0 {
      assert y == 4 * (100 * (y / 400));
    }
  }

  // ----- expiry dates

  /** `third_friday`. */
  function ThirdFriday(y: int, m: int): Date
    requires 1 <= m <= 12
  {
    var offset := (4 - Weekday(Date(y, m, 1))) % 7;
    Date(y, m, 1 + offset + 14)
  }

  /** The declarative description: a Friday falling on the 15th to the 21st. */
  predicate IsOpex(d: Date) {
    Valid(d) && Weekday(d) == 4 && 15 <= d.day <= 21
  }

  lemma WeekdayInMonth(y: int, m: int, day: int)
    requires 1 <= m <= 12
    ensures Weekday(Date(y, m, day)) == (Weekday(Date(y, m, 1)) + day - 1) % 7
  {
    ShiftModSeven(Ordinal(Date(y, m, 1)) + 6, day - 1);
  }

  lemma ShiftModSeven(x: int, k: int)
    ensures (x + k) % 7 == (x % 7 + k) % 7
  {
  }

  lemma OnlyFridayInWeek(w: int, day: int)
    requires 0 <= w < 7
    ensures (w + day - 1) % 7 == 4 && 15 <= day <= 21 <==> day == 15 + (4 - w) % 7
  {
  }

  /** A month has exactly one such Friday, and the formula finds it. */
  lemma ThirdFridayIsTheOpex(y: int, m: int)
    requires 1 <= y <= MAX_YEAR && 1 <= m <= 12
    ensures forall day: int :: IsOpex(Date(y, m, day)) <==> Date(y, m, day) == ThirdFriday(y, m)
    ensures IsOpex(ThirdFriday(y, m))
  {
    forall day: int
      ensures IsOpex(Date(y, m, day)) <==> day == ThirdFriday(y, m).day
    {
      WeekdayInMonth(y, m, day);
      OnlyFridayInWeek(Weekday(Date(y, m, 1)), day);
    }
    assert ThirdFriday(y, m) == Date(y, m, ThirdFriday(y, m).day);
  }

  /** The expiries of 2024. */
  lemma ExpiriesOf2024()
    ensures ThirdFriday(2024, 1).day == 19 && ThirdFriday(2024, 2).day == 16 && ThirdFriday(2024, 3).day == 15
    ensures ThirdFriday(2024, 4).day == 19 && ThirdFriday(2024, 5).day == 17 && ThirdFriday(2024, 6).day == 21
    ensures ThirdFriday(2024, 7).day == 19 && ThirdFriday(2024, 8).day == 16 && ThirdFriday(2024, 9).day == 20
    ensures ThirdFriday(2024, 10).day == 18 && ThirdFriday(2024, 11).day == 15 && ThirdFriday(2024, 12).day == 20
  {
    assert DaysBeforeMonth(2024, 4) == 91;
    assert DaysBeforeMonth(2024, 7) == 182;
    assert DaysBeforeMonth(2024, 10) == 274;
  }

  function MonthIndex(d: Date): int { d.year * 12 + d.month }

  /** Strictly increasing, inside the range, and complete up to (not including) month y/m. */
  ghost predicate Complete(out: seq<Date>, start: Date, end: Date, monthIndex: int) {
    (forall i, j :: 0 <= i < j < |out| ==> Before(out[i], out[j]))
    && (forall d :: d in out <==> IsOpex(d) && AtMost(start, d) && AtMost(d, end) && MonthIndex(d) < monthIndex)
  }

  /** `opex_dates`. Building the first of January 10000 raises; nothing else does. */
  method OpexDates(start: Date, end: Date) returns (r: Result)
    requires Valid(start) && Valid(end)
    ensures r.YearOutOfRange? <==> end.year == MAX_YEAR && end.month == 12
    ensures r.Dates? ==>
              (forall i, j :: 0 <= i < j < |r.dates| ==> Before(r.dates[i], r.dates[j]))
              && forall d :: d in r.dates <==> IsOpex(d) && AtMost(start, d) && AtMost(d, end)
  {
    var out: seq<Date> := [];
    var y, m := start.year, start.month;
    while y <= MAX_YEAR && AtMost(Date(y, m, 1), end)
      invariant 1 <= y <= MAX_YEAR + 1 && 1 <= m <= 12 && (y == MAX_YEAR + 1 ==> m == 1)
      invariant MonthIndex(start) <= MonthIndex(Date(y, m, 1))
      invariant Complete(out, start, end, MonthIndex(Date(y, m, 1)))
      invariant y == MAX_YEAR + 1 ==> end.year == MAX_YEAR && end.month == 12
      decreases MAX_YEAR + 1 - y, 12 - m
    {
      ThirdFridayIsTheOpex(y, m);
      var d := ThirdFriday(y, m);
      ghost var before := out;
      if AtMost(start, d) && AtMost(d, end) {
        out := out + [d];
      }
      MonthAdded(before, out, start, end, y, m);
      m := m + 1;
      if m > 12 {
        m := 1;
        y := y + 1;
      }
    }
    if y > MAX_YEAR {
      return YearOutOfRange;
    }
    r := Dates(out);
  }

  lemma MonthAdded(before: seq<Date>, out: seq<Date>, start: Date, end: Date, y: int, m: int)
    requires 1 <= y <= MAX_YEAR && 1 <= m <= 12
    requires Complete(before, start, end, MonthIndex(Date(y, m, 1)))
    requires var d := ThirdFriday(y, m);
             out == if AtMost(start, d) && AtMost(d, end) then before + [d] else before
    ensures Complete(out, start, end, MonthIndex(Date(y, m, 1)) + 1)
  {
    ThirdFridayIsTheOpex(y, m);
    var t := ThirdFriday(y, m);
    forall d
      ensures d in out <==> IsOpex(d) && AtMost(start, d) && AtMost(d, end) && MonthIndex(d) < MonthIndex(Date(y, m, 1)) + 1
    {
      if IsOpex(d) && MonthIndex(d) == MonthIndex(t) {
        assert d.year == y && d.month == m && d == Date(y, m, d.day);
      }
    }
    forall i, j | 0 <= i < j < |out|
      ensures Before(out[i], out[j])
    {
      if j == |before| {
        assert out[i] == before[i] && before[i] in before;
      }
    }
  }

  /** Consecutive expiries are four or five weeks apart. */
  lemma FourOrFiveWeeks(y: int, m: int)
    requires 1 <= y && 1 <= m <= 12 && FirstOfNext(y, m).year <= MAX_YEAR
    ensures var next := FirstOfNext(y, m);
            var gap := Ordinal(ThirdFriday(next.year, next.month)) - Ordinal(ThirdFriday(y, m));
            gap == 28 || gap == 35
  {
    var next := FirstOfNext(y, m);
    MonthsAreContiguous(y, m);
    OpexDay(y, m);
    OpexDay(next.year, next.month);
    WholeWeeks(Ordinal(ThirdFriday(y, m)), Ordinal(ThirdFriday(next.year, next.month)));
  }

  lemma OpexDay(y: int, m: int)
    requires 1 <= y <= MAX_YEAR && 1 <= m <= 12
    ensures 14 <= Ordinal(ThirdFriday(y, m)) - Ordinal(Date(y, m, 1)) <= 20
    ensures (Ordinal(ThirdFriday(y, m)) + 6) % 7 == 4
  {
    ThirdFridayIsTheOpex(y, m);
  }

  lemma WholeWeeks(x: int, x': int)
    requires (x + 6) % 7 == (x' + 6) % 7 && 22 <= x' - x <= 37
    ensures x' - x == 28 || x' - x == 35
  {
  }
}
