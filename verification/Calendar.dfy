/**
 civilFromDays and weekdayFromDays of firmware/src/apps/ClockApp.cpp against the
 rules of the Gregorian calendar, for every day before and after 1970.
 */
module Calendar {
  import opened Basics

  datatype Date = Date(year: int, month: int, day: int)

  // --- as written ---------------------------------------------------------------------------

  function YearOfEra(dayOfEra: int): int {
    TruncDiv(dayOfEra - TruncDiv(dayOfEra, 1460) + TruncDiv(dayOfEra, 36524) - TruncDiv(dayOfEra, 146096), 365)
  }

  function DayOfYear(dayOfEra: int, yearOfEra: int): int {
    dayOfEra - (365 * yearOfEra + TruncDiv(yearOfEra, 4) - TruncDiv(yearOfEra, 100))
  }

  function Era(days: int): int {
    TruncDiv(if days >= 0 then days else days - 146096, 146097)
  }

  function CivilFromDays(since1970: int): Date {
    var days := since1970 + 719468;
    var era := Era(days);
    var dayOfEra := days - era * 146097;
    var yearOfEra := YearOfEra(dayOfEra);
    DateOf(yearOfEra + era * 400, DayOfYear(dayOfEra, yearOfEra))
  }

  /** The date of a day of a year that begins in March. */
  function DateOf(year: int, dayOfYear: int): Date {
    var shiftedMonth := TruncDiv(5 * dayOfYear + 2, 153);
    var day := dayOfYear - TruncDiv(153 * shiftedMonth + 2, 5) + 1;
    var month := if shiftedMonth < 10 then shiftedMonth + 3 else shiftedMonth - 9;
    Date(year + (if month <= 2 then 1 else 0), month, day)
  }

  function WeekdayFromDays(days: int): int {
    var weekday := TruncMod(days + 4, 7);
    if weekday < 0 then weekday + 7 else weekday
  }

  // --- the calendar ----------------------------------------------------------------------------

  predicate IsLeap(year: int) {
    year % 4 == 0 && (year % 100 != 0 || year % 400 == 0)
  }

  function DaysInMonth(year: int, month: int): int {
    if month == 2 then (if IsLeap(year) then 29 else 28)
    else if month == 4 || month == 6 || month == 9 || month == 11 then 30
    else 31
  }

  predicate IsDate(d: Date) {
    1 <= d.month <= 12 && 1 <= d.day <= DaysInMonth(d.year, d.month)
  }

  function Next(d: Date): Date {
    if d.day < DaysInMonth(d.year, d.month) then Date(d.year, d.month, d.day + 1)
    else if d.month < 12 then Date(d.year, d.month + 1, 1)
    else Date(d.year + 1, 1, 1)
  }

  // --- years that begin in March --------------------------------------------------------------------

  /** The first day of a year of the era, from the era's first day on. */
  function YearStart(yearOfEra: int): int {
    365 * yearOfEra + yearOfEra / 4 - yearOfEra / 100 + yearOfEra / 400
  }

  /** The year beginning in March contains the February of the year after. */
  function YearLength(year: int): int {
    if IsLeap(year + 1) then 366 else 365
  }

  lemma EraFloors(days: int)
    ensures Era(days) == days / 146097 && 0 <= days - Era(days) * 146097 <= 146096
  {
  }

  /** Within a century of the era only every fourth year is long. */
  lemma YearOfCenturyFits(dayOfEra: int, c: int)
    requires 0 <= c <= 3 && 36524 * c <= dayOfEra < 36524 * (c + 1)
    ensures var y := (dayOfEra - dayOfEra / 1460 + c) / 365;
      100 * c <= y <= 100 * c + 99 && 365 * y + y / 4 - c <= dayOfEra
      && dayOfEra < 365 * (y + 1) + (y + 1) / 4 - (if y == 100 * c + 99 then c + 1 else c)
  {
    var y := (dayOfEra - dayOfEra / 1460 + c) / 365;
    var k := dayOfEra / 1460;
    if c == 0 {
    } else if c == 1 {
    } else if c == 2 {
    } else {
    }
  }

  lemma YearOfEraFits(dayOfEra: int)
    requires 0 <= dayOfEra <= 146096
    ensures var y := YearOfEra(dayOfEra); 0 <= y <= 399 && YearStart(y) <= dayOfEra < YearStart(y + 1)
  {
    hide YearOfEra, YearStart;
    if dayOfEra < 146096 {
      YearOfEraTruncates(dayOfEra);
      CenturyHolds(dayOfEra, dayOfEra / 36524);
    } else {
      LastYearFits();
    }
  }

  lemma LastYearFits()
    ensures YearOfEra(146096) == 399 && YearStart(399) <= 146096 < YearStart(400)
  {
  }

  lemma CenturyHolds(dayOfEra: int, c: int)
    requires 0 <= c <= 3 && 36524 * c <= dayOfEra < 36524 * (c + 1)
    ensures var y := (dayOfEra - dayOfEra / 1460 + c) / 365; 0 <= y <= 399 && YearStart(y) <= dayOfEra < YearStart(y + 1)
  {
    hide YearStart;
    var y := (dayOfEra - dayOfEra / 1460 + c) / 365;
    YearOfCenturyFits(dayOfEra, c);
    YearStartIn(y, c);
  }

  lemma YearStartIn(y: int, c: int)
    requires 0 <= c <= 3 && 100 * c <= y <= 100 * c + 99
    ensures YearStart(y) == 365 * y + y / 4 - c
    ensures YearStart(y + 1)
         == 365 * (y + 1) + (y + 1) / 4 - (if y == 100 * c + 99 then c + 1 else c) + (if y == 399 then 1 else 0)
  {
    CenturyOf(y, c);
  }

  lemma YearOfEraTruncates(dayOfEra: int)
    requires 0 <= dayOfEra < 146096
    ensures YearOfEra(dayOfEra) == (dayOfEra - dayOfEra / 1460 + dayOfEra / 36524) / 365
  {
  }

  lemma CenturyOf(y: int, c: int)
    requires 0 <= c <= 3 && 100 * c <= y <= 100 * c + 99
    ensures y / 100 == c && y / 400 == 0
    ensures (y + 1) / 100 - (y + 1) / 400 == (if y == 100 * c + 99 then c + 1 else c) - (if y == 399 then 1 else 0)
  {
  }

  lemma YearStartStep(y: int)
    requires 0 <= y <= 399
    ensures YearStart(y + 1) - YearStart(y) == YearLength(y)
  {
    assert (y + 1) / 4 == y / 4 + if (y + 1) % 4 == 0 then 1 else 0;
    assert (y + 1) / 100 == y / 100 + if (y + 1) % 100 == 0 then 1 else 0;
    assert (y + 1) / 400 == y / 400 + if (y + 1) % 400 == 0 then 1 else 0;
  }

  // --- a day as a year from March and a day of it ------------------------------------------------------

  datatype Shifted = Shifted(year: int, day: int)

  predicate IsShifted(s: Shifted) {
    0 <= s.day < YearLength(s.year)
  }

  function NextShifted(s: Shifted): Shifted {
    if s.day + 1 < YearLength(s.year) then Shifted(s.year, s.day + 1) else Shifted(s.year + 1, 0)
  }

  function Split(since1970: int): Shifted {
    var days := since1970 + 719468;
    var era := Era(days);
    var dayOfEra := days - era * 146097;
    var yearOfEra := YearOfEra(dayOfEra);
    Shifted(yearOfEra + era * 400, DayOfYear(dayOfEra, yearOfEra))
  }

  lemma CivilIsSplit(n: int)
    ensures CivilFromDays(n) == DateOf(Split(n).year, Split(n).day)
  {
  }

  /** Within an era days are counted from the first day of their year. */
  lemma DayOfYearCounts(dayOfEra: int)
    requires 0 <= dayOfEra <= 146096
    ensures var y := YearOfEra(dayOfEra);
      0 <= y <= 399 && DayOfYear(dayOfEra, y) == dayOfEra - YearStart(y) && 0 <= DayOfYear(dayOfEra, y) < YearLength(y)
  {
    hide YearOfEra, YearLength;
    YearOfEraFits(dayOfEra);
    YearStartStep(YearOfEra(dayOfEra));
  }

  lemma {:induction false} YearStartsRise(a: int, b: int)
    requires 0 <= a <= b <= 400
    ensures YearStart(a) <= YearStart(b)
    decreases b - a
  {
    hide YearStart, YearLength;
    if a < b {
      YearStartsRise(a, b - 1);
      YearStartStep(b - 1);
      LengthPositive(b - 1);
    }
  }

  lemma LengthPositive(y: int)
    ensures 365 <= YearLength(y) <= 366
  {
  }

  lemma LengthRepeats(y: int, era: int)
    ensures YearLength(y + 400 * era) == YearLength(y)
  {
    RemaindersRepeat(y + 1, era);
  }

  lemma RemaindersRepeat(y: int, era: int)
    ensures (y + 400 * era) % 4 == y % 4
    ensures (y + 400 * era) % 100 == y % 100
    ensures (y + 400 * era) % 400 == y % 400
  {
    Mod4Repeats(y, 100 * era);
    Mod100Repeats(y, 4 * era);
    Mod400Repeats(y, era);
  }

  lemma Mod4Repeats(y: int, k: int)
    ensures (y + 4 * k) % 4 == y % 4
  {
  }

  lemma Mod100Repeats(y: int, k: int)
    ensures (y + 100 * k) % 100 == y % 100
  {
  }

  lemma Mod400Repeats(y: int, k: int)
    ensures (y + 400 * k) % 400 == y % 400
  {
  }

  /** A day of the era and the next lie in the same year or in years in a row. */
  lemma NextDayOfEra(dayOfEra: int)
    requires 0 <= dayOfEra < 146096
    ensures var y, y' := YearOfEra(dayOfEra), YearOfEra(dayOfEra + 1);
      Shifted(y', DayOfYear(dayOfEra + 1, y')) == NextShifted(Shifted(y, DayOfYear(dayOfEra, y)))
  {
    hide YearOfEra, YearStart, YearLength, DayOfYear;
    var y, y' := YearOfEra(dayOfEra), YearOfEra(dayOfEra + 1);
    DayOfYearCounts(dayOfEra);
    DayOfYearCounts(dayOfEra + 1);
    YearOfEraFits(dayOfEra);
    YearOfEraFits(dayOfEra + 1);
    YearStartStep(y);
    if y' < y {
      YearStartsRise(y' + 1, y);
    } else if y' > y {
      YearStartsRise(y + 1, y');
      if y' > y + 1 {
        YearStartStep(y + 1);
        LengthPositive(y + 1);
        YearStartsRise(y + 2, y');
      }
    }
  }

  lemma NextSplit(n: int)
    ensures IsShifted(Split(n)) && Split(n + 1) == NextShifted(Split(n))
  {
    hide YearOfEra, DayOfYear, YearLength, Era;
    var days := n + 719468;
    EraFloors(days);
    EraFloors(days + 1);
    var era := Era(days);
    var dayOfEra := days - era * 146097;
    var y := YearOfEra(dayOfEra);
    DayOfYearCounts(dayOfEra);
    LengthRepeats(y, era);
    if dayOfEra < 146096 {
      assert Era(days + 1) == era;
      NextDayOfEra(dayOfEra);
    } else {
      assert Era(days + 1) == era + 1;
      LastDayOfEra();
    }
  }

  lemma LastDayOfEra()
    ensures YearOfEra(146096) == 399 && DayOfYear(146096, 399) == 365 && YearLength(399) == 366
    ensures YearOfEra(0) == 0 && DayOfYear(0, 0) == 0
  {
  }

  // --- a day of a year from March as a date -----------------------------------------------------------------

  function MonthStart(shiftedMonth: int): int {
    (153 * shiftedMonth + 2) / 5
  }

  /** The formula for the month finds the month a day lies in. */
  lemma MonthFits(dayOfYear: int)
    requires 0 <= dayOfYear <= 365
    ensures var m := TruncDiv(5 * dayOfYear + 2, 153);
      0 <= m <= 11 && MonthStart(m) <= dayOfYear < MonthStart(m + 1) && MonthStart(m) == TruncDiv(153 * m + 2, 5)
  {
  }

  lemma DateFits(s: Shifted)
    requires IsShifted(s)
    ensures IsDate(DateOf(s.year, s.day))
  {
    hide IsLeap;
    LengthPositive(s.year);
    MonthFits(s.day);
    MonthLength(TruncDiv(5 * s.day + 2, 153));
  }

  /** The month a day lies in, counted from March, fixes its date. */
  lemma DateIn(year: int, dayOfYear: int) returns (m: int)
    requires 0 <= dayOfYear <= 365
    ensures 0 <= m <= 11 && MonthStart(m) <= dayOfYear < MonthStart(m + 1)
    ensures DateOf(year, dayOfYear)
         == Date(if m < 10 then year else year + 1, if m < 10 then m + 3 else m - 9, dayOfYear - MonthStart(m) + 1)
  {
    hide MonthStart;
    m := TruncDiv(5 * dayOfYear + 2, 153);
    MonthFits(dayOfYear);
  }

  lemma DateFollows(s: Shifted)
    requires IsShifted(s)
    ensures Next(DateOf(s.year, s.day)) == DateOf(NextShifted(s).year, NextShifted(s).day)
  {
    hide IsLeap, DateOf, TruncDiv;
    LengthPositive(s.year);
    var m := DateIn(s.year, s.day);
    MonthLength(m);
    if s.day + 1 < YearLength(s.year) {
      var m' := DateIn(s.year, s.day + 1);
    } else {
      var m' := DateIn(s.year + 1, 0);
    }
  }

  /** From March on the months before February have their lengths. */
  lemma MonthLength(m: int)
    requires 0 <= m <= 11
    ensures m < 11 ==> MonthStart(m + 1) - MonthStart(m) == if m == 1 || m == 3 || m == 6 || m == 8 then 30 else 31
    ensures m == 11 ==> MonthStart(m) == 337
  {
  }

  // --- the laws -----------------------------------------------------------------------------------------------

  /** Every day has a date of the calendar, and the next day has the next date. */
  lemma DatesFollow(n: int)
    ensures IsDate(CivilFromDays(n)) && CivilFromDays(n + 1) == Next(CivilFromDays(n))
  {
    hide CivilFromDays, Split, DateOf, NextShifted, IsShifted;
    CivilIsSplit(n);
    CivilIsSplit(n + 1);
    NextSplit(n);
    DateFits(Split(n));
    DateFollows(Split(n));
  }

  lemma DayZero()
    ensures CivilFromDays(0) == Date(1970, 1, 1)
  {
    hide YearOfEra, DayOfYear, DateOf, Era;
    EraFloors(719468);
    FirstYear();
    FirstDate();
  }

  lemma FirstYear()
    ensures YearOfEra(135080) == 369 && DayOfYear(135080, 369) == 306
  {
    YearOfEraTruncates(135080);
  }

  lemma FirstDate()
    ensures DateOf(1969, 306) == Date(1970, 1, 1)
  {
  }

  /** Days before a year, and before a month of it. */
  function DaysBeforeYear(year: int): int {
    365 * (year - 1) + (year - 1) / 4 - (year - 1) / 100 + (year - 1) / 400
  }

  function DaysBeforeMonth(year: int, month: int): int
    requires 1 <= month
    decreases month
  {
    if month == 1 then 0 else DaysBeforeMonth(year, month - 1) + DaysInMonth(year, month - 1)
  }

  /** The days from 1970-01-01 to a date, counted year by year and month by month. */
  function DayNumber(d: Date): int
    requires IsDate(d)
  {
    DaysBeforeYear(d.year) + DaysBeforeMonth(d.year, d.month) + d.day - 1 - DaysBeforeYear(1970)
  }

  lemma YearHasItsDays(year: int)
    ensures DaysBeforeMonth(year, 12) + 31 == if IsLeap(year) then 366 else 365
    ensures DaysBeforeYear(year + 1) - DaysBeforeYear(year) == if IsLeap(year) then 366 else 365
  {
    hide DaysBeforeMonth;
    MonthsAddUp(year);
    YearsFloor(year);
    CenturiesDivide(year);
  }

  lemma CenturiesDivide(year: int)
    ensures year % 400 == 0 ==> year % 100 == 0
    ensures year % 100 == 0 ==> year % 4 == 0
  {
    if year % 400 == 0 {
      Mod100Repeats(0, 4 * (year / 400));
    }
    if year % 100 == 0 {
      Mod4Repeats(0, 25 * (year / 100));
    }
  }

  lemma MonthsAddUp(year: int)
    ensures DaysBeforeMonth(year, 12) + 31 == if IsLeap(year) then 366 else 365
  {
    hide IsLeap;
    var leap := if IsLeap(year) then 1 else 0;
    assert DaysBeforeMonth(year, 3) == 59 + leap by {
      assert DaysBeforeMonth(year, 2) == 31;
    }
    assert DaysBeforeMonth(year, 5) == 120 + leap;
    assert DaysBeforeMonth(year, 7) == 181 + leap;
    assert DaysBeforeMonth(year, 9) == 243 + leap;
    assert DaysBeforeMonth(year, 11) == 304 + leap;
  }

  lemma YearsFloor(year: int)
    ensures year / 4 == (year - 1) / 4 + if year % 4 == 0 then 1 else 0
    ensures year / 100 == (year - 1) / 100 + if year % 100 == 0 then 1 else 0
    ensures year / 400 == (year - 1) / 400 + if year % 400 == 0 then 1 else 0
  {
  }

  lemma NextCounts(d: Date)
    requires IsDate(d)
    ensures IsDate(Next(d)) && DayNumber(Next(d)) == DayNumber(d) + 1
  {
    hide DaysBeforeYear;
    if d.day == DaysInMonth(d.year, d.month) && d.month == 12 {
      YearHasItsDays(d.year);
    }
  }

  /** Counting the days to the date of a day gives the day again. */
  lemma {:induction false} DayNumberInverts(n: int)
    ensures IsDate(CivilFromDays(n)) && DayNumber(CivilFromDays(n)) == n
    decreases if n < 0 then -n else n
  {
    hide CivilFromDays, DayNumber, Next;
    if n == 0 {
      DayZero();
      YearOne();
    } else if n > 0 {
      DayNumberInverts(n - 1);
      DatesFollow(n - 1);
      NextCounts(CivilFromDays(n - 1));
    } else {
      DayNumberInverts(n + 1);
      DatesFollow(n);
      NextCounts(CivilFromDays(n));
    }
  }

  lemma YearOne()
    ensures DayNumber(Date(1970, 1, 1)) == 0
  {
  }

  lemma {:induction false} YearsRise(a: int, b: int)
    requires a < b
    ensures DaysBeforeYear(a + 1) <= DaysBeforeYear(b)
    decreases b - a
  {
    hide DaysBeforeYear;
    if a + 1 < b {
      YearsRise(a, b - 1);
      YearHasItsDays(b - 1);
    }
  }

  lemma {:induction false} MonthsRise(year: int, a: int, b: int)
    requires 1 <= a < b
    ensures DaysBeforeMonth(year, a) + DaysInMonth(year, a) <= DaysBeforeMonth(year, b)
    decreases b - a
  {
    if a + 1 < b {
      MonthsRise(year, a, b - 1);
    }
  }

  /** A date lies within its year. */
  lemma WithinYear(d: Date)
    requires IsDate(d)
    ensures 0 <= DaysBeforeMonth(d.year, d.month) + d.day - 1
    ensures DaysBeforeYear(d.year) + DaysBeforeMonth(d.year, d.month) + d.day <= DaysBeforeYear(d.year + 1)
  {
    hide DaysBeforeYear;
    YearHasItsDays(d.year);
    if d.month > 1 {
      MonthsRise(d.year, 1, d.month);
    }
    if d.month < 12 {
      MonthsRise(d.year, d.month, 12);
    }
  }

  /** Later dates have higher numbers, so that no two dates share one. */
  lemma DayNumberIsOrder(d: Date, e: Date)
    requires IsDate(d) && IsDate(e)
    requires d.year < e.year || (d.year == e.year && (d.month < e.month || (d.month == e.month && d.day < e.day)))
    ensures DayNumber(d) < DayNumber(e)
  {
    hide DaysBeforeYear, DaysBeforeMonth;
    WithinYear(d);
    WithinYear(e);
    if d.year < e.year {
      YearsRise(d.year, e.year);
    } else if d.month < e.month {
      MonthsRise(d.year, d.month, e.month);
    }
  }

  /** Every date of the calendar is the date of its day: the two conversions are
      inverse to each other. */
  lemma CivilInverts(d: Date)
    requires IsDate(d)
    ensures CivilFromDays(DayNumber(d)) == d
  {
    hide CivilFromDays, DayNumber, IsDate;
    var e := CivilFromDays(DayNumber(d));
    DayNumberInverts(DayNumber(d));
    if e != d {
      if e.year < d.year || (e.year == d.year && (e.month < d.month || (e.month == d.month && e.day < d.day))) {
        DayNumberIsOrder(e, d);
      } else {
        DayNumberIsOrder(d, e);
      }
    }
  }

  /** Weekdays go round; the first day was a Thursday. */
  lemma WeekdaysFollow(n: int)
    ensures 0 <= WeekdayFromDays(n) < 7 && WeekdayFromDays(n + 1) == (WeekdayFromDays(n) + 1) % 7 && WeekdayFromDays(0) == 4
  {
    hide WeekdayFromDays;
    WeekdayIs(n);
    WeekdayIs(n + 1);
    WeekdayIs(0);
  }

  /** The correction for negative remainders makes the days go round evenly. */
  lemma WeekdayIs(n: int)
    ensures WeekdayFromDays(n) == (n + 4) % 7
  {
  }
}
