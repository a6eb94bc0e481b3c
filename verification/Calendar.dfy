/** The proleptic Gregorian calendar and ISO weeks, as the date type implements them. */
module Calendar {
  datatype Date = Date(year: int, month: int, day: int)

  const MIN_YEAR := 1
  const MAX_YEAR := 9999

  predicate IsLeap(y: int) {
    y % 4 == 0 && (y % 100 != 0 || y % 400 == 0)
  }

  function YearLength(y: int): int {
    if IsLeap(y) then 366 else 365
  }

  function DaysInMonth(y: int, m: int): int {
    if m == 2 then (if IsLeap(y) then 29 else 28) else if m == 4 || m == 6 || m == 9 || m == 11 then 30 else 31
  }

  function DaysBeforeMonth(y: int, m: int): int
    requires 1 <= m <= 13
  {
    if m == 1 then 0 else DaysBeforeMonth(y, m - 1) + DaysInMonth(y, m - 1)
  }

  function DaysBeforeYear(y: int): int
    decreases if y >= 1 then y - 1 else 1 - y
  {
    if y == 1 then 0
    else if y > 1 then DaysBeforeYear(y - 1) + YearLength(y - 1)
    else DaysBeforeYear(y + 1) - YearLength(y)
  }

  predicate Valid(d: Date) {
    MIN_YEAR <= d.year <= MAX_YEAR && 1 <= d.month <= 12 && 1 <= d.day <= DaysInMonth(d.year, d.month)
  }

  function ToOrdinal(d: Date): int
    requires 1 <= d.month <= 12
  {
    DaysBeforeYear(d.year) + DaysBeforeMonth(d.year, d.month) + d.day
  }

  const MAX_ORDINAL := 3652059

  // ---------- years and months tile the days ----------

  lemma NextYear(y: int)
    ensures DaysBeforeYear(y + 1) == DaysBeforeYear(y) + YearLength(y)
  {
    if y >= 1 {
      assert DaysBeforeYear(y + 1) == DaysBeforeYear((y + 1) - 1) + YearLength((y + 1) - 1);
    }
  }

  /** Counting the years' lengths is the leap-year formula. */
  lemma {:induction false} LeapYearFormula(y: int)
    requires y >= 1
    ensures DaysBeforeYear(y) == 365 * (y - 1) + (y - 1) / 4 - (y - 1) / 100 + (y - 1) / 400
    decreases y
  {
    if y > 1 {
      LeapYearFormula(y - 1);
      CarryOver(y - 1, 4);
      CarryOver(y - 1, 100);
      CarryOver(y - 1, 400);
      LeapDay(y - 1);
    }
  }

  lemma CarryOver(n: int, k: int)
    requires n >= 0 && (k == 4 || k == 100 || k == 400)
    ensures n / k == (n - 1) / k + (if n % k == 0 then 1 else 0)
  {
  }

  lemma LeapDay(y: int)
    ensures YearLength(y) == 365 + (if y % 4 == 0 then 1 else 0) - (if y % 100 == 0 then 1 else 0)
      + (if y % 400 == 0 then 1 else 0)
  {
    if y % 400 == 0 {
      DividedBy400(y, y / 400);
    }
    if y % 100 == 0 {
      DividedBy100(y, y / 100);
    }
  }

  lemma DividedBy400(y: int, q: int)
    requires y == 400 * q
    ensures y % 100 == 0
  {
  }

  lemma DividedBy100(y: int, q: int)
    requires y == 100 * q
    ensures y % 4 == 0
  {
  }

  lemma LastOrdinal()
    ensures DaysBeforeYear(10000) == MAX_ORDINAL
  {
    LeapYearFormula(10000);
  }

  lemma {:induction false} YearsIncrease(a: int, b: int)
    requires a < b
    ensures DaysBeforeYear(a) + YearLength(a) <= DaysBeforeYear(b)
    decreases b - a
  {
    NextYear(b - 1);
    if a < b - 1 {
      YearsIncrease(a, b - 1);
    } else {
      NextYear(a);
    }
  }

  lemma YearHasTwelveMonths(y: int)
    ensures DaysBeforeMonth(y, 13) == YearLength(y)
  {
    assert DaysBeforeMonth(y, 3) == DaysBeforeMonth(y, 2) + DaysInMonth(y, 2);
    assert DaysBeforeMonth(y, 5) == DaysBeforeMonth(y, 3) + 61;
    assert DaysBeforeMonth(y, 7) == DaysBeforeMonth(y, 5) + 61;
    assert DaysBeforeMonth(y, 9) == DaysBeforeMonth(y, 7) + 62;
    assert DaysBeforeMonth(y, 11) == DaysBeforeMonth(y, 9) + 61;
  }

  /** Counting the months' lengths is the formula that takes 153 days for every five months from March. */
  lemma MonthFormula(y: int, m: int)
    requires 1 <= m <= 13
    ensures DaysBeforeMonth(y, m) ==
            if m <= 2 then 31 * (m - 1) else (if IsLeap(y) then 60 else 59) + (153 * (m - 3) + 2) / 5
  {
    assert DaysBeforeMonth(y, 3) == DaysBeforeMonth(y, 2) + DaysInMonth(y, 2);
    assert DaysBeforeMonth(y, 5) == DaysBeforeMonth(y, 3) + 61;
    assert DaysBeforeMonth(y, 7) == DaysBeforeMonth(y, 5) + 61;
    assert DaysBeforeMonth(y, 9) == DaysBeforeMonth(y, 7) + 62;
    assert DaysBeforeMonth(y, 11) == DaysBeforeMonth(y, 9) + 61;
  }

  lemma {:induction false} MonthsIncrease(y: int, a: int, b: int)
    requires 1 <= a < b <= 13
    ensures DaysBeforeMonth(y, a) + DaysInMonth(y, a) <= DaysBeforeMonth(y, b)
    decreases b - a
  {
    if a < b - 1 {
      MonthsIncrease(y, a, b - 1);
    }
  }

  lemma {:induction false} MonthsNonNegative(y: int, m: int)
    requires 1 <= m <= 13
    ensures DaysBeforeMonth(y, m) >= 0
    decreases m
  {
    if m > 1 {
      MonthsNonNegative(y, m - 1);
    }
  }

  lemma OrdinalInYear(d: Date)
    requires Valid(d)
    ensures DaysBeforeYear(d.year) < ToOrdinal(d) <= DaysBeforeYear(d.year) + YearLength(d.year)
    ensures 1 <= ToOrdinal(d) <= MAX_ORDINAL
  {
    MonthsNonNegative(d.year, d.month);
    MonthsIncrease(d.year, d.month, 13);
    YearHasTwelveMonths(d.year);
    YearsIncrease(d.year, 10000);
    LastOrdinal();
    if d.year > 1 {
      YearsIncrease(1, d.year);
    }
  }

  predicate Earlier(a: Date, b: Date) {
    a.year < b.year || (a.year == b.year && (a.month < b.month || (a.month == b.month && a.day < b.day)))
  }

  /** Ordinals order dates as the calendar does. */
  lemma OrdinalOrder(a: Date, b: Date)
    requires Valid(a) && Valid(b)
    ensures Earlier(a, b) <==> ToOrdinal(a) < ToOrdinal(b)
    ensures a == b <==> ToOrdinal(a) == ToOrdinal(b)
  {
    if Earlier(a, b) {
      EarlierOrdinal(a, b);
    } else if Earlier(b, a) {
      EarlierOrdinal(b, a);
    }
  }

  lemma EarlierOrdinal(a: Date, b: Date)
    requires Valid(a) && Valid(b) && Earlier(a, b)
    ensures ToOrdinal(a) < ToOrdinal(b)
  {
    if a.year < b.year {
      OrdinalInYear(a);
      OrdinalInYear(b);
      YearsIncrease(a.year, b.year);
    } else if a.month < b.month {
      MonthsIncrease(a.year, a.month, b.month);
    }
  }

  // ---------- back from ordinals ----------

  function Tomorrow(d: Date): Date {
    if d.day < DaysInMonth(d.year, d.month) then Date(d.year, d.month, d.day + 1)
    else if d.month < 12 then Date(d.year, d.month + 1, 1)
    else Date(d.year + 1, 1, 1)
  }

  lemma TomorrowIsNext(d: Date)
    requires Valid(d) && ToOrdinal(d) < MAX_ORDINAL
    ensures Valid(Tomorrow(d)) && ToOrdinal(Tomorrow(d)) == ToOrdinal(d) + 1
  {
    if d.day == DaysInMonth(d.year, d.month) && d.month == 12 {
      YearHasTwelveMonths(d.year);
      NextYear(d.year);
      if d.year == 9999 {
        LastOrdinal();
      }
    }
  }

  // The n-th day of the calendar.
  function FromOrdinal(n: int): (d: Date)
    requires 1 <= n <= MAX_ORDINAL
    ensures Valid(d) && ToOrdinal(d) == n
    decreases n
  {
    if n == 1 then Date(1, 1, 1)
    else
      TomorrowIsNext(FromOrdinal(n - 1));
      Tomorrow(FromOrdinal(n - 1))
  }

  // ---------- ISO weeks ----------

  // Day 1 of the calendar is a Monday, so weeks are the sevens after it.
  function WeekIndex(n: int): int {
    (n - 1) / 7
  }

  function Monday(n: int): int {
    7 * WeekIndex(n) + 1
  }

  function IsoWeek1Monday(y: int): int {
    FirstMonday(DaysBeforeYear(y))
  }

  // The Monday of ISO week 1 of a year that begins after so many days.
  function FirstMonday(before: int): int {
    var firstDay := before + 1;
    var firstWeekday := (firstDay + 6) % 7;
    var monday := firstDay - firstWeekday;
    if firstWeekday > 3 then monday + 7 else monday
  }

  datatype IsoDate = IsoDate(year: int, week: int)

  function IsoCalendar(d: Date): IsoDate
    requires 1 <= d.month <= 12
  {
    IsoOf(d.year, ToOrdinal(d))
  }

  function IsoOf(year: int, today: int): IsoDate {
    var week := (today - IsoWeek1Monday(year)) / 7;
    if week < 0 then
      IsoDate(year - 1, (today - IsoWeek1Monday(year - 1)) / 7 + 1)
    else if week >= 52 && today >= IsoWeek1Monday(year + 1) then
      IsoDate(year + 1, 1)
    else
      IsoDate(year, week + 1)
  }

  function IsoMonday(w: IsoDate): int {
    IsoWeek1Monday(w.year) + 7 * (w.week - 1)
  }

  // The ISO year has that week: the next one has not begun by its Monday.
  predicate IsoWeekExists(w: IsoDate) {
    MIN_YEAR <= w.year <= MAX_YEAR && 1 <= w.week && IsoMonday(w) < IsoWeek1Monday(w.year + 1)
  }

  // Which week index the first ISO week of a year has.
  lemma FirstWeek(y: int) returns (k: int)
    ensures IsoWeek1Monday(y) == 7 * k + 1
    ensures DaysBeforeYear(y) - 2 <= IsoWeek1Monday(y) <= DaysBeforeYear(y) + 4
  {
    var n := DaysBeforeYear(y) + 7;
    k := n / 7 - 1;
    assert n == 7 * (n / 7) + n % 7;
    if n % 7 > 3 {
      k := k + 1;
    }
  }

  lemma WeekOf(n: int, k: int, first: int)
    requires first == 7 * k + 1
    ensures (n - first) / 7 == WeekIndex(n) - k
  {
    assert n - first == (n - 1) - 7 * k;
    assert (n - 1) == 7 * ((n - 1) / 7) + (n - 1) % 7;
  }

  // The ISO date names the week that holds day n, in the ISO year that has begun by then.
  predicate NamesWeek(w: IsoDate, n: int) {
    IsoMonday(w) == Monday(n) && w.week >= 1 && IsoWeek1Monday(w.year) <= n < IsoWeek1Monday(w.year + 1)
  }

  lemma IsoOfIsWeekOf(y: int, n: int)
    requires DaysBeforeYear(y) < n <= DaysBeforeYear(y) + YearLength(y)
    ensures NamesWeek(IsoOf(y, n), n)
  {
    NextYear(y - 1);
    NextYear(y);
    NextYear(y + 1);
    var k0 := FirstWeek(y - 1);
    var k1 := FirstWeek(y);
    var k2 := FirstWeek(y + 1);
    var k3 := FirstWeek(y + 2);
    IsoCases(DaysBeforeYear(y), YearLength(y - 1), YearLength(y), YearLength(y + 1), n, k0, k1, k2, k3);
    if n < 7 * k1 + 1 {
      IsoOfBefore(y, n, k0, k1);
    } else if n >= 7 * k2 + 1 {
      IsoOfAfter(y, n, k1, k2, k3);
    } else {
      IsoOfWithin(y, n, k1, k2);
    }
  }

  lemma IsoOfBefore(y: int, n: int, k0: int, k1: int)
    requires IsoWeek1Monday(y - 1) == 7 * k0 + 1 && IsoWeek1Monday(y) == 7 * k1 + 1
    requires k0 <= WeekIndex(n) < k1 && n < 7 * k1 + 1
    ensures NamesWeek(IsoOf(y, n), n)
  {
    WeekOf(n, k0, IsoWeek1Monday(y - 1));
    WeekOf(n, k1, IsoWeek1Monday(y));
    MondayBounds(n);
    assert IsoOf(y, n) == IsoDate(y - 1, WeekIndex(n) - k0 + 1);
  }

  lemma IsoOfAfter(y: int, n: int, k1: int, k2: int, k3: int)
    requires IsoWeek1Monday(y) == 7 * k1 + 1 && IsoWeek1Monday(y + 1) == 7 * k2 + 1
      && IsoWeek1Monday(y + 2) == 7 * k3 + 1
    requires n >= 7 * k2 + 1 && WeekIndex(n) == k2 && WeekIndex(n) - k1 >= 52 && n < 7 * k3 + 1
    ensures NamesWeek(IsoOf(y, n), n)
  {
    WeekOf(n, k1, IsoWeek1Monday(y));
    assert IsoOf(y, n) == IsoDate(y + 1, 1);
  }

  lemma IsoOfWithin(y: int, n: int, k1: int, k2: int)
    requires IsoWeek1Monday(y) == 7 * k1 + 1 && IsoWeek1Monday(y + 1) == 7 * k2 + 1
    requires WeekIndex(n) >= k1 && n >= 7 * k1 + 1 && n < 7 * k2 + 1
    ensures NamesWeek(IsoOf(y, n), n)
  {
    WeekOf(n, k1, IsoWeek1Monday(y));
    assert IsoOf(y, n) == IsoDate(y, WeekIndex(n) - k1 + 1);
  }

  lemma MondayBounds(n: int)
    ensures Monday(n) <= n < Monday(n) + 7
  {
    assert n - 1 == 7 * WeekIndex(n) + (n - 1) % 7;
  }

  // The three cases of the ISO year, as plain arithmetic on week indices.
  lemma IsoCases(d: int, before: int, len: int, after: int, n: int, k0: int, k1: int, k2: int, k3: int)
    requires 365 <= before <= 366 && 365 <= len <= 366 && 365 <= after <= 366
    requires d < n <= d + len
    requires d - before - 2 <= 7 * k0 + 1 <= d - before + 4
    requires d - 2 <= 7 * k1 + 1 <= d + 4
    requires d + len - 2 <= 7 * k2 + 1 <= d + len + 4
    requires d + len + after - 2 <= 7 * k3 + 1 <= d + len + after + 4
    ensures WeekIndex(n) < k1 ==> k0 <= WeekIndex(n)
    ensures WeekIndex(n) < k1 <==> n < 7 * k1 + 1
    ensures WeekIndex(n) >= k2 <==> n >= 7 * k2 + 1
    ensures n >= 7 * k2 + 1 ==> WeekIndex(n) == k2 && WeekIndex(n) - k1 >= 52 && n < 7 * k3 + 1
    ensures k1 < k2
  {
    assert n - 1 == 7 * WeekIndex(n) + (n - 1) % 7;
  }

  /** The ISO date of a day names the week it lies in, in the ISO year that has begun by then. */
  lemma IsoCalendarIsWeekOf(d: Date)
    requires Valid(d)
    ensures NamesWeek(IsoCalendar(d), ToOrdinal(d))
  {
    OrdinalInYear(d);
    IsoOfIsWeekOf(d.year, ToOrdinal(d));
  }

  /** The year of an ISO date is the Gregorian year of that week's Thursday. */
  lemma IsoYearIsThursdays(w: IsoDate)
    requires IsoWeekExists(w)
    ensures DaysBeforeYear(w.year) < IsoMonday(w) + 3 <= DaysBeforeYear(w.year + 1)
  {
    var k := FirstWeek(w.year);
    var k' := FirstWeek(w.year + 1);
    assert k + w.week - 1 < k';
  }

  /** An anchor of the calendar: 1 January 1970 was the Thursday of the first week of that year. */
  lemma KnownThursday(d: Date)
    requires d == Date(1970, 1, 1)
    ensures ToOrdinal(d) == 719163 == Monday(719163) + 3 && IsoCalendar(d) == IsoDate(1970, 1)
  {
    LeapYearFormula(d.year);
  }

  /** Another: 1 January 2005 was the Saturday of the last of 53 weeks of 2004. */
  lemma KnownSaturday(d: Date)
    requires d == Date(2005, 1, 1)
    ensures ToOrdinal(d) == 731947 == Monday(731947) + 5 && IsoCalendar(d) == IsoDate(2004, 53)
  {
    LeapYearFormula(d.year);
    LeapYearFormula(d.year - 1);
  }

  // The years of the calendar begin within its days.
  lemma YearBounds(y: int)
    requires MIN_YEAR <= y <= MAX_YEAR
    ensures 0 <= DaysBeforeYear(y) && DaysBeforeYear(y + 1) <= MAX_ORDINAL
  {
    LastOrdinal();
    if y + 1 < 10000 {
      YearsIncrease(y + 1, 10000);
    }
    if y > 1 {
      YearsIncrease(1, y);
    }
  }

  lemma FirstMondayBounds(before: int)
    requires before >= 0
    ensures before == 0 || before >= 4 ==> FirstMonday(before) >= 1
  {
  }

  lemma MondayOfMonday(n: int, k: int)
    requires n == 7 * k + 1
    ensures Monday(n) == n
  {
  }

  lemma IsoMondayInRange(w: IsoDate)
    requires IsoWeekExists(w)
    ensures 1 <= IsoMonday(w) && IsoMonday(w) + 3 <= MAX_ORDINAL
    ensures Monday(IsoMonday(w)) == IsoMonday(w)
  {
    IsoYearIsThursdays(w);
    YearBounds(w.year);
    var k := FirstWeek(w.year);
    MondayOfMonday(IsoMonday(w), k + w.week - 1);
    if w.year > 1 {
      YearsIncrease(1, w.year);
    }
    FirstMondayBounds(DaysBeforeYear(w.year));
  }
}
