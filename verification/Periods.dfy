/** Days, ISO weeks, months and years as canonical periods addressed by their keys. */
module Periods {
  import opened Options
  import opened Text
  import opened Decimals
  import opened Calendar

  datatype Kind = Day | Week | Month | Year

  datatype Period = Period(kind: Kind, key: string)

  // ---------- keys ----------

  function DayKey(d: Date): string {
    Digits(d.year, 4) + "-" + Digits(d.month, 2) + "-" + Digits(d.day, 2)
  }

  function WeekKey(w: IsoDate): string {
    Digits(w.year, 4) + "-W" + Digits(w.week, 2)
  }

  function MonthKey(y: int, m: int): string {
    Digits(y, 4) + "-" + Digits(m, 2)
  }

  function FormatKey(kind: Kind, d: Date): string
    requires Valid(d)
  {
    match kind
    case Day => DayKey(d)
    case Week => WeekKey(IsoCalendar(d))
    case Month => MonthKey(d.year, d.month)
    case Year => Digits(d.year, 4)
  }

  function ValidOnly(d: Date): Option<Date> {
    if Valid(d) then Some(d) else None
  }

  // The first date of the period a key names. Spellings of a number other than plain digits
  // are rejected here; the constructor rejects them by formatting the date back.
  function ParseKey(kind: Kind, key: string): Option<Date> {
    match kind
    case Day =>
      if |key| == 10 && key[4] == '-' && key[7] == '-' && AllDigits(key[..4]) && AllDigits(key[5..7])
        && AllDigits(key[8..])
      then ValidOnly(Date(Value(key[..4]), Value(key[5..7]), Value(key[8..]))) else None
    case Week =>
      if |key| == 8 && key[4..6] == "-W" && AllDigits(key[..4]) && AllDigits(key[6..]) then
        var w := IsoDate(Value(key[..4]), Value(key[6..]));
        if IsoWeekExists(w) then IsoMondayInRange(w); Some(FromOrdinal(IsoMonday(w))) else None
      else None
    case Month =>
      if |key| == 7 && key[4] == '-' && AllDigits(key[..4]) && AllDigits(key[5..])
      then ValidOnly(Date(Value(key[..4]), Value(key[5..]), 1)) else None
    case Year =>
      if AllDigits(key) then ValidOnly(Date(Value(key), 1, 1)) else None
  }

  // What the constructor accepts: a key that parses and formats back to itself.
  predicate IsPeriod(p: Period) {
    ParseKey(p.kind, p.key).Some? && FormatKey(p.kind, ParsedValid(p.kind, p.key)) == p.key
  }

  function ParsedValid(kind: Kind, key: string): (d: Date)
    requires ParseKey(kind, key).Some?
    ensures Valid(d)
  {
    ParseKey(kind, key).value
  }

  function Make(kind: Kind, key: string): Option<Period> {
    if IsPeriod(Period(kind, key)) then Some(Period(kind, key)) else None
  }

  function Start(p: Period): (d: Date)
    requires IsPeriod(p)
    ensures Valid(d)
  {
    ParsedValid(p.kind, p.key)
  }

  function Containing(d: Date, kind: Kind): Period
    requires Valid(d)
  {
    Period(kind, FormatKey(kind, d))
  }

  function ParsePeriodKey(key: string): Option<Period> {
    if |key| == 10 then Make(Day, key)
    else if |key| == 8 && key[4..6] == "-W" then Make(Week, key)
    else if |key| == 7 then Make(Month, key)
    else if |key| == 4 then Make(Year, key)
    else None
  }

  // Date arithmetic past either end of the calendar raises.
  function Shift(d: Date, days: int): Option<Date>
    requires Valid(d)
  {
    var n := ToOrdinal(d) + days;
    if 1 <= n <= MAX_ORDINAL then Some(FromOrdinal(n)) else None
  }

  function NextStart(kind: Kind, start: Date): (e: Option<Date>)
    requires Valid(start)
    ensures e.Some? ==> Valid(e.value)
  {
    match kind
    case Day => Shift(start, 1)
    case Week => Shift(start, 7)
    case Month =>
      var (y, m) := if start.month == 12 then (start.year + 1, 1) else (start.year, start.month + 1);
      if y > MAX_YEAR then None else Some(Date(y, m, 1))
    case Year =>
      if start.year + 1 > MAX_YEAR then None else Some(Date(start.year + 1, 1, 1))
  }

  function PrevStart(kind: Kind, start: Date): (e: Option<Date>)
    requires Valid(start)
    ensures e.Some? ==> Valid(e.value)
  {
    match kind
    case Day => Shift(start, -1)
    case Week => Shift(start, -7)
    case Month =>
      var (y, m) := if start.month == 1 then (start.year - 1, 12) else (start.year, start.month - 1);
      if y < MIN_YEAR then None else Some(Date(y, m, 1))
    case Year =>
      if start.year - 1 < MIN_YEAR then None else Some(Date(start.year - 1, 1, 1))
  }

  function ContainingIf(d: Option<Date>, kind: Kind): Option<Period>
    requires d.Some? ==> Valid(d.value)
  {
    match d case Some(e) => Some(Containing(e, kind)) case None => None
  }

  function Next(p: Period): Option<Period>
    requires IsPeriod(p)
  {
    ContainingIf(NextStart(p.kind, Start(p)), p.kind)
  }

  function Prev(p: Period): Option<Period>
    requires IsPeriod(p)
  {
    ContainingIf(PrevStart(p.kind, Start(p)), p.kind)
  }

  // The calendar month holding an ISO week's Thursday.
  function MonthOfWeek(w: Period): Option<Period>
    requires IsPeriod(w)
  {
    if w.kind != Week then None else ContainingIf(Shift(Start(w), 3), Month)
  }

  // ---------- numbering ----------

  // Periods of one kind are numbered consecutively through the calendar.
  function Number(kind: Kind, d: Date): int
    requires Valid(d)
  {
    match kind
    case Day => ToOrdinal(d)
    case Week => WeekIndex(ToOrdinal(d))
    case Month => 12 * d.year + d.month
    case Year => d.year
  }

  function FirstDate(kind: Kind, d: Date): (f: Date)
    requires Valid(d)
    ensures Valid(f)
  {
    match kind
    case Day => d
    case Week => OrdinalInYear(d); FromOrdinal(Monday(ToOrdinal(d)))
    case Month => Date(d.year, d.month, 1)
    case Year => Date(d.year, 1, 1)
  }

  lemma {:induction false} IsoYearsIncrease(a: int, b: int)
    requires a < b
    ensures IsoWeek1Monday(a) + 364 <= IsoWeek1Monday(b)
    decreases b - a
  {
    IsoYearStep(b - 1);
    if a < b - 1 {
      IsoYearsIncrease(a, b - 1);
    }
  }

  lemma IsoYearStep(y: int)
    ensures IsoWeek1Monday(y) + 364 <= IsoWeek1Monday(y + 1)
  {
    NextYear(y);
    var j := FirstWeek(y);
    var k := FirstWeek(y + 1);
    AtLeast52Weeks(DaysBeforeYear(y), YearLength(y), j, k);
  }

  lemma AtLeast52Weeks(d: int, length: int, j: int, k: int)
    requires length >= 365 && d - 2 <= 7 * j + 1 <= d + 4 && d + length - 2 <= 7 * k + 1
    ensures 7 * j + 364 <= 7 * k
  {
  }

  lemma EndMondays(last: int)
    requires last == MAX_ORDINAL
    ensures FirstMonday(0) == 1 && FirstMonday(last) > last
  {
  }

  lemma IsoEnds()
    ensures IsoWeek1Monday(1) == 1 && IsoWeek1Monday(10000) > MAX_ORDINAL
  {
    LastOrdinal();
    EndMondays(MAX_ORDINAL);
  }

  lemma IsoYearInRange(y: int, n: int)
    requires 1 <= n <= MAX_ORDINAL && IsoWeek1Monday(y) <= n < IsoWeek1Monday(y + 1)
    ensures MIN_YEAR <= y <= MAX_YEAR
  {
    IsoEnds();
    if y + 1 < 1 {
      IsoYearsIncrease(y + 1, 1);
    }
    if y > 10000 {
      IsoYearsIncrease(10000, y);
    }
  }

  // A year has at most 53 ISO weeks.
  lemma IsoYearLength(y: int)
    ensures IsoWeek1Monday(y + 1) <= IsoWeek1Monday(y) + 371
  {
    NextYear(y);
    var j := FirstWeek(y);
    var k := FirstWeek(y + 1);
    AtMost53Weeks(DaysBeforeYear(y), YearLength(y), j, k);
  }

  lemma AtMost53Weeks(d: int, length: int, j: int, k: int)
    requires length <= 366 && d - 2 <= 7 * j + 1 && 7 * k + 1 <= d + length + 4
    ensures 7 * k <= 7 * j + 371
  {
  }

  // ISO dates of the calendar's days have four-digit years and two-digit weeks.
  lemma IsoInRange(d: Date)
    requires Valid(d)
    ensures IsoWeekExists(IsoCalendar(d)) && IsoCalendar(d).week <= 53
  {
    IsoCalendarIsWeekOf(d);
    OrdinalInYear(d);
    IsoDateInRange(IsoCalendar(d), ToOrdinal(d));
  }

  lemma IsoDateInRange(w: IsoDate, n: int)
    requires NamesWeek(w, n) && 1 <= n <= MAX_ORDINAL
    ensures IsoWeekExists(w) && w.week <= 53
  {
    IsoYearInRange(w.year, n);
    IsoYearLength(w.year);
    MondayBounds(n);
  }

  lemma SameIsoDate(a: Date, b: Date)
    requires Valid(a) && Valid(b)
    ensures IsoCalendar(a) == IsoCalendar(b) <==> WeekIndex(ToOrdinal(a)) == WeekIndex(ToOrdinal(b))
    ensures var v, w := IsoCalendar(a), IsoCalendar(b);
            (v.year < w.year || (v.year == w.year && v.week < w.week))
            <==> WeekIndex(ToOrdinal(a)) < WeekIndex(ToOrdinal(b))
  {
    var v, w := IsoCalendar(a), IsoCalendar(b);
    IsoCalendarIsWeekOf(a);
    IsoCalendarIsWeekOf(b);
    if v.year < w.year {
      IsoYearBefore(a, b);
    } else if w.year < v.year {
      IsoYearBefore(b, a);
    }
  }

  lemma IsoYearBefore(a: Date, b: Date)
    requires Valid(a) && Valid(b) && IsoCalendar(a).year < IsoCalendar(b).year
    ensures WeekIndex(ToOrdinal(a)) < WeekIndex(ToOrdinal(b))
  {
    IsoCalendarIsWeekOf(a);
    IsoCalendarIsWeekOf(b);
    EarlierIsoYear(IsoCalendar(a), IsoCalendar(b), ToOrdinal(a), ToOrdinal(b));
  }

  lemma EarlierIsoYear(v: IsoDate, w: IsoDate, m: int, n: int)
    requires NamesWeek(v, m) && NamesWeek(w, n) && v.year < w.year
    ensures WeekIndex(m) < WeekIndex(n)
  {
    if v.year + 1 < w.year {
      IsoYearsIncrease(v.year + 1, w.year);
    }
    var k := FirstWeek(w.year);
    WeekBoundary(m, n, k);
  }

  lemma WeekBoundary(m: int, n: int, k: int)
    requires m < 7 * k + 1 <= n
    ensures WeekIndex(m) < WeekIndex(n)
  {
  }
}
