/** The laws of periods: round trips, tiling, order, and the ISO year rule. */
module PeriodLaws {
  import opened Options
  import opened Text
  import opened Decimals
  import opened Calendar
  import opened Periods

  // ---------- keys parse back ----------

  lemma PairRoundTrip(y: int, sep: string, m: int, key: string)
    requires 0 <= y < 10000 && 0 <= m < 100 && key == Digits(y, 4) + sep + Digits(m, 2)
    ensures key[..4] == Digits(y, 4) && key[4..4 + |sep|] == sep && key[4 + |sep|..] == Digits(m, 2)
    ensures Value(key[..4]) == y && Value(key[4 + |sep|..]) == m
  {
    PowersOfTen();
    ValueOfDigits(y, 4);
    ValueOfDigits(m, 2);
  }

  lemma DayKeyParses(d: Date)
    requires Valid(d)
    ensures ParseKey(Day, DayKey(d)) == Some(d)
  {
    PowersOfTen();
    ValueOfDigits(d.year, 4);
    ValueOfDigits(d.month, 2);
    ValueOfDigits(d.day, 2);
    var key := DayKey(d);
    assert key[..4] == Digits(d.year, 4) && key[5..7] == Digits(d.month, 2) && key[8..] == Digits(d.day, 2);
  }

  lemma WeekKeyParses(w: IsoDate)
    requires IsoWeekExists(w) && w.week < 100
    ensures ParseKey(Week, WeekKey(w)).Some?
    ensures ToOrdinal(ParsedValid(Week, WeekKey(w))) == IsoMonday(w)
  {
    PairRoundTrip(w.year, "-W", w.week, WeekKey(w));
    IsoMondayInRange(w);
  }

  lemma MonthKeyParses(y: int, m: int)
    requires Valid(Date(y, m, 1))
    ensures ParseKey(Month, MonthKey(y, m)) == Some(Date(y, m, 1))
  {
    PairRoundTrip(y, "-", m, MonthKey(y, m));
    assert MonthKey(y, m)[4] == '-';
  }

  lemma YearKeyParses(y: int)
    requires 1 <= y <= 9999
    ensures ParseKey(Year, Digits(y, 4)) == Some(Date(y, 1, 1))
  {
    PowersOfTen();
    ValueOfDigits(y, 4);
  }

  /** A period's key names the period's first date. */
  lemma KeyNamesFirstDate(kind: Kind, d: Date)
    requires Valid(d)
    ensures ParseKey(kind, FormatKey(kind, d)) == Some(FirstDate(kind, d))
  {
    match kind
    case Day => DayKeyParses(d);
    case Week =>
      IsoInRange(d);
      IsoCalendarIsWeekOf(d);
      WeekKeyParses(IsoCalendar(d));
      OrdinalOrder(ParsedValid(Week, FormatKey(Week, d)), FirstDate(Week, d));
    case Month => MonthKeyParses(d.year, d.month);
    case Year => YearKeyParses(d.year);
  }

  // ---------- keys sort chronologically ----------

  lemma SharedPrefix(sep: string, t: string, u: string)
    ensures Before(sep + t, sep + u) <==> Before(t, u)
  {
    BeforeConcat(sep, sep, t, u);
    BeforeTotal(sep, sep);
  }

  lemma FieldsEqual(p: string, q: string, sep: string, t: string, u: string)
    requires |p| == |q|
    ensures p + sep + t == q + sep + u <==> p == q && t == u
  {
    var a, b := p + sep + t, q + sep + u;
    assert a[..|p|] == p && b[..|p|] == q && a[|p| + |sep|..] == t && b[|p| + |sep|..] == u;
  }

  // Two fields of fixed width with a separator compare field by field.
  lemma FieldOrder(p: string, q: string, sep: string, t: string, u: string, a: string, b: string)
    requires |p| == |q| && a == p + sep + t && b == q + sep + u
    ensures Before(a, b) <==> Before(p, q) || (p == q && Before(t, u))
    ensures a == b <==> p == q && t == u
  {
    FieldsEqual(p, q, sep, t, u);
    assert p + sep + t == p + (sep + t) && q + sep + u == q + (sep + u);
    BeforeConcat(p, q, sep + t, sep + u);
    SharedPrefix(sep, t, u);
  }

  lemma PairOrder(y: int, m: int, y': int, m': int, sep: string, a: string, b: string)
    requires 0 <= y < 10000 && 0 <= m < 100 && 0 <= y' < 10000 && 0 <= m' < 100
    requires a == Digits(y, 4) + sep + Digits(m, 2) && b == Digits(y', 4) + sep + Digits(m', 2)
    ensures Before(a, b) <==> y < y' || (y == y' && m < m')
    ensures a == b <==> y == y' && m == m'
  {
    PowersOfTen();
    PaddedOrder(y, y', 4);
    PaddedOrder(m, m', 2);
    FieldOrder(Digits(y, 4), Digits(y', 4), sep, Digits(m, 2), Digits(m', 2), a, b);
  }

  lemma DayOrder(a: Date, b: Date)
    requires Valid(a) && Valid(b)
    ensures Before(DayKey(a), DayKey(b)) <==> Earlier(a, b)
    ensures DayKey(a) == DayKey(b) <==> a == b
  {
    var p, q := MonthKey(a.year, a.month), MonthKey(b.year, b.month);
    PairOrder(a.year, a.month, b.year, b.month, "-", p, q);
    PowersOfTen();
    PaddedOrder(a.day, b.day, 2);
    FieldOrder(p, q, "-", Digits(a.day, 2), Digits(b.day, 2), DayKey(a), DayKey(b));
  }

  /** Within a kind, string order of keys is chronological order, and equal keys are one period. */
  lemma KeysSortChronologically(kind: Kind, a: Date, b: Date)
    requires Valid(a) && Valid(b)
    ensures Before(FormatKey(kind, a), FormatKey(kind, b)) <==> Number(kind, a) < Number(kind, b)
    ensures FormatKey(kind, a) == FormatKey(kind, b) <==> Number(kind, a) == Number(kind, b)
  {
    match kind
    case Day =>
      DayOrder(a, b);
      OrdinalOrder(a, b);
    case Week =>
      IsoInRange(a);
      IsoInRange(b);
      SameIsoDate(a, b);
      var v, w := IsoCalendar(a), IsoCalendar(b);
      PairOrder(v.year, v.week, w.year, w.week, "-W", WeekKey(v), WeekKey(w));
    case Month => PairOrder(a.year, a.month, b.year, b.month, "-", MonthKey(a.year, a.month),
        MonthKey(b.year, b.month));
    case Year =>
      PowersOfTen();
      PaddedOrder(a.year, b.year, 4);
  }

  // ---------- periods tile the calendar ----------

  /** The first date of a period is the least date with its number. */
  lemma FirstIsLeast(kind: Kind, d: Date, e: Date)
    requires Valid(d) && Valid(e)
    ensures ToOrdinal(FirstDate(kind, d)) <= ToOrdinal(e) <==> Number(kind, d) <= Number(kind, e)
  {
    var f := FirstDate(kind, d);
    match kind
    case Day =>
    case Week => OrdinalInYear(d);
    case Month => OrdinalOrder(f, e); OrdinalOrder(e, f);
    case Year => OrdinalOrder(f, e); OrdinalOrder(e, f);
  }

  lemma NumberOfFirst(kind: Kind, d: Date)
    requires Valid(d)
    ensures Number(kind, FirstDate(kind, d)) == Number(kind, d)
  {
    if kind == Week {
      OrdinalInYear(d);
      assert ToOrdinal(FirstDate(Week, d)) == Monday(ToOrdinal(d));
      WeekStep(1, WeekIndex(ToOrdinal(d)));
    }
  }

  lemma WeekStep(n: int, weeks: int)
    ensures WeekIndex(n + 7 * weeks) == WeekIndex(n) + weeks
  {
    assert n + 7 * weeks - 1 == (n - 1) + 7 * weeks;
  }

  /** The period containing a date is well formed, and starts at the period's first date. */
  lemma ContainingIsPeriod(d: Date, kind: Kind)
    requires Valid(d)
    ensures IsPeriod(Containing(d, kind)) && Start(Containing(d, kind)) == FirstDate(kind, d)
  {
    KeyNamesFirstDate(kind, d);
    NumberOfFirst(kind, d);
    KeysSortChronologically(kind, FirstDate(kind, d), d);
  }

  function NumberOf(p: Period): int
    requires IsPeriod(p)
  {
    Number(p.kind, Start(p))
  }

  lemma ContainingIff(d: Date, p: Period)
    requires Valid(d) && IsPeriod(p)
    ensures Containing(d, p.kind) == p <==> Number(p.kind, d) == NumberOf(p)
  {
    KeysSortChronologically(p.kind, d, Start(p));
  }

  lemma StartIsFirst(p: Period)
    requires IsPeriod(p)
    ensures FirstDate(p.kind, Start(p)) == Start(p)
  {
    KeyNamesFirstDate(p.kind, Start(p));
  }

  // ---------- next and prev ----------

  // The numbers of the calendar's first and last period of each kind.
  function FirstNumber(kind: Kind): int {
    match kind case Day => 1 case Week => 0 case Month => 13 case Year => 1
  }

  function LastNumber(kind: Kind): int {
    match kind
    case Day => MAX_ORDINAL
    case Week => WeekIndex(MAX_ORDINAL)
    case Month => 12 * 9999 + 12
    case Year => 9999
  }

  lemma NumberInRange(kind: Kind, d: Date)
    requires Valid(d)
    ensures FirstNumber(kind) <= Number(kind, d) <= LastNumber(kind)
  {
    OrdinalInYear(d);
  }

  lemma MondayIsFirst(e: Date, k: int)
    requires Valid(e) && ToOrdinal(e) == 7 * k + 1
    ensures FirstDate(Week, e) == e && Number(Week, e) == k
  {
    OrdinalInYear(e);
    WeekStep(1, k);
    OrdinalOrder(FirstDate(Week, e), e);
  }

  lemma ShiftedWeeks(d: Date, weeks: int)
    requires Valid(d) && FirstDate(Week, d) == d
    ensures match Shift(d, 7 * weeks)
            case Some(e) => FirstDate(Week, e) == e && Number(Week, e) == Number(Week, d) + weeks
            case None => !(FirstNumber(Week) <= Number(Week, d) + weeks <= LastNumber(Week))
  {
    FirstIsMonday(d);
    var j := Number(Week, d) + weeks;
    WeekBounds(j);
    var e := Shift(d, 7 * weeks);
    if e.Some? {
      MondayIsFirst(e.value, j);
    }
  }

  lemma FirstIsMonday(d: Date)
    requires Valid(d) && FirstDate(Week, d) == d
    ensures ToOrdinal(d) == 7 * Number(Week, d) + 1
  {
    OrdinalInYear(d);
  }

  lemma WeekBounds(j: int)
    ensures 1 <= 7 * j + 1 <= MAX_ORDINAL <==> FirstNumber(Week) <= j <= LastNumber(Week)
  {
  }

  // A step lands on the first date of the period numbered by more, or fails at the calendar's edge.
  ghost predicate Steps(kind: Kind, d: Date, e: Option<Date>, more: int, edge: int)
    requires Valid(d) && (e.Some? ==> Valid(e.value))
  {
    match e
    case Some(f) => FirstDate(kind, f) == f && Number(kind, f) == Number(kind, d) + more
    case None => Number(kind, d) == edge
  }

  lemma ShiftedDays(d: Date, days: int)
    requires Valid(d) && (days == 1 || days == -1)
    ensures Steps(Day, d, Shift(d, days), days, if days == 1 then LastNumber(Day) else FirstNumber(Day))
  {
    NumberInRange(Day, d);
  }

  lemma ShiftedWeek(d: Date, weeks: int)
    requires Valid(d) && FirstDate(Week, d) == d && (weeks == 1 || weeks == -1)
    ensures Steps(Week, d, Shift(d, 7 * weeks), weeks, if weeks == 1 then LastNumber(Week) else FirstNumber(Week))
  {
    NumberInRange(Week, d);
    ShiftedWeeks(d, weeks);
  }

  lemma MonthSteps(d: Date)
    requires Valid(d)
    ensures Steps(Month, d, NextStart(Month, d), 1, LastNumber(Month))
    ensures Steps(Month, d, PrevStart(Month, d), -1, FirstNumber(Month))
  {
  }

  lemma YearSteps(d: Date)
    requires Valid(d)
    ensures Steps(Year, d, NextStart(Year, d), 1, LastNumber(Year))
    ensures Steps(Year, d, PrevStart(Year, d), -1, FirstNumber(Year))
  {
  }

  /** On first dates, a step forward moves the number up by one, and fails only at the end. */
  lemma NextStartNumber(kind: Kind, d: Date)
    requires Valid(d) && FirstDate(kind, d) == d
    ensures Steps(kind, d, NextStart(kind, d), 1, LastNumber(kind))
  {
    match kind
    case Day => ShiftedDays(d, 1);
    case Week => ShiftedWeek(d, 1);
    case Month => MonthSteps(d);
    case Year => YearSteps(d);
  }

  lemma PrevStartNumber(kind: Kind, d: Date)
    requires Valid(d) && FirstDate(kind, d) == d
    ensures Steps(kind, d, PrevStart(kind, d), -1, FirstNumber(kind))
  {
    match kind
    case Day => ShiftedDays(d, -1);
    case Week => ShiftedWeek(d, -1);
    case Month => MonthSteps(d);
    case Year => YearSteps(d);
  }

  // A date-level step gives the period that starts there.
  lemma StartOfContaining(e: Date, kind: Kind)
    requires Valid(e) && FirstDate(kind, e) == e
    ensures IsPeriod(Containing(e, kind)) && Start(Containing(e, kind)) == e
  {
    ContainingIsPeriod(e, kind);
  }

  /** `next` gives the period numbered one higher, and fails exactly on the calendar's last one. */
  lemma NextIsNext(p: Period)
    requires IsPeriod(p)
    ensures Next(p).Some? ==> IsPeriod(Next(p).value) && Next(p).value.kind == p.kind
    ensures Next(p).Some? ==> NumberOf(Next(p).value) == NumberOf(p) + 1
    ensures Next(p).None? <==> NumberOf(p) == LastNumber(p.kind)
  {
    StartIsFirst(p);
    NextStartNumber(p.kind, Start(p));
    var e := NextStart(p.kind, Start(p));
    if e.Some? {
      StartOfContaining(e.value, p.kind);
      NumberInRange(p.kind, e.value);
    }
  }

  /** `prev` gives the period numbered one lower, and fails exactly on the calendar's first one. */
  lemma PrevIsPrev(p: Period)
    requires IsPeriod(p)
    ensures Prev(p).Some? ==> IsPeriod(Prev(p).value) && Prev(p).value.kind == p.kind
    ensures Prev(p).Some? ==> NumberOf(Prev(p).value) == NumberOf(p) - 1
    ensures Prev(p).None? <==> NumberOf(p) == FirstNumber(p.kind)
  {
    StartIsFirst(p);
    PrevStartNumber(p.kind, Start(p));
    var e := PrevStart(p.kind, Start(p));
    if e.Some? {
      StartOfContaining(e.value, p.kind);
      NumberInRange(p.kind, e.value);
    }
  }

  lemma SameNumber(p: Period, q: Period)
    requires IsPeriod(p) && IsPeriod(q) && p.kind == q.kind
    ensures p == q <==> NumberOf(p) == NumberOf(q)
  {
    KeysSortChronologically(p.kind, Start(p), Start(q));
  }

  /** `next` and `prev` undo each other wherever they succeed. */
  lemma NextAndPrevAreInverse(p: Period)
    requires IsPeriod(p)
    ensures Next(p).Some? ==> IsPeriod(Next(p).value) && Prev(Next(p).value) == Some(p)
    ensures Prev(p).Some? ==> IsPeriod(Prev(p).value) && Next(Prev(p).value) == Some(p)
  {
    NextIsNext(p);
    PrevIsPrev(p);
    NumberInRange(p.kind, Start(p));
    if Next(p).Some? {
      PrevOfNext(p, Next(p).value);
    }
    if Prev(p).Some? {
      NextOfPrev(p, Prev(p).value);
    }
  }

  lemma PrevOfNext(p: Period, q: Period)
    requires IsPeriod(p) && IsPeriod(q) && q.kind == p.kind && NumberOf(q) == NumberOf(p) + 1
    ensures Prev(q) == Some(p)
  {
    NumberInRange(p.kind, Start(p));
    PrevIsPrev(q);
    SameNumber(Prev(q).value, p);
  }

  lemma NextOfPrev(p: Period, q: Period)
    requires IsPeriod(p) && IsPeriod(q) && q.kind == p.kind && NumberOf(q) == NumberOf(p) - 1
    ensures Next(q) == Some(p)
  {
    NumberInRange(p.kind, Start(p));
    NextIsNext(q);
    SameNumber(Next(q).value, p);
  }

  lemma StartsBy(p: Period, d: Date)
    requires IsPeriod(p) && Valid(d)
    ensures ToOrdinal(Start(p)) <= ToOrdinal(d) <==> NumberOf(p) <= Number(p.kind, d)
  {
    StartIsFirst(p);
    FirstIsLeast(p.kind, Start(p), d);
  }

  /** Periods of a kind partition the calendar: a date is in exactly the period whose start is
      not after it and whose successor, if any, starts after it. */
  lemma PeriodsPartition(d: Date, p: Period)
    requires Valid(d) && IsPeriod(p)
    ensures Containing(d, p.kind) == p
            <==> && ToOrdinal(Start(p)) <= ToOrdinal(d)
                 && (Next(p).Some? ==> IsPeriod(Next(p).value) && ToOrdinal(d) < ToOrdinal(Start(Next(p).value)))
  {
    ContainingIff(d, p);
    NextIsNext(p);
    StartsBy(p, d);
    NumberInRange(p.kind, d);
    if Next(p).Some? {
      StartsBy(Next(p).value, d);
    }
  }

  /** `parse_period_key` gives back each period from its key, and nothing else. */
  lemma ParsePeriodKeyInverts(p: Period, key: string)
    ensures ParsePeriodKey(key) == Some(p) <==> IsPeriod(p) && p.key == key
  {
    if IsPeriod(p) {
      KeyShape(p);
    }
  }

  lemma KeyShape(p: Period)
    requires IsPeriod(p)
    ensures p.kind == Day <==> |p.key| == 10
    ensures p.kind == Week <==> |p.key| == 8
    ensures p.kind == Week ==> p.key[4..6] == "-W"
    ensures p.kind == Month <==> |p.key| == 7
    ensures p.kind == Year <==> |p.key| == 4
  {
    var d := Start(p);
    assert p.key == FormatKey(p.kind, d);
  }

  // The Thursday of the week a date lies in.
  lemma ThursdayOf(d: Date) returns (thursday: Date)
    requires Valid(d)
    ensures Valid(thursday) && ToOrdinal(thursday) == Monday(ToOrdinal(d)) + 3
    ensures thursday.year == IsoCalendar(d).year
  {
    var w := IsoCalendar(d);
    IsoInRange(d);
    IsoCalendarIsWeekOf(d);
    IsoMondayInRange(w);
    IsoYearIsThursdays(w);
    thursday := FromOrdinal(IsoMonday(w) + 3);
    OrdinalInYear(thursday);
    NextYear(thursday.year);
    if thursday.year < w.year {
      YearsIncrease(thursday.year, w.year);
    } else if w.year < thursday.year {
      YearsIncrease(w.year, thursday.year);
    }
  }

  /** A week's key year is the Gregorian year of its Thursday, and the week's month is that
      Thursday's month. */
  lemma WeekBelongsToItsThursday(d: Date) returns (thursday: Date)
    requires Valid(d)
    ensures var p := Containing(d, Week);
            && IsPeriod(p) && Valid(thursday) && ToOrdinal(thursday) == ToOrdinal(Start(p)) + 3
            && p.key[..4] == Digits(thursday.year, 4) && MonthOfWeek(p) == Some(Containing(thursday, Month))
  {
    thursday := ThursdayOf(d);
    ContainingIsPeriod(d, Week);
    OrdinalInYear(thursday);
    OrdinalInYear(d);
    var p := Containing(d, Week);
    assert ToOrdinal(Start(p)) == Monday(ToOrdinal(d));
    assert Shift(Start(p), 3) == Some(thursday) by {
      OrdinalOrder(Shift(Start(p), 3).value, thursday);
    }
  }

  // ---------- containment ----------

  // None where the source raises: a week has no containing month. The week is that of a day.
  function Covers(p: Period, other: Period, week: Period): Option<bool> {
    match p.kind
    case Day => Some(other.kind == Day && p == other)
    case Week => Some(if other.kind == Week then p == other else other.kind == Day && p == week)
    case Month =>
      if other.kind == Week then None
      else if other.kind == Month then Some(p == other)
      else Some(other.kind == Day && p.key == Leading(other.key, 7))
    case Year =>
      if other.kind == Year then Some(p == other)
      else Some(p.key == Leading(other.key, 4))
  }

  function Contains(p: Period, other: Period): Option<bool>
    requires IsPeriod(p) && IsPeriod(other)
  {
    Covers(p, other, Containing(Start(other), Week))
  }

  // key[:n]
  function Leading(key: string, n: nat): string {
    if |key| < n then key else key[..n]
  }

  lemma CoversDay(p: Period, key: string, week: string, month: string, year: string)
    requires Leading(key, 7) == month && Leading(key, 4) == year
    ensures Covers(p, Period(Day, key), Period(Week, week))
      == Some(p == Period(p.kind, match p.kind case Day => key case Week => week case Month => month case Year => year))
  {
  }

  /** On days, `contains` is exactly the partition: the period contains the day it covers. */
  lemma ContainsDay(p: Period, d: Date)
    requires IsPeriod(p) && Valid(d)
    ensures IsPeriod(Containing(d, Day)) && Contains(p, Containing(d, Day)) == Some(Containing(d, p.kind) == p)
  {
    ContainingIsPeriod(d, Day);
    DayKeyPrefixes(d);
    CoversDay(p, FormatKey(Day, d), FormatKey(Week, d), FormatKey(Month, d), FormatKey(Year, d));
  }

  lemma DayKeyPrefixes(d: Date)
    requires Valid(d)
    ensures Leading(FormatKey(Day, d), 4) == FormatKey(Year, d) && Leading(FormatKey(Day, d), 7) == FormatKey(Month, d)
  {
  }

  /** A year contains a week exactly when it holds the week's Thursday. */
  lemma YearContainsWeek(y: Period, d: Date) returns (thursday: Date)
    requires IsPeriod(y) && y.kind == Year && Valid(d)
    ensures var p := Containing(d, Week);
            && IsPeriod(p) && Valid(thursday) && ToOrdinal(thursday) == ToOrdinal(Start(p)) + 3
            && Contains(y, p) == Some(Containing(thursday, Year) == y)
  {
    thursday := WeekBelongsToItsThursday(d);
    YearCoversWeek(y, Containing(d, Week), FormatKey(Year, thursday));
  }

  lemma YearCoversWeek(y: Period, w: Period, key: string)
    requires y.kind == Year && w.kind == Week && |key| == 4 && key <= w.key
    ensures forall week :: Covers(y, w, week) == Some(y == Period(Year, key))
  {
    assert Leading(w.key, 4) == key;
  }

  // Periods of the first kind belong to periods of the second.
  predicate Finer(a: Kind, b: Kind) {
    (a == Day && b != Day) || (a == Week && b == Year) || (a == Month && b == Year)
  }

  lemma YearCoversMonth(y: Period, d: Date)
    requires IsPeriod(y) && y.kind == Year && Valid(d)
    ensures forall week :: Covers(y, Containing(d, Month), week) == Some(Containing(d, Year) == y)
  {
    assert Leading(FormatKey(Month, d), 4) == FormatKey(Year, d);
  }

  /** One period contains another exactly when they are the same, or when its kind is coarser and it is the
      one that the other's day belongs to: the first day, or the Thursday of a week. A month and a week
      raise. */
  lemma ContainsExactly(p: Period, other: Period) returns (day: Date)
    requires IsPeriod(p) && IsPeriod(other)
    ensures Valid(day) && ToOrdinal(day) == ToOrdinal(Start(other)) + if other.kind == Week then 3 else 0
    ensures Contains(p, other).None? <==> p.kind == Month && other.kind == Week
    ensures Contains(p, other).Some? ==>
              (Contains(p, other).value
               <==> p == other || (Finer(other.kind, p.kind) && Containing(day, p.kind) == p))
  {
    day := Start(other);
    ContainingIff(day, other);
    match other.kind
    case Day => ContainsDay(p, day);
    case Week =>
      var first := day;
      day := WeekBelongsToItsThursday(first);
      if p.kind == Year {
        var thursday := YearContainsWeek(p, first);
        OrdinalOrder(thursday, day);
      }
    case Month =>
      if p.kind == Year {
        YearCoversMonth(p, day);
      }
    case Year =>
  }
}
