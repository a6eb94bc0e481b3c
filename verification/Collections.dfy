/** Collections of dated notes: rendering an entry's path, and recognising one. */
module Collections {
  import opened Options
  import opened Sequences
  import opened Decimals
  import opened Calendar
  import opened Periods
  import opened PeriodLaws
  import opened Templates
  import opened Readings

  datatype Definition = Definition(grain: Kind, many: bool, folder: Template, title: Template)

  // ---------- rendering ----------

  function MonthText(grain: Kind, when: Date): string
    requires Valid(when)
  {
    match grain
    case Week =>
      ContainingIsPeriod(when, Week);
      var month := MonthOfWeek(Containing(when, Week));
      if month.Some? && |month.value.key| >= 5 then month.value.key[5..] else ""
    case Year => ""
    case _ => Digits(when.month, 2)
  }

  function ValuesFor(grain: Kind, when: Date, ordinal: Option<nat>): Values
    requires Valid(when)
  {
    var key := FormatKey(grain, when);
    Values(DayKey(when), key, key[..4], MonthText(grain, when), Decimal(if ordinal.Some? then ordinal.value else 1))
  }

  function RenderEntry(def: Definition, when: Date, ordinal: Option<nat>): (string, string)
    requires Valid(when)
  {
    var v := ValuesFor(def.grain, when, ordinal);
    (Render(def.folder, v), Render(def.title, v))
  }

  // ---------- recognising ----------

  function Pattern(def: Definition): Template {
    def.folder + [Lit("/")] + def.title
  }

  datatype Recovered = When(date: Date) | Unknown | Invalid

  function FromParsed(d: Option<Date>): Recovered {
    match d case Some(date) => When(date) case None => Invalid
  }

  function RecoverWhen(def: Definition, caps: seq<string>): (r: Recovered)
    ensures r.When? ==> Valid(r.date)
  {
    var t := Pattern(def);
    RecoverFrom(def.grain, Captured(t, caps, DateField), Captured(t, caps, KeyField), Captured(t, caps, YearField),
        Captured(t, caps, MonthField))
  }

  function RecoverFrom(grain: Kind, date: Option<string>, key: Option<string>, year: Option<string>,
                       month: Option<string>): (r: Recovered)
    ensures r.When? ==> Valid(r.date)
  {
    if date.Some? then FromParsed(ParseKey(Day, date.value))
    else if key.Some? then
      if IsPeriod(Period(grain, key.value)) then When(Start(Period(grain, key.value))) else Invalid
    else if grain != Week && year.Some? then
      if AllDigits(year.value) && (month.Some? ==> AllDigits(month.value))
      then FromParsed(ValidOnly(Date(Value(year.value), if month.Some? then Value(month.value) else 1, 1))) else Invalid
    else Unknown
  }

  function RecoverOrdinal(def: Definition, caps: seq<string>): Option<nat> {
    match Captured(Pattern(def), caps, OrdinalField)
    case Some(digits) => if AllDigits(digits) then Some(Value(digits)) else None
    case None => None
  }

  // Membership: exact wherever a date can be recovered, else by the sampled window.
  ghost predicate Matches(def: Definition, folder: string, title: string, today: Date) {
    match Match(def.grain, Pattern(def), folder + "/" + title)
    case None => false
    case Some(caps) =>
      match RecoverWhen(def, caps)
      case Invalid => false
      case Unknown => InWindow(def, today, (folder, title))
      case When(when) => RenderEntry(def, when, RecoverOrdinal(def, caps)) == (folder, title)
  }

  // ---------- the sampled window ----------

  const SAMPLE_HORIZON_YEARS := 5
  const MAX_ORDINAL_SAMPLED := 20

  predicate Sampled(def: Definition, ordinal: Option<nat>) {
    if def.many then ordinal.Some? && 1 <= ordinal.value <= MAX_ORDINAL_SAMPLED else ordinal.None?
  }

  predicate HasWindow(today: Date) {
    today.year - SAMPLE_HORIZON_YEARS >= MIN_YEAR && today.year + SAMPLE_HORIZON_YEARS <= MAX_YEAR
  }

  ghost predicate RendersTo(def: Definition, p: Period, pair: (string, string)) {
    IsPeriod(p) && exists o :: Sampled(def, o) && pair == RenderEntry(def, Start(p), o)
  }

  ghost predicate InNumbers(def: Definition, lo: int, hi: int, pair: (string, string)) {
    exists p :: IsPeriod(p) && p.kind == def.grain && lo <= NumberOf(p) <= hi && RendersTo(def, p, pair)
  }

  function WindowStart(today: Date): Date {
    Date(today.year - SAMPLE_HORIZON_YEARS, 1, 1)
  }

  function WindowEnd(today: Date): Date {
    Date(today.year + SAMPLE_HORIZON_YEARS, 12, 31)
  }

  ghost predicate InWindow(def: Definition, today: Date, pair: (string, string)) {
    HasWindow(today) && InNumbers(def, Number(def.grain, WindowStart(today)), Number(def.grain, WindowEnd(today)), pair)
  }

  // ---------- what is rendered has the pattern's form ----------

  lemma RenderPattern(def: Definition, v: Values)
    ensures Render(Pattern(def), v) == Render(def.folder, v) + "/" + Render(def.title, v)
  {
    Regroup(def.folder, [Lit("/")], def.title);
    RenderConcat(def.folder, [Lit("/")] + def.title, v);
    RenderSlash(def.title, v);
    Regroup(Render(def.folder, v), "/", Render(def.title, v));
  }

  lemma RenderSlash(t: Template, v: Values)
    ensures Render([Lit("/")] + t, v) == "/" + Render(t, v)
  {
    assert ([Lit("/")] + t)[1..] == t;
  }

  lemma DigitsFit(n: int, k: nat)
    ensures k == 4 ==> Fits(Digits(n, k), "dddd")
    ensures k == 2 ==> Fits(Digits(n, k), "dd")
  {
  }

  lemma KeyFits(grain: Kind, when: Date)
    requires Valid(when)
    ensures Fits(FormatKey(grain, when), Shape(grain, KeyField)) && Fits(FormatKey(grain, when)[..4], "dddd")
  {
    var y, m, d := Digits(when.year, 4), Digits(when.month, 2), Digits(when.day, 2);
    DigitsFit(when.year, 4);
    match grain
    case Day =>
      DigitsFit(when.month, 2);
      DigitsFit(when.day, 2);
    case Week =>
      DigitsFit(IsoCalendar(when).year, 4);
      DigitsFit(IsoCalendar(when).week, 2);
    case Month => DigitsFit(when.month, 2);
    case Year =>
  }

  lemma MonthFits(grain: Kind, when: Date)
    requires Valid(when) && grain != Year
    ensures Fits(MonthText(grain, when), "dd")
  {
    if grain == Week {
      var thursday := WeekBelongsToItsThursday(when);
      MonthKeyTail(thursday.year, thursday.month);
    } else {
      DigitsFit(when.month, 2);
    }
  }

  lemma MonthKeyTail(y: int, m: int)
    ensures |MonthKey(y, m)| == 7 && MonthKey(y, m)[5..] == Digits(m, 2) && Fits(MonthKey(y, m)[5..], "dd")
  {
    DigitsFit(m, 2);
  }

  // A year has no month; every other template may use all fields.
  ghost predicate FieldsDefined(def: Definition) {
    def.grain == Year ==> !HasField(Pattern(def), MonthField)
  }

  lemma RenderedValuesFit(def: Definition, when: Date, ordinal: Option<nat>)
    requires Valid(when) && FieldsDefined(def)
    ensures ValuesFit(def.grain, Pattern(def), ValuesFor(def.grain, when, ordinal))
  {
    var v, t := ValuesFor(def.grain, when, ordinal), Pattern(def);
    forall i | 0 <= i < |t| && t[i].Slot? ensures FieldFits(def.grain, t[i].field, TextOf(v, t[i].field)) {
      match t[i].field
      case DateField => KeyFits(Day, when);
      case KeyField => KeyFits(def.grain, when);
      case YearField => KeyFits(def.grain, when);
      case MonthField => MonthFits(def.grain, when);
      case OrdinalField =>
    }
  }

  // ---------- recovery finds a date that renders the same ----------

  // A template that uses {date} or {key}, or {year} where that is not an ISO year.
  ghost predicate Recoverable(def: Definition) {
    HasField(Pattern(def), DateField) || HasField(Pattern(def), KeyField)
        || (def.grain != Week && HasField(Pattern(def), YearField))
  }

  lemma {:induction false} RenderAgrees(t: Template, v: Values, w: Values)
    requires forall f :: HasField(t, f) ==> TextOf(v, f) == TextOf(w, f)
    ensures Render(t, v) == Render(t, w)
  {
    if |t| > 0 {
      forall f | HasField(t[1..], f) ensures TextOf(v, f) == TextOf(w, f) {
        HasFieldSplit(t, f);
      }
      if t[0].Slot? {
        HasFieldSplit(t, t[0].field);
      }
      RenderAgrees(t[1..], v, w);
    }
  }

  lemma PatternHas(def: Definition, f: Field)
    ensures HasField(Pattern(def), f) <==> HasField(def.folder, f) || HasField(def.title, f)
  {
    var n := |def.folder|;
    if i :| 0 <= i < n && def.folder[i] == Slot(f) {
      assert Pattern(def)[i] == Slot(f);
    }
    if i :| 0 <= i < |def.title| && def.title[i] == Slot(f) {
      assert Pattern(def)[n + 1 + i] == Slot(f);
    }
    if i :| 0 <= i < |Pattern(def)| && Pattern(def)[i] == Slot(f) {
      assert i < n ==> def.folder[i] == Slot(f);
      assert i > n ==> def.title[i - n - 1] == Slot(f);
    }
  }

  ghost predicate SameTexts(def: Definition, v: Values, w: Values) {
    forall f :: HasField(Pattern(def), f) ==> TextOf(v, f) == TextOf(w, f)
  }

  lemma SameTextsRenderSame(def: Definition, a: Date, o: Option<nat>, b: Date, p: Option<nat>)
    requires Valid(a) && Valid(b) && SameTexts(def, ValuesFor(def.grain, a, o), ValuesFor(def.grain, b, p))
    ensures RenderEntry(def, a, o) == RenderEntry(def, b, p)
  {
    var v, w := ValuesFor(def.grain, a, o), ValuesFor(def.grain, b, p);
    forall f | HasField(def.folder, f) || HasField(def.title, f) ensures TextOf(v, f) == TextOf(w, f) {
      PatternHas(def, f);
    }
    RenderAgrees(def.folder, v, w);
    RenderAgrees(def.title, v, w);
  }

  // The first date of a period has the period's key, year and month.
  lemma FirstDateTexts(grain: Kind, when: Date)
    requires Valid(when)
    ensures FormatKey(grain, FirstDate(grain, when)) == FormatKey(grain, when)
    ensures grain != Year ==> MonthText(grain, FirstDate(grain, when)) == MonthText(grain, when)
  {
    NumberOfFirst(grain, when);
    KeysSortChronologically(grain, FirstDate(grain, when), when);
  }

  lemma YearAndMonthTexts(grain: Kind, when: Date, d: Date)
    requires Valid(when) && Valid(d) && grain != Week && d.year == when.year
    ensures FormatKey(grain, d)[..4] == FormatKey(grain, when)[..4] == Digits(when.year, 4)
    ensures d.month == when.month ==> MonthText(grain, d) == MonthText(grain, when)
  {
  }

  lemma RecoveredOrdinal(def: Definition, v: Values, n: nat)
    requires v.ordinal == Decimal(n)
    ensures RecoverOrdinal(def, Captures(Pattern(def), v)) == if HasField(Pattern(def), OrdinalField) then Some(n)
      else None
  {
    CapturedIsRendered(Pattern(def), v, OrdinalField);
    ValueOfDecimal(n);
  }

  lemma RecoveredYearMonth(grain: Kind, when: Date)
    requires Valid(when) && grain != Week
    ensures RecoverFrom(grain, None, None, Some(Digits(when.year, 4)), None) == When(Date(when.year, 1, 1))
    ensures RecoverFrom(grain, None, None, Some(Digits(when.year, 4)), Some(Digits(when.month, 2)))
      == When(Date(when.year, when.month, 1))
  {
    PowersOfTen();
    ValueOfDigits(when.year, 4);
    ValueOfDigits(when.month, 2);
  }

  // The date that recovery answers for an entry of that date.
  function RecoveredFor(def: Definition, when: Date): Date
    requires Valid(when)
  {
    var t := Pattern(def);
    if HasField(t, DateField) then when
    else if HasField(t, KeyField) then FirstDate(def.grain, when)
    else Date(when.year, if HasField(t, MonthField) then when.month else 1, 1)
  }

  lemma RecoveredFromDate(grain: Kind, when: Date, key: Option<string>, year: Option<string>, month: Option<string>)
    requires Valid(when)
    ensures RecoverFrom(grain, Some(DayKey(when)), key, year, month) == When(when)
  {
    DayKeyParses(when);
  }

  lemma RecoveredFromKey(grain: Kind, when: Date, year: Option<string>, month: Option<string>)
    requires Valid(when)
    ensures RecoverFrom(grain, None, Some(FormatKey(grain, when)), year, month) == When(FirstDate(grain, when))
  {
    ContainingIsPeriod(when, grain);
  }

  // What date recovery answers for a rendered entry.
  lemma RecoveredDate(def: Definition, when: Date, ordinal: Option<nat>)
    requires Valid(when) && FieldsDefined(def) && Recoverable(def)
    ensures RecoverWhen(def, Captures(Pattern(def), ValuesFor(def.grain, when, ordinal)))
      == When(RecoveredFor(def, when))
  {
    var v, t := ValuesFor(def.grain, when, ordinal), Pattern(def);
    var caps := Captures(t, v);
    CapturedIsRendered(t, v, DateField);
    CapturedIsRendered(t, v, KeyField);
    CapturedIsRendered(t, v, YearField);
    CapturedIsRendered(t, v, MonthField);
    if HasField(t, DateField) {
      RecoveredFromDate(def.grain, when, Captured(t, caps, KeyField), Captured(t, caps, YearField),
          Captured(t, caps, MonthField));
    } else if HasField(t, KeyField) {
      RecoveredFromKey(def.grain, when, Captured(t, caps, YearField), Captured(t, caps, MonthField));
    } else {
      YearAndMonthTexts(def.grain, when, when);
      RecoveredYearMonth(def.grain, when);
    }
  }

  lemma RecoveredRendersSame(def: Definition, when: Date, ordinal: Option<nat>, date: Date)
    requires Valid(when) && Valid(date) && FieldsDefined(def) && Recoverable(def)
    requires date == RecoveredFor(def, when)
    ensures var n := if HasField(Pattern(def), OrdinalField) then Some(if ordinal.Some? then ordinal.value else 1)
      else None;
            RenderEntry(def, date, n) == RenderEntry(def, when, ordinal)
  {
    var t := Pattern(def);
    var n := if HasField(t, OrdinalField) then Some(if ordinal.Some? then ordinal.value else 1) else None;
    var v, w := ValuesFor(def.grain, date, n), ValuesFor(def.grain, when, ordinal);
    if !HasField(t, DateField) && HasField(t, KeyField) {
      FirstDateTexts(def.grain, when);
    } else if !HasField(t, DateField) {
      YearAndMonthTexts(def.grain, when, date);
    }
    forall f | HasField(t, f) ensures TextOf(v, f) == TextOf(w, f) {
      match f case DateField => case KeyField => case YearField => case MonthField => case OrdinalField =>
    }
    SameTextsRenderSame(def, date, n, when, ordinal);
  }

  // An entry from which the rendered date and ordinal are recovered is recognised.
  lemma ReadBackIsMember(def: Definition, when: Date, ordinal: Option<nat>, today: Date, found: seq<string>)
    requires Valid(when) && FieldsDefined(def) && Recoverable(def)
    requires var v := ValuesFor(def.grain, when, ordinal);
      && Match(def.grain, Pattern(def), Render(Pattern(def), v)) == Some(found)
      && RecoverWhen(def, found) == RecoverWhen(def, Captures(Pattern(def), v))
      && RecoverOrdinal(def, found) == RecoverOrdinal(def, Captures(Pattern(def), v))
    ensures Recognised(def, when, ordinal, today)
  {
    var v := ValuesFor(def.grain, when, ordinal);
    var (folder, title) := RenderEntry(def, when, ordinal);
    RenderPattern(def, v);
    assert Match(def.grain, Pattern(def), folder + "/" + title) == Some(found);
    RecoveredDate(def, when, ordinal);
    RecoveredOrdinal(def, v, if ordinal.Some? then ordinal.value else 1);
    RecoveredRendersSame(def, when, ordinal, RecoverWhen(def, found).date);
  }

  ghost predicate Recognised(def: Definition, when: Date, ordinal: Option<nat>, today: Date)
    requires Valid(when)
  {
    Matches(def, RenderEntry(def, when, ordinal).0, RenderEntry(def, when, ordinal).1, today)
  }

  // The last ordinal and the fields the date is recovered from cannot be misread.
  ghost predicate Readable(def: Definition) {
    var t := Pattern(def);
    && Pinned(def.grain, t, OrdinalField, false)
    && if HasField(t, DateField) then Pinned(def.grain, t, DateField, false)
       else if HasField(t, KeyField) then Pinned(def.grain, t, KeyField, false)
       else Pinned(def.grain, t, YearField, false) && Pinned(def.grain, t, MonthField, false)
  }

  lemma PinnedReadsBack(grain: Kind, t: Template, s: string, a: seq<string>, b: seq<string>, f: Field)
    requires Pinned(grain, t, f, false) && Decomposes(grain, t, s, a) && Decomposes(grain, t, s, b)
    ensures Captured(t, a, f) == Captured(t, b, f)
  {
    assert s[0..] == s;
    SameCapture(grain, t, s, 0, 0, a, b, f, false);
  }

  lemma DateReadsBack(def: Definition, s: string, a: seq<string>, b: seq<string>)
    requires Readable(def) && Decomposes(def.grain, Pattern(def), s, a) && Decomposes(def.grain, Pattern(def), s, b)
    ensures RecoverWhen(def, a) == RecoverWhen(def, b)
  {
    var t := Pattern(def);
    CapturesHave(def.grain, t, s, a, DateField);
    CapturesHave(def.grain, t, s, b, DateField);
    if HasField(t, DateField) {
      PinnedReadsBack(def.grain, t, s, a, b, DateField);
    } else {
      CapturesHave(def.grain, t, s, a, KeyField);
      CapturesHave(def.grain, t, s, b, KeyField);
      if HasField(t, KeyField) {
        PinnedReadsBack(def.grain, t, s, a, b, KeyField);
      } else {
        PinnedReadsBack(def.grain, t, s, a, b, YearField);
        PinnedReadsBack(def.grain, t, s, a, b, MonthField);
      }
    }
  }

  /** Every entry a readable definition renders is recognised, for every date and ordinal, however
      far from today: recovering a date from the text and rendering it again gives the text back. */
  lemma RenderedIsMember(def: Definition, when: Date, ordinal: Option<nat>, today: Date)
    requires Valid(when) && FieldsDefined(def) && Recoverable(def) && Readable(def)
    ensures Recognised(def, when, ordinal, today)
  {
    var v, t := ValuesFor(def.grain, when, ordinal), Pattern(def);
    var s := Render(t, v);
    RenderedValuesFit(def, when, ordinal);
    RenderedDecomposes(def.grain, t, v);
    RenderedMatches(def.grain, t, v);
    MatchIsSound(def.grain, t, s);
    var found := Match(def.grain, t, s).value;
    DateReadsBack(def, s, found, Captures(t, v));
    PinnedReadsBack(def.grain, t, s, found, Captures(t, v), OrdinalField);
    ReadBackIsMember(def, when, ordinal, today, found);
  }

  /** Membership is exact: a path is recognised if and only if some date and ordinal render it. */
  lemma MembershipIsExact(def: Definition, folder: string, title: string, today: Date)
    requires FieldsDefined(def) && Recoverable(def) && Readable(def)
    ensures Matches(def, folder, title, today)
            <==> exists when, ordinal :: Valid(when) && RenderEntry(def, when, ordinal) == (folder, title)
  {
    if Matches(def, folder, title, today) {
      var s := folder + "/" + title;
      MatchIsSound(def.grain, Pattern(def), s);
      var caps := Match(def.grain, Pattern(def), s).value;
      CapturesHave(def.grain, Pattern(def), s, caps, DateField);
      CapturesHave(def.grain, Pattern(def), s, caps, KeyField);
      CapturesHave(def.grain, Pattern(def), s, caps, YearField);
      var when := RecoverWhen(def, caps);
      assert when.When?;
      assert RenderEntry(def, when.date, RecoverOrdinal(def, caps)) == (folder, title);
    }
    if when, ordinal :| Valid(when) && RenderEntry(def, when, ordinal) == (folder, title) {
      RenderedIsMember(def, when, ordinal, today);
    }
  }
}
