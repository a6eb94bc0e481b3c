/** What an entry's texts say, which entries the window samples, and what the scope is. */
module CollectionLaws {
  import opened Options
  import opened Text
  import opened Decimals
  import opened Calendar
  import opened Periods
  import opened PeriodLaws
  import opened Templates
  import opened Readings
  import opened Collections
  import opened CollectionEntries

  // ---------- the texts of an entry ----------

  // The day that decides which year and month a date counts for: in a week, its Thursday.
  ghost predicate Decides(grain: Kind, when: Date, day: Date)
    requires Valid(when)
  {
    Valid(day) && if grain == Week then Monday(ToOrdinal(when)) + 3 == ToOrdinal(day) else day == when
  }

  // Text of this many digits for a number.
  ghost predicate Shows(text: string, k: nat, n: int) {
    |text| == k && AllDigits(text) && Value(text) == n
  }

  lemma DigitsShow(n: int, k: nat)
    requires 0 <= n < Pow10(k)
    ensures Shows(Digits(n, k), k, n)
  {
    ValueOfDigits(n, k);
  }

  lemma WeekTexts(when: Date) returns (day: Date)
    requires Valid(when)
    ensures Decides(Week, when, day) && FormatKey(Week, when)[..4] == Digits(day.year, 4)
    ensures MonthText(Week, when) == Digits(day.month, 2)
  {
    day := WeekBelongsToItsThursday(when);
    ContainingIsPeriod(when, Week);
    OrdinalInYear(when);
    MonthKeyTail(day.year, day.month);
  }

  lemma YearAndMonth(grain: Kind, when: Date) returns (day: Date)
    requires Valid(when)
    ensures Decides(grain, when, day) && FormatKey(grain, when)[..4] == Digits(day.year, 4)
    ensures MonthText(grain, when) == if grain == Year then "" else Digits(day.month, 2)
  {
    if grain == Week {
      day := WeekTexts(when);
    } else {
      day := when;
    }
  }

  ghost predicate ShowsDate(text: string, d: Date) {
    && |text| == 10 && text[4] == '-' && text[7] == '-'
    && Shows(text[..4], 4, d.year) && Shows(text[5..7], 2, d.month) && Shows(text[8..], 2, d.day)
  }

  lemma DayKeyShows(d: Date)
    requires Valid(d)
    ensures ShowsDate(DayKey(d), d)
  {
    PowersOfTen();
    DigitsShow(d.year, 4);
    DigitsShow(d.month, 2);
    DigitsShow(d.day, 2);
    var key := DayKey(d);
    assert key[..4] == Digits(d.year, 4) && key[5..7] == Digits(d.month, 2) && key[8..] == Digits(d.day, 2);
  }

  // Written without leading zeros.
  ghost predicate ShowsNumber(text: string, n: nat) {
    Shows(text, |text|, n) && |text| > 0 && (text[0] == '0' ==> n == 0)
  }

  // The date, the year and month of the day that decides, the key and the ordinal.
  ghost predicate ShowsEntry(v: Values, grain: Kind, when: Date, ordinal: Option<nat>, day: Date)
    requires Valid(when)
  {
    && ShowsDate(v.date, when) && Make(grain, v.key) == Some(Containing(when, grain))
    && Shows(v.year, 4, day.year) && (if grain == Year then v.month == "" else Shows(v.month, 2, day.month))
    && ShowsNumber(v.ordinal, if ordinal.Some? then ordinal.value else 1)
  }

  lemma YearAndMonthShow(grain: Kind, when: Date) returns (day: Date)
    requires Valid(when)
    ensures Decides(grain, when, day) && Shows(FormatKey(grain, when)[..4], 4, day.year)
    ensures if grain == Year then MonthText(grain, when) == "" else Shows(MonthText(grain, when), 2, day.month)
  {
    day := YearAndMonth(grain, when);
    PowersOfTen();
    DigitsShow(day.year, 4);
    DigitsShow(day.month, 2);
  }

  /** An entry shows its date in full, the year and month it counts for (those of the Thursday for a
      week), its period's key, and its ordinal, which is 1 when there is none. */
  lemma EntryTexts(grain: Kind, when: Date, ordinal: Option<nat>) returns (day: Date)
    requires Valid(when)
    ensures Decides(grain, when, day) && ShowsEntry(ValuesFor(grain, when, ordinal), grain, when, ordinal, day)
  {
    day := YearAndMonthShow(grain, when);
    DayKeyShows(when);
    ValueOfDecimal(if ordinal.Some? then ordinal.value else 1);
    ContainingIsPeriod(when, grain);
  }

  // ---------- the sampled window ----------

  // The entry of a date's period, numbered as the collection samples.
  ghost predicate SampledEntry(def: Definition, when: Date, pair: (string, string))
    requires Valid(when)
  {
    if def.many then exists n: nat :: 1 <= n <= 20 && pair == RenderEntry(def, FirstDate(def.grain, when), Some(n))
    else pair == RenderEntry(def, FirstDate(def.grain, when), None)
  }

  ghost predicate WithinFiveYears(today: Date, when: Date) {
    Valid(when) && today.year - 5 <= when.year <= today.year + 5
  }

  lemma SampledIsRendered(def: Definition, when: Date, pair: (string, string))
    requires Valid(when)
    ensures IsPeriod(Containing(when, def.grain))
    ensures RendersTo(def, Containing(when, def.grain), pair) <==> SampledEntry(def, when, pair)
  {
    var p := Containing(when, def.grain);
    ContainingIsPeriod(when, def.grain);
    if def.many {
      BelowIsSampled(def, p, pair);
    } else {
      OnlyUnnumbered(def, p, pair);
    }
  }

  // The window's dates are those from its first to its last.
  lemma WindowDates(today: Date, when: Date)
    requires HasWindow(today) && Valid(when)
    ensures WithinFiveYears(today, when)
            <==> ToOrdinal(WindowStart(today)) <= ToOrdinal(when) <= ToOrdinal(WindowEnd(today))
  {
    OrdinalOrder(when, WindowStart(today));
    OrdinalOrder(WindowEnd(today), when);
  }

  lemma WindowNumbers(kind: Kind, a: Date, b: Date)
    requires Valid(a) && Valid(b) && ToOrdinal(a) <= ToOrdinal(b)
    ensures Number(kind, a) <= Number(kind, b)
  {
    FirstIsLeast(kind, a, b);
    FirstIsLeast(kind, a, a);
  }

  // A period whose number lies between those of two dates has a date between them.
  lemma DateBetween(kind: Kind, a: Date, b: Date, p: Period) returns (when: Date)
    requires Valid(a) && Valid(b) && ToOrdinal(a) <= ToOrdinal(b) && IsPeriod(p) && p.kind == kind
    requires Number(kind, a) <= NumberOf(p) <= Number(kind, b)
    ensures Valid(when) && ToOrdinal(a) <= ToOrdinal(when) <= ToOrdinal(b) && Containing(when, kind) == p
  {
    StartIsFirst(p);
    when := if NumberOf(p) == Number(kind, a) then a else Start(p);
    ContainingIff(when, p);
    FirstIsLeast(kind, Start(p), a);
    FirstIsLeast(kind, Start(p), b);
  }

  lemma SampledFrom(def: Definition, today: Date, p: Period, pair: (string, string)) returns (when: Date)
    requires HasWindow(today) && IsPeriod(p) && p.kind == def.grain && RendersTo(def, p, pair)
    requires Number(def.grain, WindowStart(today)) <= NumberOf(p) <= Number(def.grain, WindowEnd(today))
    ensures WithinFiveYears(today, when) && SampledEntry(def, when, pair)
  {
    var a, b := WindowStart(today), WindowEnd(today);
    OrdinalOrder(b, a);
    when := DateBetween(def.grain, a, b, p);
    WindowDates(today, when);
    SampledIsRendered(def, when, pair);
  }

  lemma FromWindow(def: Definition, today: Date, pair: (string, string)) returns (when: Date)
    requires InWindow(def, today, pair)
    ensures WithinFiveYears(today, when) && SampledEntry(def, when, pair)
  {
    var p :| IsPeriod(p) && p.kind == def.grain && RendersTo(def, p, pair)
             && Number(def.grain, WindowStart(today)) <= NumberOf(p) <= Number(def.grain, WindowEnd(today));
    when := SampledFrom(def, today, p, pair);
  }

  lemma SampledIn(def: Definition, today: Date, when: Date, pair: (string, string))
    requires HasWindow(today) && WithinFiveYears(today, when) && SampledEntry(def, when, pair)
    ensures InWindow(def, today, pair)
  {
    SampledIsRendered(def, when, pair);
    WindowDates(today, when);
    WindowNumbers(def.grain, WindowStart(today), when);
    WindowNumbers(def.grain, when, WindowEnd(today));
    PeriodNumber(def.grain, when);
  }

  /** A collection whose dates cannot be recovered samples the entries of every period with a day within
      five calendar years of today, and twenty of each where a date may have many; it has no window when
      that leaves the calendar. */
  lemma WindowIsExact(def: Definition, today: Date, pair: (string, string))
    requires Valid(today)
    ensures InWindow(def, today, pair)
            <==> 6 <= today.year <= 9994 && exists when :: WithinFiveYears(today, when) && SampledEntry(def, when, pair)
  {
    if InWindow(def, today, pair) {
      var when := FromWindow(def, today, pair);
    }
    forall when | HasWindow(today) && WithinFiveYears(today, when) && SampledEntry(def, when, pair)
      ensures InWindow(def, today, pair)
    {
      SampledIn(def, today, when, pair);
    }
  }

  // A path that matches the pattern tells no date.
  lemma NothingRecovered(def: Definition, s: string)
    requires !Recoverable(def) && Match(def.grain, Pattern(def), s).Some?
    ensures RecoverWhen(def, Match(def.grain, Pattern(def), s).value) == Unknown
  {
    var caps := Match(def.grain, Pattern(def), s).value;
    MatchIsSound(def.grain, Pattern(def), s);
    CapturesHave(def.grain, Pattern(def), s, caps, DateField);
    CapturesHave(def.grain, Pattern(def), s, caps, KeyField);
    CapturesHave(def.grain, Pattern(def), s, caps, YearField);
  }

  lemma RenderedHasMatch(def: Definition, when: Date, ordinal: Option<nat>)
    requires Valid(when) && FieldsDefined(def)
    ensures var (folder, title) := RenderEntry(def, when, ordinal);
            Match(def.grain, Pattern(def), folder + "/" + title).Some?
  {
    var v := ValuesFor(def.grain, when, ordinal);
    RenderedValuesFit(def, when, ordinal);
    RenderedDecomposes(def.grain, Pattern(def), v);
    RenderPattern(def, v);
    MatchIsComplete(def.grain, Pattern(def), Render(Pattern(def), v), Captures(Pattern(def), v));
  }

  lemma SampledHasMatch(def: Definition, when: Date, folder: string, title: string)
    requires Valid(when) && FieldsDefined(def) && SampledEntry(def, when, (folder, title))
    ensures Match(def.grain, Pattern(def), folder + "/" + title).Some?
  {
    var first := FirstDate(def.grain, when);
    if def.many {
      var n: nat :| 1 <= n <= 20 && (folder, title) == RenderEntry(def, first, Some(n));
      RenderedHasMatch(def, first, Some(n));
    } else {
      RenderedHasMatch(def, first, None);
    }
  }

  /** Where no date can be recovered, a path is recognised if and only if it is an entry of the window. */
  lemma SampledMembership(def: Definition, folder: string, title: string, today: Date)
    requires FieldsDefined(def) && !Recoverable(def) && Valid(today)
    ensures Matches(def, folder, title, today)
            <==> 6 <= today.year <= 9994
                 && exists when :: WithinFiveYears(today, when) && SampledEntry(def, when, (folder, title))
  {
    var s := folder + "/" + title;
    WindowIsExact(def, today, (folder, title));
    if Match(def.grain, Pattern(def), s).Some? {
      NothingRecovered(def, s);
    }
    forall when | WithinFiveYears(today, when) && SampledEntry(def, when, (folder, title))
      ensures Match(def.grain, Pattern(def), s).Some?
    {
      SampledHasMatch(def, when, folder, title);
    }
  }

  // ---------- the static folder ----------

  ghost predicate Literal(t: Template, n: nat) {
    n <= |t| && forall i :: 0 <= i < n ==> t[i].Lit?
  }

  lemma InSnoc(t: string, c: char)
    ensures '/' in t + [c] <==> '/' in t || c == '/'
  {
  }

  lemma {:induction false} CutAtLastSlash(s: string) returns (tail: string)
    ensures '/' in s ==> s == BeforeLastSlash(s) + "/" + tail && '/' !in tail
    ensures '/' !in s ==> BeforeLastSlash(s) == ""
  {
    tail := "";
    if |s| > 0 {
      var t, c := s[..|s| - 1], s[|s| - 1];
      assert s == t + [c];
      InSnoc(t, c);
      if c == '/' {
        assert s == t + "/" + "";
      } else {
        var before := CutAtLastSlash(t);
        tail := before + [c];
        InSnoc(before, c);
        var head := BeforeLastSlash(t);
        assert head + "/" + before + [c] == head + "/" + (before + [c]);
      }
    }
  }

  lemma LeadTextStep(t: Template, v: Values, tail: string)
    requires |t| > 0 && t[0].Lit? && Render(t[1..], v) == LeadText(t[1..]) + tail
    ensures Render(t, v) == LeadText(t) + tail
  {
    var a, b := t[0].text, LeadText(t[1..]);
    assert a + (b + tail) == a + b + tail;
  }

  lemma {:induction false} LeadTextIs(t: Template, n: nat, v: Values)
    requires Literal(t, n) && (n == |t| || t[n].Slot?)
    ensures Render(t, v) == LeadText(t) + Render(t[n..], v)
    decreases n
  {
    if n > 0 {
      LeadTextIs(t[1..], n - 1, v);
      assert t[1..][n - 1..] == t[n..];
      LeadTextStep(t, v, Render(t[n..], v));
    } else {
      assert t[0..] == t;
    }
  }

  /** The scope of a folder template: all of it when it has no placeholder, and else the whole segments of
      what it renders before the first one. */
  lemma ScopeIsStatic(t: Template, n: nat, v: Values) returns (lead: string, tail: string)
    requires Literal(t, n) && (n == |t| || t[n].Slot?)
    ensures Render(t, v) == lead + Render(t[n..], v)
    ensures n == |t| ==> StaticText(t) == Render(t, v)
    ensures n < |t| && '/' in lead ==> lead == StaticText(t) + "/" + tail && '/' !in tail
    ensures n < |t| && '/' !in lead ==> StaticText(t) == ""
  {
    lead := LeadText(t);
    LeadTextIs(t, n, v);
    tail := CutAtLastSlash(lead);
    assert n < |t| ==> !t[n].Lit?;
    if n == |t| {
      assert lead + Render(t[n..], v) == lead;
    }
  }
}
