/** Exactly which definitions recognise all the entries they render. */
module Recognition {
  import opened Options
  import opened Decimals
  import opened Calendar
  import opened Periods
  import opened PeriodLaws
  import opened Templates
  import opened Readings
  import opened Collections

  // ---------- separated templates are readable ----------

  lemma {:induction false} SeparatedIsPinned(grain: Kind, t: Template, f: Field)
    requires Separated(grain, t)
    ensures Pinned(grain, t, f, false)
    decreases |t|
  {
    if |t| > 0 {
      SeparatedIsPinned(grain, t[1..], f);
    }
  }

  lemma SeparatedIsReadable(def: Definition)
    requires Separated(def.grain, Pattern(def))
    ensures Readable(def)
  {
    var t := Pattern(def);
    SeparatedIsPinned(def.grain, t, OrdinalField);
    SeparatedIsPinned(def.grain, t, DateField);
    SeparatedIsPinned(def.grain, t, KeyField);
    SeparatedIsPinned(def.grain, t, YearField);
    SeparatedIsPinned(def.grain, t, MonthField);
  }

  // A field with a dash in it cannot move within a run of digits.
  lemma {:induction false} DashedIsPinned(grain: Kind, t: Template, f: Field, loose: bool)
    requires f == DateField || (f == KeyField && grain != Year)
    requires loose ==> Tangled(grain, t)
    ensures Pinned(grain, t, f, loose)
    decreases |t|
  {
    if |t| > 0 {
      if HasField(t[1..], f) {
        DashedIsPinned(grain, t[1..], f, Loosens(grain, t, loose));
      } else if t[0] == Slot(f) && loose {
        DashedIsNotDigits(grain, f);
        TangledTail(grain, t);
      }
    }
  }

  // ---------- the confusing ordinal is an ordinal ----------

  predicate Numeral(n: string) {
    |n| >= 2 && n[0] == '1' && AllDigits(n)
  }

  lemma RunIsNumeral(grain: Kind, body: Template)
    requires DigitParts(grain, body) && |body| > 0 && body[|body| - 1] == Slot(OrdinalField)
    ensures Numeral("1" + Render(body, ZEROS))
  {
    ZerosAreRead(grain, body);
    var y := EndsInOrdinal(body, ZEROS);
    OneBefore(Render(body, ZEROS), y);
  }

  lemma OneBefore(zeros: string, y: string)
    requires AllDigits(zeros) && zeros == y + "1"
    ensures Numeral("1" + zeros)
  {
    var n := "1" + zeros;
    assert forall i :: 0 < i < |n| ==> n[i] == zeros[i - 1];
  }

  lemma {:induction false} ConfusingFacts(grain: Kind, t: Template, f: Field)
    requires !Pinned(grain, t, f, false)
    ensures Numeral(Confusing(grain, t, f)) && HasField(t, OrdinalField)
    decreases |t|, 1
  {
    UnpinnedNext(grain, t, f);
    HasFieldSplit(t, OrdinalField);
    if t[0] == Slot(OrdinalField) && Tangled(grain, t[1..]) {
      RunEndFacts(grain, t[1..]);
      var k := RunEnd(grain, t[1..]);
      ConfusingAfterRun(grain, t, t[1..][..k], t[1..][k..], f);
    } else {
      ConfusingFacts(grain, t[1..], f);
    }
  }

  lemma {:induction false} ConfusingAfterRun(grain: Kind, t: Template, body: Template, tail: Template, f: Field)
    requires |t| > 0 && t[0] == Slot(OrdinalField) && Tangled(grain, t[1..]) && HasField(t[1..], f)
      && !Pinned(grain, t[1..], f, true)
    requires RunEnd(grain, t[1..]) <= |t[1..]| && body == t[1..][..RunEnd(grain, t[1..])]
      && tail == t[1..][RunEnd(grain, t[1..])..]
    requires DigitParts(grain, body) && |body| > 0 && body[|body| - 1] == Slot(OrdinalField)
    ensures Numeral(Confusing(grain, t, f))
    decreases |t|, 0
  {
    ConfusingInRun(grain, t, body, tail, f);
    if HasField(tail, f) {
      assert |tail| < |t|;
      ConfusingFacts(grain, tail, f);
    } else {
      RunIsNumeral(grain, body);
    }
  }

  lemma {:induction false} DecimalOfValue(s: string)
    requires |s| > 0 && AllDigits(s) && s[0] != '0'
    ensures Decimal(Value(s)) == s && Value(s) > 0
  {
    var k := |s| - 1;
    if k == 0 {
      assert s[..0] == "" && Value(s[..0]) == 0;
    } else {
      DecimalOfValue(s[..k]);
      assert s == s[..k] + [s[k]];
    }
  }

  // ---------- lengths ----------

  function OrdinalCount(t: Template): nat {
    if |t| == 0 then 0 else (if t[0] == Slot(OrdinalField) then 1 else 0) + OrdinalCount(t[1..])
  }

  // What an entry's length is besides its ordinals.
  function FixedLength(grain: Kind, t: Template): nat {
    if |t| == 0 then 0
    else (if t[0] == Slot(OrdinalField) then 0 else |PartClasses(grain, t[0])|) + FixedLength(grain, t[1..])
  }

  lemma {:induction false} RenderedLength(grain: Kind, t: Template, v: Values)
    requires ValuesFit(grain, t, v)
    ensures |Render(t, v)| == FixedLength(grain, t) + OrdinalCount(t) * |v.ordinal|
  {
    if |t| > 0 {
      FitsParts(grain, t, 1, |t|, v);
      assert t[1..|t|] == t[1..];
      RenderedLength(grain, t[1..], v);
      if t[0] != Slot(OrdinalField) {
        PartClassesHold(grain, t[0], PartText(t[0], v));
      } else {
        Distribute(OrdinalCount(t[1..]), |v.ordinal|);
      }
    }
  }

  lemma Distribute(n: nat, w: nat)
    ensures (1 + n) * w == w + n * w
  {
  }

  lemma {:induction false} SomeOrdinals(t: Template)
    requires HasField(t, OrdinalField)
    ensures OrdinalCount(t) > 0
  {
    HasFieldSplit(t, OrdinalField);
    if t[0] != Slot(OrdinalField) {
      SomeOrdinals(t[1..]);
    }
  }

  lemma Multiples(c: nat, a: nat, b: nat)
    requires c > 0 && a < b
    ensures c * a < c * b
  {
  }

  // Entries whose ordinals differ in length are different paths, whatever their dates.
  lemma LengthsDiffer(def: Definition, a: Date, m: nat, b: Date, n: nat)
    requires Valid(a) && Valid(b) && FieldsDefined(def) && HasField(Pattern(def), OrdinalField)
      && |Decimal(m)| < |Decimal(n)|
    ensures RenderEntry(def, a, Some(m)) != RenderEntry(def, b, Some(n))
  {
    var t := Pattern(def);
    var v, w := ValuesFor(def.grain, a, Some(m)), ValuesFor(def.grain, b, Some(n));
    RenderedValuesFit(def, a, Some(m));
    RenderedValuesFit(def, b, Some(n));
    RenderedLength(def.grain, t, v);
    RenderedLength(def.grain, t, w);
    SomeOrdinals(t);
    Multiples(OrdinalCount(t), |v.ordinal|, |w.ordinal|);
    RenderPattern(def, v);
    RenderPattern(def, w);
  }

  // ---------- an unpinned field makes an entry unrecognised ----------

  lemma ZeroKeyIsInvalid()
    ensures !IsPeriod(Period(Year, "0000"))
  {
    var key := "0000";
    ZeroYear();
    assert Value(key) == 0;
  }

  lemma ZeroYear()
    ensures Value("0000") == 0 && Value("00") == 0
  {
    assert "0000"[..3] == "000" && "000"[..2] == "00" && "00"[..1] == "0" && "0"[..0] == "";
    assert Value("0") == 0;
    assert Value("00") == 0;
    assert Value("000") == 0;
  }

  // Zeros are no year, no month and no key.
  lemma ZerosAreInvalid(grain: Kind, year: Option<string>, month: Option<string>)
    requires grain != Week && year.Some?
    requires year == Some("0000") || month == Some("00")
    ensures RecoverFrom(grain, None, None, year, month) == Invalid
  {
    ZeroYear();
  }

  lemma OneIsShort(def: Definition, found: seq<string>, n: nat)
    requires Captured(Pattern(def), found, OrdinalField) == Some("1") && |Decimal(n)| >= 2
    ensures RecoverOrdinal(def, found) == Some(1) && |Decimal(1)| < |Decimal(n)|
  {
    assert "1"[..0] == "" && Value("") == 0;
  }

  // Which field of an unreadable definition is misread.
  lemma UnpinnedField(def: Definition) returns (f: Field)
    requires Recoverable(def) && !Readable(def)
    ensures !Pinned(def.grain, Pattern(def), f, false) && f != DateField
    ensures f == KeyField ==> def.grain == Year && !HasField(Pattern(def), DateField)
    ensures f == YearField || f == MonthField ==>
      !HasField(Pattern(def), DateField) && !HasField(Pattern(def), KeyField) && def.grain != Week
          && HasField(Pattern(def), YearField)
  {
    var t := Pattern(def);
    DashedIsPinned(def.grain, t, DateField, false);
    if def.grain != Year {
      DashedIsPinned(def.grain, t, KeyField, false);
    }
    if !Pinned(def.grain, t, OrdinalField, false) {
      f := OrdinalField;
    } else if HasField(t, KeyField) {
      f := KeyField;
    } else if !Pinned(def.grain, t, YearField, false) {
      f := YearField;
    } else {
      f := MonthField;
    }
  }

  // A date field read as zeros is rejected outright.
  lemma ZerosAreRejected(def: Definition, s: string, found: seq<string>, f: Field)
    requires Decomposes(def.grain, Pattern(def), s, found) && Captured(Pattern(def), found, f) == Some(TextOf(ZEROS, f))
    requires f == KeyField || f == YearField || f == MonthField
    requires f == KeyField ==> def.grain == Year && !HasField(Pattern(def), DateField)
    requires f != KeyField ==>
      !HasField(Pattern(def), DateField) && !HasField(Pattern(def), KeyField) && def.grain != Week
          && HasField(Pattern(def), YearField)
    ensures RecoverWhen(def, found) == Invalid
  {
    var t := Pattern(def);
    CapturesHave(def.grain, t, s, found, DateField);
    if f == KeyField {
      ZeroKeyIsInvalid();
    } else {
      CapturesHave(def.grain, t, s, found, KeyField);
      CapturesHave(def.grain, t, s, found, YearField);
      ZerosAreInvalid(def.grain, Captured(t, found, YearField), Captured(t, found, MonthField));
    }
  }

  lemma UnreadableIsRejected(def: Definition, when: Date, today: Date) returns (n: nat)
    requires Valid(when) && FieldsDefined(def) && Recoverable(def) && !Readable(def)
    ensures !Recognised(def, when, Some(n), today)
  {
    var t := Pattern(def);
    var f := UnpinnedField(def);
    ConfusingFacts(def.grain, t, f);
    var digits := Confusing(def.grain, t, f);
    n := Value(digits);
    DecimalOfValue(digits);
    RenderedValuesFit(def, when, Some(n));
    assert ValuesFor(def.grain, when, Some(n)).ordinal == digits;
    Misread(def.grain, t, f, ValuesFor(def.grain, when, Some(n)));
    RejectedBy(def, when, n, today, f);
  }

  lemma RejectedBy(def: Definition, when: Date, n: nat, today: Date, f: Field)
    requires Valid(when) && FieldsDefined(def) && |Decimal(n)| >= 2 && HasField(Pattern(def), OrdinalField)
    requires ReadAsZeros(def.grain, Pattern(def), f, ValuesFor(def.grain, when, Some(n))) && f != DateField
    requires f == KeyField ==> def.grain == Year && !HasField(Pattern(def), DateField)
    requires f == YearField || f == MonthField ==>
      !HasField(Pattern(def), DateField) && !HasField(Pattern(def), KeyField) && def.grain != Week
          && HasField(Pattern(def), YearField)
    requires Recoverable(def)
    ensures !Recognised(def, when, Some(n), today)
  {
    var t, v := Pattern(def), ValuesFor(def.grain, when, Some(n));
    var s := Render(t, v);
    var found := Match(def.grain, t, s).value;
    var (folder, title) := RenderEntry(def, when, Some(n));
    RenderPattern(def, v);
    assert s == folder + "/" + title;
    MatchIsSound(def.grain, t, s);
    if f == OrdinalField {
      OneIsShort(def, found, n);
      NeverUnknown(def, s, found);
      if RecoverWhen(def, found).When? {
        LengthsDiffer(def, RecoverWhen(def, found).date, 1, when, n);
      }
    } else {
      ZerosAreRejected(def, s, found, f);
    }
  }

  // A recoverable template never falls back to the sampled window.
  lemma NeverUnknown(def: Definition, s: string, found: seq<string>)
    requires Recoverable(def) && Decomposes(def.grain, Pattern(def), s, found)
    ensures !RecoverWhen(def, found).Unknown?
  {
    CapturesHave(def.grain, Pattern(def), s, found, DateField);
    CapturesHave(def.grain, Pattern(def), s, found, KeyField);
    CapturesHave(def.grain, Pattern(def), s, found, YearField);
  }

  /** A recoverable definition recognises every entry it renders for a date if and only if it is
      readable: no other ordinal shares a run of digits with its last one, and no ordinals
      enclose, within a run, the last use of a field the date is recovered from. */
  lemma RecognisedExactly(def: Definition, when: Date, today: Date)
    requires Valid(when) && FieldsDefined(def) && Recoverable(def)
    ensures (forall n: nat :: Recognised(def, when, Some(n), today)) <==> Readable(def)
  {
    if Readable(def) {
      forall n: nat ensures Recognised(def, when, Some(n), today) {
        RenderedIsMember(def, when, Some(n), today);
      }
    } else {
      var n := UnreadableIsRejected(def, when, today);
    }
  }
}
