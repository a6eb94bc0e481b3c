/**
 Why membership needs a separator between ordinals: a template ending in two adjacent
 ordinals recognises its own entries exactly up to ordinal nine.
 */
module AdjacentOrdinals {
  import opened Options
  import opened Sequences
  import opened Decimals
  import opened Calendar
  import opened Periods
  import opened Templates
  import opened Readings
  import opened Collections
  import opened Recognition
  import opened CollectionEntries

  const TWICE: Template := [Slot(OrdinalField), Slot(OrdinalField)]

  ghost predicate EndsTwice(t: Template, lead: Template) {
    t == lead + TWICE && !HasField(lead, OrdinalField)
  }

  lemma Twice(s: string, caps: seq<string>)
    requires |caps| == 2 && |caps[0]| > 0 && |caps[1]| > 0 && AllDigits(s) && s == caps[0] + caps[1]
    ensures forall grain :: Decomposes(grain, TWICE, s, caps)
  {
    var x, y := caps[0], caps[1];
    assert AllDigits(x) by { assert forall i :: 0 <= i < |x| ==> x[i] == s[i]; }
    assert AllDigits(y) by { assert forall i :: 0 <= i < |y| ==> y[i] == s[|x| + i]; }
    forall grain ensures Decomposes(grain, TWICE, s, caps) {
      assert s[|x|..] == y && y[|y|..] == "" && caps[1..] == [y];
      assert TWICE[1..] == [Slot(OrdinalField)] && TWICE[1..][1..] == [];
      assert Decomposes(grain, [], "", []);
      assert Decomposes(grain, TWICE[1..], y, [y]);
    }
  }

  // Digits never end in a newline.
  lemma DigitsEnd(s: string, k: nat)
    requires AllDigits(s) && k <= |s|
    ensures s[k..] != "\n"
  {
    if k < |s| {
      assert IsDigit(s[k]) && s[k..][0] == s[k];
    }
  }

  lemma TwiceOf(grain: Kind, s: string, caps: seq<string>)
    requires Decomposes(grain, TWICE, s, caps) && AllDigits(s)
    ensures |caps| == 2 && |caps[0]| > 0 && |caps[1]| > 0 && s == caps[0] + caps[1]
  {
    var x := caps[0];
    assert TWICE[1..] == [Slot(OrdinalField)] && TWICE[1..][1..] == [];
    assert Decomposes(grain, [Slot(OrdinalField)], s[|x|..], caps[1..]);
    var y := caps[1..][0];
    assert Decomposes(grain, [], s[|x|..][|y|..], caps[1..][1..]);
    var end := s[|x|..][|y|..];
    assert s == x + y + end;
    DigitsEnd(s, |x| + |y|);
    assert s[|x| + |y|..] == end;
  }

  // The lead is cut alike in every reading, and what follows is cut by the two ordinals.
  lemma {:induction false} LeadThenTwice(grain: Kind, t: Template, lead: Template, v: Values, tail: string,
                                         caps: seq<string>)
    requires EndsTwice(t, lead) && ValuesFit(grain, lead, v)
    ensures Decomposes(grain, t, Render(lead, v) + tail, caps)
            <==> Captures(lead, v) <= caps && Decomposes(grain, TWICE, tail, caps[|Captures(lead, v)|..])
    decreases |lead|
  {
    var s := Render(lead, v) + tail;
    if |lead| == 0 {
      assert t == TWICE && s == tail && caps[0..] == caps;
    } else {
      HasFieldSplit(lead, OrdinalField);
      var text := PartText(lead[0], v);
      assert t[0] == lead[0] && t[1..] == lead[1..] + TWICE;
      assert s == text + (Render(lead[1..], v) + tail);
      assert s[|text|..] == Render(lead[1..], v) + tail;
      if lead[0].Lit? {
        LeadThenTwice(grain, t[1..], lead[1..], v, tail, caps);
      } else {
        assert FieldFits(grain, lead[0].field, text);
        LeadSlot(grain, t, lead, v, tail, caps);
        PrefixCons(text, Captures(lead[1..], v), caps);
        if |caps| > 0 {
          LeadThenTwice(grain, t[1..], lead[1..], v, tail, caps[1..]);
        }
      }
    }
  }

  lemma PrefixCons(c: string, cs: seq<string>, caps: seq<string>)
    ensures [c] + cs <= caps <==> |caps| > 0 && caps[0] == c && cs <= caps[1..]
    ensures [c] + cs <= caps ==> caps[1..][|cs|..] == caps[|[c] + cs|..]
  {
    if |caps| > 0 {
      assert caps == [caps[0]] + caps[1..];
      if [c] + cs <= caps {
        assert caps[..|cs| + 1] == [c] + cs;
        assert caps[1..][..|cs|] == caps[..|cs| + 1][1..];
      }
    }
  }

  // A fixed-width slot has only one possible capture.
  lemma LeadSlot(grain: Kind, t: Template, lead: Template, v: Values, tail: string, caps: seq<string>)
    requires |lead| > 0 && lead[0].Slot? && lead[0].field != OrdinalField && t == lead + TWICE
    requires FieldFits(grain, lead[0].field, TextOf(v, lead[0].field))
    ensures var s := Render(lead, v) + tail;
            Decomposes(grain, t, s, caps)
            <==> |caps| > 0 && caps[0] == TextOf(v, lead[0].field)
                 && Decomposes(grain, t[1..], Render(lead[1..], v) + tail, caps[1..])
  {
    var text, u := TextOf(v, lead[0].field), Render(lead[1..], v) + tail;
    assert t[0] == lead[0];
    Regroup(text, Render(lead[1..], v), tail);
    DecomposesSlot(grain, t, text, u, caps);
  }

  lemma DecomposesSlot(grain: Kind, t: Template, text: string, u: string, caps: seq<string>)
    requires |t| > 0 && t[0].Slot? && t[0].field != OrdinalField && FieldFits(grain, t[0].field, text)
    ensures Decomposes(grain, t, text + u, caps)
      <==> |caps| > 0 && caps[0] == text && Decomposes(grain, t[1..], u, caps[1..])
  {
    var s := text + u;
    assert s[|text|..] == u && s[..|text|] == text;
    if |caps| > 0 && caps[0] <= s && FieldFits(grain, t[0].field, caps[0]) {
      assert |caps[0]| == |text| && caps[0] == s[..|text|];
    }
  }

  lemma {:induction false} FirstIsAfterLead(t: Template, lead: Template, v: Values)
    requires EndsTwice(t, lead)
    ensures FirstOrdinal(t) == |Captures(lead, v)| && HasField(t, OrdinalField)
    ensures Captures(t, v) == Captures(lead, v) + [v.ordinal, v.ordinal]
      && Render(t, v) == Render(lead, v) + (v.ordinal + v.ordinal)
    decreases |lead|
  {
    if |lead| == 0 {
      assert t == TWICE && t[0] == Slot(OrdinalField);
      assert t[1..] == [Slot(OrdinalField)] && t[1..][1..] == [];
      assert Captures(t[1..], v) == [v.ordinal] + Captures([], v);
      assert Render(t[1..], v) == v.ordinal + Render([], v);
    } else {
      HasFieldSplit(lead, OrdinalField);
      HasFieldSplit(t, OrdinalField);
      assert t[0] == lead[0] && t[1..] == lead[1..] + TWICE;
      FirstIsAfterLead(t[1..], lead[1..], v);
    }
  }

  lemma {:induction false} LastOrdinalWins(grain: Kind, t: Template, lead: Template, s: string, caps: seq<string>)
    requires EndsTwice(t, lead) && Decomposes(grain, t, s, caps)
    ensures |caps| >= 2 && Captured(t, caps, OrdinalField) == Some(caps[|caps| - 1])
    decreases |lead|
  {
    if |lead| == 0 {
      assert t == TWICE && t[1..] == [Slot(OrdinalField)] && t[1..][1..] == [];
      assert Decomposes(grain, t[1..], s[|caps[0]|..], caps[1..]);
      assert Decomposes(grain, [], s[|caps[0]|..][|caps[1]|..], caps[1..][1..]);
      assert Captured([], caps[1..][1..], OrdinalField) == None;
      assert Captured(t[1..], caps[1..], OrdinalField) == Some(caps[1]);
    } else {
      HasFieldSplit(lead, OrdinalField);
      assert t[0] == lead[0] && t[1..] == lead[1..] + TWICE;
      if t[0].Lit? {
        LastOrdinalWins(grain, t[1..], lead[1..], s[|t[0].text|..], caps);
      } else {
        LastOrdinalWins(grain, t[1..], lead[1..], s[|caps[0]|..], caps[1..]);
      }
    }
  }

  // Greedy matching leaves the second ordinal a single digit.
  lemma SecondIsOneDigit(grain: Kind, t: Template, lead: Template, v: Values) returns (x: string, y: string)
    requires EndsTwice(t, lead) && ValuesFit(grain, lead, v) && |v.ordinal| > 0 && AllDigits(v.ordinal)
    ensures Match(grain, t, Render(t, v)) == Some(Captures(lead, v) + [x, y])
    ensures |y| == 1 && x + y == v.ordinal + v.ordinal
    ensures Decomposes(grain, t, Render(t, v), Captures(lead, v) + [x, y])
  {
    var digits, c := v.ordinal + v.ordinal, Captures(lead, v);
    var n, k := |c|, |digits| - 1;
    var cut := c + [digits[..k], digits[k..]];
    var s := Render(t, v);
    FirstIsAfterLead(t, lead, v);
    assert cut[n..] == [digits[..k], digits[k..]];
    Twice(digits, cut[n..]);
    LeadThenTwice(grain, t, lead, v, digits, cut);
    MatchIsComplete(grain, t, s, cut);
    MatchIsSound(grain, t, s);
    var found := Match(grain, t, s).value;
    LeadThenTwice(grain, t, lead, v, digits, found);
    TwiceOf(grain, digits, found[n..]);
    x, y := found[n], found[n + 1];
    EndsInPair(c, found);
    assert digits[..k] == cut[n] <= found[n];
  }

  lemma EndsInPair(c: seq<string>, found: seq<string>)
    requires c <= found && |found[|c|..]| == 2
    ensures found == c + [found[|c|], found[|c| + 1]] && found[|c|..] == [found[|c|], found[|c| + 1]]
  {
  }

  lemma {:induction false} DecimalLength(n: nat)
    ensures |Decimal(n)| == 1 <==> n < 10
  {
  }

  lemma LeadFits(def: Definition, lead: Template, when: Date, ordinal: Option<nat>)
    requires Valid(when) && FieldsDefined(def) && EndsTwice(Pattern(def), lead)
    ensures ValuesFit(def.grain, lead, ValuesFor(def.grain, when, ordinal))
  {
    RenderedValuesFit(def, when, ordinal);
    assert forall i :: 0 <= i < |lead| ==> lead[i] == Pattern(def)[i];
  }

  // With one digit each, the two ordinals can only be read as they were written.
  lemma OneDigitReadsBack(grain: Kind, t: Template, lead: Template, v: Values)
    requires EndsTwice(t, lead) && ValuesFit(grain, lead, v) && |v.ordinal| == 1 && AllDigits(v.ordinal)
    ensures Match(grain, t, Render(t, v)) == Some(Captures(t, v))
  {
    var x, y := SecondIsOneDigit(grain, t, lead, v);
    FirstIsAfterLead(t, lead, v);
    assert x == (x + y)[..1] && y == (x + y)[1..];
  }

  lemma OneDigitIsSmall(y: string)
    requires |y| == 1 && AllDigits(y)
    ensures Value(y) < 10
  {
    assert y[..|y| - 1] == "";
    assert Value(y[..|y| - 1]) == 0;
  }

  // What is recovered renders shorter than what was read.
  lemma TooFewDigits(def: Definition, lead: Template, when: Date, n: nat, found: seq<string>, s: string)
    requires Valid(when) && FieldsDefined(def) && EndsTwice(Pattern(def), lead) && n >= 10
    requires Decomposes(def.grain, Pattern(def), s, found) && |found| >= 2 && |found[|found| - 1]| == 1
    ensures forall d :: Valid(d) ==> RenderEntry(def, d, RecoverOrdinal(def, found)) != RenderEntry(def, when, Some(n))
  {
    LastOrdinalWins(def.grain, Pattern(def), lead, s, found);
    CapturesHave(def.grain, Pattern(def), s, found, OrdinalField);
    var y := found[|found| - 1];
    var m := Value(y);
    OneDigitIsSmall(y);
    DecimalLength(m);
    DecimalLength(n);
    assert HasField(Pattern(def), OrdinalField) by { assert Pattern(def)[|lead|] == Slot(OrdinalField); }
    forall d | Valid(d) ensures RenderEntry(def, d, Some(m)) != RenderEntry(def, when, Some(n)) {
      LengthsDiffer(def, d, m, when, n);
    }
  }

  lemma ManyDigitsAreRejected(def: Definition, lead: Template, when: Date, n: nat, today: Date, folder: string,
                              title: string)
    requires Valid(when) && FieldsDefined(def) && Recoverable(def) && EndsTwice(Pattern(def), lead) && n >= 10
    requires (folder, title) == RenderEntry(def, when, Some(n))
    ensures !Matches(def, folder, title, today)
  {
    var v := ValuesFor(def.grain, when, Some(n));
    RenderPattern(def, v);
    LeadFits(def, lead, when, Some(n));
    var x, y := SecondIsOneDigit(def.grain, Pattern(def), lead, v);
    var s, found := folder + "/" + title, Captures(lead, v) + [x, y];
    NeverUnknown(def, s, found);
    TooFewDigits(def, lead, when, n, found, s);
  }

  /** A template whose pattern ends in two adjacent ordinals recognises the entry it renders if
      and only if the ordinal has a single digit. */
  lemma AdjacentOrdinalsBreak(def: Definition, lead: Template, when: Date, n: nat, today: Date)
    requires Valid(when) && FieldsDefined(def) && Recoverable(def) && EndsTwice(Pattern(def), lead)
    ensures var (folder, title) := RenderEntry(def, when, Some(n));
            Matches(def, folder, title, today) <==> n < 10
  {
    var (folder, title) := RenderEntry(def, when, Some(n));
    if n < 10 {
      LeadFits(def, lead, when, Some(n));
      DecimalLength(n);
      OneDigitReadsBack(def.grain, Pattern(def), lead, ValuesFor(def.grain, when, Some(n)));
      ReadBackIsMember(def, when, Some(n), today, Captures(Pattern(def), ValuesFor(def.grain, when, Some(n))));
    } else {
      ManyDigitsAreRejected(def, lead, when, n, today, folder, title);
    }
  }

  // ---------- allocation jumps ----------

  const DOUBLED := Definition(Day, true, [Slot(DateField)], [Slot(OrdinalField), Slot(OrdinalField)])

  lemma DoubledScope()
    ensures StaticPrefix(DOUBLED.folder) == ""
  {
    assert DOUBLED.folder[0].Slot?;
    assert !AllLiteral(DOUBLED.folder) && LeadText(DOUBLED.folder) == "";
  }

  // The filled pattern is the date, a slash and the two ordinals.
  lemma DoubledFill(v: Values)
    ensures Fill(Pattern(DOUBLED), v) == [Lit(v.date), Lit("/")] + TWICE
  {
    var p := Pattern(DOUBLED);
    assert p == [Slot(DateField), Lit("/"), Slot(OrdinalField), Slot(OrdinalField)];
    assert p[1..] == [Lit("/"), Slot(OrdinalField), Slot(OrdinalField)];
    assert p[1..][1..] == TWICE && TWICE[1..] == [Slot(OrdinalField)] && TWICE[1..][1..] == [];
    assert Fill(TWICE[1..], v) == [Slot(OrdinalField)];
    assert Fill(TWICE, v) == TWICE;
    assert Fill(p[1..], v) == [Lit("/")] + TWICE;
  }

  lemma TwelveTwelve(x: string, y: string)
    requires |y| == 1 && x + y == "12" + "12"
    ensures MaxValue([x, y]) == 121
  {
    var s := x + y;
    assert |s| == 4 && x == s[..3] == "121" && y == s[3..] == "2";
    assert "121"[..2] == "12" && "12"[..1] == "1" && "1"[..0] == "" && "2"[..0] == "";
    assert Value("1") == 1 && Value("12") == 12 && Value("121") == 121 && Value("2") == 2;
    assert [x, y][1..] == [y] && [y][1..] == [];
    assert MaxValue([y]) == 2;
  }

  lemma Twelve()
    ensures Decimal(12) == "12"
  {
    assert Decimal(1) == "1" && Digit(2) == '2';
  }

  lemma DoubledMatch(v: Values, w: Values) returns (x: string, y: string)
    requires w.ordinal == "12"
    ensures |y| == 1 && x + y == "12" + "12"
    ensures Match(Day, [Lit(v.date), Lit("/")] + TWICE, Render([Lit(v.date), Lit("/")] + TWICE, w)) == Some([x, y])
  {
    var lead := [Lit(v.date), Lit("/")];
    x, y := SecondIsOneDigit(Day, lead + TWICE, lead, w);
    assert lead[1..] == [Lit("/")] && lead[1..][1..] == [];
    assert Captures([], w) == [] && Captures(lead[1..], w) == [] && Captures(lead, w) == [];
    assert [] + [x, y] == [x, y];
  }

  lemma DoubledReads(when: Date)
    requires Valid(when)
    ensures ReadOrdinal(DOUBLED, when, RenderEntry(DOUBLED, when, Some(12))) == 121
  {
    var v, w := ValuesFor(Day, when, None), ValuesFor(Day, when, Some(12));
    Twelve();
    DoubledScope();
    DoubledFill(v);
    DoubledFill(w);
    FilledRendersSame(Pattern(DOUBLED), w);
    RenderPattern(DOUBLED, w);
    var x, y := DoubledMatch(v, w);
    TwelveTwelve(x, y);
    DoubledIsRead(when, [x, y]);
  }

  lemma DoubledIsRead(when: Date, caps: seq<string>)
    requires Valid(when)
    requires var note := RenderEntry(DOUBLED, when, Some(12));
      Match(Day, Fill(Pattern(DOUBLED), ValuesFor(Day, when, None)), note.0 + "/" + note.1) == Some(caps)
    ensures ReadOrdinal(DOUBLED, when, RenderEntry(DOUBLED, when, Some(12))) == MaxValue(caps)
  {
    DoubledScope();
  }

  /** Two adjacent ordinals make allocation jump: next to the twelfth entry, ordinal 122 is next. */
  lemma AllocationJumps(when: Date)
    requires Valid(when)
    ensures Allocated(DOUBLED, when, [RenderEntry(DOUBLED, when, Some(12))]) == 122
  {
    DoubledReads(when);
    LargestOfOne(ReadOrdinals(DOUBLED, when, [RenderEntry(DOUBLED, when, Some(12))]), 121);
  }

  lemma LargestOfOne(xs: seq<nat>, n: nat)
    requires |xs| == 1 && xs[0] == n
    ensures Largest(xs) == n
  {
    assert xs[..0] == [];
  }
}
