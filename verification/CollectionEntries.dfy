/** Enumerating a collection's window, and allocating the next entry's ordinal. */
module CollectionEntries {
  import opened Options
  import opened Text
  import opened Decimals
  import opened Calendar
  import opened Periods
  import opened PeriodLaws
  import opened Templates
  import opened Readings
  import opened Collections
  import opened Recognition

  // ---------- render_set ----------

  // One of the first n - 1 entries of the date.
  ghost predicate RendersBelow(def: Definition, when: Date, n: nat, pair: (string, string))
    requires Valid(when)
  {
    exists k: nat :: 1 <= k < n && pair == RenderEntry(def, when, Some(k))
  }

  lemma BelowGrows(def: Definition, when: Date, n: nat, pair: (string, string))
    requires Valid(when) && n >= 1
    ensures RendersBelow(def, when, n + 1, pair)
      <==> RendersBelow(def, when, n, pair) || pair == RenderEntry(def, when, Some(n))
  {
    if RendersBelow(def, when, n + 1, pair) && pair != RenderEntry(def, when, Some(n)) {
      var k: nat :| 1 <= k < n + 1 && pair == RenderEntry(def, when, Some(k));
      assert k != n;
    }
  }

  lemma BelowIsSampled(def: Definition, p: Period, pair: (string, string))
    requires IsPeriod(p) && def.many
    ensures RendersTo(def, p, pair) <==> RendersBelow(def, Start(p), MAX_ORDINAL_SAMPLED + 1, pair)
  {
    if RendersTo(def, p, pair) {
      var o :| Sampled(def, o) && pair == RenderEntry(def, Start(p), o);
      assert o == Some(o.value);
    }
    if RendersBelow(def, Start(p), MAX_ORDINAL_SAMPLED + 1, pair) {
      var k: nat :| 1 <= k < MAX_ORDINAL_SAMPLED + 1 && pair == RenderEntry(def, Start(p), Some(k));
      assert Sampled(def, Some(k));
    }
  }

  lemma OnlyUnnumbered(def: Definition, p: Period, pair: (string, string))
    requires IsPeriod(p) && !def.many
    ensures RendersTo(def, p, pair) <==> pair == RenderEntry(def, Start(p), None)
  {
    assert Sampled(def, None);
  }

  method AddRenders(def: Definition, p: Period, given: set<(string, string)>) returns (rendered: set<(string, string)>)
    requires IsPeriod(p)
    ensures forall pair :: pair in rendered <==> pair in given || RendersTo(def, p, pair)
  {
    rendered := given;
    if !def.many {
      rendered := rendered + {RenderEntry(def, Start(p), None)};
      forall pair ensures pair in rendered <==> pair in given || RendersTo(def, p, pair) {
        OnlyUnnumbered(def, p, pair);
      }
    } else {
      rendered := AddNumbered(def, Start(p), given);
      forall pair ensures pair in rendered <==> pair in given || RendersTo(def, p, pair) {
        BelowIsSampled(def, p, pair);
      }
    }
  }

  method AddNumbered(def: Definition, when: Date, given: set<(string, string)>)
    returns (rendered: set<(string, string)>)
    requires Valid(when)
    ensures forall pair :: pair in rendered <==> pair in given || RendersBelow(def, when, MAX_ORDINAL_SAMPLED + 1, pair)
  {
    rendered := given;
    for n := 1 to MAX_ORDINAL_SAMPLED + 1
      invariant forall pair :: pair in rendered <==> pair in given || RendersBelow(def, when, n, pair)
    {
      forall pair ensures RendersBelow(def, when, n + 1, pair)
          <==> RendersBelow(def, when, n, pair) || pair == RenderEntry(def, when, Some(n)) {
        BelowGrows(def, when, n, pair);
      }
      rendered := rendered + {RenderEntry(def, when, Some(n))};
    }
  }

  lemma NumbersGrow(def: Definition, lo: int, p: Period, pair: (string, string))
    requires IsPeriod(p) && p.kind == def.grain && lo <= NumberOf(p)
    ensures InNumbers(def, lo, NumberOf(p), pair)
      <==> InNumbers(def, lo, NumberOf(p) - 1, pair) || RendersTo(def, p, pair)
  {
    if InNumbers(def, lo, NumberOf(p), pair) {
      var q :| IsPeriod(q) && q.kind == def.grain && lo <= NumberOf(q) <= NumberOf(p) && RendersTo(def, q, pair);
      SameNumber(p, q);
    }
  }

  // Exactly the paths rendered by the periods with these numbers.
  ghost predicate Collected(def: Definition, rendered: set<(string, string)>, lo: int, hi: int) {
    forall pair :: pair in rendered <==> InNumbers(def, lo, hi, pair)
  }

  ghost predicate Consecutive(ps: seq<Period>, kind: Kind, first: int) {
    forall i :: 0 <= i < |ps| ==> IsPeriod(ps[i]) && ps[i].kind == kind && NumberOf(ps[i]) == first + i
  }

  /** The sampling loop visits every period of its window once, in order, stops, and collects
      exactly the paths those periods render. */
  method RenderSet(def: Definition, today: Date) returns (r: Option<set<(string, string)>>, ghost visited: seq<Period>)
    ensures r.Some? <==> HasWindow(today)
    ensures r.Some? ==> forall pair :: pair in r.value <==> InWindow(def, today, pair)
    ensures r.Some? ==> Consecutive(visited, def.grain, Number(def.grain, WindowStart(today)))
    ensures r.Some? ==> |visited| == Number(def.grain, WindowEnd(today)) - Number(def.grain, WindowStart(today)) + 1
  {
    visited := [];
    if !HasWindow(today) {
      return None, [];
    }
    WindowIsOrdered(def.grain, today);
    PeriodNumber(def.grain, WindowStart(today));
    PeriodNumber(def.grain, WindowEnd(today));
    var rendered;
    rendered, visited := RenderBetween(def, Containing(WindowStart(today), def.grain),
        Containing(WindowEnd(today), def.grain));
    r := Some(rendered);
  }

  method RenderBetween(def: Definition, start: Period, end: Period)
    returns (rendered: set<(string, string)>, ghost visited: seq<Period>)
    requires IsPeriod(start) && IsPeriod(end) && start.kind == end.kind == def.grain && NumberOf(start) <= NumberOf(end)
    ensures Collected(def, rendered, NumberOf(start), NumberOf(end))
    ensures Consecutive(visited, def.grain, NumberOf(start)) && |visited| == NumberOf(end) - NumberOf(start) + 1
  {
    rendered, visited := {}, [];
    var period := start;
    ghost var lo, hi, k := NumberOf(start), NumberOf(end), NumberOf(start);
    while true
      invariant IsPeriod(period) && period.kind == def.grain && k == NumberOf(period) && lo <= k <= hi
      invariant Collected(def, rendered, lo, k - 1)
      invariant Consecutive(visited, def.grain, lo) && |visited| == k - lo
      decreases hi - k
    {
      rendered := AddCollected(def, period, rendered, lo);
      visited := Extended(visited, period, def.grain, lo);
      if period == end {
        break;
      }
      period := Advance(period, end);
      k := k + 1;
    }
  }

  ghost function Extended(ps: seq<Period>, p: Period, kind: Kind, first: int): (r: seq<Period>)
    requires Consecutive(ps, kind, first) && IsPeriod(p) && p.kind == kind && NumberOf(p) == first + |ps|
    ensures Consecutive(r, kind, first) && |r| == |ps| + 1
  {
    ps + [p]
  }

  method Advance(p: Period, ghost end: Period) returns (q: Period)
    requires IsPeriod(p) && IsPeriod(end) && p.kind == end.kind && NumberOf(p) <= NumberOf(end) && p != end
    ensures Next(p) == Some(q) && IsPeriod(q) && q.kind == p.kind && NumberOf(q) == NumberOf(p) + 1 <= NumberOf(end)
  {
    NextWithin(p, end);
    q := Next(p).value;
  }

  method AddCollected(def: Definition, p: Period, given: set<(string, string)>, ghost lo: int)
    returns (rendered: set<(string, string)>)
    requires IsPeriod(p) && p.kind == def.grain && lo <= NumberOf(p) && Collected(def, given, lo, NumberOf(p) - 1)
    ensures Collected(def, rendered, lo, NumberOf(p))
  {
    rendered := AddRenders(def, p, given);
    forall pair ensures pair in rendered <==> InNumbers(def, lo, NumberOf(p), pair) {
      NumbersGrow(def, lo, p, pair);
    }
  }

  lemma NextWithin(p: Period, end: Period)
    requires IsPeriod(p) && IsPeriod(end) && p.kind == end.kind && NumberOf(p) <= NumberOf(end) && p != end
    ensures Next(p).Some? && IsPeriod(Next(p).value) && Next(p).value.kind == p.kind
    ensures NumberOf(Next(p).value) == NumberOf(p) + 1 <= NumberOf(end)
  {
    SameNumber(p, end);
    NextIsNext(p);
    NumberInRange(end.kind, Start(end));
  }

  lemma PeriodNumber(kind: Kind, d: Date)
    requires Valid(d)
    ensures IsPeriod(Containing(d, kind)) && NumberOf(Containing(d, kind)) == Number(kind, d)
  {
    ContainingIsPeriod(d, kind);
    NumberOfFirst(kind, d);
  }

  lemma WindowIsOrdered(kind: Kind, today: Date)
    requires HasWindow(today)
    ensures Number(kind, WindowStart(today)) <= Number(kind, WindowEnd(today))
  {
    OrdinalOrder(WindowStart(today), WindowEnd(today));
    OrdinalInYear(WindowStart(today));
  }

  // ---------- siblings of a new entry ----------

  // The pattern of all entries of one date: every placeholder but the ordinal is filled in.
  function Fill(t: Template, v: Values): Template {
    if |t| == 0 then []
    else [if t[0].Slot? && t[0].field != OrdinalField then Lit(TextOf(v, t[0].field)) else t[0]] + Fill(t[1..], v)
  }

  lemma {:induction false} FilledRendersSame(t: Template, v: Values)
    ensures Render(Fill(t, v), v) == Render(t, v)
    ensures HasField(Fill(t, v), OrdinalField) <==> HasField(t, OrdinalField)
    ensures FirstOrdinal(Fill(t, v)) == 0
    ensures forall i :: 0 <= i < |Fill(t, v)| && Fill(t, v)[i].Slot? ==> Fill(t, v)[i].field == OrdinalField
  {
    if |t| > 0 {
      FilledRendersSame(t[1..], v);
      HasFieldSplit(t, OrdinalField);
      HasFieldSplit(Fill(t, v), OrdinalField);
      assert Fill(t, v)[1..] == Fill(t[1..], v);
    }
  }

  lemma {:induction false} FillIgnoresOrdinal(t: Template, v: Values, ordinal: string)
    ensures Fill(t, v.(ordinal := ordinal)) == Fill(t, v)
  {
    if |t| > 0 {
      FillIgnoresOrdinal(t[1..], v, ordinal);
    }
  }

  function MaxValue(caps: seq<string>): nat {
    if |caps| == 0 then 0
    else
      var rest := MaxValue(caps[1..]);
      if AllDigits(caps[0]) && Value(caps[0]) > rest then Value(caps[0]) else rest
  }

  lemma {:induction false} ValueOfLonger(a: string, b: string)
    requires AllDigits(b) && a <= b
    ensures AllDigits(a) && Value(a) <= Value(b)
    decreases |b|
  {
    assert forall i :: 0 <= i < |a| ==> a[i] == b[i];
    if |a| < |b| {
      ValueOfLonger(a, b[..|b| - 1]);
    } else {
      assert a == b;
    }
  }

  /** Whatever the template, the sibling pattern reads from an entry with ordinal n a number
      that is at least n. */
  lemma SiblingReadsAtLeast(def: Definition, when: Date, n: nat)
    requires Valid(when) && HasField(Pattern(def), OrdinalField)
    ensures var v := ValuesFor(def.grain, when, None);
            var (folder, title) := RenderEntry(def, when, Some(n));
            var m := Match(def.grain, Fill(Pattern(def), v), folder + "/" + title);
            m.Some? && MaxValue(m.value) >= n
  {
    var v, w := ValuesFor(def.grain, when, None), ValuesFor(def.grain, when, Some(n));
    assert w == v.(ordinal := Decimal(n));
    FillIgnoresOrdinal(Pattern(def), v, Decimal(n));
    FilledRendersSame(Pattern(def), w);
    RenderPattern(def, w);
    OrdinalsReadAtLeast(def.grain, Fill(Pattern(def), v), w, n);
  }

  // A pattern whose only placeholders are ordinals reads at least what was rendered.
  lemma OrdinalsReadAtLeast(grain: Kind, t: Template, w: Values, n: nat)
    requires w.ordinal == Decimal(n) && HasField(t, OrdinalField) && FirstOrdinal(t) == 0
    requires forall i :: 0 <= i < |t| && t[i].Slot? ==> t[i].field == OrdinalField
    ensures Match(grain, t, Render(t, w)).Some? && MaxValue(Match(grain, t, Render(t, w)).value) >= n
  {
    var s, caps := Render(t, w), Captures(t, w);
    RenderedDecomposes(grain, t, w);
    MatchIsComplete(grain, t, s, caps);
    MatchIsSound(grain, t, s);
    var found := Match(grain, t, s).value;
    CapturesAreOrdinals(grain, t, w);
    FoundAreDigits(grain, t, s, found);
    ValueOfDecimal(n);
    ValueOfLonger(caps[0], found[0]);
  }

  lemma {:induction false} MaxOfSame(caps: seq<string>, n: nat)
    requires |caps| > 0 && forall i :: 0 <= i < |caps| ==> AllDigits(caps[i]) && Value(caps[i]) == n
    ensures MaxValue(caps) == n
  {
    if |caps| > 1 {
      MaxOfSame(caps[1..], n);
    } else {
      assert MaxValue(caps[1..]) == 0;
    }
  }

  /** Where the filled pattern can be read in one way only, it reads exactly n. */
  lemma SiblingReadsExactly(def: Definition, when: Date, n: nat)
    requires Valid(when) && HasField(Pattern(def), OrdinalField)
    requires Separated(def.grain, Fill(Pattern(def), ValuesFor(def.grain, when, None)))
    ensures var v := ValuesFor(def.grain, when, None);
            var (folder, title) := RenderEntry(def, when, Some(n));
            var m := Match(def.grain, Fill(Pattern(def), v), folder + "/" + title);
            m.Some? && MaxValue(m.value) == n
  {
    var v, w := ValuesFor(def.grain, when, None), ValuesFor(def.grain, when, Some(n));
    assert w == v.(ordinal := Decimal(n));
    FillIgnoresOrdinal(Pattern(def), v, Decimal(n));
    FilledRendersSame(Pattern(def), w);
    RenderPattern(def, w);
    OrdinalsReadExactly(def.grain, Fill(Pattern(def), v), w, n);
  }

  lemma OrdinalsReadExactly(grain: Kind, t: Template, w: Values, n: nat)
    requires w.ordinal == Decimal(n) && HasField(t, OrdinalField) && FirstOrdinal(t) == 0 && Separated(grain, t)
    requires forall i :: 0 <= i < |t| && t[i].Slot? ==> t[i].field == OrdinalField
    ensures Match(grain, t, Render(t, w)).Some? && MaxValue(Match(grain, t, Render(t, w)).value) == n
  {
    RenderedIsMatched(grain, t, w);
    CapturesAreOrdinals(grain, t, w);
    RenderedDecomposes(grain, t, w);
    MatchIsComplete(grain, t, Render(t, w), Captures(t, w));
    ValueOfDecimal(n);
    MaxOfSame(Captures(t, w), n);
  }

  lemma {:induction false} CapturesAreOrdinals(grain: Kind, t: Template, v: Values)
    requires forall i :: 0 <= i < |t| && t[i].Slot? ==> t[i].field == OrdinalField
    ensures forall i :: 0 <= i < |Captures(t, v)| ==> Captures(t, v)[i] == v.ordinal
  {
    if |t| > 0 {
      CapturesAreOrdinals(grain, t[1..], v);
    }
  }

  lemma {:induction false} FoundAreDigits(grain: Kind, t: Template, s: string, caps: seq<string>)
    requires Decomposes(grain, t, s, caps) && forall i :: 0 <= i < |t| && t[i].Slot? ==> t[i].field == OrdinalField
    ensures forall i :: 0 <= i < |caps| ==> AllDigits(caps[i])
    decreases |t|
  {
    if |t| > 0 {
      if t[0].Lit? {
        FoundAreDigits(grain, t[1..], s[|t[0].text|..], caps);
      } else {
        FoundAreDigits(grain, t[1..], s[|caps[0]|..], caps[1..]);
        assert forall i :: 0 < i < |caps| ==> caps[i] == caps[1..][i - 1];
      }
    }
  }

  // ---------- the scope siblings are looked up in ----------

  predicate IsBrace(c: char) {
    c == '{' || c == '}'
  }

  // The literal text before the first placeholder.
  function LeadText(t: Template): string {
    if |t| == 0 || t[0].Slot? then "" else t[0].text + LeadText(t[1..])
  }

  predicate AllLiteral(t: Template) {
    forall i :: 0 <= i < |t| ==> t[i].Lit?
  }

  function BeforeLastSlash(s: string): string {
    if |s| == 0 then "" else if s[|s| - 1] == '/' then s[..|s| - 1] else BeforeLastSlash(s[..|s| - 1])
  }

  // The rendered static segments of a folder template.
  function StaticText(t: Template): string {
    if AllLiteral(t) then LeadText(t) else BeforeLastSlash(LeadText(t))
  }

  // Braces are doubled in the template's own spelling.
  function Escape(s: string): string {
    if |s| == 0 then "" else (if IsBrace(s[0]) then [s[0], s[0]] else [s[0]]) + Escape(s[1..])
  }

  // The scope is cut from the template's spelling, not from what it renders.
  function StaticPrefix(t: Template): string {
    Escape(StaticText(t))
  }

  predicate Under(folder: string, prefix: string) {
    folder == prefix || prefix + "/" <= folder
  }

  // Whole segments: "notes/ab" is not under "notes/a".
  lemma UnderBySegments(folder: string, prefix: string)
    ensures Under(folder, prefix) <==> Split(prefix, '/') <= Split(folder, '/')
  {
    GoesOnByParts(prefix, folder, '/');
    if prefix + "/" <= folder {
      assert folder[|prefix|] == (prefix + "/")[|prefix|] && folder[..|prefix|] == prefix;
    }
    if prefix <= folder && |prefix| < |folder| && folder[|prefix|] == '/' {
      assert prefix + "/" == folder[..|prefix| + 1];
    }
  }

  predicate InScope(folder: string, prefix: string) {
    |prefix| == 0 || Under(folder, prefix)
  }

  lemma {:induction false} LeadTextLeads(t: Template, v: Values)
    ensures LeadText(t) <= Render(t, v)
    ensures AllLiteral(t) ==> LeadText(t) == Render(t, v)
  {
    if |t| > 0 && t[0].Lit? {
      LeadTextLeads(t[1..], v);
      assert AllLiteral(t) ==> AllLiteral(t[1..]);
      var a, b, r := t[0].text, LeadText(t[1..]), Render(t[1..], v);
      assert b <= r && a + b <= a + r;
    }
  }

  lemma {:induction false} SlashFollows(s: string)
    ensures |BeforeLastSlash(s)| > 0 ==> BeforeLastSlash(s) + "/" <= s
  {
    if |s| > 0 {
      if s[|s| - 1] == '/' {
        assert s == s[..|s| - 1] + "/";
      } else {
        SlashFollows(s[..|s| - 1]);
      }
    }
  }

  // What follows the static text in a rendered folder is nothing or starts a new segment.
  lemma StaticTextLeads(t: Template, v: Values)
    requires |StaticText(t)| > 0
    ensures Under(Render(t, v), StaticText(t))
  {
    LeadTextLeads(t, v);
    if !AllLiteral(t) {
      SlashFollows(LeadText(t));
      var x, y, z := StaticText(t) + "/", LeadText(t), Render(t, v);
      assert x <= y && y <= z;
      assert z[..|x|] == y[..|x|] == x;
    }
  }

  function Braces(s: string): nat {
    if |s| == 0 then 0 else (if IsBrace(s[0]) then 1 else 0) + Braces(s[1..])
  }

  lemma {:induction false} BracesAppend(a: string, b: string)
    ensures Braces(a + b) == Braces(a) + Braces(b)
  {
    if |a| == 0 {
      assert a + b == b;
    } else {
      assert (a + b)[1..] == a[1..] + b;
      BracesAppend(a[1..], b);
    }
  }

  lemma {:induction false} EscapeFacts(s: string)
    ensures |Escape(s)| == |s| + Braces(s) && Braces(Escape(s)) == 2 * Braces(s)
    ensures Braces(s) == 0 ==> Escape(s) == s
  {
    if |s| > 0 {
      EscapeFacts(s[1..]);
      var head := if IsBrace(s[0]) then [s[0], s[0]] else [s[0]];
      BracesAppend(head, Escape(s[1..]));
      assert head[1..] == if IsBrace(s[0]) then [s[0]] else "";
      assert s == [s[0]] + s[1..];
    }
  }

  lemma {:induction false} BracesBound(s: string)
    ensures Braces(s) <= |s|
    ensures |s| > 0 && !IsBrace(s[0]) ==> Braces(s) < |s|
  {
    if |s| > 0 {
      BracesBound(s[1..]);
    }
  }

  // Doubled braces cannot be a prefix of the text that has them once.
  lemma EscapedIsNoPrefix(x: string, y: string)
    requires |y| > 0 ==> y[0] == '/'
    requires Escape(x) <= x + y
    ensures Braces(x) == 0
  {
    assert forall k :: 0 < k <= |y| ==> y[..k][0] == '/';
    EscapeFacts(x);
    var more := y[..Braces(x)];
    assert Escape(x) == x + more;
    BracesAppend(x, more);
    BracesBound(more);
  }

  // A folder under x is under the escaped x only when escaping changes nothing.
  lemma UnderEscaped(x: string, folder: string)
    requires Under(folder, x)
    ensures Under(folder, Escape(x)) <==> Braces(x) == 0
  {
    EscapeFacts(x);
    if Under(folder, Escape(x)) {
      var y := AfterPrefix(x, folder);
      EscapedIsNoPrefix(x, y);
    }
  }

  lemma AfterPrefix(x: string, folder: string) returns (y: string)
    requires Under(folder, x)
    ensures folder == x + y && (|y| > 0 ==> y[0] == '/')
  {
    y := folder[|x|..];
    if folder != x {
      assert folder[..|x| + 1] == x + "/";
    }
  }

  /** A new entry's siblings are looked up where the entry is, unless a static segment of the
      folder template has an escaped brace. */
  lemma ScopeCoversEntry(def: Definition, when: Date, ordinal: Option<nat>)
    requires Valid(when)
    ensures InScope(RenderEntry(def, when, ordinal).0, StaticPrefix(def.folder))
      <==> Braces(StaticText(def.folder)) == 0
  {
    var x, folder := StaticText(def.folder), RenderEntry(def, when, ordinal).0;
    if |x| > 0 {
      StaticTextLeads(def.folder, ValuesFor(def.grain, when, ordinal));
      UnderEscaped(x, folder);
    }
    EscapeFacts(x);
  }

  // ---------- the next ordinal ----------

  // The highest number the sibling pattern reads from a note, if the note is in scope.
  function ReadOrdinal(def: Definition, when: Date, note: (string, string)): nat
    requires Valid(when)
  {
    if !InScope(note.0, StaticPrefix(def.folder)) then 0
    else
      match Match(def.grain, Fill(Pattern(def), ValuesFor(def.grain, when, None)), note.0 + "/" + note.1)
      case Some(caps) => MaxValue(caps)
      case None => 0
  }

  function Highest(def: Definition, when: Date, notes: seq<(string, string)>): nat
    requires Valid(when)
  {
    Largest(ReadOrdinals(def, when, notes))
  }

  function ReadOrdinals(def: Definition, when: Date, notes: seq<(string, string)>): (r: seq<nat>)
    requires Valid(when)
    ensures |r| == |notes| && forall j :: 0 <= j < |r| ==> r[j] == ReadOrdinal(def, when, notes[j])
  {
    seq(|notes|, j requires 0 <= j < |notes| => ReadOrdinal(def, when, notes[j]))
  }

  function Largest(xs: seq<nat>): (n: nat)
    ensures forall j :: 0 <= j < |xs| ==> xs[j] <= n
    ensures n == 0 || n in xs
  {
    if |xs| == 0 then 0
    else
      assert xs == xs[..|xs| - 1] + [xs[|xs| - 1]];
      var rest := Largest(xs[..|xs| - 1]);
      if xs[|xs| - 1] > rest then xs[|xs| - 1] else rest
  }

  lemma HighestGrows(def: Definition, when: Date, notes: seq<(string, string)>, i: nat)
    requires Valid(when) && i < |notes|
    ensures var before, read := Highest(def, when, notes[..i]), ReadOrdinal(def, when, notes[i]);
            Highest(def, when, notes[..i + 1]) == if read > before then read else before
  {
    var some, more := ReadOrdinals(def, when, notes[..i]), ReadOrdinals(def, when, notes[..i + 1]);
    assert more[..i] == some;
  }

  function Allocated(def: Definition, when: Date, notes: seq<(string, string)>): nat
    requires Valid(when)
  {
    Highest(def, when, notes) + 1
  }

  method NextOrdinal(def: Definition, when: Date, notes: seq<(string, string)>) returns (n: nat)
    requires Valid(when)
    ensures n == Allocated(def, when, notes)
  {
    var pattern := Fill(Pattern(def), ValuesFor(def.grain, when, None));
    var prefix := StaticPrefix(def.folder);
    var maxOrdinal: nat := 0;
    for i := 0 to |notes|
      invariant maxOrdinal == Highest(def, when, notes[..i])
    {
      HighestGrows(def, when, notes, i);
      var (folder, title) := notes[i];
      if InScope(folder, prefix) {
        var m := Match(def.grain, pattern, folder + "/" + title);
        if m.Some? && MaxValue(m.value) > maxOrdinal {
          maxOrdinal := MaxValue(m.value);
        }
      }
    }
    assert notes[..|notes|] == notes;
    n := maxOrdinal + 1;
  }

  lemma HighestIsHigh(def: Definition, when: Date, notes: seq<(string, string)>, j: nat)
    requires Valid(when) && j < |notes|
    ensures ReadOrdinal(def, when, notes[j]) <= Highest(def, when, notes)
  {
    LargestIsLarge(ReadOrdinals(def, when, notes), j, ReadOrdinal(def, when, notes[j]));
  }

  lemma LargestIsLarge(xs: seq<nat>, j: nat, x: nat)
    requires j < |xs| && xs[j] == x
    ensures x <= Largest(xs)
  {
  }

  lemma EntryIsRead(def: Definition, when: Date, k: nat)
    requires Valid(when) && HasField(Pattern(def), OrdinalField) && Braces(StaticText(def.folder)) == 0
    ensures k <= ReadOrdinal(def, when, RenderEntry(def, when, Some(k)))
  {
    ScopeCoversEntry(def, when, Some(k));
    SiblingReadsAtLeast(def, when, k);
  }

  /** The allocated ordinal is above the ordinal of every entry of the date. */
  lemma AllocatesAbove(def: Definition, when: Date, notes: seq<(string, string)>, k: nat)
    requires Valid(when) && HasField(Pattern(def), OrdinalField) && Braces(StaticText(def.folder)) == 0
    ensures RenderEntry(def, when, Some(k)) in notes ==> k < Allocated(def, when, notes)
  {
    if RenderEntry(def, when, Some(k)) in notes {
      var j :| 0 <= j < |notes| && notes[j] == RenderEntry(def, when, Some(k));
      HighestIsHigh(def, when, notes, j);
      EntryIsRead(def, when, k);
    }
  }

  lemma EntryReadsExactly(def: Definition, when: Date, k: nat)
    requires Valid(when) && HasField(Pattern(def), OrdinalField) && Braces(StaticText(def.folder)) == 0
    requires Separated(def.grain, Fill(Pattern(def), ValuesFor(def.grain, when, None)))
    ensures ReadOrdinal(def, when, RenderEntry(def, when, Some(k))) == k
  {
    ScopeCoversEntry(def, when, Some(k));
    SiblingReadsExactly(def, when, k);
  }

  // The highest number read is that of an existing entry.
  lemma HighestExists(def: Definition, when: Date, notes: seq<(string, string)>)
    requires Valid(when) && HasField(Pattern(def), OrdinalField) && Braces(StaticText(def.folder)) == 0
    requires Separated(def.grain, Fill(Pattern(def), ValuesFor(def.grain, when, None)))
    requires forall j :: 0 <= j < |notes| && ReadOrdinal(def, when, notes[j]) > 0 ==> IsEntryOf(def, when, notes[j])
    ensures Highest(def, when, notes) == 0 || RenderEntry(def, when, Some(Highest(def, when, notes))) in notes
  {
    var seen := ReadOrdinals(def, when, notes);
    if Largest(seen) > 0 {
      var j :| 0 <= j < |seen| && seen[j] == Largest(seen);
      HighestIsEntry(def, when, notes[j], Largest(seen));
    }
  }

  // The highest ordinal of the date's entries, or 0 if there is none.
  ghost predicate IsHighest(def: Definition, when: Date, notes: seq<(string, string)>, highest: nat)
    requires Valid(when)
  {
    && (highest == 0 || RenderEntry(def, when, Some(highest)) in notes)
    && forall k: nat :: RenderEntry(def, when, Some(k)) in notes ==> k <= highest
  }

  /** Where the filled pattern can be read in one way only, and reads only entries of the date, the
      allocated ordinal is the highest existing one plus one. */
  lemma AllocatesNext(def: Definition, when: Date, notes: seq<(string, string)>) returns (highest: nat)
    requires Valid(when) && HasField(Pattern(def), OrdinalField) && Braces(StaticText(def.folder)) == 0
    requires Separated(def.grain, Fill(Pattern(def), ValuesFor(def.grain, when, None)))
    requires forall j :: 0 <= j < |notes| && ReadOrdinal(def, when, notes[j]) > 0 ==> IsEntryOf(def, when, notes[j])
    ensures IsHighest(def, when, notes, highest) && Allocated(def, when, notes) == highest + 1
  {
    highest := Highest(def, when, notes);
    HighestExists(def, when, notes);
    forall k: nat | RenderEntry(def, when, Some(k)) in notes ensures k <= highest {
      AllocatesAbove(def, when, notes, k);
    }
  }

  ghost predicate IsEntryOf(def: Definition, when: Date, note: (string, string))
    requires Valid(when)
  {
    exists k: nat :: note == RenderEntry(def, when, Some(k))
  }

  lemma HighestIsEntry(def: Definition, when: Date, note: (string, string), n: nat)
    requires Valid(when) && HasField(Pattern(def), OrdinalField) && Braces(StaticText(def.folder)) == 0
    requires Separated(def.grain, Fill(Pattern(def), ValuesFor(def.grain, when, None)))
    requires IsEntryOf(def, when, note) && ReadOrdinal(def, when, note) == n
    ensures note == RenderEntry(def, when, Some(n))
  {
    var k: nat :| note == RenderEntry(def, when, Some(k));
    EntryReadsExactly(def, when, k);
  }

  // An entry of the definition, for some date and ordinal.
  ghost predicate IsEntry(def: Definition, note: (string, string)) {
    exists d: Date, o: Option<nat> :: Valid(d) && note == RenderEntry(def, d, o)
  }

  lemma EntryIsNotRead(def: Definition, when: Date, note: (string, string))
    requires Valid(when) && Braces(StaticText(def.folder)) > 0 && IsEntry(def, note)
    ensures ReadOrdinal(def, when, note) == 0
  {
    var d: Date, o: Option<nat> :| Valid(d) && note == RenderEntry(def, d, o);
    ScopeCoversEntry(def, d, o);
  }

  /** With a brace in the static segments no entry is seen, and every allocation is 1. */
  lemma BraceAllocatesOne(def: Definition, when: Date, notes: seq<(string, string)>)
    requires Valid(when) && Braces(StaticText(def.folder)) > 0
      && forall j :: 0 <= j < |notes| ==> IsEntry(def, notes[j])
    ensures Allocated(def, when, notes) == 1
  {
    forall j | 0 <= j < |notes| ensures ReadOrdinal(def, when, notes[j]) == 0 {
      EntryIsNotRead(def, when, notes[j]);
    }
  }

  lemma {:induction false} NoOrdinalRendersSame(t: Template, v: Values, ordinal: string)
    requires !HasField(t, OrdinalField)
    ensures Render(t, v.(ordinal := ordinal)) == Render(t, v)
  {
    if |t| > 0 {
      HasFieldSplit(t, OrdinalField);
      NoOrdinalRendersSame(t[1..], v, ordinal);
    }
  }

  lemma UnnumberedPathsAreOne(def: Definition, when: Date, k: nat)
    requires Valid(when) && !HasField(Pattern(def), OrdinalField)
    ensures RenderEntry(def, when, Some(k)) == RenderEntry(def, when, Some(1))
  {
    PatternHas(def, OrdinalField);
    var v := ValuesFor(def.grain, when, Some(1));
    NoOrdinalRendersSame(def.folder, v, Decimal(k));
    NoOrdinalRendersSame(def.title, v, Decimal(k));
    assert ValuesFor(def.grain, when, Some(k)) == v.(ordinal := Decimal(k));
  }

  // The path that is taken when the first entry exists and its ordinal is allocated again.
  lemma TakenPath(def: Definition, when: Date)
    requires Valid(when) && (!HasField(Pattern(def), OrdinalField) || Braces(StaticText(def.folder)) > 0)
    ensures var notes := [RenderEntry(def, when, Some(1))];
            RenderEntry(def, when, Some(Allocated(def, when, notes))) in notes
  {
    var notes := [RenderEntry(def, when, Some(1))];
    assert IsEntry(def, notes[0]);
    if HasField(Pattern(def), OrdinalField) {
      BraceAllocatesOne(def, when, notes);
    } else {
      UnnumberedPathsAreOne(def, when, Allocated(def, when, notes));
    }
  }

  /** The allocated path is free whatever notes there are, exactly when the template has an
      ordinal and no brace in its static segments. */
  lemma AllocatesFreeExactly(def: Definition, when: Date)
    requires Valid(when)
    ensures (forall notes :: RenderEntry(def, when, Some(Allocated(def, when, notes))) !in notes)
            <==> HasField(Pattern(def), OrdinalField) && Braces(StaticText(def.folder)) == 0
  {
    if HasField(Pattern(def), OrdinalField) && Braces(StaticText(def.folder)) == 0 {
      forall notes ensures RenderEntry(def, when, Some(Allocated(def, when, notes))) !in notes {
        AllocatesAbove(def, when, notes, Allocated(def, when, notes));
      }
    } else {
      TakenPath(def, when);
      var notes := [RenderEntry(def, when, Some(1))];
      assert RenderEntry(def, when, Some(Allocated(def, when, notes))) in notes;
    }
  }

  // The folder template a{{b}}/{date} with an ordinal for a title.
  const BRACED := Definition(Day, true, [Lit("a{b}/"), Slot(DateField)], [Slot(OrdinalField)])

  /** So that template allocates the first entry's path a second time. */
  lemma BracedIsTaken(when: Date)
    requires Valid(when)
    ensures var notes := [RenderEntry(BRACED, when, Some(1))];
            Allocated(BRACED, when, notes) == 1
                && RenderEntry(BRACED, when, Some(Allocated(BRACED, when, notes))) in notes
  {
    BracedHasBraces();
    assert IsEntry(BRACED, RenderEntry(BRACED, when, Some(1)));
    BraceAllocatesOne(BRACED, when, [RenderEntry(BRACED, when, Some(1))]);
  }

  lemma BracedHasBraces()
    ensures Braces(StaticText(BRACED.folder)) > 0
  {
    var t := BRACED.folder;
    assert LeadText(t[1..]) == "" && LeadText(t) == "a{b}/" + "";
    assert "a{b}/"[..4] == "a{b}" && BeforeLastSlash("a{b}/") == "a{b}";
    assert !AllLiteral(t) by { assert t[1].Slot?; }
    assert "a{b}"[1..] == "{b}" && Braces("{b}") > 0;
  }

  // ---------- which templates are separated ----------

  lemma {:induction false} ClassesOfLead(grain: Kind, a: Template, b: Template)
    requires !HasField(a, OrdinalField)
    ensures Classes(grain, a + [Lit("/")] + b) == Classes(grain, a) + [false] + Classes(grain, b)
  {
    var t := a + [Lit("/")] + b;
    if |a| == 0 {
      assert t[0] == Lit("/") && t[1..] == b;
      assert PartClasses(grain, Lit("/")) == [false];
      assert Classes(grain, t) == [false] + Classes(grain, b);
    } else {
      HasFieldSplit(a, OrdinalField);
      assert t[0] == a[0] && t[1..] == a[1..] + [Lit("/")] + b;
      ClassesOfLead(grain, a[1..], b);
    }
  }

  // At most one ordinal.
  ghost predicate OneOrdinal(t: Template) {
    |t| == 0 || (OneOrdinal(t[1..]) && (t[0] == Slot(OrdinalField) ==> !HasField(t[1..], OrdinalField)))
  }

  lemma {:induction false} OneOrdinalIsSeparated(grain: Kind, t: Template)
    requires OneOrdinal(t)
    ensures Separated(grain, t)
  {
    if |t| > 0 {
      OneOrdinalIsSeparated(grain, t[1..]);
    }
  }

  /** One ordinal in the folder and one in the title can always be told apart. */
  lemma {:induction false} OnePerSideIsSeparated(grain: Kind, folder: Template, title: Template)
    requires OneOrdinal(folder) && OneOrdinal(title)
    ensures Separated(grain, folder + [Lit("/")] + title)
  {
    var t := folder + [Lit("/")] + title;
    if |folder| == 0 {
      assert t[0] == Lit("/") && t[1..] == title;
      OneOrdinalIsSeparated(grain, title);
    } else {
      assert t[0] == folder[0] && t[1..] == folder[1..] + [Lit("/")] + title;
      OnePerSideIsSeparated(grain, folder[1..], title);
      if folder[0] == Slot(OrdinalField) {
        ClassesOfLead(grain, folder[1..], title);
        var c := Classes(grain, folder[1..]);
        assert Classes(grain, t[1..])[|c|] == false;
      }
    }
  }

  /** With at most one ordinal in the template and a date to recover, every entry is recognised,
      for every grain, date and ordinal. */
  lemma OneOrdinalIsRecognised(def: Definition, when: Date, ordinal: Option<nat>, today: Date)
    requires Valid(when) && FieldsDefined(def) && Recoverable(def)
    requires OneOrdinal(Pattern(def))
    ensures Recognised(def, when, ordinal, today)
  {
    OneOrdinalIsSeparated(def.grain, Pattern(def));
    SeparatedIsReadable(def);
    RenderedIsMember(def, when, ordinal, today);
  }
}
