/**
 Collection templates and the pattern that recognises what they render. The pattern is
 matched as the regular-expression engine does: left to right, an ordinal taking as many
 digits as it can and giving them back one by one, and `$` allowing one final newline.
 */
module Templates {
  import opened Options
  import opened Decimals
  import opened Periods

  datatype Field = DateField | KeyField | YearField | MonthField | OrdinalField

  datatype Part = Lit(text: string) | Slot(field: Field)

  type Template = seq<Part>

  /** What each placeholder renders to. */
  datatype Values = Values(date: string, key: string, year: string, month: string, ordinal: string)

  function TextOf(v: Values, f: Field): string {
    match f
    case DateField => v.date
    case KeyField => v.key
    case YearField => v.year
    case MonthField => v.month
    case OrdinalField => v.ordinal
  }

  function PartText(p: Part, v: Values): string {
    if p.Lit? then p.text else TextOf(v, p.field)
  }

  function Render(t: Template, v: Values): string {
    if |t| == 0 then "" else PartText(t[0], v) + Render(t[1..], v)
  }

  // The texts of the slots, in order.
  function Captures(t: Template, v: Values): seq<string> {
    if |t| == 0 then []
    else if t[0].Lit? then Captures(t[1..], v)
    else [TextOf(v, t[0].field)] + Captures(t[1..], v)
  }

  // ---------- the pattern ----------

  function ShapeOfKey(grain: Kind): string {
    match grain
    case Day => "dddd-dd-dd"
    case Week => "dddd-Wdd"
    case Month => "dddd-dd"
    case Year => "dddd"
  }

  // The shape of a fixed-width field; 'd' stands for a digit.
  function Shape(grain: Kind, f: Field): string {
    match f
    case DateField => "dddd-dd-dd"
    case YearField => "dddd"
    case MonthField => "dd"
    case KeyField => ShapeOfKey(grain)
    case OrdinalField => ""
  }

  predicate Fits(s: string, shape: string) {
    |s| == |shape| && forall i :: 0 <= i < |s| ==> if shape[i] == 'd' then IsDigit(s[i]) else s[i] == shape[i]
  }

  predicate FieldFits(grain: Kind, f: Field, s: string) {
    if f == OrdinalField then |s| > 0 && AllDigits(s) else Fits(s, Shape(grain, f))
  }

  predicate AtEnd(s: string) {
    s == "" || s == "\n"
  }

  function LeadingDigits(s: string): (k: nat)
    ensures k <= |s| && AllDigits(s[..k]) && (k < |s| ==> !IsDigit(s[k]))
  {
    if |s| > 0 && IsDigit(s[0]) then 1 + LeadingDigits(s[1..]) else 0
  }

  function Match(grain: Kind, t: Template, s: string): Option<seq<string>>
    decreases |t|, |s| + 1
  {
    if |t| == 0 then
      if AtEnd(s) then Some([]) else None
    else if t[0].Lit? then
      if t[0].text <= s then Match(grain, t[1..], s[|t[0].text|..]) else None
    else if t[0].field == OrdinalField then
      TryOrdinal(grain, t, s, LeadingDigits(s))
    else
      var w := |Shape(grain, t[0].field)|;
      if w <= |s| && Fits(s[..w], Shape(grain, t[0].field)) then Cons(s[..w], Match(grain, t[1..], s[w..])) else None
  }

  function Cons(s: string, rest: Option<seq<string>>): Option<seq<string>> {
    if rest.Some? then Some([s] + rest.value) else None
  }

  // Greedy with backtracking: k digits, else fewer.
  function TryOrdinal(grain: Kind, t: Template, s: string, k: nat): Option<seq<string>>
    requires |t| > 0 && k <= |s|
    decreases |t|, k
  {
    if k == 0 then None
    else if Match(grain, t[1..], s[k..]).Some? then Cons(s[..k], Match(grain, t[1..], s[k..]))
    else TryOrdinal(grain, t, s, k - 1)
  }

  // ---------- what a match means ----------

  // The captures cut the string as the template says.
  ghost predicate Decomposes(grain: Kind, t: Template, s: string, caps: seq<string>)
    decreases |t|
  {
    if |t| == 0 then |caps| == 0 && AtEnd(s)
    else if t[0].Lit? then t[0].text <= s && Decomposes(grain, t[1..], s[|t[0].text|..], caps)
    else |caps| > 0 && caps[0] <= s && FieldFits(grain, t[0].field, caps[0])
         && Decomposes(grain, t[1..], s[|caps[0]|..], caps[1..])
  }

  predicate HasField(t: Template, f: Field) {
    exists i :: 0 <= i < |t| && t[i] == Slot(f)
  }

  // Where in the captures the first ordinal is.
  function FirstOrdinal(t: Template): nat {
    if |t| == 0 || t[0] == Slot(OrdinalField) then 0 else (if t[0].Lit? then 0 else 1) + FirstOrdinal(t[1..])
  }

  // The rest matches after an ordinal of i digits.
  ghost predicate RestMatches(grain: Kind, t: Template, s: string, i: nat)
    requires |t| > 0 && i <= |s|
  {
    Match(grain, t[1..], s[i..]).Some?
  }

  // Of at most k digits, j is the longest run after which the rest matches; 0 if there is none.
  ghost predicate LongestRun(grain: Kind, t: Template, s: string, k: nat, j: nat)
    requires |t| > 0 && k <= |s|
  {
    && j <= k && (forall i :: j < i <= k ==> !RestMatches(grain, t, s, i)) && (j > 0 ==> RestMatches(grain, t, s, j))
    && TryOrdinal(grain, t, s, k) == if j == 0 then None else Cons(s[..j], Match(grain, t[1..], s[j..]))
  }

  lemma TrySkips(grain: Kind, t: Template, s: string, k: nat)
    requires |t| > 0 && 0 < k <= |s|
    ensures TryOrdinal(grain, t, s, k) == if RestMatches(grain, t, s, k)
      then Cons(s[..k], Match(grain, t[1..], s[k..])) else TryOrdinal(grain, t, s, k - 1)
  {
  }

  lemma LongerFails(grain: Kind, t: Template, s: string, k: nat, j: nat)
    requires |t| > 0 && 0 < k <= |s| && !RestMatches(grain, t, s, k) && LongestRun(grain, t, s, k - 1, j)
    ensures LongestRun(grain, t, s, k, j)
  {
    TrySkips(grain, t, s, k);
  }

  lemma {:induction false} OrdinalSearch(grain: Kind, t: Template, s: string, k: nat) returns (j: nat)
    requires |t| > 0 && k <= |s|
    ensures LongestRun(grain, t, s, k, j)
    decreases k
  {
    if k == 0 {
      j := 0;
    } else if RestMatches(grain, t, s, k) {
      j := k;
      TrySkips(grain, t, s, k);
    } else {
      j := OrdinalSearch(grain, t, s, k - 1);
      LongerFails(grain, t, s, k, j);
    }
  }

  lemma ConsDecomposes(grain: Kind, t: Template, s: string, w: nat, rest: seq<string>)
    requires |t| > 0 && t[0].Slot? && w <= |s| && FieldFits(grain, t[0].field, s[..w])
      && Decomposes(grain, t[1..], s[w..], rest)
    ensures Decomposes(grain, t, s, [s[..w]] + rest)
  {
    var caps := [s[..w]] + rest;
    assert caps[0] == s[..w] && caps[1..] == rest;
  }

  /** Every match cuts the string as the template says. */
  lemma {:induction false} MatchIsSound(grain: Kind, t: Template, s: string)
    ensures Match(grain, t, s).Some? ==> Decomposes(grain, t, s, Match(grain, t, s).value)
    decreases |t|
  {
    if |t| > 0 && Match(grain, t, s).Some? {
      if t[0].Lit? {
        MatchIsSound(grain, t[1..], s[|t[0].text|..]);
      } else if t[0].field == OrdinalField {
        var j := OrdinalSearch(grain, t, s, LeadingDigits(s));
        MatchIsSound(grain, t[1..], s[j..]);
        assert AllDigits(s[..j]) by { assert forall i :: 0 <= i < j ==> s[..j][i] == s[..LeadingDigits(s)][i]; }
        ConsDecomposes(grain, t, s, j, Match(grain, t[1..], s[j..]).value);
      } else {
        var w := |Shape(grain, t[0].field)|;
        MatchIsSound(grain, t[1..], s[w..]);
        ConsDecomposes(grain, t, s, w, Match(grain, t[1..], s[w..]).value);
      }
    }
  }

  lemma OrdinalIsComplete(grain: Kind, t: Template, s: string, caps: seq<string>)
    requires Decomposes(grain, t, s, caps) && |t| > 0 && t[0] == Slot(OrdinalField)
    requires Match(grain, t[1..], s[|caps[0]|..]).Some?
    ensures Match(grain, t, s).Some? && FirstOrdinal(t) == 0
    ensures var found := Match(grain, t, s).value; |found| > 0 && caps[0] <= found[0]
  {
    var w := |caps[0]|;
    DigitsLead(s, w);
    var j := OrdinalSearch(grain, t, s, LeadingDigits(s));
    assert RestMatches(grain, t, s, w);
    assert w <= j;
  }

  /** A string that can be cut is matched, and the match gives its first ordinal at least as
      many digits as any way of cutting it. */
  lemma {:induction false} MatchIsComplete(grain: Kind, t: Template, s: string, caps: seq<string>)
    requires Decomposes(grain, t, s, caps)
    ensures Match(grain, t, s).Some?
    ensures HasField(t, OrdinalField) ==>
              var found, i := Match(grain, t, s).value, FirstOrdinal(t);
              i < |found| && i < |caps| && caps[i] <= found[i]
    decreases |t|
  {
    if |t| > 0 {
      if t[0].Lit? {
        MatchIsComplete(grain, t[1..], s[|t[0].text|..], caps);
        TailHasField(t);
      } else if t[0].field == OrdinalField {
        MatchIsComplete(grain, t[1..], s[|caps[0]|..], caps[1..]);
        OrdinalIsComplete(grain, t, s, caps);
      } else {
        MatchIsComplete(grain, t[1..], s[|caps[0]|..], caps[1..]);
        FixedIsComplete(grain, t, s, caps);
      }
    }
  }

  lemma FixedIsComplete(grain: Kind, t: Template, s: string, caps: seq<string>)
    requires Decomposes(grain, t, s, caps) && |t| > 0 && t[0].Slot? && t[0].field != OrdinalField
    requires var rest := Match(grain, t[1..], s[|caps[0]|..]);
      rest.Some? && (HasField(t[1..], OrdinalField) ==>
        var i := FirstOrdinal(t[1..]); i < |rest.value| && i < |caps[1..]| && caps[1..][i] <= rest.value[i])
    ensures Match(grain, t, s).Some?
    ensures HasField(t, OrdinalField) ==>
              var found, i := Match(grain, t, s).value, FirstOrdinal(t);
              i < |found| && i < |caps| && caps[i] <= found[i]
  {
    var w := |caps[0]|;
    assert w == |Shape(grain, t[0].field)| && s[..w] == caps[0];
    TailHasField(t);
  }

  lemma TailHasField(t: Template)
    requires |t| > 0 && t[0] != Slot(OrdinalField)
    ensures HasField(t, OrdinalField) <==> HasField(t[1..], OrdinalField)
  {
    if i :| 0 <= i < |t| && t[i] == Slot(OrdinalField) {
      assert t[1..][i - 1] == t[i];
    }
  }

  lemma {:induction false} DigitsLead(s: string, w: nat)
    requires w <= |s| && AllDigits(s[..w])
    ensures w <= LeadingDigits(s)
  {
    if w > 0 {
      assert IsDigit(s[..w][0]);
      assert s[1..][..w - 1] == s[..w][1..];
      DigitsLead(s[1..], w - 1);
    }
  }

  lemma {:induction false} DigitsStop(s: string, k: nat)
    requires k < |s| && !IsDigit(s[k])
    ensures LeadingDigits(s) <= k
  {
    if k > 0 && IsDigit(s[0]) {
      DigitsStop(s[1..], k - 1);
    }
  }

  // ---------- templates that can be read only one way ----------

  // The text up to the next ordinal has fixed width; which of its characters are digits.
  function PartClasses(grain: Kind, p: Part): seq<bool> {
    if p.Lit? then seq(|p.text|, i requires 0 <= i < |p.text| => IsDigit(p.text[i]))
    else var shape := Shape(grain, p.field); seq(|shape|, i requires 0 <= i < |shape| => shape[i] == 'd')
  }

  function Classes(grain: Kind, t: Template): seq<bool> {
    if |t| == 0 || t[0] == Slot(OrdinalField) then [] else PartClasses(grain, t[0]) + Classes(grain, t[1..])
  }

  // Between two consecutive ordinals there is a character that is not a digit.
  ghost predicate Separated(grain: Kind, t: Template) {
    |t| == 0 ||
    (&& Separated(grain, t[1..])
     && (t[0] == Slot(OrdinalField) && HasField(t[1..], OrdinalField) ==> false in Classes(grain, t[1..])))
  }

  ghost predicate Agree(cls: seq<bool>, s: string) {
    |cls| <= |s| && forall i :: 0 <= i < |cls| ==> (cls[i] <==> IsDigit(s[i]))
  }

  lemma AgreeAppend(c: seq<bool>, d: seq<bool>, s: string)
    requires |c| <= |s| && Agree(c, s[..|c|]) && Agree(d, s[|c|..])
    ensures Agree(c + d, s)
  {
    forall i | 0 <= i < |c + d| ensures (c + d)[i] <==> IsDigit(s[i]) {
      if i < |c| {
        assert s[..|c|][i] == s[i];
      } else {
        assert s[|c|..][i - |c|] == s[i];
      }
    }
  }

  lemma {:induction false} ClassesHold(grain: Kind, t: Template, s: string, caps: seq<string>)
    requires Decomposes(grain, t, s, caps)
    ensures Agree(Classes(grain, t), s)
    ensures !HasField(t, OrdinalField) ==> AtEnd(s[|Classes(grain, t)|..])
    decreases |t|
  {
    if |t| > 0 && t[0] != Slot(OrdinalField) {
      var w := if t[0].Lit? then |t[0].text| else |caps[0]|;
      var rest := if t[0].Lit? then caps else caps[1..];
      var head, tail := PartClasses(grain, t[0]), Classes(grain, t[1..]);
      ClassesHold(grain, t[1..], s[w..], rest);
      PartClassesHold(grain, t[0], s[..w]);
      TailHasField(t);
      AgreeAppend(head, tail, s);
      AfterBoth(s, w, |tail|);
    }
  }

  lemma AfterBoth(s: string, w: nat, n: nat)
    requires w + n <= |s|
    ensures s[w..][n..] == s[w + n..]
  {
  }

  lemma PartClassesHold(grain: Kind, p: Part, s: string)
    requires if p.Lit? then s == p.text else p.field != OrdinalField && FieldFits(grain, p.field, s)
    ensures |PartClasses(grain, p)| == |s| && Agree(PartClasses(grain, p), s)
  {
  }

  function LeadingTrues(cls: seq<bool>): (k: nat)
    ensures k <= |cls| && (forall i :: 0 <= i < k ==> cls[i]) && (k < |cls| ==> !cls[k])
  {
    if |cls| > 0 && cls[0] then 1 + LeadingTrues(cls[1..]) else 0
  }

  // The digits a text starts with are those its template says, if that says where they end.
  lemma RunOfDigits(grain: Kind, t: Template, s: string, caps: seq<string>)
    requires Decomposes(grain, t, s, caps) && (HasField(t, OrdinalField) ==> false in Classes(grain, t))
    ensures LeadingDigits(s) == LeadingTrues(Classes(grain, t))
  {
    var cls, k := Classes(grain, t), LeadingTrues(Classes(grain, t));
    ClassesHold(grain, t, s, caps);
    DigitsLead(s, k);
    if k == |cls| {
      assert false !in cls;
      assert k < |s| ==> s[k] == s[k..][0] == '\n';
    }
    if k < |s| {
      DigitsStop(s, k);
    }
  }

  lemma {:induction false} RunAfter(s: string, w: nat, w': nat)
    requires w <= w' <= |s| && AllDigits(s[..w'])
    ensures LeadingDigits(s[w..]) == w' - w + LeadingDigits(s[w'..])
    decreases w' - w
  {
    if w < w' {
      RunAfter(s, w + 1, w');
      assert s[..w'][w] == s[w..][0] && s[w..][1..] == s[w + 1..];
    }
  }

  /** A separated template can be read in only one way. */
  lemma {:induction false} OneReading(grain: Kind, t: Template, s: string, a: seq<string>, b: seq<string>)
    requires Separated(grain, t) && Decomposes(grain, t, s, a) && Decomposes(grain, t, s, b)
    ensures a == b
    decreases |t|
  {
    if |t| > 0 {
      if t[0].Lit? {
        OneReading(grain, t[1..], s[|t[0].text|..], a, b);
      } else {
        var w, w' := |a[0]|, |b[0]|;
        assert s[..w] == a[0] && s[..w'] == b[0];
        if t[0].field == OrdinalField {
          RunOfDigits(grain, t[1..], s[w..], a[1..]);
          RunOfDigits(grain, t[1..], s[w'..], b[1..]);
          if w <= w' { RunAfter(s, w, w'); } else { RunAfter(s, w', w); }
        }
        assert w == w';
        OneReading(grain, t[1..], s[w..], a[1..], b[1..]);
        assert a == [a[0]] + a[1..] && b == [b[0]] + b[1..];
      }
    }
  }

  // ---------- rendering and matching ----------

  // Every slot's text has the slot's form.
  ghost predicate ValuesFit(grain: Kind, t: Template, v: Values) {
    forall i :: 0 <= i < |t| && t[i].Slot? ==> FieldFits(grain, t[i].field, TextOf(v, t[i].field))
  }

  lemma {:induction false} RenderedDecomposes(grain: Kind, t: Template, v: Values)
    requires ValuesFit(grain, t, v)
    ensures Decomposes(grain, t, Render(t, v), Captures(t, v))
    decreases |t|
  {
    if |t| > 0 {
      RenderedDecomposes(grain, t[1..], v);
      var text, s := PartText(t[0], v), Render(t, v);
      assert s == text + Render(t[1..], v);
      assert s[|text|..] == Render(t[1..], v);
      if t[0].Slot? {
        assert FieldFits(grain, t[0].field, text);
        assert Captures(t, v)[1..] == Captures(t[1..], v);
      }
    }
  }

  /** What a separated template renders is matched, with the rendered texts as captures. */
  lemma RenderedIsMatched(grain: Kind, t: Template, v: Values)
    requires Separated(grain, t) && ValuesFit(grain, t, v)
    ensures Match(grain, t, Render(t, v)) == Some(Captures(t, v))
  {
    RenderedDecomposes(grain, t, v);
    MatchIsComplete(grain, t, Render(t, v), Captures(t, v));
    MatchIsSound(grain, t, Render(t, v));
    OneReading(grain, t, Render(t, v), Match(grain, t, Render(t, v)).value, Captures(t, v));
  }

  // A field used twice keeps its last capture.
  function Captured(t: Template, caps: seq<string>, f: Field): Option<string> {
    if |t| == 0 then None
    else if t[0].Lit? then Captured(t[1..], caps, f)
    else if |caps| == 0 then None
    else
      var later := Captured(t[1..], caps[1..], f);
      if later.Some? then later else if t[0].field == f then Some(caps[0]) else None
  }

  lemma {:induction false} CapturedIsRendered(t: Template, v: Values, f: Field)
    ensures Captured(t, Captures(t, v), f) == if HasField(t, f) then Some(TextOf(v, f)) else None
    decreases |t|
  {
    if |t| > 0 {
      CapturedIsRendered(t[1..], v, f);
      HasFieldSplit(t, f);
      if t[0].Slot? {
        assert Captures(t, v)[1..] == Captures(t[1..], v);
      }
    }
  }

  lemma HasFieldSplit(t: Template, f: Field)
    requires |t| > 0
    ensures HasField(t, f) <==> t[0] == Slot(f) || HasField(t[1..], f)
  {
    if i :| 0 <= i < |t| && t[i] == Slot(f) {
      if i > 0 { assert t[1..][i - 1] == t[i]; }
    }
    if i :| 0 <= i < |t[1..]| && t[1..][i] == Slot(f) {
      assert t[i + 1] == Slot(f);
    }
  }
}
