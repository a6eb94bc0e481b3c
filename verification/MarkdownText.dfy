/** The text primitives of the chunker: visible characters, lines, sentences and line offsets. */
module MarkdownText {
  import opened Text

  predicate Space(c: char) { IsSpace(c) }
  predicate Newline(c: char) { c == '\n' }

  // ---------- visible characters ----------

  // The characters of s that are not white space, in order.
  function Ink(s: string): string {
    if |s| == 0 then ""
    else if IsSpace(s[0]) then Ink(s[1..])
    else [s[0]] + Ink(s[1..])
  }

  function InkOf(parts: seq<string>): string {
    if |parts| == 0 then "" else Ink(parts[0]) + InkOf(parts[1..])
  }

  predicate Blank(s: string) { Strip(s, Space) == "" }

  lemma {:induction false} InkConcat(a: string, b: string)
    ensures Ink(a + b) == Ink(a) + Ink(b)
  {
    if |a| == 0 {
      assert a + b == b;
    } else {
      assert (a + b)[1..] == a[1..] + b;
      InkConcat(a[1..], b);
    }
  }

  lemma InkConcat3(a: string, b: string, c: string)
    ensures Ink(a + b + c) == Ink(a) + Ink(b) + Ink(c)
  {
    InkConcat(a + b, c);
    InkConcat(a, b);
  }

  lemma {:induction false} InkOfConcat(a: seq<string>, b: seq<string>)
    ensures InkOf(a + b) == InkOf(a) + InkOf(b)
  {
    if |a| == 0 {
      assert a + b == b;
    } else {
      assert (a + b)[1..] == a[1..] + b;
      InkOfConcat(a[1..], b);
    }
  }

  lemma InkOfCons(a: string, rest: seq<string>)
    ensures InkOf([a] + rest) == Ink(a) + InkOf(rest)
  {
    assert ([a] + rest)[1..] == rest;
  }

  lemma InkAcross(a: string, gap: string, b: string)
    requires Ink(gap) == ""
    ensures Ink(a + gap + b) == Ink(a) + Ink(b)
  {
    InkConcat3(a, gap, b);
  }

  lemma {:induction false} AllSpaceHasNoInk(s: string)
    requires forall i :: 0 <= i < |s| ==> IsSpace(s[i])
    ensures Ink(s) == ""
  {
    if |s| > 0 {
      AllSpaceHasNoInk(s[1..]);
    }
  }

  lemma InkOfOne(s: string)
    ensures InkOf([s]) == Ink(s)
  {
    assert InkOf([s][1..]) == "";
  }

  lemma {:induction false} InkJoin(parts: seq<string>, sep: string)
    requires Ink(sep) == ""
    ensures Ink(Join(parts, sep)) == InkOf(parts)
  {
    if |parts| == 1 {
      InkOfOne(parts[0]);
      assert parts == [parts[0]];
    } else if |parts| > 1 {
      InkJoin(parts[1..], sep);
      InkAcross(parts[0], sep, Join(parts[1..], sep));
      JoinUnfolds(parts, sep);
    }
  }

  lemma JoinUnfolds(parts: seq<string>, sep: string)
    requires |parts| > 1
    ensures Join(parts, sep) == parts[0] + sep + Join(parts[1..], sep)
    ensures InkOf(parts) == Ink(parts[0]) + InkOf(parts[1..])
  {
  }

  // Stripping white space characters loses no ink, and what is blank has none.
  lemma {:induction false} InkLStrip(s: string, drop: char -> bool)
    requires forall c :: drop(c) ==> IsSpace(c)
    ensures Ink(LStrip(s, drop)) == Ink(s)
  {
    if |s| > 0 && drop(s[0]) {
      InkLStrip(s[1..], drop);
    }
  }

  lemma {:induction false} InkRStrip(s: string, drop: char -> bool)
    requires forall c :: drop(c) ==> IsSpace(c)
    ensures Ink(RStrip(s, drop)) == Ink(s)
  {
    if |s| > 0 && drop(s[|s| - 1]) {
      InkRStrip(s[..|s| - 1], drop);
      InkConcat(s[..|s| - 1], s[|s| - 1..]);
      assert s == s[..|s| - 1] + s[|s| - 1..] && Ink(s[|s| - 1..][1..]) == "";
    }
  }

  lemma InkStrip(s: string, drop: char -> bool)
    requires forall c :: drop(c) ==> IsSpace(c)
    ensures Ink(Strip(s, drop)) == Ink(s)
  {
    InkLStrip(s, drop);
    InkRStrip(LStrip(s, drop), drop);
  }

  lemma {:induction false} LStripStarts(s: string, drop: char -> bool)
    ensures var t := LStrip(s, drop); |t| <= |s| && (t == "" || !drop(t[0]))
  {
    if |s| > 0 && drop(s[0]) {
      LStripStarts(s[1..], drop);
    }
  }

  lemma {:induction false} RStripKeepsHead(s: string, drop: char -> bool)
    ensures |RStrip(s, drop)| <= |s|
    ensures |s| > 0 && !drop(s[0]) ==> RStrip(s, drop) != ""
  {
    if |s| > 0 && drop(s[|s| - 1]) {
      RStripKeepsHead(s[..|s| - 1], drop);
    }
  }

  lemma BlankHasNoInk(s: string)
    ensures Blank(s) <==> Ink(s) == ""
  {
    var t := LStrip(s, Space);
    InkStrip(s, Space);
    InkLStrip(s, Space);
    LStripStarts(s, Space);
    RStripKeepsHead(t, Space);
  }

  // ---------- str.splitlines ----------

  predicate IsBreak(c: char) {
    '\n' <= c <= '\r' || '\U{1c}' <= c <= '\U{1e}' || c == '\U{85}' || c == '\U{2028}' || c == '\U{2029}'
  }

  // How many characters the line break at the start of s takes.
  function BreakLength(s: string): (n: nat)
    requires |s| > 0
    ensures 1 <= n <= |s| && (n == 2 ==> s[1] == '\n')
  {
    if s[0] == '\r' && |s| > 1 && s[1] == '\n' then 2 else 1
  }

  function LineEnd(s: string): (e: nat)
    ensures e <= |s| && (forall i :: 0 <= i < e ==> !IsBreak(s[i])) && (e < |s| ==> IsBreak(s[e]))
  {
    if |s| == 0 || IsBreak(s[0]) then 0 else 1 + LineEnd(s[1..])
  }

  function SplitLines(s: string): (lines: seq<string>)
    ensures forall i :: 0 <= i < |lines| ==> forall k :: 0 <= k < |lines[i]| ==> !IsBreak(lines[i][k])
    decreases |s|
  {
    var e := LineEnd(s);
    if |s| == 0 then []
    else if e == |s| then [s]
    else [s[..e]] + SplitLines(s[e + BreakLength(s[e..])..])
  }

  lemma {:induction false} InkOfLines(s: string)
    ensures InkOf(SplitLines(s)) == Ink(s)
    decreases |s|
  {
    var e := LineEnd(s);
    if e < |s| {
      var n := BreakLength(s[e..]);
      var rest := s[e + n..];
      InkOfLines(rest);
      InkOfCons(s[..e], SplitLines(rest));
      BreakHasNoInk(s, e);
      InkWithout(s, e, e + n);
      assert SplitLines(s) == [s[..e]] + SplitLines(rest);
    } else if |s| > 0 {
      InkOfOne(s);
    }
  }

  // Taking blank characters out of the middle keeps the ink.
  lemma InkWithout(s: string, a: nat, b: nat)
    requires a <= b <= |s| && Ink(s[a..b]) == ""
    ensures Ink(s) == Ink(s[..a]) + Ink(s[b..])
  {
    InkAcross(s[..a], s[a..b], s[b..]);
    ThreeParts(s, a, b);
  }

  lemma ThreeParts(s: string, a: nat, b: nat)
    requires a <= b <= |s|
    ensures s[..a] + s[a..b] + s[b..] == s
  {
  }

  lemma BreakHasNoInk(s: string, e: nat)
    requires e < |s| && IsBreak(s[e])
    ensures Ink(s[e..e + BreakLength(s[e..])]) == ""
  {
    AllSpaceHasNoInk(s[e..e + BreakLength(s[e..])]);
  }

  // ---------- re.split(r"(?<=[.!?])\s+") ----------

  predicate EndsSentence(c: char) { c == '.' || c == '!' || c == '?' }

  predicate Gap(s: string, i: nat)
    requires i < |s|
  {
    i > 0 && EndsSentence(s[i - 1]) && IsSpace(s[i])
  }

  function AfterSpace(s: string, i: nat): (j: nat)
    requires i <= |s|
    ensures i <= j <= |s| && (j < |s| ==> !IsSpace(s[j])) && (i < |s| && IsSpace(s[i]) ==> i < j)
    ensures forall k :: i <= k < j ==> IsSpace(s[k])
    decreases |s| - i
  {
    if i < |s| && IsSpace(s[i]) then AfterSpace(s, i + 1) else i
  }

  // The units from position start on, with no gap in start..i.
  function SentencesFrom(s: string, start: nat, i: nat): (units: seq<string>)
    requires start <= i <= |s|
    ensures |units| > 0
    decreases |s| - i
  {
    if i == |s| then [s[start..]]
    else if Gap(s, i) then var j := AfterSpace(s, i); [s[start..i]] + SentencesFrom(s, j, j)
    else SentencesFrom(s, start, i + 1)
  }

  function Sentences(s: string): seq<string> { SentencesFrom(s, 0, 0) }

  lemma {:induction false} InkOfSentencesFrom(s: string, start: nat, i: nat)
    requires start <= i <= |s|
    ensures InkOf(SentencesFrom(s, start, i)) == Ink(s[start..])
    decreases |s| - i
  {
    if i == |s| {
      InkOfOne(s[start..]);
    } else if Gap(s, i) {
      var j := AfterSpace(s, i);
      InkOfSentencesFrom(s, j, j);
      InkOverGap(s, start, i, j);
      InkOfCons(s[start..i], SentencesFrom(s, j, j));
    } else {
      InkOfSentencesFrom(s, start, i + 1);
    }
  }

  lemma InkOverGap(s: string, start: nat, i: nat, j: nat)
    requires start <= i <= j <= |s| && forall k :: i <= k < j ==> IsSpace(s[k])
    ensures Ink(s[start..]) == Ink(s[start..i]) + Ink(s[j..])
  {
    var u := s[start..];
    AllSpaceHasNoInk(s[i..j]);
    assert u[i - start..j - start] == s[i..j];
    InkWithout(u, i - start, j - start);
    assert u[..i - start] == s[start..i] && u[j - start..] == s[j..];
  }

  lemma InkOfSentences(s: string)
    ensures InkOf(Sentences(s)) == Ink(s)
  {
    InkOfSentencesFrom(s, 0, 0);
    assert s[0..] == s;
  }

  // Only the last unit can end anywhere but at the end of a sentence.
  lemma {:induction false} SentencesEndSentences(s: string, start: nat, i: nat, u: nat)
    requires start <= i <= |s| && (0 < start == i ==> IsSpace(s[start - 1]))
    requires u < |SentencesFrom(s, start, i)| - 1
    ensures var unit := SentencesFrom(s, start, i)[u]; |unit| > 0 && EndsSentence(unit[|unit| - 1])
    decreases |s| - i
  {
    if Gap(s, i) {
      var j := AfterSpace(s, i);
      if u > 0 {
        SentencesEndSentences(s, j, j, u - 1);
      }
    } else {
      SentencesEndSentences(s, start, i + 1, u);
    }
  }

  // ---------- line offsets ----------

  // A match of \r\n?|\n ends just before position k.
  predicate EndsNewline(text: string, k: nat)
    requires 0 < k <= |text|
  {
    text[k - 1] == '\n' || (text[k - 1] == '\r' && !(k < |text| && text[k] == '\n'))
  }

  // Position 0 and every position up to k just after a newline, ascending.
  function NewlineEnds(text: string, k: nat): (offsets: seq<nat>)
    requires k <= |text|
    ensures |offsets| > 0 && offsets[0] == 0 && offsets[|offsets| - 1] <= k
  {
    if k == 0 then [0]
    else if EndsNewline(text, k) then NewlineEnds(text, k - 1) + [k]
    else NewlineEnds(text, k - 1)
  }

  function Offsets(text: string): (offsets: seq<nat>) {
    var ends := NewlineEnds(text, |text|);
    if ends[|ends| - 1] == |text| then ends else ends + [|text|]
  }

  lemma {:induction false} NewlineEndsExactly(text: string, k: nat)
    requires k <= |text|
    ensures var ends := NewlineEnds(text, k);
      && (forall i, j :: 0 <= i < j < |ends| ==> ends[i] < ends[j])
      && (forall p :: p in ends <==> p == 0 || (0 < p <= k && EndsNewline(text, p)))
  {
    if k > 0 {
      NewlineEndsExactly(text, k - 1);
    }
  }

  /** The offsets are exactly the starts of the text's lines and its end, each once, ascending. */
  lemma OffsetsExactly(text: string)
    ensures var offsets := Offsets(text);
      && |offsets| > 0 && offsets[0] == 0 && offsets[|offsets| - 1] == |text|
      && (forall i, j :: 0 <= i < j < |offsets| ==> offsets[i] < offsets[j])
      && (forall p :: p in offsets <==> p == 0 || p == |text| || (0 < p < |text| && EndsNewline(text, p)))
  {
    NewlineEndsExactly(text, |text|);
  }

  lemma {:induction false} NoNewlineBetween(text: string, i: nat, k: nat)
    requires i <= k <= |text| && forall p :: i < p <= k ==> !EndsNewline(text, p)
    ensures NewlineEnds(text, k) == NewlineEnds(text, i)
  {
    if i < k {
      NoNewlineBetween(text, i, k - 1);
    }
  }

  // The next match of \r\n?|\n from position i: where it starts and where it ends.
  method FindNewline(text: string, i: nat) returns (found: bool, end: nat)
    requires i <= |text| && (0 < i < |text| ==> !(text[i - 1] == '\r' && text[i] == '\n'))
    ensures found ==> i < end <= |text| && EndsNewline(text, end) && forall p :: i < p < end ==> !EndsNewline(text, p)
    ensures !found ==> forall p :: i < p <= |text| ==> !EndsNewline(text, p)
  {
    var k := i;
    while k < |text|
      invariant i <= k <= |text|
      invariant forall p :: i <= p < k ==> text[p] != '\n' && text[p] != '\r'
    {
      if text[k] == '\r' && k + 1 < |text| && text[k + 1] == '\n' {
        return true, k + 2;
      }
      if text[k] == '\r' || text[k] == '\n' {
        return true, k + 1;
      }
      k := k + 1;
    }
    return false, |text|;
  }

  method LineOffsets(text: string) returns (offsets: seq<nat>)
    ensures offsets == Offsets(text)
  {
    offsets := [0];
    var i: nat := 0;
    var found, end := FindNewline(text, i);
    while found
      invariant i <= |text| && offsets == NewlineEnds(text, i)
      invariant found ==> i < end <= |text| && EndsNewline(text, end)
                          && forall p :: i < p < end ==> !EndsNewline(text, p)
      invariant !found ==> forall p :: i < p <= |text| ==> !EndsNewline(text, p)
      decreases |text| - i, if found then 1 else 0
    {
      NoNewlineBetween(text, i, end - 1);
      offsets := offsets + [end];
      i := end;
      found, end := FindNewline(text, i);
    }
    NoNewlineBetween(text, i, |text|);
    if offsets[|offsets| - 1] != |text| {
      offsets := offsets + [|text|];
    }
  }
}
