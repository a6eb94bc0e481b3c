/**
 When a template reads back what it rendered. Inside a run of digits with several ordinals the
 cut is ambiguous and the greedy match moves it; a field is pinned when its last occurrence
 cannot move.
 */
module Readings {
  import opened Options
  import opened Sequences
  import opened Decimals
  import opened Periods
  import opened Templates

  // The template starts inside a run of digits in which an ordinal is still to come.
  ghost predicate Tangled(grain: Kind, t: Template) {
    HasField(t, OrdinalField) && false !in Classes(grain, t)
  }

  // The last occurrence of f has no ordinal before it in a run that has it, or an ordinal after
  // it, still to come. Loose: an ordinal came before in the run that t starts in.
  ghost predicate Pinned(grain: Kind, t: Template, f: Field, loose: bool)
    decreases |t|
  {
    if |t| == 0 then true
    else if HasField(t[1..], f) then Pinned(grain, t[1..], f, Loosens(grain, t, loose))
    else t[0] == Slot(f) ==> !loose
  }

  ghost predicate Loosens(grain: Kind, t: Template, loose: bool)
    requires |t| > 0
  {
    (loose || t[0] == Slot(OrdinalField)) && Tangled(grain, t[1..])
  }

  // ---------- pinned fields are read alike ----------

  lemma DigitsJoin(s: string, p: nat, q: nat, r: nat)
    requires p <= q <= r <= |s| && AllDigits(s[p..q]) && AllDigits(s[q..r])
    ensures AllDigits(s[p..r])
  {
    forall i | 0 <= i < r - p ensures IsDigit(s[p..r][i]) {
      if p + i < q {
        assert s[p..r][i] == s[p..q][i];
      } else {
        assert s[p..r][i] == s[q..r][p + i - q];
      }
    }
  }

  lemma DigitsPart(s: string, p: nat, q: nat, x: nat, y: nat)
    requires p <= x <= y <= q <= |s| && AllDigits(s[p..q])
    ensures AllDigits(s[x..y])
  {
    assert forall i :: 0 <= i < y - x ==> s[x..y][i] == s[p..q][x - p + i];
  }

  lemma TangledTail(grain: Kind, t: Template)
    requires |t| > 0 && t[0] != Slot(OrdinalField) && Tangled(grain, t)
    ensures Tangled(grain, t[1..]) && false !in PartClasses(grain, t[0])
  {
    TailHasField(t);
    assert Classes(grain, t) == PartClasses(grain, t[0]) + Classes(grain, t[1..]);
  }

  predicate PartFits(grain: Kind, p: Part, s: string) {
    if p.Lit? then s == p.text else FieldFits(grain, p.field, s)
  }

  // How a reading takes the first part: its width, and the captures left.
  ghost predicate Takes(grain: Kind, t: Template, s: string, p: nat, caps: seq<string>, w: nat, rest: seq<string>) {
    && |t| > 0 && p + w <= |s| && ReadsAt(grain, t[1..], s, p + w, rest)
    && (if t[0].Lit? then s[p..p + w] == t[0].text && rest == caps
        else |caps| > 0 && caps[0] == s[p..p + w] && rest == caps[1..] && FieldFits(grain, t[0].field, s[p..p + w]))
  }

  // A reading of t from position p.
  ghost predicate ReadsAt(grain: Kind, t: Template, s: string, p: nat, caps: seq<string>) {
    p <= |s| && Decomposes(grain, t, s[p..], caps)
  }

  lemma TakesFirst(grain: Kind, t: Template, s: string, p: nat, caps: seq<string>) returns (w: nat, rest: seq<string>)
    requires |t| > 0 && ReadsAt(grain, t, s, p, caps)
    ensures Takes(grain, t, s, p, caps, w, rest)
  {
    if t[0].Lit? {
      w, rest := |t[0].text|, caps;
    } else {
      w, rest := |caps[0]|, caps[1..];
    }
    assert s[p..][w..] == s[p + w..] && s[p..][..w] == s[p..p + w];
  }

  // A fixed part has the same width in every reading, and digits where the classes say so.
  lemma FixedPart(grain: Kind, p: Part, s: string)
    requires PartFits(grain, p, s) && p != Slot(OrdinalField)
    ensures |s| == |PartClasses(grain, p)|
    ensures false !in PartClasses(grain, p) ==> AllDigits(s)
  {
    PartClassesHold(grain, p, s);
    var cls := PartClasses(grain, p);
    if false !in cls {
      assert forall i :: 0 <= i < |cls| ==> cls[i];
    }
  }

  lemma RunFrom(s: string, p: nat, q: nat)
    requires p <= q <= |s| && AllDigits(s[p..q])
    ensures LeadingDigits(s[p..]) == q - p + LeadingDigits(s[q..])
  {
    var u := s[p..];
    assert u[..q - p] == s[p..q];
    RunAfter(u, 0, q - p);
    assert u[0..] == u && u[q - p..] == s[q..];
  }

  // Two readings that part in a run of digits meet again where the run has no more ordinals.
  lemma RunsMeet(grain: Kind, t: Template, s: string, p: nat, q: nat, a: seq<string>, b: seq<string>)
    requires p <= q <= |s| && AllDigits(s[p..q]) && !Tangled(grain, t)
    requires Decomposes(grain, t, s[p..], a) && Decomposes(grain, t, s[q..], b)
    ensures p == q
  {
    RunOfDigits(grain, t, s[p..], a);
    RunOfDigits(grain, t, s[q..], b);
    RunFrom(s, p, q);
  }

  predicate DigitsFrom(s: string, p: nat, q: nat) {
    p <= q <= |s| && AllDigits(s[p..q])
  }

  // Where two readings of t at p and q can be after its first part.
  ghost predicate Apart(grain: Kind, t: Template, s: string, p: nat, q: nat, loose: bool) {
    p == q || (loose && Tangled(grain, t) && (DigitsFrom(s, p, q) || DigitsFrom(s, q, p)))
  }

  lemma FixedKeepsApart(grain: Kind, t: Template, s: string, p: nat, q: nat, w: nat, x: nat, loose: bool)
    requires |t| > 0 && t[0] != Slot(OrdinalField) && p < q && w == x && q + x <= |s|
    requires loose && Tangled(grain, t) && AllDigits(s[p..q]) && AllDigits(s[q..q + x])
    ensures Apart(grain, t[1..], s, p + w, q + x, Loosens(grain, t, loose))
  {
    TangledTail(grain, t);
    DigitsJoin(s, p, q, q + x);
    DigitsPart(s, p, q + x, p + w, q + x);
  }

  lemma DigitsBetween(s: string, p: nat, q: nat, w: nat, x: nat)
    requires p <= q && p + w <= |s| && q + x <= |s|
    requires AllDigits(s[p..q]) && AllDigits(s[p..p + w]) && AllDigits(s[q..q + x])
    ensures DigitsFrom(s, p + w, q + x) || DigitsFrom(s, q + x, p + w)
  {
    DigitsJoin(s, p, q, q + x);
    if p + w <= q + x {
      DigitsPart(s, p, q + x, p + w, q + x);
    } else {
      DigitsPart(s, p, p + w, q + x, p + w);
    }
  }

  lemma ReadingsMeet(grain: Kind, t: Template, s: string, p: nat, q: nat, a: seq<string>, b: seq<string>)
    requires DigitsFrom(s, p, q) || DigitsFrom(s, q, p)
    requires p <= |s| && q <= |s| && Decomposes(grain, t, s[p..], a) && Decomposes(grain, t, s[q..], b)
    ensures !Tangled(grain, t) ==> p == q
  {
    if !Tangled(grain, t) {
      if p <= q {
        RunsMeet(grain, t, s, p, q, a, b);
      } else {
        RunsMeet(grain, t, s, q, p, b, a);
      }
    }
  }

  lemma OrdinalsKeepApart(grain: Kind, t: Template, s: string, p: nat, q: nat, a: seq<string>, b: seq<string>,
                          w: nat, x: nat, a': seq<string>, b': seq<string>, loose: bool)
    requires |t| > 0 && t[0] == Slot(OrdinalField) && p <= q <= |s| && AllDigits(s[p..q])
    requires Takes(grain, t, s, p, a, w, a') && Takes(grain, t, s, q, b, x, b')
    ensures Apart(grain, t[1..], s, p + w, q + x, Loosens(grain, t, loose))
    ensures !Tangled(grain, t[1..]) ==> p + w == q + x
  {
    DigitsBetween(s, p, q, w, x);
    ReadingsMeet(grain, t[1..], s, p + w, q + x, a', b');
  }

  lemma FixedPartsKeepApart(grain: Kind, t: Template, s: string, p: nat, q: nat, w: nat, x: nat, loose: bool)
    requires |t| > 0 && t[0] != Slot(OrdinalField) && p <= q && p + w <= |s| && q + x <= |s|
    requires p < q ==> loose && Tangled(grain, t) && AllDigits(s[p..q])
    requires PartFits(grain, t[0], s[p..p + w]) && PartFits(grain, t[0], s[q..q + x])
    ensures Apart(grain, t[1..], s, p + w, q + x, Loosens(grain, t, loose)) && w == x
  {
    FixedPart(grain, t[0], s[p..p + w]);
    FixedPart(grain, t[0], s[q..q + x]);
    assert w == |s[p..p + w]| && x == |s[q..q + x]|;
    if p < q {
      TangledTail(grain, t);
      FixedKeepsApart(grain, t, s, p, q, w, x, loose);
    }
  }

  lemma PartsKeepApart(grain: Kind, t: Template, s: string, p: nat, q: nat, a: seq<string>, b: seq<string>,
                       w: nat, x: nat, a': seq<string>, b': seq<string>, loose: bool)
    requires |t| > 0 && p <= q <= |s| && (p < q ==> loose && Tangled(grain, t) && AllDigits(s[p..q]))
    requires Takes(grain, t, s, p, a, w, a') && Takes(grain, t, s, q, b, x, b')
    ensures Apart(grain, t[1..], s, p + w, q + x, Loosens(grain, t, loose))
    ensures p == q && !(t[0] == Slot(OrdinalField) && Tangled(grain, t[1..])) ==> w == x
  {
    if t[0] == Slot(OrdinalField) {
      assert p == q ==> s[p..q] == "";
      OrdinalsKeepApart(grain, t, s, p, q, a, b, w, x, a', b', loose);
    } else {
      FixedPartsKeepApart(grain, t, s, p, q, w, x, loose);
    }
  }

  lemma PartsApart(grain: Kind, t: Template, s: string, p: nat, q: nat, a: seq<string>, b: seq<string>,
                   w: nat, x: nat, a': seq<string>, b': seq<string>, loose: bool)
    requires |t| > 0 && p <= |s| && q <= |s| && Apart(grain, t, s, p, q, loose)
    requires Takes(grain, t, s, p, a, w, a') && Takes(grain, t, s, q, b, x, b')
    ensures Apart(grain, t[1..], s, p + w, q + x, Loosens(grain, t, loose))
    ensures p == q && !(t[0] == Slot(OrdinalField) && Tangled(grain, t[1..])) ==> w == x
  {
    if p <= q {
      PartsKeepApart(grain, t, s, p, q, a, b, w, x, a', b', loose);
    } else {
      PartsKeepApart(grain, t, s, q, p, b, a, x, w, b', a', loose);
    }
  }

  lemma CapturedStep(t: Template, caps: seq<string>, f: Field, rest: seq<string>)
    requires |t| > 0 && (if t[0].Lit? then rest == caps else |caps| > 0 && rest == caps[1..])
    ensures Captured(t, caps, f) ==
      if Captured(t[1..], rest, f).Some? then Captured(t[1..], rest, f)
      else if t[0] == Slot(f) then Some(caps[0]) else None
  {
  }

  lemma {:induction false} CapturesHave(grain: Kind, t: Template, s: string, caps: seq<string>, f: Field)
    requires Decomposes(grain, t, s, caps)
    ensures Captured(t, caps, f).Some? <==> HasField(t, f)
    ensures Captured(t, caps, f).Some? ==> FieldFits(grain, f, Captured(t, caps, f).value)
    decreases |t|
  {
    if |t| > 0 {
      HasFieldSplit(t, f);
      if t[0].Lit? {
        CapturesHave(grain, t[1..], s[|t[0].text|..], caps, f);
      } else {
        CapturesHave(grain, t[1..], s[|caps[0]|..], caps[1..], f);
      }
    }
  }

  ghost predicate SameCaptured(t: Template, a: seq<string>, b: seq<string>, f: Field) {
    Captured(t, a, f) == Captured(t, b, f)
  }

  lemma PinnedFirst(grain: Kind, t: Template, f: Field, loose: bool)
    requires |t| > 0 && Pinned(grain, t, f, loose) && !HasField(t[1..], f)
    ensures t[0] == Slot(f) ==> !loose && !(t[0] == Slot(OrdinalField) && Tangled(grain, t[1..]))
  {
  }

  lemma PinnedNext(grain: Kind, t: Template, f: Field, loose: bool)
    requires |t| > 0 && Pinned(grain, t, f, loose) && HasField(t[1..], f)
    ensures Pinned(grain, t[1..], f, Loosens(grain, t, loose))
  {
  }

  // Two readings of a template, which may be apart.
  ghost predicate TwoReadings(grain: Kind, t: Template, s: string, p: nat, q: nat, a: seq<string>, b: seq<string>,
                              loose: bool)
  {
    ReadsAt(grain, t, s, p, a) && ReadsAt(grain, t, s, q, b) && Apart(grain, t, s, p, q, loose)
  }

  // The last use of the field comes first, and is read alike.
  lemma SameHere(grain: Kind, t: Template, s: string, p: nat, q: nat, a: seq<string>, b: seq<string>, f: Field,
                 loose: bool)
    requires |t| > 0 && TwoReadings(grain, t, s, p, q, a, b, loose)
    requires Pinned(grain, t, f, loose) && !HasField(t[1..], f)
    ensures SameCaptured(t, a, b, f)
  {
    var w, a' := TakesFirst(grain, t, s, p, a);
    var x, b' := TakesFirst(grain, t, s, q, b);
    PartsApart(grain, t, s, p, q, a, b, w, x, a', b', loose);
    PinnedFirst(grain, t, f, loose);
    FirstCaptures(grain, t, s, p, q, a, b, w, x, a', b', f);
  }

  // The readings after the first part.
  lemma NextReadings(grain: Kind, t: Template, s: string, p: nat, q: nat, a: seq<string>, b: seq<string>, loose: bool)
    returns (p': nat, q': nat, a': seq<string>, b': seq<string>)
    requires |t| > 0 && TwoReadings(grain, t, s, p, q, a, b, loose)
    ensures TwoReadings(grain, t[1..], s, p', q', a', b', Loosens(grain, t, loose))
    ensures forall f :: HasField(t[1..], f) && SameCaptured(t[1..], a', b', f) ==> SameCaptured(t, a, b, f)
  {
    var w, x;
    w, a' := TakesFirst(grain, t, s, p, a);
    x, b' := TakesFirst(grain, t, s, q, b);
    p', q' := p + w, q + x;
    PartsApart(grain, t, s, p, q, a, b, w, x, a', b', loose);
    forall f | HasField(t[1..], f) && SameCaptured(t[1..], a', b', f) ensures SameCaptured(t, a, b, f) {
      LaterCaptures(grain, t, s, p, q, a, b, w, x, a', b', f);
    }
  }

  /** A pinned field has the same last capture in every reading. */
  lemma {:induction false} SameCapture(grain: Kind, t: Template, s: string, p: nat, q: nat, a: seq<string>,
                                       b: seq<string>, f: Field, loose: bool)
    requires TwoReadings(grain, t, s, p, q, a, b, loose) && Pinned(grain, t, f, loose)
    ensures SameCaptured(t, a, b, f)
    decreases |t|
  {
    if |t| > 0 {
      if HasField(t[1..], f) {
        var p', q', a', b' := NextReadings(grain, t, s, p, q, a, b, loose);
        PinnedNext(grain, t, f, loose);
        SameCapture(grain, t[1..], s, p', q', a', b', f, Loosens(grain, t, loose));
      } else {
        SameHere(grain, t, s, p, q, a, b, f, loose);
      }
    }
  }

  lemma LaterCaptures(grain: Kind, t: Template, s: string, p: nat, q: nat, a: seq<string>, b: seq<string>,
                      w: nat, x: nat, a': seq<string>, b': seq<string>, f: Field)
    requires Takes(grain, t, s, p, a, w, a') && Takes(grain, t, s, q, b, x, b')
    requires HasField(t[1..], f) && SameCaptured(t[1..], a', b', f)
    ensures SameCaptured(t, a, b, f)
  {
    CapturesHave(grain, t[1..], s[p + w..], a', f);
    CapturedStep(t, a, f, a');
    CapturedStep(t, b, f, b');
  }

  lemma FirstCaptures(grain: Kind, t: Template, s: string, p: nat, q: nat, a: seq<string>, b: seq<string>,
                      w: nat, x: nat, a': seq<string>, b': seq<string>, f: Field)
    requires Takes(grain, t, s, p, a, w, a') && Takes(grain, t, s, q, b, x, b')
    requires !HasField(t[1..], f) && (t[0] == Slot(f) ==> p == q && w == x)
    ensures SameCaptured(t, a, b, f)
  {
    CapturesHave(grain, t[1..], s[p + w..], a', f);
    CapturesHave(grain, t[1..], s[q + x..], b', f);
    CapturedStep(t, a, f, a');
    CapturedStep(t, b, f, b');
  }

  // ---------- unpinned fields are misread ----------

  // The text that fields are misread as. A digit-only key is a year.
  const ZEROS := Values("", "0000", "0000", "00", "1")

  ghost predicate DigitPart(grain: Kind, p: Part) {
    p == Slot(OrdinalField) || false !in PartClasses(grain, p)
  }

  ghost predicate DigitParts(grain: Kind, t: Template) {
    forall i :: 0 <= i < |t| ==> DigitPart(grain, t[i])
  }

  // How many parts there are up to the last ordinal of the run.
  ghost function RunEnd(grain: Kind, t: Template): (k: nat)
    requires Tangled(grain, t)
    decreases |t|
  {
    if t[0] == Slot(OrdinalField) then
      if Tangled(grain, t[1..]) then 1 + RunEnd(grain, t[1..]) else 1
    else
      TangledTail(grain, t);
      1 + RunEnd(grain, t[1..])
  }

  // The parts up to k are the run: digits only, the last one its last ordinal.
  ghost predicate IsRunEnd(grain: Kind, t: Template, k: nat) {
    1 <= k <= |t| && t[k - 1] == Slot(OrdinalField) && DigitParts(grain, t[..k]) && !Tangled(grain, t[k..])
  }

  lemma {:induction false} RunEndFacts(grain: Kind, t: Template)
    requires Tangled(grain, t)
    ensures IsRunEnd(grain, t, RunEnd(grain, t))
    decreases |t|
  {
    if t[0] != Slot(OrdinalField) {
      TangledTail(grain, t);
    }
    if Tangled(grain, t[1..]) {
      RunEndFacts(grain, t[1..]);
      RunEndNext(grain, t, RunEnd(grain, t[1..]));
    } else {
      assert t[..1] == [t[0]];
    }
  }

  lemma RunEndNext(grain: Kind, t: Template, k: nat)
    requires |t| > 0 && DigitPart(grain, t[0]) && IsRunEnd(grain, t[1..], k)
    ensures IsRunEnd(grain, t, k + 1)
  {
    assert t[1..][k..] == t[k + 1..];
    var rest := t[1..][..k];
    var more := t[..k + 1];
    forall i | 0 <= i < |more| ensures DigitPart(grain, more[i]) {
      if i > 0 {
        assert more[i] == rest[i - 1];
      }
    }
  }

  // A field that is last used after the run is unpinned there too.
  lemma {:induction false} UnpinnedAfter(grain: Kind, t: Template, f: Field)
    requires Tangled(grain, t) && RunEnd(grain, t) <= |t| && HasField(t[RunEnd(grain, t)..], f)
      && !Pinned(grain, t, f, true)
    ensures !Pinned(grain, t[RunEnd(grain, t)..], f, false)
    decreases |t|
  {
    var k := RunEnd(grain, t);
    RunEndFacts(grain, t);
    HasFieldIn(t, k, f);
    if t[0] != Slot(OrdinalField) {
      TangledTail(grain, t);
    }
    if Tangled(grain, t[1..]) {
      assert t[1..][k - 1..] == t[k..];
      UnpinnedAfter(grain, t[1..], f);
    }
  }

  lemma HasFieldIn(t: Template, k: nat, f: Field)
    requires 1 <= k <= |t| && HasField(t[k..], f)
    ensures HasField(t[1..], f)
  {
    var i :| 0 <= i < |t[k..]| && t[k..][i] == Slot(f);
    assert t[1..][k - 1 + i] == Slot(f);
  }

  // An ordinal that makes the field misread: it ends in what the rest of the run looks like when
  // every ordinal in it has one digit and every field is zero.
  ghost function Confusing(grain: Kind, t: Template, f: Field): string
    decreases |t|
  {
    if |t| == 0 then "1"
    else if t[0] == Slot(OrdinalField) && Tangled(grain, t[1..]) then
      RunEndFacts(grain, t[1..]);
      var k := RunEnd(grain, t[1..]);
      if HasField(t[1..][k..], f) then Confusing(grain, t[1..][k..], f) else "1" + Render(t[1..][..k], ZEROS)
    else Confusing(grain, t[1..], f)
  }

  // ---------- reading a front of a template ----------

  // The captures of a part read as s.
  function PartCaptures(p: Part, s: string): seq<string> {
    if p.Lit? then [] else [s]
  }

  // The parts read s to its end, with these captures.
  ghost predicate Reads(grain: Kind, t: Template, s: string, caps: seq<string>)
    decreases |t|
  {
    if |t| == 0 then s == "" && caps == [] else exists x: nat, rest :: ReadsFirst(grain, t, s, caps, x, rest)
  }

  ghost predicate ReadsFirst(grain: Kind, t: Template, s: string, caps: seq<string>, x: nat, rest: seq<string>)
    requires |t| > 0
    decreases |t|, 0
  {
    x <= |s| && PartFits(grain, t[0], s[..x]) && caps == PartCaptures(t[0], s[..x]) + rest
        && Reads(grain, t[1..], s[x..], rest)
  }

  lemma DecomposesFirst(grain: Kind, t: Template, s: string, x: nat, rest: seq<string>)
    requires |t| > 0 && x <= |s| && PartFits(grain, t[0], s[..x]) && Decomposes(grain, t[1..], s[x..], rest)
    ensures Decomposes(grain, t, s, PartCaptures(t[0], s[..x]) + rest)
  {
    if t[0].Lit? {
      assert PartCaptures(t[0], s[..x]) + rest == rest;
    } else {
      ConsDecomposes(grain, t, s, x, rest);
    }
  }

  lemma {:induction false} ReadsThenDecomposes(grain: Kind, a: Template, b: Template, s: string, u: string,
                                               caps: seq<string>, rest: seq<string>)
    requires Reads(grain, a, s, caps) && Decomposes(grain, b, u, rest)
    ensures Decomposes(grain, a + b, s + u, caps + rest)
    decreases |a|
  {
    if |a| == 0 {
      assert a + b == b && caps + rest == rest && s + u == u;
    } else {
      var x: nat, more :| ReadsFirst(grain, a, s, caps, x, more);
      ReadsThenDecomposes(grain, a[1..], b, s[x..], u, more, rest);
      FirstThenRest(grain, a, b, s, u, x, more + rest);
      Regroup(PartCaptures(a[0], s[..x]), more, rest);
    }
  }

  lemma FirstThenRest(grain: Kind, a: Template, b: Template, s: string, u: string, x: nat, caps: seq<string>)
    requires |a| > 0 && x <= |s| && PartFits(grain, a[0], s[..x]) && Decomposes(grain, a[1..] + b, s[x..] + u, caps)
    ensures Decomposes(grain, a + b, s + u, PartCaptures(a[0], s[..x]) + caps)
  {
    assert (a + b)[1..] == a[1..] + b && (s + u)[x..] == s[x..] + u && (s + u)[..x] == s[..x];
    DecomposesFirst(grain, a + b, s + u, x, caps);
  }

  // A match takes the first part and matches the rest.
  lemma MatchTakes(grain: Kind, t: Template, s: string) returns (x: nat)
    requires |t| > 0 && Match(grain, t, s).Some?
    ensures x <= |s| && PartFits(grain, t[0], s[..x]) && Match(grain, t[1..], s[x..]).Some?
    ensures Match(grain, t, s).value == PartCaptures(t[0], s[..x]) + Match(grain, t[1..], s[x..]).value
  {
    if t[0].Lit? {
      x := |t[0].text|;
    } else if t[0].field == OrdinalField {
      x := OrdinalSearch(grain, t, s, LeadingDigits(s));
      assert AllDigits(s[..x]) by { assert forall i :: 0 <= i < x ==> s[..x][i] == s[..LeadingDigits(s)][i]; }
    } else {
      x := |Shape(grain, t[0].field)|;
    }
  }

  lemma MatchTakesFront(grain: Kind, a: Template, b: Template, s: string) returns (x: nat)
    requires |a| > 0 && Match(grain, a + b, s).Some?
    ensures x <= |s| && PartFits(grain, a[0], s[..x]) && Match(grain, a[1..] + b, s[x..]).Some?
    ensures Match(grain, a + b, s).value == PartCaptures(a[0], s[..x]) + Match(grain, a[1..] + b, s[x..]).value
  {
    assert (a + b)[1..] == a[1..] + b;
    x := MatchTakes(grain, a + b, s);
  }

  // A match reads the front and then matches the rest.
  lemma {:induction false} MatchSplits(grain: Kind, a: Template, b: Template, s: string)
    returns (w: nat, caps: seq<string>)
    requires Match(grain, a + b, s).Some?
    ensures SplitsAs(grain, a, b, s, w, caps)
    decreases |a|
  {
    if |a| == 0 {
      w, caps := 0, [];
      assert a + b == b && s[0..] == s;
      var value := Match(grain, b, s).value;
      assert caps + value == value;
    } else {
      var x := MatchTakesFront(grain, a, b, s);
      var y, more := MatchSplits(grain, a[1..], b, s[x..]);
      w, caps := x + y, PartCaptures(a[0], s[..x]) + more;
      SplitsLonger(grain, a, b, s, x, y, more);
    }
  }

  // The front reads the first w characters, and the match goes on with the rest.
  ghost predicate SplitsAs(grain: Kind, a: Template, b: Template, s: string, w: nat, caps: seq<string>) {
    && w <= |s| && Reads(grain, a, s[..w], caps) && Match(grain, b, s[w..]).Some?
    && Match(grain, a + b, s) == Some(caps + Match(grain, b, s[w..]).value)
  }

  lemma SplitsLonger(grain: Kind, a: Template, b: Template, s: string, x: nat, y: nat, more: seq<string>)
    requires |a| > 0 && x <= |s| && PartFits(grain, a[0], s[..x]) && SplitsAs(grain, a[1..], b, s[x..], y, more)
    requires Match(grain, a + b, s).Some?
      && Match(grain, a + b, s).value == PartCaptures(a[0], s[..x]) + Match(grain, a[1..] + b, s[x..]).value
    ensures SplitsAs(grain, a, b, s, x + y, PartCaptures(a[0], s[..x]) + more)
  {
    assert s[x..][y..] == s[x + y..];
    MatchJoins(grain, a, s, x, y, more);
    Regroup(PartCaptures(a[0], s[..x]), more, Match(grain, b, s[x + y..]).value);
  }

  lemma MatchJoins(grain: Kind, a: Template, s: string, x: nat, y: nat, more: seq<string>)
    requires |a| > 0 && x + y <= |s| && PartFits(grain, a[0], s[..x]) && Reads(grain, a[1..], s[x..][..y], more)
    ensures Reads(grain, a, s[..x + y], PartCaptures(a[0], s[..x]) + more)
  {
    var front := s[..x + y];
    assert front[..x] == s[..x] && front[x..] == s[x..][..y];
    assert ReadsFirst(grain, a, front, PartCaptures(a[0], s[..x]) + more, x, more);
  }

  function Slots(t: Template): nat {
    if |t| == 0 then 0 else (if t[0].Slot? then 1 else 0) + Slots(t[1..])
  }

  lemma {:induction false} ReadsAll(grain: Kind, t: Template, s: string, caps: seq<string>)
    requires Reads(grain, t, s, caps)
    ensures |caps| == Slots(t)
    decreases |t|
  {
    if |t| > 0 {
      var x: nat, rest :| ReadsFirst(grain, t, s, caps, x, rest);
      ReadsAll(grain, t[1..], s[x..], rest);
    }
  }

  lemma {:induction false} CapturedAppend(a: Template, b: Template, x: seq<string>, y: seq<string>, f: Field)
    requires |x| == Slots(a)
    ensures Captured(a + b, x + y, f) == if Captured(b, y, f).Some? then Captured(b, y, f) else Captured(a, x, f)
    decreases |a|
  {
    if |a| == 0 {
      assert a + b == b && x + y == y;
    } else {
      assert (a + b)[1..] == a[1..] + b;
      if a[0].Slot? {
        assert (x + y)[1..] == x[1..] + y;
        CapturedAppend(a[1..], b, x[1..], y, f);
      } else {
        CapturedAppend(a[1..], b, x, y, f);
      }
    }
  }

  // ---------- runs of digits ----------

  // The part is read as digits, no fewer than zeros would take.
  lemma DigitPartFacts(grain: Kind, p: Part, s: string)
    requires DigitPart(grain, p) && PartFits(grain, p, s)
    ensures AllDigits(s) && |PartText(p, ZEROS)| <= |s|
    ensures p.Lit? ==> s == PartText(p, ZEROS)
  {
    if p != Slot(OrdinalField) {
      PartClassesHold(grain, p, s);
      var cls := PartClasses(grain, p);
      assert forall i :: 0 <= i < |cls| ==> cls[i];
      if p.Slot? {
        ZeroFits(grain, p);
      }
    }
  }

  lemma ZeroFits(grain: Kind, p: Part)
    requires DigitPart(grain, p)
    ensures PartFits(grain, p, PartText(p, ZEROS)) && AllDigits(PartText(p, ZEROS))
  {
    if p.Lit? {
      PartClassesHold(grain, p, p.text);
      var cls := PartClasses(grain, p);
      assert forall i :: 0 <= i < |cls| ==> cls[i];
    } else if p.field != OrdinalField {
      DashedIsNotDigits(grain, p.field);
    }
  }

  // A field with a dash in it is not digits only.
  lemma DashedIsNotDigits(grain: Kind, f: Field)
    ensures f == DateField || (f == KeyField && grain != Year) ==> false in PartClasses(grain, Slot(f))
  {
    if f == DateField || (f == KeyField && grain != Year) {
      assert PartClasses(grain, Slot(f))[4] == false;
    }
  }

  lemma {:induction false} DigitsRead(grain: Kind, t: Template, s: string, caps: seq<string>)
    requires DigitParts(grain, t) && Reads(grain, t, s, caps)
    ensures AllDigits(s) && |Render(t, ZEROS)| <= |s|
    decreases |t|
  {
    if |t| > 0 {
      assert DigitPart(grain, t[0]) && DigitParts(grain, t[1..]);
      var x: nat, rest :| ReadsFirst(grain, t, s, caps, x, rest);
      DigitPartFacts(grain, t[0], s[..x]);
      DigitsRead(grain, t[1..], s[x..], rest);
      assert s == s[..x] + s[x..];
    }
  }

  // A reading that takes no more than zeros would take reads each part as wide.
  lemma {:induction false} TightReads(grain: Kind, t: Template, s: string, caps: seq<string>)
    requires DigitParts(grain, t) && Reads(grain, t, s, caps) && s == Render(t, ZEROS)
    ensures caps == Captures(t, ZEROS)
    decreases |t|
  {
    if |t| > 0 {
      assert DigitPart(grain, t[0]) && DigitParts(grain, t[1..]);
      var x: nat, rest :| ReadsFirst(grain, t, s, caps, x, rest);
      var text, later := PartText(t[0], ZEROS), Render(t[1..], ZEROS);
      DigitPartFacts(grain, t[0], s[..x]);
      DigitsRead(grain, t[1..], s[x..], rest);
      assert x == |text|;
      assert (text + later)[..x] == text && (text + later)[x..] == later;
      TightReads(grain, t[1..], later, rest);
    }
  }

  lemma {:induction false} RenderedReads(grain: Kind, t: Template, v: Values)
    requires ValuesFit(grain, t, v)
    ensures Reads(grain, t, Render(t, v), Captures(t, v))
    decreases |t|
  {
    if |t| > 0 {
      var text, later := PartText(t[0], v), Render(t[1..], v);
      assert PartFits(grain, t[0], text) && ValuesFit(grain, t[1..], v);
      RenderedReads(grain, t[1..], v);
      assert (text + later)[..|text|] == text && (text + later)[|text|..] == later;
      assert PartCaptures(t[0], text) + Captures(t[1..], v) == Captures(t, v);
      assert ReadsFirst(grain, t, text + later, Captures(t, v), |text|, Captures(t[1..], v));
    }
  }

  lemma ZerosAreRead(grain: Kind, t: Template)
    requires DigitParts(grain, t)
    ensures Reads(grain, t, Render(t, ZEROS), Captures(t, ZEROS)) && AllDigits(Render(t, ZEROS))
  {
    forall i | 0 <= i < |t| && t[i].Slot? ensures FieldFits(grain, t[i].field, TextOf(ZEROS, t[i].field)) {
      ZeroFits(grain, t[i]);
    }
    RenderedReads(grain, t, ZEROS);
    DigitsRead(grain, t, Render(t, ZEROS), Captures(t, ZEROS));
  }

  // ---------- the misreading ----------

  ghost predicate ReadAsZeros(grain: Kind, t: Template, f: Field, v: Values) {
    var m := Match(grain, t, Render(t, v));
    m.Some? && Captured(t, m.value, f) == Some(TextOf(ZEROS, f))
  }

  // Where a run ends is the same in every reading of it.
  lemma RunEndsThere(grain: Kind, tail: Template, s: string, x: nat, y: nat, a: seq<string>, b: seq<string>)
    requires x <= |s| && y <= |s| && AllDigits(s[..x]) && AllDigits(s[..y]) && !Tangled(grain, tail)
    requires Decomposes(grain, tail, s[x..], a) && Decomposes(grain, tail, s[y..], b)
    ensures x == y
  {
    if x <= y {
      DigitsPart(s, 0, y, x, y);
    } else {
      DigitsPart(s, 0, x, y, x);
    }
    ReadingsMeet(grain, tail, s, x, y, a, b);
  }

  // A match of an ordinal and the rest of its run ends where the rendered run does.
  lemma MatchReachesTail(grain: Kind, body: Template, tail: Template, run: string, u: string, b: seq<string>)
    returns (c0: string, c1: seq<string>)
    requires DigitParts(grain, body) && !Tangled(grain, tail) && AllDigits(run) && Decomposes(grain, tail, u, b)
    requires Match(grain, [Slot(OrdinalField)] + body + tail, run + u).Some?
    ensures Match(grain, tail, u).Some? && |c0| > 0 && c0 <= run && Reads(grain, body, run[|c0|..], c1)
    ensures Match(grain, [Slot(OrdinalField)] + body + tail, run + u).value == [c0] + c1 + Match(grain, tail, u).value
  {
    var front, s := [Slot(OrdinalField)] + body, run + u;
    var w, caps := MatchSplits(grain, front, tail, s);
    assert DigitParts(grain, front);
    DigitsRead(grain, front, s[..w], caps);
    MatchIsSound(grain, tail, s[w..]);
    assert s[..|run|] == run && s[|run|..] == u;
    RunEndsThere(grain, tail, s, w, |run|, Match(grain, tail, s[w..]).value, b);
    assert Reads(grain, front, s[..w], caps) && |front| > 0;
    var x: nat, rest :| ReadsFirst(grain, front, s[..w], caps, x, rest);
    assert front[1..] == body;
    c0, c1 := run[..x], rest;
  }

  lemma OrdinalThen(grain: Kind, rest: Template, first: string, u: string, caps: seq<string>)
    requires AllDigits(first) && |first| > 0 && Decomposes(grain, rest, u, caps)
    ensures Decomposes(grain, [Slot(OrdinalField)] + rest, first + u, [first] + caps)
  {
    var t, s := [Slot(OrdinalField)] + rest, first + u;
    assert t[1..] == rest && s[..|first|] == first && s[|first|..] == u;
    ConsDecomposes(grain, t, s, |first|, caps);
  }

  // The reading in which the first ordinal swallows all but the tail of the last.
  lemma Swallows(grain: Kind, body: Template, tail: Template, first: string, u: string, b: seq<string>)
    requires DigitParts(grain, body) && AllDigits(first) && |first| > 0 && Decomposes(grain, tail, u, b)
    ensures Decomposes(grain, [Slot(OrdinalField)] + body + tail, first + Render(body, ZEROS) + u,
      [first] + (Captures(body, ZEROS) + b))
  {
    ZerosAreRead(grain, body);
    var zeros := Render(body, ZEROS);
    ReadsThenDecomposes(grain, body, tail, zeros, u, Captures(body, ZEROS), b);
    OrdinalThen(grain, body + tail, first, zeros + u, Captures(body, ZEROS) + b);
    Regroup([Slot(OrdinalField)], body, tail);
    Regroup(first, zeros, u);
  }

  // Greedy, the match takes that reading, and reads zeros.
  lemma SwallowIsMatched(grain: Kind, body: Template, tail: Template, first: string, u: string, b: seq<string>)
    requires DigitParts(grain, body) && AllDigits(first) && |first| > 0 && !Tangled(grain, tail)
      && Decomposes(grain, tail, u, b)
    ensures var t, s := [Slot(OrdinalField)] + body + tail, first + Render(body, ZEROS) + u;
      && Match(grain, t, s).Some? && Match(grain, tail, u).Some?
      && Match(grain, t, s).value == [first] + Captures(body, ZEROS) + Match(grain, tail, u).value
  {
    var t, zeros := [Slot(OrdinalField)] + body + tail, Render(body, ZEROS);
    var run := first + zeros;
    Swallows(grain, body, tail, first, u, b);
    assert t[0] == Slot(OrdinalField);
    MatchIsComplete(grain, t, run + u, [first] + (Captures(body, ZEROS) + b));
    ZerosAreRead(grain, body);
    var c0, c1 := MatchReachesTail(grain, body, tail, run, u, b);
    assert HasField(t, OrdinalField) && FirstOrdinal(t) == 0;
    assert first <= c0;
    DigitsRead(grain, body, run[|c0|..], c1);
    assert |c0| == |first| && c0 == first && run[|c0|..] == zeros;
    TightReads(grain, body, zeros, c1);
  }

  lemma {:induction false} RenderConcat(a: Template, b: Template, v: Values)
    ensures Render(a + b, v) == Render(a, v) + Render(b, v)
  {
    if |a| == 0 {
      assert a + b == b;
    } else {
      assert (a + b)[1..] == a[1..] + b;
      RenderConcat(a[1..], b, v);
    }
  }

  lemma EndsInOrdinal(body: Template, v: Values) returns (y: string)
    requires |body| > 0 && body[|body| - 1] == Slot(OrdinalField)
    ensures Render(body, v) == y + v.ordinal
  {
    var k := |body| - 1;
    RenderConcat(body[..k], body[k..], v);
    assert body == body[..k] + body[k..];
    assert body[k..][1..] == [] && Render(body[k..], v) == v.ordinal + "";
    y := Render(body[..k], v);
  }

  // A template that starts with an ordinal in a run, cut at the end of the run.
  lemma CutRun(grain: Kind, t: Template, v: Values) returns (body: Template, tail: Template)
    requires |t| > 0 && t[0] == Slot(OrdinalField) && Tangled(grain, t[1..]) && ValuesFit(grain, t, v)
    ensures RunEnd(grain, t[1..]) <= |t[1..]| && body == t[1..][..RunEnd(grain, t[1..])]
      && tail == t[1..][RunEnd(grain, t[1..])..]
    ensures t == [Slot(OrdinalField)] + body + tail && |body| > 0 && body[|body| - 1] == Slot(OrdinalField)
    ensures DigitParts(grain, body) && !Tangled(grain, tail) && ValuesFit(grain, body, v) && ValuesFit(grain, tail, v)
    ensures Render(t, v) == v.ordinal + Render(body, v) + Render(tail, v)
  {
    var k := RunEnd(grain, t[1..]);
    RunEndFacts(grain, t[1..]);
    body, tail := t[1..][..k], t[1..][k..];
    RunBody(grain, t[1..], k);
    CutFits(grain, t, k, v);
    CutRenders(t, body, tail, v);
  }

  lemma RunBody(grain: Kind, t: Template, k: nat)
    requires IsRunEnd(grain, t, k)
    ensures |t[..k]| == k > 0 && t[..k][k - 1] == Slot(OrdinalField) && t == t[..k] + t[k..]
  {
  }

  lemma CutFits(grain: Kind, t: Template, k: nat, v: Values)
    requires 0 < |t| && k < |t| && ValuesFit(grain, t, v)
    ensures ValuesFit(grain, t[1..][..k], v) && ValuesFit(grain, t[1..][k..], v)
  {
    FitsParts(grain, t, 1, |t|, v);
    assert t[1..|t|] == t[1..];
    FitsParts(grain, t[1..], 0, k, v);
    FitsParts(grain, t[1..], k, |t| - 1, v);
    assert t[1..][0..k] == t[1..][..k] && t[1..][k..|t| - 1] == t[1..][k..];
  }

  lemma CutRenders(t: Template, body: Template, tail: Template, v: Values)
    requires |t| > 0 && t[0] == Slot(OrdinalField) && t[1..] == body + tail
    ensures t == [Slot(OrdinalField)] + body + tail
    ensures Render(t, v) == v.ordinal + Render(body, v) + Render(tail, v)
  {
    RenderConcat(body, tail, v);
    Regroup(v.ordinal, Render(body, v), Render(tail, v));
  }

  lemma FitsParts(grain: Kind, t: Template, i: nat, j: nat, v: Values)
    requires i <= j <= |t| && ValuesFit(grain, t, v)
    ensures ValuesFit(grain, t[i..j], v)
  {
    assert forall k :: 0 <= k < j - i ==> t[i..j][k] == t[i + k];
  }

  lemma RunIsDigits(grain: Kind, body: Template, v: Values)
    requires DigitParts(grain, body) && ValuesFit(grain, body, v)
    ensures AllDigits(Render(body, v))
  {
    RenderedReads(grain, body, v);
    DigitsRead(grain, body, Render(body, v), Captures(body, v));
  }

  // The field is last used in the run: the confusing ordinal makes the match read zeros.
  lemma MisreadInRun(grain: Kind, t: Template, body: Template, tail: Template, f: Field, v: Values)
    requires t == [Slot(OrdinalField)] + body + tail && |body| > 0 && body[|body| - 1] == Slot(OrdinalField)
    requires DigitParts(grain, body) && !Tangled(grain, tail) && ValuesFit(grain, body, v) && ValuesFit(grain, tail, v)
    requires v.ordinal == "1" + Render(body, ZEROS) && HasField(body, f) && !HasField(tail, f)
    requires Render(t, v) == v.ordinal + Render(body, v) + Render(tail, v)
    ensures ReadAsZeros(grain, t, f, v)
  {
    var zeros, u := Render(body, ZEROS), Render(tail, v);
    var y := EndsInOrdinal(body, v);
    var first := v.ordinal + y + "1";
    Rearranged(v.ordinal, y, zeros, u);
    RunIsDigits(grain, body, v);
    FirstIsDigits(v.ordinal, y, Render(body, v), first);
    RenderedDecomposes(grain, tail, v);
    SwallowIsMatched(grain, body, tail, first, u, Captures(tail, v));
    ReadFromRun(grain, body, tail, first, u, f);
  }

  lemma Rearranged(n: string, y: string, zeros: string, u: string)
    requires n == "1" + zeros
    ensures n + (y + n) + u == n + y + "1" + zeros + u
  {
    assert y + n == y + "1" + zeros;
    assert n + (y + n) == n + y + "1" + zeros;
  }

  lemma FirstIsDigits(ordinal: string, y: string, run: string, first: string)
    requires AllDigits(run) && run == y + ordinal && first == ordinal + y + "1"
    ensures AllDigits(first)
  {
    assert forall i :: 0 <= i < |y| ==> y[i] == run[i];
    assert forall i :: 0 <= i < |ordinal| ==> ordinal[i] == run[|y| + i];
    assert AllDigits(y) && AllDigits(ordinal);
  }

  lemma ReadFromRun(grain: Kind, body: Template, tail: Template, first: string, u: string, f: Field)
    requires DigitParts(grain, body) && Match(grain, tail, u).Some? && HasField(body, f) && !HasField(tail, f)
    ensures Captured([Slot(OrdinalField)] + body + tail,
      [first] + Captures(body, ZEROS) + Match(grain, tail, u).value, f) == Some(TextOf(ZEROS, f))
  {
    var front, caps := [Slot(OrdinalField)] + body, [first] + Captures(body, ZEROS);
    ZerosAreRead(grain, body);
    ReadsAll(grain, body, Render(body, ZEROS), Captures(body, ZEROS));
    assert front[1..] == body && caps[1..] == Captures(body, ZEROS);
    CapturedAppend(front, tail, caps, Match(grain, tail, u).value, f);
    MatchIsSound(grain, tail, u);
    CapturesHave(grain, tail, u, Match(grain, tail, u).value, f);
    CapturedIsRendered(body, ZEROS, f);
    CapturedStep(front, caps, f, Captures(body, ZEROS));
  }

  lemma RenderedMatches(grain: Kind, t: Template, v: Values)
    requires ValuesFit(grain, t, v)
    ensures Match(grain, t, Render(t, v)).Some?
  {
    RenderedDecomposes(grain, t, v);
    MatchIsComplete(grain, t, Render(t, v), Captures(t, v));
  }

  lemma CapturedPastRun(grain: Kind, body: Template, tail: Template, s: string, c0: string, c1: seq<string>,
                        later: seq<string>, f: Field)
    requires Reads(grain, body, s, c1) && Captured(tail, later, f).Some?
    ensures Captured([Slot(OrdinalField)] + body + tail, [c0] + c1 + later, f) == Captured(tail, later, f)
  {
    ReadsAll(grain, body, s, c1);
    assert ([Slot(OrdinalField)] + body)[1..] == body;
    CapturedAppend([Slot(OrdinalField)] + body, tail, [c0] + c1, later, f);
  }

  // The field is last used after the run: the match gets there whatever it read in the run.
  lemma MisreadAfterRun(grain: Kind, t: Template, body: Template, tail: Template, f: Field, v: Values)
    requires t == [Slot(OrdinalField)] + body + tail && DigitParts(grain, body) && !Tangled(grain, tail)
    requires ValuesFit(grain, t, v) && ValuesFit(grain, body, v) && ValuesFit(grain, tail, v)
    requires ReadAsZeros(grain, tail, f, v) && Render(t, v) == v.ordinal + Render(body, v) + Render(tail, v)
    ensures ReadAsZeros(grain, t, f, v)
  {
    var run, u := v.ordinal + Render(body, v), Render(tail, v);
    assert FieldFits(grain, OrdinalField, v.ordinal) by { assert t[0] == Slot(OrdinalField); }
    RenderedMatches(grain, t, v);
    RenderedDecomposes(grain, tail, v);
    RunIsDigits(grain, body, v);
    var c0, c1 := MatchReachesTail(grain, body, tail, run, u, Captures(tail, v));
    CapturedPastRun(grain, body, tail, run[|c0|..], c0, c1, Match(grain, tail, u).value, f);
  }

  // Nothing is ambiguous about the first part: the match takes it as it was rendered.
  lemma MatchTakesRendered(grain: Kind, t: Template, v: Values)
    requires |t| > 0 && ValuesFit(grain, t, v) && !(t[0] == Slot(OrdinalField) && Tangled(grain, t[1..]))
    ensures var m, rest := Match(grain, t, Render(t, v)), Match(grain, t[1..], Render(t[1..], v));
      && ValuesFit(grain, t[1..], v)
      && m.Some? && rest.Some? && m.value == PartCaptures(t[0], PartText(t[0], v)) + rest.value
  {
    var s, text := Render(t, v), PartText(t[0], v);
    FitsParts(grain, t, 1, |t|, v);
    RenderedDecomposes(grain, t, v);
    RenderedDecomposes(grain, t[1..], v);
    MatchIsComplete(grain, t, s, Captures(t, v));
    var x := MatchTakes(grain, t, s);
    assert s[..|text|] == text && s[|text|..] == Render(t[1..], v);
    assert PartFits(grain, t[0], text);
    if t[0] == Slot(OrdinalField) {
      MatchIsSound(grain, t[1..], s[x..]);
      RunEndsThere(grain, t[1..], s, x, |text|, Match(grain, t[1..], s[x..]).value, Captures(t[1..], v));
    } else {
      PartClassesHold(grain, t[0], s[..x]);
      PartClassesHold(grain, t[0], text);
    }
  }

  lemma MisreadLater(grain: Kind, t: Template, f: Field, v: Values)
    requires |t| > 0 && ValuesFit(grain, t, v) && !(t[0] == Slot(OrdinalField) && Tangled(grain, t[1..]))
    requires ReadAsZeros(grain, t[1..], f, v)
    ensures ReadAsZeros(grain, t, f, v)
  {
    MatchTakesRendered(grain, t, v);
    CapturedStep(t, Match(grain, t, Render(t, v)).value, f, Match(grain, t[1..], Render(t[1..], v)).value);
  }

  lemma UnpinnedNext(grain: Kind, t: Template, f: Field)
    requires !Pinned(grain, t, f, false)
    ensures |t| > 0 && HasField(t[1..], f)
      && !Pinned(grain, t[1..], f, t[0] == Slot(OrdinalField) && Tangled(grain, t[1..]))
  {
  }

  lemma {:induction false} MisreadTangled(grain: Kind, t: Template, f: Field, v: Values)
    requires |t| > 0 && t[0] == Slot(OrdinalField) && Tangled(grain, t[1..]) && HasField(t[1..], f)
    requires !Pinned(grain, t[1..], f, true) && ValuesFit(grain, t, v) && v.ordinal == Confusing(grain, t, f)
    ensures ReadAsZeros(grain, t, f, v)
    decreases |t|, 0
  {
    var body, tail := CutRun(grain, t, v);
    ConfusingInRun(grain, t, body, tail, f);
    if HasField(tail, f) {
      Misread(grain, tail, f, v);
      MisreadAfterRun(grain, t, body, tail, f, v);
    } else {
      MisreadInRun(grain, t, body, tail, f, v);
    }
  }

  lemma ConfusingInRun(grain: Kind, t: Template, body: Template, tail: Template, f: Field)
    requires |t| > 0 && t[0] == Slot(OrdinalField) && Tangled(grain, t[1..]) && HasField(t[1..], f)
      && !Pinned(grain, t[1..], f, true)
    requires RunEnd(grain, t[1..]) <= |t[1..]| && body == t[1..][..RunEnd(grain, t[1..])]
      && tail == t[1..][RunEnd(grain, t[1..])..]
    ensures HasField(tail, f) ==> !Pinned(grain, tail, f, false) && Confusing(grain, t, f) == Confusing(grain, tail, f)
    ensures !HasField(tail, f) ==> HasField(body, f) && Confusing(grain, t, f) == "1" + Render(body, ZEROS)
  {
    if HasField(tail, f) {
      UnpinnedAfter(grain, t[1..], f);
    } else {
      assert t[1..] == body + tail;
      HasFieldConcat(body, tail, f);
    }
  }

  /** An unpinned field is misread: with the confusing ordinal, its last capture is zeros, or
      one digit if the field is the ordinal. */
  lemma {:induction false} Misread(grain: Kind, t: Template, f: Field, v: Values)
    requires !Pinned(grain, t, f, false) && ValuesFit(grain, t, v) && v.ordinal == Confusing(grain, t, f)
    ensures ReadAsZeros(grain, t, f, v)
    decreases |t|, 1
  {
    UnpinnedNext(grain, t, f);
    if t[0] == Slot(OrdinalField) && Tangled(grain, t[1..]) {
      MisreadTangled(grain, t, f, v);
    } else {
      FitsParts(grain, t, 1, |t|, v);
      assert t[1..|t|] == t[1..];
      Misread(grain, t[1..], f, v);
      MisreadLater(grain, t, f, v);
    }
  }

  lemma HasFieldConcat(a: Template, b: Template, f: Field)
    ensures HasField(a + b, f) <==> HasField(a, f) || HasField(b, f)
  {
    var t := a + b;
    if i :| 0 <= i < |a| && a[i] == Slot(f) {
      assert t[i] == Slot(f);
    }
    if i :| 0 <= i < |b| && b[i] == Slot(f) {
      assert t[|a| + i] == Slot(f);
    }
    if i :| 0 <= i < |t| && t[i] == Slot(f) {
      assert if i < |a| then a[i] == Slot(f) else b[i - |a|] == Slot(f);
    }
  }
}
