/** Python string operations on sequences of code points. */
module Text {
  // str.isspace, which strip() and the regex class \s share.
  predicate IsSpace(c: char) {
    || '\t' <= c <= '\r' || '\U{1c}' <= c <= ' ' || c == '\U{85}' || c == '\U{a0}' || c == '\U{1680}'
    || '\U{2000}' <= c <= '\U{200a}' || c == '\U{2028}' || c == '\U{2029}' || c == '\U{202f}' || c == '\U{205f}'
       || c == '\U{3000}'
  }

  // ---------- stripping ----------

  function LStrip(s: string, drop: char -> bool): string {
    if |s| > 0 && drop(s[0]) then LStrip(s[1..], drop) else s
  }

  function RStrip(s: string, drop: char -> bool): string {
    if |s| > 0 && drop(s[|s| - 1]) then RStrip(s[..|s| - 1], drop) else s
  }

  function Strip(s: string, drop: char -> bool): string {
    RStrip(LStrip(s, drop), drop)
  }

  // ---------- splitting and joining ----------

  function Split(s: string, sep: char): (parts: seq<string>)
    ensures |parts| > 0
  {
    if |s| == 0 then [""]
    else
      Prepend(s[0], Split(s[1..], sep), sep)
  }

  function Join(parts: seq<string>, sep: string): string {
    if |parts| == 0 then ""
    else if |parts| == 1 then parts[0]
    else parts[0] + sep + Join(parts[1..], sep)
  }

  function Prepend(c: char, parts: seq<string>, sep: char): seq<string>
    requires |parts| > 0
  {
    if c == sep then [""] + parts else [[c] + parts[0]] + parts[1..]
  }

  lemma PrependToSplit(c: char, a: seq<string>, b: seq<string>, sep: char)
    requires |a| > 0
    ensures Prepend(c, a + b, sep) == Prepend(c, a, sep) + b
  {
    assert (a + b)[1..] == a[1..] + b;
  }

  lemma {:induction false} SplitConcat(a: string, b: string, sep: char)
    ensures Split(a + [sep] + b, sep) == Split(a, sep) + Split(b, sep)
  {
    var s := a + [sep] + b;
    if |a| == 0 {
      assert s[1..] == b;
    } else {
      assert s[0] == a[0] && s[1..] == a[1..] + [sep] + b;
      SplitConcat(a[1..], b, sep);
      PrependToSplit(a[0], Split(a[1..], sep), Split(b, sep), sep);
    }
  }

  lemma {:induction false} SplitPlain(a: string, sep: char)
    requires sep !in a
    ensures Split(a, sep) == [a]
  {
    if |a| > 0 {
      SplitPlain(a[1..], sep);
      assert [a[0]] + a[1..] == a;
    }
  }

  // Joining and splitting are inverse on parts without the separator.
  lemma {:induction false} SplitJoin(parts: seq<string>, sep: char)
    requires |parts| > 0 && forall i :: 0 <= i < |parts| ==> sep !in parts[i]
    ensures Split(Join(parts, [sep]), sep) == parts
  {
    SplitPlain(parts[0], sep);
    if |parts| > 1 {
      SplitConcat(parts[0], Join(parts[1..], [sep]), sep);
      SplitJoin(parts[1..], sep);
      assert [parts[0]] + parts[1..] == parts;
    }
  }

  lemma {:induction false} JoinAppend(a: seq<string>, b: seq<string>, sep: string)
    requires |a| > 0 && |b| > 0
    ensures Join(a + b, sep) == Join(a, sep) + sep + Join(b, sep)
  {
    assert (a + b)[1..] == a[1..] + b;
    if |a| > 1 {
      JoinAppend(a[1..], b, sep);
      var middle, last := Join(a[1..], sep), Join(b, sep);
      assert a[0] + sep + (middle + sep + last) == a[0] + sep + middle + sep + last;
    } else {
      assert a[1..] + b == b;
    }
  }

  // ---------- order ----------

  // Python's < on strings: code points, left to right.
  predicate Before(a: string, b: string) {
    if |b| == 0 then false
    else if |a| == 0 then true
    else a[0] < b[0] || (a[0] == b[0] && Before(a[1..], b[1..]))
  }

  lemma {:induction false} BeforeTotal(a: string, b: string)
    ensures a == b || Before(a, b) || Before(b, a)
    ensures !(Before(a, b) && Before(b, a)) && !(a == b && Before(a, b))
  {
    if |a| > 0 && |b| > 0 {
      BeforeTotal(a[1..], b[1..]);
      assert a == [a[0]] + a[1..] && b == [b[0]] + b[1..];
    }
  }

  lemma {:induction false} BeforeTransitive(a: string, b: string, c: string)
    requires Before(a, b) && Before(b, c)
    ensures Before(a, c)
  {
    if |a| > 0 && a[0] == b[0] && b[0] == c[0] {
      BeforeTransitive(a[1..], b[1..], c[1..]);
    }
  }

  /** The earlier of two strings ends first or has the smaller character where they first differ. */
  lemma {:induction false} BeforeAtFirstDifference(a: string, b: string, k: nat)
    requires k <= |a| && k <= |b| && a[..k] == b[..k]
    requires k < |a| && k < |b| ==> a[k] != b[k]
    ensures Before(a, b) <==> k < |b| && (k == |a| || a[k] < b[k])
  {
    if k > 0 {
      assert a[0] == a[..k][0] == b[..k][0] == b[0];
      assert a[1..][..k - 1] == a[..k][1..] && b[1..][..k - 1] == b[..k][1..];
      BeforeAtFirstDifference(a[1..], b[1..], k - 1);
    }
  }

  lemma {:induction false} FirstDifference(a: string, b: string) returns (k: nat)
    ensures k <= |a| && k <= |b| && a[..k] == b[..k]
    ensures k < |a| && k < |b| ==> a[k] != b[k]
  {
    k := 0;
    if |a| > 0 && |b| > 0 && a[0] == b[0] {
      var n := FirstDifference(a[1..], b[1..]);
      k := n + 1;
      assert a[..k] == [a[0]] + a[1..][..n] && b[..k] == [b[0]] + b[1..][..n];
    }
  }

  lemma {:induction false} JoinSplit(s: string, sep: char)
    ensures Join(Split(s, sep), [sep]) == s
    ensures forall i :: 0 <= i < |Split(s, sep)| ==> sep !in Split(s, sep)[i]
  {
    if |s| > 0 {
      JoinSplit(s[1..], sep);
      JoinPrepend(s[0], Split(s[1..], sep), sep);
      assert [s[0]] + s[1..] == s;
    }
  }

  lemma JoinMore(first: string, parts: seq<string>, sep: string)
    ensures Join([first] + parts, sep) == first + if |parts| == 0 then "" else sep + Join(parts, sep)
  {
    var all := [first] + parts;
    assert all[1..] == parts;
    if |parts| > 0 {
      var rest := Join(parts, sep);
      assert first + sep + rest == first + (sep + rest);
    } else {
      assert first + "" == first;
    }
  }

  lemma JoinPrepend(c: char, parts: seq<string>, sep: char)
    requires |parts| > 0
    ensures Join(Prepend(c, parts, sep), [sep]) == [c] + Join(parts, [sep])
  {
    if c == sep {
      JoinMore("", parts, [sep]);
    } else {
      PrependToFirst(c, parts[0], parts[1..], [sep]);
      assert [parts[0]] + parts[1..] == parts;
    }
  }

  lemma PrependToFirst(c: char, first: string, parts: seq<string>, sep: string)
    ensures Join([[c] + first] + parts, sep) == [c] + Join([first] + parts, sep)
  {
    var rest := if |parts| == 0 then "" else sep + Join(parts, sep);
    JoinMore([c] + first, parts, sep);
    JoinMore(first, parts, sep);
    assert [c] + first + rest == [c] + (first + rest);
  }

  // The string is the other one, or goes on from it at a separator.
  predicate GoesOn(front: string, whole: string, sep: char) {
    whole == front || (front <= whole && |front| < |whole| && whole[|front|] == sep)
  }

  lemma GoesOnInParts(front: string, whole: string, sep: char)
    requires GoesOn(front, whole, sep)
    ensures Split(front, sep) <= Split(whole, sep)
  {
    if whole != front {
      var rest := whole[|front| + 1..];
      assert whole == front + [sep] + rest;
      SplitConcat(front, rest, sep);
    }
  }

  lemma PartsGoOn(a: seq<string>, b: seq<string>, sep: char)
    requires |a| > 0 && a <= b
    ensures GoesOn(Join(a, [sep]), Join(b, [sep]), sep)
  {
    if |a| < |b| {
      var rest := b[|a|..];
      assert b == a + rest;
      JoinAppend(a, rest, [sep]);
      var front, back := Join(a, [sep]), Join(rest, [sep]);
      assert (front + [sep] + back)[..|front|] == front;
    } else {
      assert a == b;
    }
  }

  /** One string goes on from another at a separator exactly when its parts start with the other's. */
  lemma GoesOnByParts(front: string, whole: string, sep: char)
    ensures GoesOn(front, whole, sep) <==> Split(front, sep) <= Split(whole, sep)
  {
    JoinSplit(front, sep);
    JoinSplit(whole, sep);
    if GoesOn(front, whole, sep) {
      GoesOnInParts(front, whole, sep);
    }
    if Split(front, sep) <= Split(whole, sep) {
      PartsGoOn(Split(front, sep), Split(whole, sep), sep);
    }
  }
}
