/** Folder paths and the file-name normal form their segments are stored in. */
module Folders {
  import opened Options
  import opened Text

  predicate Forbidden(c: char) {
    c < ' ' || c in "\\/:*?\"<>|"
  }

  function Substitute(s: string): string {
    seq(|s|, i requires 0 <= i < |s| => if Forbidden(s[i]) then ' ' else s[i])
  }

  // Runs of spaces become one space.
  function Collapse(s: string): string {
    if |s| == 0 then ""
    else if |s| > 1 && s[0] == ' ' && s[1] == ' ' then Collapse(s[1..])
    else [s[0]] + Collapse(s[1..])
  }

  function Upper(c: char): char {
    if 'a' <= c <= 'z' then (c as int - 32) as char else c
  }

  predicate Reserved(s: string) {
    var u := seq(|s|, i requires 0 <= i < |s| => Upper(s[i]));
    || u in {"CON", "PRN", "AUX", "NUL"}
    || (|u| == 4 && u[..3] in {"COM", "LPT"} && '1' <= u[3] <= '9')
  }

  function Clean(s: string): string {
    RStrip(Strip(Collapse(Substitute(s)), IsSpace), c => c == '.' || c == ' ')
  }

  function Filename(title: string): string {
    var result := Clean(title);
    var named := if Reserved(result) then "_" + result else if |result| == 0 then "untitled" else result;
    if |named| <= 200 then named else named[..200]
  }

  function NonEmpty(parts: seq<string>): seq<string> {
    if |parts| == 0 then []
    else if |parts[0]| == 0 then NonEmpty(parts[1..])
    else [parts[0]] + NonEmpty(parts[1..])
  }

  function PathSegments(path: string): seq<string> {
    NonEmpty(Split(path, '/'))
  }

  function Filenames(parts: seq<string>): seq<string> {
    seq(|parts|, i requires 0 <= i < |parts| => Filename(parts[i]))
  }

  // None for a path that climbs out with "..".
  function NormalizeFolder(folder: string): Option<string> {
    var parts := PathSegments(Strip(folder, IsSpace));
    if ".." in parts then None else Some(Join(Filenames(parts), "/"))
  }

  // ---------- segments in normal form ----------

  ghost predicate Normal(segments: seq<string>) {
    forall i :: 0 <= i < |segments| ==> Filename(segments[i]) == segments[i]
  }

  ghost predicate NormalFolder(folder: string) {
    Normal(PathSegments(folder)) && Join(PathSegments(folder), "/") == folder
  }

  lemma {:induction false} CollapseFacts(s: string)
    ensures |Collapse(s)| <= |s|
    ensures |s| > 0 ==> |Collapse(s)| > 0 && Collapse(s)[|Collapse(s)| - 1] == s[|s| - 1]
    ensures '/' !in s ==> '/' !in Collapse(s)
  {
    if |s| > 0 {
      CollapseFacts(s[1..]);
      if |s| > 1 {
        assert s[1..][|s| - 2] == s[|s| - 1];
      }
    }
  }

  lemma {:induction false} LStripFacts(s: string, drop: char -> bool)
    ensures |LStrip(s, drop)| <= |s|
    ensures |LStrip(s, drop)| > 0 ==> !drop(LStrip(s, drop)[0]) && LStrip(s, drop)[|LStrip(s, drop)| - 1] == s[|s| - 1]
    ensures forall c <- LStrip(s, drop) :: c in s
  {
    if |s| > 0 && drop(s[0]) {
      LStripFacts(s[1..], drop);
    }
  }

  lemma {:induction false} RStripFacts(s: string, drop: char -> bool)
    ensures RStrip(s, drop) <= s
    ensures |s| > 0 && drop(s[|s| - 1]) ==> |RStrip(s, drop)| < |s|
    ensures |RStrip(s, drop)| > 0 ==> !drop(RStrip(s, drop)[|RStrip(s, drop)| - 1])
  {
    if |s| > 0 && drop(s[|s| - 1]) {
      RStripFacts(s[..|s| - 1], drop);
    }
  }

  lemma StripNothing(s: string, drop: char -> bool)
    requires |s| > 0 ==> !drop(s[0]) && !drop(s[|s| - 1])
    ensures Strip(s, drop) == s
  {
  }

  // Cleaning starts at a non-space, has no slash, and drops a trailing space.
  lemma CleanFacts(s: string)
    ensures |Clean(s)| <= |s| && '/' !in Clean(s)
    ensures |Clean(s)| > 0 ==> !IsSpace(Clean(s)[0])
    ensures |s| > 0 && IsSpace(s[|s| - 1]) ==> |Clean(s)| < |s|
  {
    var sub := Substitute(s);
    assert '/' !in sub;
    CollapseFacts(sub);
    var col := Collapse(sub);
    LStripFacts(col, IsSpace);
    var left := LStrip(col, IsSpace);
    RStripFacts(left, IsSpace);
    var mid := Strip(col, IsSpace);
    var dots := (c: char) => c == '.' || c == ' ';
    RStripFacts(mid, dots);
    assert forall c <- Clean(s) :: c in mid;
    assert forall c <- mid :: c in left;
    if |s| > 0 && IsSpace(s[|s| - 1]) {
      assert IsSpace(sub[|s| - 1]);
    }
  }

  lemma NormalSegment(seg: string)
    requires Filename(seg) == seg
    ensures |seg| > 0 && '/' !in seg && !IsSpace(seg[0]) && !IsSpace(seg[|seg| - 1]) && seg != ".."
  {
    CleanFacts(seg);
    var result := Clean(seg);
    if Reserved(result) {
      assert |result| <= 4;
      assert seg == "_" + result;
      ReservedEnd(result);
    } else if |result| == 0 {
      assert seg == "untitled";
    } else {
      assert |result| == |seg|;
      assert seg == result;
      RStripFacts(Strip(Collapse(Substitute(seg)), IsSpace), c => c == '.' || c == ' ');
    }
  }

  lemma ReservedEnd(s: string)
    requires Reserved(s)
    ensures |s| > 0 && !IsSpace(s[|s| - 1])
  {
    var u := seq(|s|, i requires 0 <= i < |s| => Upper(s[i]));
    assert u[|s| - 1] == Upper(s[|s| - 1]);
    assert 'A' <= u[|s| - 1] <= 'Z' || '1' <= u[|s| - 1] <= '9';
  }

  lemma {:induction false} NonEmptyKeeps(parts: seq<string>)
    requires forall i :: 0 <= i < |parts| ==> |parts[i]| > 0
    ensures NonEmpty(parts) == parts
  {
    if |parts| > 0 {
      NonEmptyKeeps(parts[1..]);
    }
  }

  // The ends of a joined normal path are not spaces or slashes.
  lemma {:induction false} JoinEnds(segments: seq<string>)
    requires |segments| > 0 && forall i :: 0 <= i < |segments| ==> |segments[i]| > 0
    ensures |Join(segments, "/")| > 0 && Join(segments, "/")[0] == segments[0][0]
    ensures Join(segments, "/")[|Join(segments, "/")| - 1] == segments[|segments| - 1][|segments[|segments| - 1]| - 1]
  {
    if |segments| > 1 {
      JoinEnds(segments[1..]);
    }
  }

  lemma SegmentsOfJoin(segments: seq<string>)
    requires forall i :: 0 <= i < |segments| ==> |segments[i]| > 0 && '/' !in segments[i]
    ensures PathSegments(Join(segments, "/")) == segments
  {
    if |segments| == 0 {
      assert Split("", '/') == [""];
      assert NonEmpty([""]) == NonEmpty([""][1..]) == [];
    } else {
      SplitJoin(segments, '/');
      NonEmptyKeeps(segments);
    }
  }

  /** Normalization leaves a path of normal segments alone. */
  lemma NormalizeNormal(segments: seq<string>)
    requires Normal(segments)
    ensures NormalizeFolder(Join(segments, "/")) == Some(Join(segments, "/"))
    ensures PathSegments(Join(segments, "/")) == segments
  {
    forall i | 0 <= i < |segments| ensures |segments[i]| > 0 && '/' !in segments[i] && segments[i] != ".." {
      NormalSegment(segments[i]);
    }
    var folder := Join(segments, "/");
    SegmentsOfJoin(segments);
    assert Strip(folder, IsSpace) == folder by {
      if |segments| > 0 {
        JoinEnds(segments);
        NormalSegment(segments[0]);
        NormalSegment(segments[|segments| - 1]);
        StripNothing(folder, IsSpace);
      }
    }
    assert Filenames(segments) == segments;
  }
}
