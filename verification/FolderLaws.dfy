/** Which names are file names in normal form. */
module FolderLaws {
  import opened Options
  import opened Text
  import opened Folders

  ghost predicate Allowed(c: char) {
    ' ' <= c && c !in {'\\', '/', ':', '*', '?', '"', '<', '>', '|'}
  }

  // No character that a file name may not have, and no two spaces in a row.
  ghost predicate Tidy(s: string) {
    && (forall i :: 0 <= i < |s| ==> Allowed(s[i]))
    && (forall i :: 0 < i < |s| && s[i] == ' ' ==> s[i - 1] != ' ')
  }

  // Of legal length, tidy, not starting with white space, and not the name of a device.
  ghost predicate Safe(s: string) {
    1 <= |s| <= 200 && Tidy(s) && !IsSpace(s[0]) && !Reserved(s)
  }

  ghost predicate EndsNeatly(s: string)
    requires |s| > 0
  {
    s[|s| - 1] != '.' && !IsSpace(s[|s| - 1])
  }

  lemma ForbiddenIs(c: char)
    ensures Forbidden(c) <==> !Allowed(c)
  {
    var listed := "\\/:*?\"<>|";
    assert c in listed <==> exists i :: 0 <= i < 9 && listed[i] == c;
    assert listed == ['\\', '/', ':', '*', '?', '"', '<', '>', '|'];
  }

  lemma {:induction false} CollapseIsTidy(s: string)
    requires forall i :: 0 <= i < |s| ==> Allowed(s[i])
    ensures Tidy(Collapse(s)) && (|s| > 0 ==> |Collapse(s)| > 0 && Collapse(s)[0] == s[0])
  {
    if |s| > 0 {
      CollapseIsTidy(s[1..]);
    }
  }

  lemma {:induction false} CollapseTidy(s: string)
    requires Tidy(s)
    ensures Collapse(s) == s
  {
    if |s| > 0 {
      assert Tidy(s[1..]);
      CollapseTidy(s[1..]);
      assert [s[0]] + s[1..] == s;
    }
  }

  lemma {:induction false} TidyLStrip(s: string, drop: char -> bool)
    requires Tidy(s)
    ensures Tidy(LStrip(s, drop))
  {
    if |s| > 0 && drop(s[0]) {
      assert Tidy(s[1..]);
      TidyLStrip(s[1..], drop);
    }
  }

  lemma TidyPrefix(s: string, p: string)
    requires Tidy(s) && p <= s
    ensures Tidy(p)
  {
  }

  lemma CleanIsTidy(title: string)
    ensures Tidy(Clean(title))
  {
    var sub := Substitute(title);
    forall i | 0 <= i < |sub| ensures Allowed(sub[i]) {
      ForbiddenIs(title[i]);
    }
    CollapseIsTidy(sub);
    TidyLStrip(Collapse(sub), IsSpace);
    var left := LStrip(Collapse(sub), IsSpace);
    RStripFacts(left, IsSpace);
    TidyPrefix(left, RStrip(left, IsSpace));
    RStripFacts(RStrip(left, IsSpace), c => c == '.' || c == ' ');
    TidyPrefix(RStrip(left, IsSpace), Clean(title));
  }

  lemma ReservedNames(s: string)
    ensures Reserved(s) ==> 3 <= |s| <= 4 && s[0] != '_'
  {
    var u := seq(|s|, i requires 0 <= i < |s| => Upper(s[i]));
    if Reserved(s) {
      assert u[0] == Upper(s[0]);
      if |u| == 4 && u[..3] in {"COM", "LPT"} {
        assert u[0] == u[..3][0];
      }
    }
  }

  // The name before it is cut.
  function Named(title: string): string {
    var result := Clean(title);
    if Reserved(result) then "_" + result else if |result| == 0 then "untitled" else result
  }

  lemma NamedIsSafe(title: string)
    ensures var s := Named(title); |s| > 0 && Tidy(s) && !IsSpace(s[0]) && !Reserved(s)
  {
    var result, s := Clean(title), Named(title);
    CleanIsTidy(title);
    CleanFacts(title);
    ReservedNames(result);
    ReservedNames(s);
    if Reserved(result) {
      assert s[0] == '_' && forall i :: 0 < i < |s| ==> s[i] == result[i - 1];
    }
  }

  /** Every name becomes a safe one. */
  lemma FilenameIsSafe(title: string)
    ensures Safe(Filename(title))
  {
    NamedIsSafe(title);
    TidyPrefix(Named(title), Filename(title));
    ReservedNames(Filename(title));
  }

  lemma NeatIsClean(s: string)
    requires Safe(s) && EndsNeatly(s)
    ensures Clean(s) == s
  {
    forall i | 0 <= i < |s| ensures !Forbidden(s[i]) {
      ForbiddenIs(s[i]);
    }
    assert Substitute(s) == s;
    CollapseTidy(s);
    StripNothing(s, IsSpace);
  }

  /** The names in normal form are exactly the safe ones that end in neither a dot nor white space. */
  lemma NormalExactly(s: string)
    ensures Filename(s) == s <==> Safe(s) && EndsNeatly(s)
  {
    if Filename(s) == s {
      FilenameIsSafe(s);
      NormalSegment(s);
      NormalEnd(s);
    }
    if Safe(s) && EndsNeatly(s) {
      NeatIsClean(s);
    }
  }

  lemma NormalEnd(s: string)
    requires Filename(s) == s
    ensures |s| > 0 && s[|s| - 1] != '.'
  {
    CleanFacts(s);
    NormalSegment(s);
    var mid := Strip(Collapse(Substitute(s)), IsSpace);
    RStripFacts(mid, c => c == '.' || c == ' ');
    if Reserved(Clean(s)) {
      ReservedLast(Clean(s));
    }
  }

  lemma ReservedLast(s: string)
    requires Reserved(s)
    ensures |s| > 0 && s[|s| - 1] != '.'
  {
    var u := seq(|s|, i requires 0 <= i < |s| => Upper(s[i]));
    assert u[|s| - 1] == Upper(s[|s| - 1]);
  }

  /** So making a name normal twice is making it normal once, exactly when the cut at 200 characters leaves
      no dot or white space at the end. */
  lemma NormalizedTwice(title: string)
    ensures |Filename(title)| > 0
    ensures Filename(Filename(title)) == Filename(title) <==> EndsNeatly(Filename(title))
  {
    FilenameIsSafe(title);
    NormalExactly(Filename(title));
  }

  /** A normal folder has the file name of each segment of the folder asked for, in order, and all of
      them are safe; a folder has no normal form exactly when one of its segments is "..". */
  lemma NormalizedIsSafe(folder: string)
    ensures NormalizeFolder(folder).None? <==> ".." in PathSegments(Strip(folder, IsSpace))
    ensures NormalizeFolder(folder).Some? ==>
              var asked, given := PathSegments(Strip(folder, IsSpace)), PathSegments(NormalizeFolder(folder).value);
              && |given| == |asked|
              && (forall i :: 0 <= i < |given| ==> given[i] == Filename(asked[i]) && Safe(given[i]))
  {
    var asked := PathSegments(Strip(folder, IsSpace));
    var names := Filenames(asked);
    forall i | 0 <= i < |names| ensures Safe(names[i]) && '/' !in names[i] {
      FilenameIsSafe(asked[i]);
    }
    SegmentsOfJoin(names);
  }
}
