/** What a link target denotes, said in the segments of paths only. */
module LinkLaws {
  import opened Options
  import opened Text
  import opened Folders
  import opened FolderLaws
  import opened LinkIndex

  // ---------- the order of two candidates ----------

  // The first `k` segments are the same.
  ghost predicate SharesLead(a: seq<string>, b: seq<string>, k: nat) {
    k <= |a| && k <= |b| && a[..k] == b[..k]
  }

  // The first folder shares a longer lead with the source than the second one.
  ghost predicate Nearer(a: seq<string>, b: seq<string>, source: seq<string>) {
    exists k: nat :: SharesLead(a, source, k) && !SharesLead(b, source, k)
  }

  // The string ends first, or has the smaller character at the first difference.
  ghost predicate Precedes(a: string, b: string) {
    exists k: nat :: k <= |a| && k < |b| && a[..k] == b[..k] && (k == |a| || a[k] < b[k])
  }

  // The note at exactly the target's path first, then the nearest to the source folder, the one of
  // fewest segments, and the first folder and title.
  ghost predicate Preferred(a: Note, b: Note, folder: string, source: seq<string>) {
    var x, y := PathSegments(a.folder), PathSegments(b.folder);
    if (a.folder == folder) != (b.folder == folder) then a.folder == folder
    else if Nearer(x, y, source) || Nearer(y, x, source) then Nearer(x, y, source)
    else if |x| != |y| then |x| < |y|
    else if a.folder != b.folder then Precedes(a.folder, b.folder)
    else Precedes(a.title, b.title)
  }

  lemma SharesLeadStep(a: seq<string>, b: seq<string>, k: nat)
    requires 1 <= k <= |a| && k <= |b|
    ensures SharesLead(a, b, k) <==> a[0] == b[0] && SharesLead(a[1..], b[1..], k - 1)
  {
    var x, y := a[..k], b[..k];
    assert a[1..][..k - 1] == x[1..] && b[1..][..k - 1] == y[1..];
    assert x == [a[0]] + x[1..] && y == [b[0]] + y[1..];
  }

  lemma {:induction false} LeadIsDepth(a: seq<string>, b: seq<string>, k: nat)
    ensures SharesLead(a, b, k) <==> k <= SharedDepth(a, b)
  {
    if k > 0 && |a| > 0 && |b| > 0 {
      LeadIsDepth(a[1..], b[1..], k - 1);
      if k <= |a| && k <= |b| {
        SharesLeadStep(a, b, k);
      }
    }
  }

  lemma NearerIsDeeper(a: seq<string>, b: seq<string>, source: seq<string>)
    ensures Nearer(a, b, source) <==> SharedDepth(b, source) < SharedDepth(a, source)
  {
    if SharedDepth(b, source) < SharedDepth(a, source) {
      LeadIsDepth(a, source, SharedDepth(a, source));
      LeadIsDepth(b, source, SharedDepth(a, source));
    }
    forall k: nat ensures SharesLead(a, source, k) && !SharesLead(b, source, k)
        ==> SharedDepth(b, source) < SharedDepth(a, source) {
      LeadIsDepth(a, source, k);
      LeadIsDepth(b, source, k);
    }
  }

  lemma BeforeIsPrecedes(a: string, b: string)
    ensures Before(a, b) <==> Precedes(a, b)
  {
    var n := FirstDifference(a, b);
    BeforeAtFirstDifference(a, b, n);
    forall k: nat | k <= |a| && k < |b| && a[..k] == b[..k] && (k == |a| || a[k] < b[k]) ensures Before(a, b) {
      BeforeAtFirstDifference(a, b, k);
    }
  }

  lemma BetterIsPreferred(a: Note, b: Note, ctx: Context)
    ensures Better(a, b, ctx) <==> Preferred(a, b, ctx.folder, ctx.source)
  {
    NearerIsDeeper(PathSegments(a.folder), PathSegments(b.folder), ctx.source);
    NearerIsDeeper(PathSegments(b.folder), PathSegments(a.folder), ctx.source);
    BeforeIsPrecedes(a.folder, b.folder);
    BeforeIsPrecedes(a.title, b.title);
  }

  // ---------- the candidates ----------

  // The path ends in these segments.
  ghost predicate EndsIn(path: seq<string>, tail: seq<string>) {
    |tail| <= |path| && path[|path| - |tail|..] == tail
  }

  ghost function FoldEach(casefold: string -> string, segments: seq<string>): (folded: seq<string>)
    ensures |folded| == |segments|
  {
    seq(|segments|, i requires 0 <= i < |segments| => casefold(segments[i]))
  }

  // Casefolding works character by character: it keeps slashes, and a segment that reads ".." between
  // its spaces is folded like no other.
  ghost predicate KeepsSegments(casefold: string -> string) {
    && (forall parts :: casefold(Join(parts, "/")) == Join(FoldEach(casefold, parts), "/"))
    && (forall s :: '/' in casefold(s) ==> '/' in s)
    && (forall s :: |casefold(s)| == 0 ==> |s| == 0)
    && (forall s, t :: Strip(s, IsSpace) == ".." && casefold(s) == casefold(t) ==> Strip(t, IsSpace) == "..")
  }

  ghost predicate AllStored(notes: set<Note>) {
    forall n <- notes :: Stored(n)
  }

  ghost function Ending(notes: set<Note>, tail: seq<string>): set<Note> {
    set n | n in notes && EndsIn(Path(n), tail)
  }

  ghost function FoldedEnding(notes: set<Note>, casefold: string -> string, tail: seq<string>): set<Note> {
    set n | n in notes && EndsIn(FoldEach(casefold, Path(n)), FoldEach(casefold, tail))
  }

  lemma EndsInAppend(a: seq<string>, x: string, b: seq<string>, y: string)
    ensures EndsIn(a + [x], b + [y]) <==> EndsIn(a, b) && x == y
  {
    var p, t := a + [x], b + [y];
    if |b| <= |a| {
      var k := |a| - |b|;
      assert p[k..] == a[k..] + [x];
      assert (a[k..] + [x])[..|b|] == a[k..] && t[..|b|] == b;
      assert (a[k..] + [x])[|b|] == x && t[|b|] == y;
    }
  }

  lemma PathMatches(folder: string, segments: seq<string>, tail: seq<string>)
    requires folder == Join(segments, "/") && Plain(segments) && Plain(tail)
    ensures FolderMatches(folder, Join(tail, "/")) <==> EndsIn(segments, tail)
  {
    MatchesBySegments(segments, tail);
  }

  lemma NoteMatches(n: Note, tail: seq<string>)
    requires Stored(n) && Plain(tail)
    ensures FolderMatches(n.folder, Join(tail, "/")) <==> EndsIn(PathSegments(n.folder), tail)
  {
    NormalIsPlain(PathSegments(n.folder));
    PathMatches(n.folder, PathSegments(n.folder), tail);
  }

  lemma ExactIsEnding(notes: set<Note>, segments: seq<string>, title: string)
    requires AllStored(notes) && Normal(segments)
    ensures Exact(notes, Join(segments, "/"), title) == Ending(notes, segments + [title])
  {
    NormalIsPlain(segments);
    forall n | n in notes
      ensures EndsIn(Path(n), segments + [title]) <==> n.title == title && FolderMatches(n.folder, Join(segments, "/"))
    {
      NoteMatches(n, segments);
      EndsInAppend(PathSegments(n.folder), n.title, segments, title);
    }
  }

  lemma FoldKeepsPlain(casefold: string -> string, segments: seq<string>)
    requires KeepsSegments(casefold) && Plain(segments)
    ensures Plain(FoldEach(casefold, segments))
  {
  }

  lemma FoldAppend(casefold: string -> string, segments: seq<string>, title: string)
    ensures FoldEach(casefold, segments + [title]) == FoldEach(casefold, segments) + [casefold(title)]
  {
  }

  lemma FoldedIsEnding(notes: set<Note>, casefold: string -> string, segments: seq<string>, title: string)
    requires AllStored(notes) && Normal(segments) && KeepsSegments(casefold)
    ensures Folded(notes, casefold, Join(segments, "/"), title) == FoldedEnding(notes, casefold, segments + [title])
  {
    NormalIsPlain(segments);
    FoldKeepsPlain(casefold, segments);
    FoldAppend(casefold, segments, title);
    forall n | n in notes
      ensures EndsIn(FoldEach(casefold, Path(n)), FoldEach(casefold, segments + [title]))
              <==> casefold(n.title) == casefold(title)
                   && FolderMatches(casefold(n.folder), casefold(Join(segments, "/")))
    {
      FoldedNoteMatches(n, casefold, segments);
      FoldAppend(casefold, PathSegments(n.folder), n.title);
      EndsInAppend(FoldEach(casefold, PathSegments(n.folder)), casefold(n.title),
        FoldEach(casefold, segments), casefold(title));
    }
  }

  lemma FoldedNoteMatches(n: Note, casefold: string -> string, segments: seq<string>)
    requires Stored(n) && Plain(segments) && KeepsSegments(casefold)
    ensures FolderMatches(casefold(n.folder), casefold(Join(segments, "/")))
            <==> EndsIn(FoldEach(casefold, PathSegments(n.folder)), FoldEach(casefold, segments))
  {
    var own := PathSegments(n.folder);
    NormalIsPlain(own);
    FoldKeepsPlain(casefold, own);
    FoldKeepsPlain(casefold, segments);
    MatchesBySegments(FoldEach(casefold, own), FoldEach(casefold, segments));
  }

  /** A target names the notes whose path ends in its segments; only when there are none, and it is
      allowed, those whose casefolded path ends in its casefolded segments. */
  lemma TargetNames(notes: set<Note>, casefold: string -> string, segments: seq<string>, title: string,
                    target: string, allowCasefold: bool)
    requires AllStored(notes) && KeepsSegments(casefold)
    requires Normal(segments) && target == Join(segments + [title], "/")
    requires |title| > 0 && '/' !in title && !IsSpace(title[0]) && !IsSpace(title[|title| - 1])
    ensures var (folder, last) := SplitTarget(target);
            Candidates(notes, casefold, folder, last, allowCasefold)
            == if Ending(notes, segments + [title]) != {} || !allowCasefold then Ending(notes, segments + [title])
               else FoldedEnding(notes, casefold, segments + [title])
  {
    SplitOfJoin(segments, title, target);
    ExactIsEnding(notes, segments, title);
    FoldedIsEnding(notes, casefold, segments, title);
  }

  // ---------- targets that climb out ----------

  lemma {:induction false} LStripInParts(s: string)
    ensures Split(LStrip(s, IsSpace), '/') == [LStrip(Split(s, '/')[0], IsSpace)] + Split(s, '/')[1..]
  {
    if |s| > 0 && IsSpace(s[0]) {
      LStripInParts(s[1..]);
    }
  }

  function Last(parts: seq<string>): string
    requires |parts| > 0
  {
    parts[|parts| - 1]
  }

  function WithLast(parts: seq<string>, x: string): seq<string>
    requires |parts| > 0
  {
    parts[..|parts| - 1] + [x]
  }

  lemma PrependWithLast(c: char, parts: seq<string>, x: string)
    requires |parts| > 0
    ensures c == '/' || |parts| > 1 ==>
              && Prepend(c, WithLast(parts, x), '/') == WithLast(Prepend(c, parts, '/'), x)
              && Last(Prepend(c, parts, '/')) == Last(parts)
    ensures c != '/' && |parts| == 1 ==>
              && Prepend(c, WithLast(parts, x), '/') == [[c] + x]
              && Prepend(c, parts, '/') == [[c] + Last(parts)]
  {
    if c == '/' {
      assert ([""] + parts)[..|parts|] == [""] + parts[..|parts| - 1];
    } else if |parts| > 1 {
      var first := [c] + parts[0];
      assert WithLast(parts, x)[1..] == WithLast(parts[1..], x);
      assert ([first] + parts[1..])[..|parts| - 1] == [first] + parts[1..|parts| - 1];
    }
  }

  lemma {:induction false} SplitAppend(s: string, c: char)
    requires c != '/'
    ensures Split(s + [c], '/') == WithLast(Split(s, '/'), Last(Split(s, '/')) + [c])
  {
    if |s| > 0 {
      var parts := Split(s[1..], '/');
      var x := Last(parts) + [c];
      SplitAppend(s[1..], c);
      assert (s + [c])[1..] == s[1..] + [c];
      PrependWithLast(s[0], parts, x);
      assert [s[0]] + x == [s[0]] + Last(parts) + [c];
    } else {
      assert s + [c] == [c] && [c][1..] == "" && [c] + "" == [c];
    }
  }

  lemma RStripSnoc(t: string, c: char)
    ensures RStrip(t + [c], IsSpace) == if IsSpace(c) then RStrip(t, IsSpace) else t + [c]
  {
    assert (t + [c])[..|t|] == t;
  }

  lemma WithLastTwice(parts: seq<string>, x: string, y: string)
    requires |parts| > 0
    ensures WithLast(WithLast(parts, x), y) == WithLast(parts, y) && Last(WithLast(parts, x)) == x
    ensures WithLast(parts, Last(parts)) == parts
  {
  }

  lemma {:induction false} RStripInParts(s: string)
    ensures Split(RStrip(s, IsSpace), '/') == WithLast(Split(s, '/'), RStrip(Last(Split(s, '/')), IsSpace))
  {
    if |s| > 0 {
      var t, c := s[..|s| - 1], s[|s| - 1];
      assert s == t + [c];
      RStripSnoc(t, c);
      if c == '/' {
        SplitConcat(t, "", '/');
        assert t + ['/'] + "" == s;
        assert Last(Split(s, '/')) == "";
      } else {
        var parts := Split(t, '/');
        SplitAppend(t, c);
        RStripSnoc(Last(parts), c);
        WithLastTwice(parts, Last(parts) + [c], RStrip(Last(parts) + [c], IsSpace));
        if IsSpace(c) {
          RStripInParts(t);
        }
      }
    }
  }

  lemma {:induction false} NonEmptyIsPart(parts: seq<string>, x: string)
    requires x in NonEmpty(parts)
    ensures x in parts
  {
    if |parts[0]| == 0 || x != parts[0] {
      NonEmptyIsPart(parts[1..], x);
    }
  }

  lemma StripOfDots(x: string)
    ensures LStrip(x, IsSpace) == ".." || RStrip(x, IsSpace) == ".." || x == ".." ==> Strip(x, IsSpace) == ".."
  {
    if RStrip(x, IsSpace) == ".." {
      RStripFacts(x, IsSpace);
      assert x[0] == '.';
    }
  }

  lemma StripPart(parts: seq<string>, i: nat)
    requires i < |parts|
    ensures var left := [LStrip(parts[0], IsSpace)] + parts[1..];
            WithLast(left, RStrip(Last(left), IsSpace))[i] == ".." ==> Strip(parts[i], IsSpace) == ".."
  {
    StripOfDots(parts[i]);
  }

  // A climbing folder has a segment that reads ".." between its spaces.
  lemma ClimbingPart(folder: string) returns (i: nat)
    requires ".." in PathSegments(Strip(folder, IsSpace))
    ensures i < |Split(folder, '/')| && Strip(Split(folder, '/')[i], IsSpace) == ".."
  {
    var parts, left := Split(folder, '/'), LStrip(folder, IsSpace);
    var stripped := Split(RStrip(left, IsSpace), '/');
    NonEmptyIsPart(stripped, "..");
    LStripInParts(folder);
    RStripInParts(left);
    i :| 0 <= i < |stripped| && stripped[i] == "..";
    StripPart(parts, i);
  }

  lemma FoldedParts(casefold: string -> string, s: string)
    requires KeepsSegments(casefold)
    ensures Split(casefold(s), '/') == FoldEach(casefold, Split(s, '/'))
  {
    JoinSplit(s, '/');
    SplitJoin(FoldEach(casefold, Split(s, '/')), '/');
  }

  lemma StoredPart(n: Note, i: nat)
    requires Stored(n) && i < |Split(n.folder, '/')|
    ensures Strip(Split(n.folder, '/')[i], IsSpace) != ".."
  {
    var segments := PathSegments(n.folder);
    if |segments| == 0 {
      assert Split(n.folder, '/') == [""];
    } else {
      NormalIsPlain(segments);
      SplitJoin(segments, '/');
      NormalSegment(segments[i]);
      StripNothing(segments[i], IsSpace);
    }
  }

  lemma ClimbingMatchesNone(n: Note, casefold: string -> string, folder: string)
    requires Stored(n) && KeepsSegments(casefold) && ".." in PathSegments(Strip(folder, IsSpace))
    ensures !FolderMatches(casefold(n.folder), casefold(folder))
  {
    var i := ClimbingPart(folder);
    if FolderMatches(casefold(n.folder), casefold(folder)) {
      assert |folder| > 0;
      FoldedTail(casefold, n.folder, folder);
      var j := TailAt(FoldEach(casefold, Split(n.folder, '/')), FoldEach(casefold, Split(folder, '/')), i);
      StoredPart(n, j);
    }
  }

  lemma TailInParts(x: string, y: string, xs: seq<string>, ys: seq<string>)
    requires |y| > 0 && FolderMatches(x, y) && Split(x, '/') == xs && Split(y, '/') == ys
    ensures EndsIn(xs, ys)
  {
    EndingSplits(x, y);
  }

  lemma FoldedTail(casefold: string -> string, noteFolder: string, folder: string)
    requires KeepsSegments(casefold) && |folder| > 0 && FolderMatches(casefold(noteFolder), casefold(folder))
    ensures EndsIn(FoldEach(casefold, Split(noteFolder, '/')), FoldEach(casefold, Split(folder, '/')))
  {
    FoldedParts(casefold, noteFolder);
    FoldedParts(casefold, folder);
    TailInParts(casefold(noteFolder), casefold(folder), FoldEach(casefold, Split(noteFolder, '/')),
      FoldEach(casefold, Split(folder, '/')));
  }

  lemma TailAt(path: seq<string>, tail: seq<string>, i: nat) returns (j: nat)
    requires EndsIn(path, tail) && i < |tail|
    ensures j < |path| && path[j] == tail[i]
  {
    j := |path| - |tail| + i;
    assert path[|path| - |tail|..][i] == path[j];
  }

  lemma SameKeepsSegments(same: string -> string)
    requires forall s :: same(s) == s
    ensures KeepsSegments(same)
  {
    forall parts ensures same(Join(parts, "/")) == Join(FoldEach(same, parts), "/") {
      assert FoldEach(same, parts) == parts;
    }
  }

  function FolderPart(target: string): string {
    Join(Parts(target)[..|Parts(target)| - 1], "/")
  }

  // No slash, and no white space around it.
  ghost predicate Bare(title: string) {
    '/' !in title && (title != "" ==> !IsSpace(title[0]) && !IsSpace(title[|title| - 1]))
  }

  lemma StrippedIsBare(part: string)
    requires '/' !in part
    ensures Bare(Strip(part, IsSpace))
  {
    LStripFacts(part, IsSpace);
    RStripFacts(LStrip(part, IsSpace), IsSpace);
    RStripKeepsFirst(LStrip(part, IsSpace));
  }

  ghost predicate SafeFolder(folder: string) {
    forall i :: 0 <= i < |PathSegments(folder)| ==> Safe(PathSegments(folder)[i])
  }

  lemma SafeOrClimbing(folderPart: string)
    ensures ".." !in PathSegments(Strip(folderPart, IsSpace)) ==>
              NormalizeFolder(folderPart).Some? && SafeFolder(NormalizeFolder(folderPart).value)
  {
    NormalizedIsSafe(folderPart);
  }

  /** Splitting gives a bare title, and a folder of safe names unless it climbs out. */
  lemma SplitIsBare(target: string)
    ensures Bare(SplitTarget(target).1)
    ensures ".." !in PathSegments(Strip(FolderPart(target), IsSpace)) ==> SafeFolder(SplitTarget(target).0)
  {
    JoinSplit(Strip(Strip(target, IsSpace), c => c == '/'), '/');
    StrippedIsBare(Last(Parts(target)));
    SafeOrClimbing(FolderPart(target));
  }

  lemma RStripKeepsFirst(s: string)
    requires s != "" ==> !IsSpace(s[0])
    ensures RStrip(s, IsSpace) != "" ==> RStrip(s, IsSpace)[0] == s[0]
  {
    RStripFacts(s, IsSpace);
  }

  /** A target whose folder climbs out with ".." names no stored note, casefolded or not. */
  lemma ClimbingNamesNothing(notes: set<Note>, casefold: string -> string, target: string, allowCasefold: bool)
    requires AllStored(notes) && KeepsSegments(casefold)
    requires ".." in PathSegments(Strip(FolderPart(target), IsSpace))
    ensures var (folder, title) := SplitTarget(target);
            Candidates(notes, casefold, folder, title, allowCasefold) == {}
  {
    var folder, same := FolderPart(target), (s: string) => s;
    SameKeepsSegments(same);
    forall n | n in notes
      ensures !FolderMatches(n.folder, folder) && !FolderMatches(casefold(n.folder), casefold(folder))
    {
      ClimbingMatchesNone(n, same, folder);
      ClimbingMatchesNone(n, casefold, folder);
    }
  }

  // ---------- the chosen note ----------

  /** The note a target denotes is preferred to every other candidate, and no other note is. */
  lemma DenotesThePreferred(notes: set<Note>, casefold: string -> string, target: string, sourceFolder: string,
                            allowCasefold: bool, note: Note)
    ensures var (folder, title) := SplitTarget(target);
            var candidates := Candidates(notes, casefold, folder, title, allowCasefold);
            Denotes(notes, casefold, target, sourceFolder, allowCasefold, note)
            <==> note in candidates
                 && forall n <- candidates :: n == note || Preferred(note, n, folder, PathSegments(sourceFolder))
  {
    var (folder, title) := SplitTarget(target);
    var ctx := Context(folder, PathSegments(sourceFolder));
    forall n ensures Better(note, n, ctx) <==> Preferred(note, n, folder, ctx.source) {
      BetterIsPreferred(note, n, ctx);
    }
  }

  lemma PreferredIsNearest(a: Note, b: Note, folder: string, source: seq<string>)
    requires Preferred(a, b, folder, source)
    ensures b.folder == folder ==> a.folder == folder
    ensures a.folder != folder ==>
              forall k: nat :: SharesLead(PathSegments(b.folder), source, k)
                               ==> SharesLead(PathSegments(a.folder), source, k)
  {
    NearerIsDeeper(PathSegments(a.folder), PathSegments(b.folder), source);
    NearerIsDeeper(PathSegments(b.folder), PathSegments(a.folder), source);
  }

  /** The chosen note has the target's own path if any candidate has; if not, no candidate shares a
      longer lead with the source folder. */
  lemma ChosenIsNearest(notes: set<Note>, casefold: string -> string, target: string, sourceFolder: string,
                        allowCasefold: bool, note: Note, other: Note, k: nat)
    requires Denotes(notes, casefold, target, sourceFolder, allowCasefold, note)
    requires var (folder, title) := SplitTarget(target);
      other in Candidates(notes, casefold, folder, title, allowCasefold)
    ensures other.folder == SplitTarget(target).0 ==> note.folder == SplitTarget(target).0
    ensures note.folder != SplitTarget(target).0
            && SharesLead(PathSegments(other.folder), PathSegments(sourceFolder), k)
            ==> SharesLead(PathSegments(note.folder), PathSegments(sourceFolder), k)
  {
    DenotesThePreferred(notes, casefold, target, sourceFolder, allowCasefold, note);
    if other != note {
      PreferredIsNearest(note, other, SplitTarget(target).0, PathSegments(sourceFolder));
    }
  }

  lemma {:induction false} WholeLead(a: seq<string>, source: seq<string>)
    ensures SharedDepth(a, source) <= |a| && SharedDepth(a, source) <= |source|
    ensures SharedDepth(source, source) == |source|
    ensures SharedDepth(a, source) == |source| && |a| <= |source| ==> a == source
  {
    var d := SharedDepth(a, source);
    LeadIsDepth(a, source, d);
    LeadIsDepth(source, source, |source|);
    LeadIsDepth(source, source, SharedDepth(source, source));
    if d == |source| && |a| <= |source| {
      assert a[..d] == a && source[..d] == source;
    }
  }

  /** A candidate in the source's own folder is chosen over every candidate elsewhere, one in a
      subfolder too, except a note at exactly the target's path. */
  lemma OwnFolderWins(notes: set<Note>, casefold: string -> string, target: string, sourceFolder: string,
                      allowCasefold: bool, own: Note, other: Note)
    requires var (folder, title) := SplitTarget(target);
      own in Candidates(notes, casefold, folder, title, allowCasefold) && other.folder != folder
    requires PathSegments(own.folder) == PathSegments(sourceFolder) != PathSegments(other.folder)
    ensures !Denotes(notes, casefold, target, sourceFolder, allowCasefold, other)
  {
    var source := PathSegments(sourceFolder);
    var (folder, title) := SplitTarget(target);
    WholeLead(PathSegments(other.folder), source);
    BetterTotal(own, other, Context(folder, source));
    assert Better(own, other, Context(folder, source));
  }
}
