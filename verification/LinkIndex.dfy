/**
 Wikilink targets are path suffixes. The index resolves a target to one note of the
 workspace; `ShortestTarget` writes the shortest suffix that resolves back to a note.
 */
module LinkIndex {
  import opened Options
  import opened Sequences
  import opened Text
  import opened Folders

  datatype Note = Note(id: string, folder: string, title: string)

  // ---------- targets ----------

  function Parts(target: string): (parts: seq<string>)
    ensures |parts| > 0
  {
    Split(Strip(Strip(target, IsSpace), c => c == '/'), '/')
  }

  // A folder that climbs out with ".." is left as it was written.
  function SplitTarget(target: string): (string, string) {
    var parts := Parts(target);
    var n := |parts| - 1;
    var folderPart, title := Join(parts[..n], "/"), Strip(parts[n], IsSpace);
    match NormalizeFolder(folderPart)
    case Some(folder) => (folder, title)
    case None => (folderPart, title)
  }

  function JoinTarget(folder: string, title: string): string {
    if |folder| > 0 then folder + "/" + title else title
  }

  predicate EndsWith(s: string, tail: string) {
    |tail| <= |s| && s[|s| - |tail|..] == tail
  }

  predicate FolderMatches(noteFolder: string, suffix: string) {
    |suffix| == 0 || noteFolder == suffix || EndsWith(noteFolder, "/" + suffix)
  }

  // A stored note: folder in normal form, title stripped, non-empty and slash-free.
  ghost predicate Stored(note: Note) {
    && NormalFolder(note.folder)
    && |note.title| > 0 && '/' !in note.title && !IsSpace(note.title[0]) && !IsSpace(note.title[|note.title| - 1])
  }

  function Path(note: Note): seq<string> {
    PathSegments(note.folder) + [note.title]
  }

  // The last `length` segments of a note's path, as a link.
  function Suffix(note: Note, length: nat): string
    requires 1 <= length <= |Path(note)|
  {
    Join(Path(note)[|Path(note)| - length..], "/")
  }

  /** A link made of normal folder segments and a title splits back into them. */
  lemma SplitOfJoin(segments: seq<string>, title: string, target: string)
    requires Normal(segments) && target == Join(segments + [title], "/")
    requires |title| > 0 && '/' !in title && !IsSpace(title[0]) && !IsSpace(title[|title| - 1])
    ensures SplitTarget(target) == (Join(segments, "/"), title)
  {
    var all := segments + [title];
    forall i | 0 <= i < |all| ensures |all[i]| > 0 && '/' !in all[i] && !IsSpace(all[i][0]) {
      if i < |segments| {
        NormalSegment(segments[i]);
      }
    }
    JoinEnds(all);
    StripNothing(target, IsSpace);
    StripNothing(target, c => c == '/');
    SplitJoin(all, '/');
    assert all[..|segments|] == segments;
    StripNothing(title, IsSpace);
    NormalizeNormal(segments);
  }

  // The folder segments of the suffix of that length.
  function FolderTail(note: Note, length: nat): seq<string>
    requires 1 <= length <= |Path(note)|
  {
    PathSegments(note.folder)[|Path(note)| - length..]
  }

  lemma SuffixIsTail(note: Note, length: nat)
    requires 1 <= length <= |Path(note)|
    ensures Suffix(note, length) == Join(FolderTail(note, length) + [note.title], "/")
  {
    var segments, k := PathSegments(note.folder), |Path(note)| - length;
    assert (segments + [note.title])[k..] == segments[k..] + [note.title];
  }

  lemma TailIsNormal(note: Note, length: nat)
    requires Stored(note) && 1 <= length <= |Path(note)|
    ensures Normal(FolderTail(note, length))
  {
  }

  lemma SuffixSplits(note: Note, length: nat)
    requires Stored(note) && 1 <= length <= |Path(note)|
    ensures SplitTarget(Suffix(note, length)) == (Join(FolderTail(note, length), "/"), note.title)
  {
    SuffixIsTail(note, length);
    TailIsNormal(note, length);
    SplitOfJoin(FolderTail(note, length), note.title, Suffix(note, length));
  }

  lemma FullSuffix(note: Note)
    requires Stored(note)
    ensures JoinTarget(note.folder, note.title) == Suffix(note, |Path(note)|)
    ensures SplitTarget(JoinTarget(note.folder, note.title)) == (note.folder, note.title)
  {
    var segments := PathSegments(note.folder);
    var n := |Path(note)|;
    assert Path(note)[n - n..] == Path(note);
    if |segments| > 0 {
      JoinAppend(segments, [note.title], "/");
      NormalIsPlain(segments);
      JoinEnds(segments);
    } else {
      assert Path(note) == [note.title];
    }
    assert FolderTail(note, n) == segments;
    SuffixSplits(note, n);
  }

  // Non-empty segments without a slash: what a path is split into.
  ghost predicate Plain(segments: seq<string>) {
    forall i :: 0 <= i < |segments| ==> |segments[i]| > 0 && '/' !in segments[i]
  }

  lemma NormalIsPlain(segments: seq<string>)
    requires Normal(segments)
    ensures Plain(segments)
  {
    forall i | 0 <= i < |segments| ensures |segments[i]| > 0 && '/' !in segments[i] {
      NormalSegment(segments[i]);
    }
  }

  lemma OwnSuffixMatches(segments: seq<string>, k: nat)
    requires k <= |segments|
    ensures FolderMatches(Join(segments, "/"), Join(segments[k..], "/"))
  {
    var front, tail := segments[..k], segments[k..];
    assert front + tail == segments;
    if 0 < k < |segments| {
      JoinAppend(front, tail, "/");
      TailEndsWith(Join(front, "/"), Join(tail, "/"));
    } else if k == 0 {
      assert tail == segments;
    }
  }

  lemma TailEndsWith(front: string, tail: string)
    ensures EndsWith(front + "/" + tail, "/" + tail)
  {
    assert front + "/" + tail == front + ("/" + tail);
  }

  lemma CutAtSlash(x: string, y: string) returns (front: string)
    requires EndsWith(x, "/" + y)
    ensures x == front + "/" + y
  {
    front := x[..|x| - |y| - 1];
    assert x == front + x[|x| - |y| - 1..];
  }

  lemma TailOf<T>(a: seq<T>, b: seq<T>, c: seq<T>)
    requires a == c + b
    ensures |b| <= |a| && a[|a| - |b|..] == b
  {
  }

  lemma EndingSplits(x: string, y: string)
    requires x == y || EndsWith(x, "/" + y)
    ensures var a, b := Split(x, '/'), Split(y, '/'); |b| <= |a| && a[|a| - |b|..] == b
  {
    if x != y {
      var front := CutAtSlash(x, y);
      SplitConcat(front, y, '/');
      TailOf(Split(x, '/'), Split(y, '/'), Split(front, '/'));
    }
  }

  lemma MatchedEndsInSegments(a: seq<string>, b: seq<string>)
    requires Plain(a) && Plain(b) && |a| > 0 && |b| > 0 && FolderMatches(Join(a, "/"), Join(b, "/"))
    ensures |b| <= |a| && a[|a| - |b|..] == b
  {
    SplitJoin(a, '/');
    SplitJoin(b, '/');
    MatchIsEnding(a, b);
    EndingSplits(Join(a, "/"), Join(b, "/"));
  }

  lemma MatchIsEnding(a: seq<string>, b: seq<string>)
    requires Plain(b) && |b| > 0 && FolderMatches(Join(a, "/"), Join(b, "/"))
    ensures Join(a, "/") == Join(b, "/") || EndsWith(Join(a, "/"), "/" + Join(b, "/"))
  {
    JoinEnds(b);
  }

  lemma NothingMatchesOnlyTop(b: seq<string>)
    requires Plain(b) && |b| > 0
    ensures !FolderMatches(Join([], "/"), Join(b, "/"))
  {
    JoinEnds(b);
  }

  lemma SuffixMatches(a: seq<string>, b: seq<string>)
    requires |b| <= |a| && a[|a| - |b|..] == b
    ensures FolderMatches(Join(a, "/"), Join(b, "/"))
  {
    var tail := a[|a| - |b|..];
    OwnSuffixMatches(a, |a| - |b|);
    assert Join(tail, "/") == Join(b, "/");
  }

  /** A folder matches exactly the folders that end in its segments, whole ones: "b" never
      matches "ab". */
  lemma MatchesBySegments(a: seq<string>, b: seq<string>)
    requires Plain(a) && Plain(b)
    ensures FolderMatches(Join(a, "/"), Join(b, "/")) <==> |b| <= |a| && a[|a| - |b|..] == b
  {
    if |b| <= |a| && a[|a| - |b|..] == b {
      SuffixMatches(a, b);
    } else if |a| == 0 {
      NothingMatchesOnlyTop(b);
    } else if FolderMatches(Join(a, "/"), Join(b, "/")) {
      MatchedEndsInSegments(a, b);
    }
  }

  // ---------- ranking ----------

  function SharedDepth(a: seq<string>, b: seq<string>): nat {
    if |a| == 0 || |b| == 0 || a[0] != b[0] then 0 else 1 + SharedDepth(a[1..], b[1..])
  }

  method ComputeSharedDepth(a: seq<string>, b: seq<string>) returns (depth: nat)
    ensures depth == SharedDepth(a, b)
    ensures depth <= |a| && depth <= |b| && a[..depth] == b[..depth]
    ensures depth < |a| && depth < |b| ==> a[depth] != b[depth]
  {
    depth := 0;
    while depth < |a| && depth < |b| && a[depth] == b[depth]
      invariant depth <= |a| && depth <= |b| && a[..depth] == b[..depth]
      invariant SharedDepth(a, b) == depth + SharedDepth(a[depth..], b[depth..])
    {
      assert a[depth..][1..] == a[depth + 1..] && b[depth..][1..] == b[depth + 1..];
      depth := depth + 1;
    }
  }

  /** What the candidates of one target are compared by. */
  datatype Context = Context(folder: string, source: seq<string>)

  function Inexact(n: Note, ctx: Context): int {
    if n.folder == ctx.folder then 0 else 1
  }

  function Near(n: Note, ctx: Context): nat {
    SharedDepth(PathSegments(n.folder), ctx.source)
  }

  // The rank tuple's order: exact path, then nearest, shallowest, folder, title.
  predicate Better(a: Note, b: Note, ctx: Context) {
    if Inexact(a, ctx) != Inexact(b, ctx) then Inexact(a, ctx) < Inexact(b, ctx)
    else if Near(a, ctx) != Near(b, ctx) then Near(a, ctx) > Near(b, ctx)
    else if |PathSegments(a.folder)| != |PathSegments(b.folder)| then
      |PathSegments(a.folder)| < |PathSegments(b.folder)|
    else if a.folder != b.folder then Before(a.folder, b.folder)
    else Before(a.title, b.title)
  }

  predicate SameKey(a: Note, b: Note) {
    a.folder == b.folder && a.title == b.title
  }

  ghost predicate UniqueKeys(notes: set<Note>) {
    forall a, b :: a in notes && b in notes && SameKey(a, b) ==> a == b
  }

  ghost predicate UniqueIds(notes: set<Note>) {
    forall a, b :: a in notes && b in notes && a.id == b.id ==> a == b
  }

  lemma BetterTotal(a: Note, b: Note, ctx: Context)
    ensures SameKey(a, b) || Better(a, b, ctx) || Better(b, a, ctx)
    ensures !(Better(a, b, ctx) && Better(b, a, ctx))
  {
    BeforeTotal(a.folder, b.folder);
    BeforeTotal(a.title, b.title);
  }

  lemma BetterTransitive(a: Note, b: Note, c: Note, ctx: Context)
    requires Better(a, b, ctx) && Better(b, c, ctx)
    ensures Better(a, c, ctx)
  {
    BeforeTotal(a.folder, b.folder);
    BeforeTotal(b.folder, c.folder);
    if a.folder != b.folder && b.folder != c.folder && Before(a.folder, b.folder) && Before(b.folder, c.folder) {
      BeforeTransitive(a.folder, b.folder, c.folder);
      BeforeTotal(a.folder, c.folder);
    }
    if Before(a.title, b.title) && Before(b.title, c.title) {
      BeforeTransitive(a.title, b.title, c.title);
    }
  }

  // The candidates, best first.
  ghost predicate IsRanking(candidates: set<Note>, ranked: seq<Note>, ctx: Context) {
    && (forall i, j :: 0 <= i < j < |ranked| ==> Better(ranked[i], ranked[j], ctx))
    && (forall n :: n in ranked <==> n in candidates)
  }

  /** A set of candidates has only one ranking, so the order notes are listed in cannot matter. */
  lemma {:induction false} RankingIsUnique(candidates: set<Note>, a: seq<Note>, b: seq<Note>, ctx: Context)
    requires IsRanking(candidates, a, ctx) && IsRanking(candidates, b, ctx)
    ensures a == b
    decreases |a|
  {
    if |a| == 0 {
      if |b| > 0 {
        HasMember(b);
      }
    } else {
      assert a[0] in a && a[0] in b;
      assert |b| > 0 && b[0] in b && b[0] in a;
      var i :| 0 <= i < |b| && b[i] == a[0];
      var j :| 0 <= j < |a| && a[j] == b[0];
      BetterTotal(a[0], b[0], ctx);
      assert a[0] == b[0];
      TailIsRanking(candidates, a, ctx);
      TailIsRanking(candidates, b, ctx);
      RankingIsUnique(candidates - {a[0]}, a[1..], b[1..], ctx);
      assert a == [a[0]] + a[1..] && b == [b[0]] + b[1..];
    }
  }

  lemma HasMember(b: seq<Note>)
    requires |b| > 0
    ensures exists n :: n in b
  {
    assert b[0] in b;
  }

  lemma TailIsRanking(candidates: set<Note>, a: seq<Note>, ctx: Context)
    requires |a| > 0 && IsRanking(candidates, a, ctx)
    ensures IsRanking(candidates - {a[0]}, a[1..], ctx)
  {
    forall n ensures n in a[1..] <==> n in candidates - {a[0]} {
      if n in a[1..] {
        var i :| 1 <= i < |a| && a[i] == n;
        BetterTotal(a[0], a[i], ctx);
      }
      if n in candidates && n != a[0] {
        var i :| 0 <= i < |a| && a[i] == n;
        assert a[1..][i - 1] == n;
      }
    }
  }

  method InsertRanked(ranked: seq<Note>, n: Note, ctx: Context, ghost done: set<Note>) returns (r: seq<Note>)
    requires IsRanking(done, ranked, ctx) && n !in done && UniqueKeys(done + {n})
    ensures IsRanking(done + {n}, r, ctx)
  {
    var k := 0;
    while k < |ranked| && Better(ranked[k], n, ctx)
      invariant 0 <= k <= |ranked| && forall i :: 0 <= i < k ==> Better(ranked[i], n, ctx)
    {
      k := k + 1;
    }
    forall i | k <= i < |ranked| ensures Better(n, ranked[i], ctx) {
      assert ranked[k] in ranked && ranked[i] in ranked;
      BetterTotal(n, ranked[k], ctx);
      if k < i {
        BetterTransitive(n, ranked[k], ranked[i], ctx);
      }
    }
    r := ranked[..k] + [n] + ranked[k..];
    assert forall x :: x in r <==> x in ranked[..k] || x == n || x in ranked[k..];
    assert forall x :: x in ranked <==> x in ranked[..k] || x in ranked[k..] by {
      assert ranked == ranked[..k] + ranked[k..];
    }
  }

  method SortByRank(candidates: seq<Note>, ctx: Context, ghost all: set<Note>) returns (ranked: seq<Note>)
    requires UniqueKeys(all) && (forall n :: n in candidates <==> n in all)
    requires forall i, j :: 0 <= i < j < |candidates| ==> candidates[i] != candidates[j]
    ensures IsRanking(all, ranked, ctx)
  {
    ranked := [];
    ghost var done: set<Note> := {};
    for i := 0 to |candidates|
      invariant done <= all && forall n :: n in done <==> n in candidates[..i]
      invariant IsRanking(done, ranked, ctx)
    {
      assert candidates[i] in candidates && candidates[i] !in candidates[..i];
      assert candidates[..i + 1] == candidates[..i] + [candidates[i]];
      ranked := InsertRanked(ranked, candidates[i], ctx, done);
      done := done + {candidates[i]};
    }
    assert candidates[..|candidates|] == candidates;
    assert done == all;
  }

  // ---------- what a target means: a plain scan of the notes ----------

  ghost function Exact(notes: set<Note>, folder: string, title: string): set<Note> {
    set n | n in notes && n.title == title && FolderMatches(n.folder, folder)
  }

  ghost function Folded(notes: set<Note>, casefold: string -> string, folder: string, title: string): set<Note> {
    set n | n in notes && casefold(n.title) == casefold(title) && FolderMatches(casefold(n.folder), casefold(folder))
  }

  // The exact candidates, or on a miss the casefolded ones if they are allowed.
  ghost function Candidates(notes: set<Note>, casefold: string -> string, folder: string, title: string,
                            allowCasefold: bool): set<Note> {
    if Exact(notes, folder, title) == {} && allowCasefold then Folded(notes, casefold, folder, title)
    else Exact(notes, folder, title)
  }

  ghost predicate Best(candidates: set<Note>, note: Note, ctx: Context) {
    note in candidates && forall n <- candidates :: n == note || Better(note, n, ctx)
  }

  // The target denotes the best candidate.
  ghost predicate Denotes(notes: set<Note>, casefold: string -> string, target: string, sourceFolder: string,
                          allowCasefold: bool, note: Note) {
    var (folder, title) := SplitTarget(target);
    Best(Candidates(notes, casefold, folder, title, allowCasefold), note, Context(folder, PathSegments(sourceFolder)))
  }

  // Asking by a note's own suffix never needs the fallback.
  lemma OwnSuffixIsExact(notes: set<Note>, casefold: string -> string, note: Note, folder: string, title: string)
    requires note in notes && note.title == title && FolderMatches(note.folder, folder)
    ensures Candidates(notes, casefold, folder, title, true) == Candidates(notes, casefold, folder, title, false)
  {
    assert note in Exact(notes, folder, title);
  }

  lemma OwnTailMatches(note: Note, length: nat)
    requires Stored(note) && 1 <= length <= |Path(note)|
    ensures FolderMatches(note.folder, Join(FolderTail(note, length), "/"))
  {
    OwnSuffixMatches(PathSegments(note.folder), |Path(note)| - length);
  }

  lemma SuffixIsExact(notes: set<Note>, casefold: string -> string, note: Note, length: nat)
    requires note in notes && Stored(note) && 1 <= length <= |Path(note)|
    ensures var (folder, title) := SplitTarget(Suffix(note, length));
            Candidates(notes, casefold, folder, title, true) == Candidates(notes, casefold, folder, title, false)
  {
    OwnTailMatches(note, length);
    OwnSuffixIsExact(notes, casefold, note, Join(FolderTail(note, length), "/"), note.title);
    SuffixSplits(note, length);
  }

  lemma FullPathIsBest(notes: set<Note>, casefold: string -> string, note: Note, source: seq<string>,
                       allowCasefold: bool)
    requires note in notes && UniqueKeys(notes)
    ensures Best(Candidates(notes, casefold, note.folder, note.title, allowCasefold), note,
      Context(note.folder, source))
  {
    assert note in Exact(notes, note.folder, note.title);
    forall n | n in Exact(notes, note.folder, note.title) && n != note
        ensures Better(note, n, Context(note.folder, source)) {
      assert !SameKey(n, note);
    }
  }

  /** A full path denotes its note in any index that has it, from any source folder and with or
      without the casefold fallback: no note added elsewhere can change its meaning. */
  lemma FullPathDenotes(notes: set<Note>, casefold: string -> string, note: Note, sourceFolder: string,
                        allowCasefold: bool)
    requires note in notes && Stored(note) && UniqueKeys(notes)
    ensures Denotes(notes, casefold, JoinTarget(note.folder, note.title), sourceFolder, allowCasefold, note)
  {
    FullPathIsBest(notes, casefold, note, PathSegments(sourceFolder), allowCasefold);
    FullSuffix(note);
  }

  lemma BestIsOne(candidates: set<Note>, a: Note, b: Note, ctx: Context)
    requires Best(candidates, a, ctx) && Best(candidates, b, ctx)
    ensures a == b
  {
    BetterTotal(a, b, ctx);
  }

  lemma RankedFirstIsBest(candidates: set<Note>, ranked: seq<Note>, ctx: Context)
    requires IsRanking(candidates, ranked, ctx) && |ranked| > 0
    ensures Best(candidates, ranked[0], ctx)
  {
    assert ranked[0] in ranked;
  }

  // ---------- the index ----------

  datatype LinkMatch = LinkMatch(chosen: Note, alternatives: seq<Note>, casefold: bool)

  // The map lists every note once, under its key.
  ghost predicate Groups(m: map<string, seq<Note>>, notes: set<Note>, key: string -> string) {
    && (forall k <- m :: NoRepeats(m[k]) && forall n <- m[k] :: n in notes && key(n.title) == k)
    && (forall n <- notes :: key(n.title) in m && n in m[key(n.title)])
  }

  method AddTo(m: map<string, seq<Note>>, k: string, n: Note, ghost notes: set<Note>, ghost key: string -> string)
    returns (r: map<string, seq<Note>>)
    requires Groups(m, notes, key) && n !in notes && k == key(n.title)
    ensures Groups(r, notes + {n}, key)
  {
    var group := if k in m then m[k] else [];
    r := m[k := group + [n]];
    assert NoRepeats(group) && n !in group;
    forall x | x in notes + {n} ensures key(x.title) in r && x in r[key(x.title)] {
      if x == n {
        assert r[k][|group|] == n;
      } else {
        assert x in m[key(x.title)];
        if key(x.title) == k {
          assert x in group;
          assert r[k] == group + [n];
        }
      }
    }
  }

  class Index {
    ghost const notes: set<Note>
    const casefold: string -> string
    var byTitle: map<string, seq<Note>>
    var byCasefoldTitle: Option<map<string, seq<Note>>>

    ghost predicate Valid()
      reads this
    {
      && UniqueKeys(notes)
      && Groups(byTitle, notes, t => t)
      && (byCasefoldTitle.Some? ==> Groups(byCasefoldTitle.value, notes, casefold))
    }

    constructor (listing: seq<Note>, casefold: string -> string)
      requires NoRepeats(listing) && UniqueKeys(set n | n in listing)
      ensures Valid() && notes == (set n | n in listing) && this.casefold == casefold
    {
      var m: map<string, seq<Note>> := map[];
      ghost var done: set<Note> := {};
      for i := 0 to |listing|
        invariant forall n :: n in done <==> n in listing[..i]
        invariant Groups(m, done, t => t)
      {
        assert listing[..i + 1] == listing[..i] + [listing[i]] && listing[i] !in listing[..i];
        m := AddTo(m, listing[i].title, listing[i], done, t => t);
        done := done + {listing[i]};
      }
      assert listing[..|listing|] == listing;
      this.notes := set n | n in listing;
      this.casefold := casefold;
      this.byTitle := m;
      this.byCasefoldTitle := None;
      assert done == set n | n in listing;
    }

    // Built on the first casefold fallback, from the title groups.
    method CasefoldIndex() returns (m: map<string, seq<Note>>)
      requires Valid()
      modifies this`byCasefoldTitle
      ensures Valid() && byCasefoldTitle == Some(m)
    {
      if byCasefoldTitle.Some? {
        return byCasefoldTitle.value;
      }
      m := map[];
      ghost var done: set<Note> := {};
      var rest := byTitle.Keys;
      while rest != {}
        invariant rest <= byTitle.Keys && done <= notes
        invariant forall n <- notes :: n in done <==> n.title !in rest
        invariant Groups(m, done, casefold)
        decreases rest
      {
        var title :| title in rest;
        var group := byTitle[title];
        ghost var before := done;
        for i := 0 to |group|
          invariant done <= notes && Groups(m, done, casefold)
          invariant forall n :: n in done <==> n in before || n in group[..i]
        {
          assert group[i] in group && group[i] in notes && group[i].title == title;
          assert group[..i + 1] == group[..i] + [group[i]] && group[i] !in group[..i];
          m := AddTo(m, casefold(group[i].title), group[i], done, casefold);
          done := done + {group[i]};
        }
        assert group[..|group|] == group;
        rest := rest - {title};
      }
      assert done == notes;
      byCasefoldTitle := Some(m);
    }

    // The candidates of a split target, looked up in the title maps.
    method Lookup(folder: string, title: string, allowCasefold: bool) returns (found: seq<Note>, casefoldMatch: bool)
      requires Valid()
      modifies this`byCasefoldTitle
      ensures Valid() && NoRepeats(found)
      ensures forall n :: n in found <==> n in Candidates(notes, casefold, folder, title, allowCasefold)
      ensures casefoldMatch <==> |found| > 0 && Exact(notes, folder, title) == {}
    {
      var group := if title in byTitle then byTitle[title] else [];
      found := FilterExact(group, folder);
      assert forall n :: n in found <==> n in Exact(notes, folder, title);
      casefoldMatch := false;
      if |found| == 0 && allowCasefold {
        assert Exact(notes, folder, title) == {};
        var m := CasefoldIndex();
        var folded := if casefold(title) in m then m[casefold(title)] else [];
        found := FilterFolded(folded, casefold, casefold(folder));
        assert forall n :: n in found <==> n in Folded(notes, casefold, folder, title);
        casefoldMatch := |found| > 0;
      } else if |found| > 0 {
        assert found[0] in Exact(notes, folder, title);
      }
    }

    /** Resolution through the title maps is the ranking of a plain scan over the notes. */
    method ResolveDetailed(target: string, sourceFolder: string, allowCasefold: bool) returns (r: Option<LinkMatch>)
      requires Valid()
      modifies this`byCasefoldTitle
      ensures Valid()
      ensures var (folder, title) := SplitTarget(target);
              var candidates := Candidates(notes, casefold, folder, title, allowCasefold);
              && (r.None? <==> candidates == {})
              && (r.Some? ==>
                    && IsRanking(candidates, [r.value.chosen] + r.value.alternatives,
                       Context(folder, PathSegments(sourceFolder)))
                    && (r.value.casefold <==> Exact(notes, folder, title) == {}))
    {
      var (folder, title) := SplitTarget(target);
      r := ResolveSplit(folder, title, PathSegments(sourceFolder), allowCasefold);
    }

    method ResolveSplit(folder: string, title: string, source: seq<string>, allowCasefold: bool)
      returns (r: Option<LinkMatch>)
      requires Valid()
      modifies this`byCasefoldTitle
      ensures Valid()
      ensures var candidates := Candidates(notes, casefold, folder, title, allowCasefold);
              && (r.None? <==> candidates == {})
              && (r.Some? ==>
                    && IsRanking(candidates, [r.value.chosen] + r.value.alternatives, Context(folder, source))
                    && (r.value.casefold <==> Exact(notes, folder, title) == {}))
    {
      var found, casefoldMatch := Lookup(folder, title, allowCasefold);
      if |found| == 0 {
        return None;
      }
      ghost var candidates := Candidates(notes, casefold, folder, title, allowCasefold);
      assert found[0] in candidates;
      var ranked := SortByRank(found, Context(folder, source), candidates);
      assert found[0] in ranked;
      assert ranked == [ranked[0]] + ranked[1..];
      return Some(LinkMatch(ranked[0], ranked[1..], casefoldMatch));
    }

    method Resolve(target: string, sourceFolder: string, allowCasefold: bool) returns (r: Option<Note>)
      requires Valid()
      modifies this`byCasefoldTitle
      ensures Valid()
      ensures r.Some? ==> Denotes(notes, casefold, target, sourceFolder, allowCasefold, r.value)
      ensures r.None? ==> forall n <- notes :: !Denotes(notes, casefold, target, sourceFolder, allowCasefold, n)
    {
      var (folder, title) := SplitTarget(target);
      var m := ResolveSplit(folder, title, PathSegments(sourceFolder), allowCasefold);
      if m.None? {
        return None;
      }
      RankedFirstIsBest(Candidates(notes, casefold, folder, title, allowCasefold),
          [m.value.chosen] + m.value.alternatives,
                        Context(folder, PathSegments(sourceFolder)));
      return Some(m.value.chosen);
    }

    /** The written link is the suffix of the note's path of the returned length; it
        denotes the note from the source folder, with or without the casefold fallback, and no
        shorter allowed suffix does. */
    method ShortestTarget(note: Note, sourceFolder: string, minSegments: int) returns (target: string, length: nat)
      requires Valid() && note in notes && Stored(note) && UniqueIds(notes)
      modifies this`byCasefoldTitle
      ensures Valid() && 1 <= length <= |Path(note)| && target == Suffix(note, length)
      ensures length >= minSegments || length == |Path(note)|
      ensures SuffixDenotes(notes, casefold, note, sourceFolder, length)
      ensures NoneShorter(notes, casefold, note, sourceFolder, minSegments, length)
    {
      var n := |PathSegments(note.folder)| + 1;
      length := if minSegments > 1 then minSegments else 1;
      while length < n
        invariant length >= 1 && length >= minSegments && Valid()
        invariant NoneShorter(notes, casefold, note, sourceFolder, minSegments, if length < n then length else n)
      {
        var ok;
        target, ok := TrySuffix(note, length, sourceFolder);
        if ok {
          return;
        }
        NoneShorterGrows(notes, casefold, note, sourceFolder, minSegments, length);
        length := length + 1;
      }
      length := n;
      target := FullPath(note, sourceFolder);
    }

    method FullPath(note: Note, ghost sourceFolder: string) returns (target: string)
      requires Valid() && note in notes && Stored(note)
      ensures target == Suffix(note, |Path(note)|) && SuffixDenotes(notes, casefold, note, sourceFolder, |Path(note)|)
    {
      target := JoinTarget(note.folder, note.title);
      FullSuffix(note);
      FullPathDenotes(notes, casefold, note, sourceFolder, true);
      FullPathDenotes(notes, casefold, note, sourceFolder, false);
    }

    // One suffix length: does it resolve to the note itself?
    method TrySuffix(note: Note, length: nat, sourceFolder: string) returns (target: string, ok: bool)
      requires Valid() && note in notes && Stored(note) && UniqueIds(notes) && 1 <= length <= |Path(note)|
      modifies this`byCasefoldTitle
      ensures Valid() && target == Suffix(note, length)
      ensures ok <==> SuffixDenotes(notes, casefold, note, sourceFolder, length)
    {
      target := Suffix(note, length);
      var hit := Resolve(target, sourceFolder, false);
      ok := hit.Some? && hit.value.id == note.id;
      SuffixIsExact(notes, casefold, note, length);
      if hit.Some? {
        DenotedIsIn(notes, casefold, target, sourceFolder, hit.value);
        if hit.value != note {
          NotDenoted(notes, casefold, target, sourceFolder, hit.value, note);
        }
      }
    }
  }

  // The suffix of this length denotes the note, with the casefold fallback and without.
  ghost predicate SuffixDenotes(notes: set<Note>, casefold: string -> string, note: Note, sourceFolder: string,
                                length: nat)
    requires 1 <= length <= |Path(note)|
  {
    && Denotes(notes, casefold, Suffix(note, length), sourceFolder, true, note)
    && Denotes(notes, casefold, Suffix(note, length), sourceFolder, false, note)
  }

  // No allowed suffix below this length does.
  ghost predicate NoneShorter(notes: set<Note>, casefold: string -> string, note: Note, sourceFolder: string,
                              minSegments: int, length: nat)
    requires length <= |Path(note)|
  {
    forall k :: 1 <= k < length && k >= minSegments ==> !SuffixDenotes(notes, casefold, note, sourceFolder, k)
  }

  lemma NoneShorterGrows(notes: set<Note>, casefold: string -> string, note: Note, sourceFolder: string,
                         minSegments: int, length: nat)
    requires 1 <= length < |Path(note)| && NoneShorter(notes, casefold, note, sourceFolder, minSegments, length)
    requires !SuffixDenotes(notes, casefold, note, sourceFolder, length)
    ensures NoneShorter(notes, casefold, note, sourceFolder, minSegments, length + 1)
  {
  }

  lemma DenotedIsIn(notes: set<Note>, casefold: string -> string, target: string, sourceFolder: string, note: Note)
    requires Denotes(notes, casefold, target, sourceFolder, false, note)
    ensures note in notes
  {
  }

  lemma NotDenoted(notes: set<Note>, casefold: string -> string, target: string, sourceFolder: string, hit: Note,
                   note: Note)
    requires Denotes(notes, casefold, target, sourceFolder, false, hit) && hit != note
    ensures !Denotes(notes, casefold, target, sourceFolder, false, note)
  {
    var (folder, title) := SplitTarget(target);
    var candidates, ctx := Candidates(notes, casefold, folder, title, false),
        Context(folder, PathSegments(sourceFolder));
    if Best(candidates, note, ctx) {
      BestIsOne(candidates, hit, note, ctx);
    }
  }

  method FilterExact(group: seq<Note>, folder: string) returns (r: seq<Note>)
    requires NoRepeats(group)
    ensures NoRepeats(r) && forall n :: n in r <==> n in group && FolderMatches(n.folder, folder)
  {
    r := [];
    for i := 0 to |group|
      invariant NoRepeats(r) && forall n :: n in r <==> n in group[..i] && FolderMatches(n.folder, folder)
    {
      assert group[..i + 1] == group[..i] + [group[i]] && group[i] !in group[..i];
      if FolderMatches(group[i].folder, folder) {
        r := r + [group[i]];
      }
    }
    assert group[..|group|] == group;
  }

  method FilterFolded(group: seq<Note>, casefold: string -> string, folder: string) returns (r: seq<Note>)
    requires NoRepeats(group)
    ensures NoRepeats(r) && forall n :: n in r <==> n in group && FolderMatches(casefold(n.folder), folder)
  {
    r := [];
    for i := 0 to |group|
      invariant NoRepeats(r) && forall n :: n in r <==> n in group[..i] && FolderMatches(casefold(n.folder), folder)
    {
      assert group[..i + 1] == group[..i] + [group[i]] && group[i] !in group[..i];
      if FolderMatches(casefold(group[i].folder), folder) {
        r := r + [group[i]];
      }
    }
    assert group[..|group|] == group;
  }
}
