/**
 Per-file git history. One shared walk serves many paths, with a budget per path and an
 early exit; it must give each path what a walk of its own would give.
 */
module FileHistory {
  import opened Options
  import opened Text

  /** A commit with the paths its changes touch, new and old. */
  datatype Commit = Commit(sha: string, message: string, timestamp: int, changed: set<string>)

  // An exact match, or a directory prefix ending at a "/".
  predicate Follows(followed: string, changedPath: string) {
    changedPath == followed
    || (followed <= changedPath && |followed| < |changedPath| && changedPath[|followed|] == '/')
  }

  predicate Touches(c: Commit, path: string) {
    exists p :: p in c.changed && Follows(path, p)
  }

  /** A changed path counts for a followed one exactly when its segments start with the followed path's:
      "notes/ab.md" does not count for "notes/a". */
  lemma FollowsBySegments(followed: string, changedPath: string)
    ensures Follows(followed, changedPath) <==> Split(followed, '/') <= Split(changedPath, '/')
  {
    GoesOnByParts(followed, changedPath, '/');
  }

  // ---------- the walk of one path ----------

  function Matching(commits: seq<Commit>, path: string): seq<Commit> {
    if |commits| == 0 then []
    else
      var n := |commits| - 1;
      Matching(commits[..n], path) + if Touches(commits[n], path) then [commits[n]] else []
  }

  function First(commits: seq<Commit>, limit: int): seq<Commit> {
    if limit <= 0 then [] else if |commits| <= limit then commits else commits[..limit]
  }

  // The newest `limit` commits that touch the path.
  function History(commits: seq<Commit>, path: string, limit: int): seq<Commit> {
    First(Matching(commits, path), limit)
  }

  // A change at the path or below it.
  ghost predicate Changes(c: Commit, path: string) {
    exists p :: p in c.changed && Split(path, '/') <= Split(p, '/')
  }

  lemma TouchesIsChanges(c: Commit, path: string)
    ensures Touches(c, path) <==> Changes(c, path)
  {
    forall p ensures Follows(path, p) <==> Split(path, '/') <= Split(p, '/') {
      FollowsBySegments(path, p);
    }
  }

  // These are places of commits that change the path, in order.
  ghost predicate ChangesAt(commits: seq<Commit>, path: string, at: seq<nat>) {
    && (forall k :: 0 <= k < |at| ==> at[k] < |commits| && Changes(commits[at[k]], path))
    && (forall j, k :: 0 <= j < k < |at| ==> at[j] < at[k])
  }

  ghost predicate Picked(commits: seq<Commit>, at: seq<nat>, h: seq<Commit>) {
    |at| == |h| && forall k :: 0 <= k < |at| ==> at[k] < |commits| && h[k] == commits[at[k]]
  }

  // No more than `limit` places, and a change is passed over only when they are used up before it.
  ghost predicate NewestFirst(commits: seq<Commit>, path: string, limit: int, at: seq<nat>) {
    && (|at| == 0 || |at| <= limit)
    && (forall i: nat :: i < |commits| && Changes(commits[i], path) ==>
          i in at || (limit <= |at| && forall k :: 0 <= k < |at| ==> at[k] < i))
  }

  ghost predicate IsHistory(commits: seq<Commit>, path: string, limit: int, h: seq<Commit>) {
    exists at :: ChangesAt(commits, path, at) && Picked(commits, at, h) && NewestFirst(commits, path, limit, at)
  }

  lemma {:induction false} MatchingPlaces(commits: seq<Commit>, path: string) returns (at: seq<nat>)
    ensures ChangesAt(commits, path, at) && Picked(commits, at, Matching(commits, path))
    ensures forall i: nat :: i < |commits| && Changes(commits[i], path) ==> i in at
  {
    at := [];
    if |commits| > 0 {
      var n := |commits| - 1;
      var before := MatchingPlaces(commits[..n], path);
      TouchesIsChanges(commits[n], path);
      at := before + if Touches(commits[n], path) then [n] else [];
      forall i: nat | i < |commits| && Changes(commits[i], path) ensures i in at {
        if i < n {
          assert commits[..n][i] == commits[i];
        } else {
          assert at[|before|] == n;
        }
      }
    }
  }

  lemma PassedOver(all: seq<nat>, n: nat, i: nat)
    requires n <= |all| && i in all && forall j, k :: 0 <= j < k < |all| ==> all[j] < all[k]
    ensures i in all[..n] || (n < |all| && forall k :: 0 <= k < n ==> all[k] < i)
  {
    var k :| 0 <= k < |all| && all[k] == i;
    if k < n {
      assert all[..n][k] == i;
    }
  }

  lemma FirstPlaces(commits: seq<Commit>, path: string, limit: int, all: seq<nat>, n: nat)
    requires ChangesAt(commits, path, all) && forall i: nat :: i < |commits| && Changes(commits[i], path) ==> i in all
    requires n <= |all| && (n == 0 || n <= limit) && (n == |all| || limit <= n)
    ensures ChangesAt(commits, path, all[..n]) && NewestFirst(commits, path, limit, all[..n])
  {
    forall i: nat | i < |commits| && Changes(commits[i], path)
      ensures i in all[..n] || (limit <= n && forall k :: 0 <= k < n ==> all[k] < i)
    {
      PassedOver(all, n, i);
    }
  }

  lemma FirstPicked(commits: seq<Commit>, all: seq<nat>, h: seq<Commit>, n: nat)
    requires Picked(commits, all, h) && n <= |all|
    ensures Picked(commits, all[..n], h[..n])
  {
  }

  /** A path's history is the commits that change it or something below it, newest first, and all of
      them unless `limit` of them come before. */
  lemma HistoryIsNewest(commits: seq<Commit>, path: string, limit: int)
    ensures IsHistory(commits, path, limit, History(commits, path, limit))
  {
    var all := MatchingPlaces(commits, path);
    var matching := Matching(commits, path);
    var n := if limit <= 0 then 0 else if |all| <= limit then |all| else limit;
    FirstPlaces(commits, path, limit, all, n);
    FirstPicked(commits, all, matching, n);
    assert matching[..n] == History(commits, path, limit);
  }

  lemma HistoriesAreNewest(commits: seq<Commit>, limit: int)
    ensures forall p :: IsHistory(commits, p, limit, History(commits, p, limit))
  {
    forall p ensures IsHistory(commits, p, limit, History(commits, p, limit)) {
      HistoryIsNewest(commits, p, limit);
    }
  }

  // ---------- the shared walk ----------

  // What the walker yields for a set of paths: the commits touching any of them.
  function Walk(commits: seq<Commit>, paths: set<string>): seq<Commit> {
    if |commits| == 0 then []
    else
      var n := |commits| - 1;
      Walk(commits[..n], paths) + if exists p :: p in paths && Touches(commits[n], p) then [commits[n]] else []
  }

  lemma {:induction false} WalkMisses(commits: seq<Commit>, paths: set<string>, path: string)
    requires path in paths
    ensures Matching(Walk(commits, paths), path) == Matching(commits, path)
  {
    if |commits| > 0 {
      var n := |commits| - 1;
      var before := Walk(commits[..n], paths);
      WalkMisses(commits[..n], paths, path);
      if exists p :: p in paths && Touches(commits[n], p) {
        assert (before + [commits[n]])[..|before|] == before;
      } else {
        assert !Touches(commits[n], path);
        assert before + [] == before;
      }
    }
  }

  lemma {:induction false} MatchingGrows(commits: seq<Commit>, n: nat, path: string)
    requires n <= |commits|
    ensures Matching(commits[..n], path) <= Matching(commits, path)
    decreases |commits|
  {
    if n < |commits| {
      MatchingGrows(commits[..|commits| - 1], n, path);
      assert commits[..|commits| - 1][..n] == commits[..n];
    } else {
      assert commits[..n] == commits;
    }
  }

  method MatchingFollowed(followed: set<string>, changedPath: string) returns (r: set<string>)
    ensures forall f :: f in r <==> f in followed && Follows(f, changedPath)
  {
    r := set f | f in followed && Follows(f, changedPath);
  }

  // The followed paths a commit counts for, each once however many of its changes match.
  method Matched(c: Commit, followed: set<string>) returns (matched: set<string>)
    ensures forall f :: f in matched <==> f in followed && Touches(c, f)
  {
    matched := {};
    var rest := c.changed;
    while rest != {}
      invariant rest <= c.changed
      invariant forall f :: f in matched <==> f in followed && exists p :: p in c.changed - rest && Follows(f, p)
      decreases rest
    {
      var p :| p in rest;
      var more := MatchingFollowed(followed, p);
      assert c.changed - (rest - {p}) == (c.changed - rest) + {p};
      matched := matched + more;
      rest := rest - {p};
    }
    assert c.changed - rest == c.changed;
  }

  // A path's budget, as long as it has one left.
  ghost predicate Budgets(remaining: map<string, int>, paths: set<string>, result: map<string, seq<Commit>>,
                          limit: int) {
    && result.Keys == paths
    && (forall p :: p in remaining <==> p in paths && |result[p]| < limit)
    && (forall p <- remaining :: remaining[p] == limit - |result[p]|)
  }

  // Credits one commit to every matched path, dropping the paths whose budget is used up.
  method Credit(c: Commit, matched: set<string>, ghost paths: set<string>, limit: int,
                result0: map<string, seq<Commit>>, remaining0: map<string, int>)
    returns (result: map<string, seq<Commit>>, remaining: map<string, int>)
    requires limit > 0 && Budgets(remaining0, paths, result0, limit) && matched <= remaining0.Keys
    ensures Budgets(remaining, paths, result, limit)
    ensures forall p <- paths :: result[p] == if p in matched then result0[p] + [c] else result0[p]
  {
    result, remaining := result0, remaining0;
    var rest := matched;
    while rest != {}
      invariant rest <= matched && rest <= remaining.Keys && Budgets(remaining, paths, result, limit)
      invariant forall p <- paths :: result[p] == if p in matched - rest then result0[p] + [c] else result0[p]
      decreases rest
    {
      var p :| p in rest;
      rest := rest - {p};
      result := result[p := result[p] + [c]];
      remaining := remaining[p := remaining[p] - 1];
      if remaining[p] == 0 {
        remaining := remaining - {p};
      }
    }
  }

  // Following a path until its budget runs out is taking its first `limit` matches.
  lemma FollowedIsFirst(walked: seq<Commit>, i: nat, path: string, limit: int)
    requires i < |walked| && limit > 0
    ensures History(walked[..i + 1], path, limit)
            == History(walked[..i], path, limit)
               + if |History(walked[..i], path, limit)| < limit && Touches(walked[i], path) then [walked[i]] else []
  {
    assert walked[..i + 1][..i] == walked[..i];
  }

  lemma ExhaustedIsFinal(walked: seq<Commit>, i: nat, path: string, limit: int)
    requires i <= |walked| && limit > 0 && |History(walked[..i], path, limit)| >= limit
    ensures History(walked, path, limit) == History(walked[..i], path, limit)
  {
    MatchingGrows(walked, i, path);
  }

  ghost predicate Walked(walked: seq<Commit>, paths: set<string>, limit: int, result: map<string, seq<Commit>>) {
    result.Keys == paths && forall p <- paths :: result[p] == History(walked, p, limit)
  }

  lemma CreditIsStep(walked: seq<Commit>, i: nat, paths: set<string>, limit: int,
                     before: map<string, seq<Commit>>, matched: set<string>, after: map<string, seq<Commit>>)
    requires i < |walked| && limit > 0 && Walked(walked[..i], paths, limit, before) && after.Keys == paths
    requires forall p <- paths :: p in matched <==> |before[p]| < limit && Touches(walked[i], p)
    requires forall p <- paths :: after[p] == if p in matched then before[p] + [walked[i]] else before[p]
    ensures Walked(walked[..i + 1], paths, limit, after)
  {
    forall p | p in paths ensures after[p] == History(walked[..i + 1], p, limit) {
      FollowedIsFirst(walked, i, p, limit);
    }
  }

  // Stopping early is sound: by then every path has all it may get.
  lemma WalkIsHistory(commits: seq<Commit>, paths: set<string>, limit: int, i: nat,
                      result: map<string, seq<Commit>>, remaining: map<string, int>)
    requires limit > 0 && i <= |Walk(commits, paths)| && Walked(Walk(commits, paths)[..i], paths, limit, result)
    requires i < |Walk(commits, paths)| ==> remaining == map[]
    requires Budgets(remaining, paths, result, limit)
    ensures forall p <- paths :: result[p] == History(commits, p, limit)
  {
    var walked := Walk(commits, paths);
    forall p | p in paths ensures result[p] == History(commits, p, limit) {
      WalkMisses(commits, paths, p);
      if i < |walked| {
        assert p !in remaining;
        ExhaustedIsFinal(walked, i, p, limit);
      } else {
        assert walked[..i] == walked;
      }
    }
  }

  /** The shared walk gives each path exactly the newest `limit` commits that touch it: what an
      independent walk of that path gives, whatever the other paths are. */
  method FileHistories(commits: seq<Commit>, paths: set<string>, limit: int) returns (result: map<string, seq<Commit>>)
    ensures result.Keys == paths
    ensures forall p <- paths :: result[p] == History(commits, p, limit) && IsHistory(commits, p, limit, result[p])
  {
    HistoriesAreNewest(commits, limit);
    result := map p | p in paths :: [];
    if paths == {} || limit <= 0 {
      return;
    }
    var remaining: map<string, int> := map p | p in paths :: limit;
    var walked := Walk(commits, paths);
    var i := 0;
    while i < |walked| && |remaining| > 0
      invariant i <= |walked| && Budgets(remaining, paths, result, limit)
      invariant Walked(walked[..i], paths, limit, result)
    {
      var matched := Matched(walked[i], remaining.Keys);
      ghost var before := result;
      result, remaining := Credit(walked[i], matched, paths, limit, result, remaining);
      CreditIsStep(walked, i, paths, limit, before, matched, result);
      i := i + 1;
    }
    WalkIsHistory(commits, paths, limit, i, result, remaining);
  }

  /** The newest commit touching each path, or none. */
  method HeadShas(commits: seq<Commit>, paths: set<string>) returns (shas: map<string, Option<string>>)
    ensures shas.Keys == paths
    ensures forall p <- paths :: shas[p].Some? ==>
              exists i :: 0 <= i < |commits| && commits[i].sha == shas[p].value && Changes(commits[i], p)
                          && forall j :: 0 <= j < i ==> !Changes(commits[j], p)
    ensures forall p <- paths :: shas[p].None? ==> forall i :: 0 <= i < |commits| ==> !Changes(commits[i], p)
  {
    var histories: map<string, seq<Commit>> := FileHistories(commits, paths, 1);
    shas := map p | p in paths :: if histories[p] == [] then None else Some(histories[p][0].sha);
    forall p | p in paths
      ensures shas[p].Some? ==>
                exists i :: 0 <= i < |commits| && commits[i].sha == shas[p].value && Changes(commits[i], p)
                            && forall j :: 0 <= j < i ==> !Changes(commits[j], p)
      ensures shas[p].None? ==> forall i :: 0 <= i < |commits| ==> !Changes(commits[i], p)
    {
      FirstChange(commits, p);
    }
  }

  lemma FirstChange(commits: seq<Commit>, path: string)
    ensures Matching(commits, path) == [] ==> forall i :: 0 <= i < |commits| ==> !Changes(commits[i], path)
    ensures Matching(commits, path) != [] ==>
              exists i :: 0 <= i < |commits| && commits[i] == Matching(commits, path)[0] && Changes(commits[i], path)
                          && forall j :: 0 <= j < i ==> !Changes(commits[j], path)
  {
    FirstMatch(commits, path);
    forall c ensures Touches(c, path) <==> Changes(c, path) {
      TouchesIsChanges(c, path);
    }
  }

  lemma {:induction false} FirstMatch(commits: seq<Commit>, path: string)
    ensures Matching(commits, path) == [] ==> forall i :: 0 <= i < |commits| ==> !Touches(commits[i], path)
    ensures Matching(commits, path) != [] ==>
              exists i :: 0 <= i < |commits| && commits[i] == Matching(commits, path)[0] && Touches(commits[i], path)
                          && forall j :: 0 <= j < i ==> !Touches(commits[j], path)
  {
    if |commits| > 0 {
      var n := |commits| - 1;
      FirstMatch(commits[..n], path);
      if Matching(commits[..n], path) != [] {
        var i :| 0 <= i < n && commits[..n][i] == Matching(commits[..n], path)[0] && Touches(commits[..n][i], path)
                 && forall j :: 0 <= j < i ==> !Touches(commits[..n][j], path);
        assert commits[i] == Matching(commits, path)[0];
      } else if Touches(commits[n], path) {
        assert commits[n] == Matching(commits, path)[0];
        assert forall j :: 0 <= j < n ==> commits[..n][j] == commits[j];
      }
    }
  }
}
