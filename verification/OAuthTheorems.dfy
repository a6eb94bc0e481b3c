/** What the token protocol guarantees in every run from the empty database. */
module OAuthTheorems {
  import opened Options
  import opened OAuthStore
  import opened OAuthProtocol

  ghost predicate Reached(steps: seq<Step>, s: State) {
    LegalRun(Init(), steps) && Exec(Init(), steps) == s
  }

  lemma ReachedKeeps(steps: seq<Step>, s: State)
    requires Reached(steps, s)
    ensures Inv(s)
  {
    RunKeeps(Init(), steps);
  }

  // The live access tokens of a family, by the family they were minted in.
  ghost function LiveAccess(s: State, db: Tables, family: string): set<string> {
    set a | a in db.access && a in s.log.minted && s.log.minted[a] == family
  }

  /** Deleting a family that has a refresh row left deletes every access token ever minted in
      it, and never one of another family. It misses tokens exactly when the family's refresh
      rows are all gone while an access token is still live. */
  lemma RevocationIsComplete(steps: seq<Step>, s: State, family: string)
    requires Reached(steps, s)
    ensures var after := DeleteFamily(s.db, family);
            && FamilyTokens(after, family) == {}
            && (LiveAccess(s, after, family) == {}
                <==> FamilyTokens(s.db, family) != {} || LiveAccess(s, s.db, family) == {})
            && (forall a <- s.db.access :: a in after.access || a in LiveAccess(s, s.db, family))
            && (forall t <- s.db.refresh :: s.db.refresh[t].familyId != family ==> t in after.refresh)
  {
    ReachedKeeps(steps, s);
    var tokens := FamilyTokens(s.db, family);
    var after := DeleteFamily(s.db, family);
    forall a | a in s.db.access
      ensures a in s.log.minted && (s.log.minted[a] != family ==> a in after.access)
      ensures s.log.minted[a] == family && tokens != {} ==> a !in after.access
    {
      BackingIsExact(s, family, a);
    }
    if tokens == {} {
      assert LiveAccess(s, after, family) == LiveAccess(s, s.db, family);
    }
  }

  lemma BackingIsExact(s: State, family: string, a: string)
    requires Inv(s) && a in s.db.access
    ensures a in s.log.minted
    ensures s.log.minted[a] != family ==> !BackedBy(s.db.access[a], FamilyTokens(s.db, family))
    ensures s.log.minted[a] == family && FamilyTokens(s.db, family) != {}
      ==> BackedBy(s.db.access[a], FamilyTokens(s.db, family))
  {
    assert TaggedRow(s.log, a, s.db.access[a]);
    var r := s.db.access[a].refreshToken.value;
    if r in s.db.refresh {
      assert s.db.refresh[r].(consumedAt := None) == s.log.issued[r];
    }
    if t :| t in FamilyTokens(s.db, family) {
      assert s.db.refresh[t].(consumedAt := None) == s.log.issued[t];
    }
  }

  /** Each refresh token is rotated at most once, and a family never has two usable tokens of
      either kind, whatever the interleaving. */
  lemma SingleUse(steps: seq<Step>, s: State)
    requires Reached(steps, s)
    ensures forall i, j :: 0 <= i < j < |s.log.rotated| ==> s.log.rotated[i] != s.log.rotated[j]
    ensures forall t, u :: (&& t in s.db.refresh && u in s.db.refresh && t != u
                            && s.db.refresh[t].familyId == s.db.refresh[u].familyId)
                           ==> s.db.refresh[t].consumedAt.Some? || s.db.refresh[u].consumedAt.Some?
    ensures forall family :: |LiveAccess(s, s.db, family)| <= 1
  {
    ReachedKeeps(steps, s);
    forall family ensures |LiveAccess(s, s.db, family)| <= 1 {
      var live := LiveAccess(s, s.db, family);
      if a :| a in live {
        assert live == {a};
      }
    }
  }

  /** All refresh rows a family ever had share client, user and expiry, and none has a scope
      outside the grant that founded the family. */
  lemma OneGrantPerFamily(steps: seq<Step>, s: State, t: string, u: string)
    requires Reached(steps, s)
    requires t in s.log.issued && u in s.log.issued && s.log.issued[t].familyId == s.log.issued[u].familyId
    ensures s.log.issued[t].(scopes := [], consumedAt := None) == s.log.issued[u].(scopes := [], consumedAt := None)
    ensures s.log.issued[t].familyId in s.log.families
    ensures forall x :: x in s.log.issued[t].scopes ==> x in s.log.families[s.log.issued[t].familyId].scopes
  {
    ReachedKeeps(steps, s);
    assert FromOrigin(s.log, s.log.issued[t]) && FromOrigin(s.log, s.log.issued[u]);
  }

  /** An authorization code founds at most one family. */
  lemma OneFamilyPerCode(steps: seq<Step>, s: State, f: string, h: string)
    requires Reached(steps, s)
    requires f in s.log.families && h in s.log.families && s.log.families[f].code == s.log.families[h].code
    ensures f == h
  {
    ReachedKeeps(steps, s);
  }

  ghost predicate Dead(s: State, family: string) {
    family in s.log.families && FamilyTokens(s.db, family) == {}
  }

  lemma RotationElsewhere(s: State, held: Seen, scopes: seq<string>, ids: Ids, now: int, family: string)
    requires Dead(s, family) && ids.access !in s.log.minted
    requires Claimable(s.db, held.token, now) && held.row.userId.Some?
    requires s.db.refresh[held.token].familyId == held.row.familyId
    ensures var s' := ApplyExchange(s, held, scopes, ids, now);
            && Dead(s', family) && LiveAccess(s', s'.db, family) <= LiveAccess(s, s.db, family)
  {
    var s' := ApplyExchange(s, held, scopes, ids, now);
    assert held.token !in FamilyTokens(s.db, family);
    assert forall t <- s'.db.refresh ::
        (t == ids.refresh && s'.db.refresh[t].familyId == held.row.familyId)
        || (t in s.db.refresh && s'.db.refresh[t].familyId == s.db.refresh[t].familyId);
  }

  lemma ExchangeKeepsDead(s: State, held: Seen, scopes: seq<string>, ids: Ids, now: int, family: string)
    requires Inv(s) && Legal(s, Exchange(held, scopes, ids, now)) && Dead(s, family)
    ensures var s' := ApplyExchange(s, held, scopes, ids, now);
            && Dead(s', family) && LiveAccess(s', s'.db, family) <= LiveAccess(s, s.db, family)
  {
    if held.token in s.db.refresh && Claimable(s.db, held.token, now) && held.row.userId.Some? {
      assert s.db.refresh[held.token].(consumedAt := None) == held.row;
      RotationElsewhere(s, held, scopes, ids, now, family);
    } else {
      FailedExchange(s, held, scopes, ids, now);
    }
  }

  // An exchange that does not rotate deletes the token's family or changes nothing.
  lemma FailedExchange(s: State, held: Seen, scopes: seq<string>, ids: Ids, now: int)
    requires !Claimable(s.db, held.token, now) || held.row.userId.None?
    ensures var s' := ApplyExchange(s, held, scopes, ids, now);
            && s'.log == s.log
            && (s'.db == s.db || (held.token in s.db.refresh
               && s'.db == DeleteFamily(s.db, s.db.refresh[held.token].familyId)))
  {
  }

  lemma IssueKeepsDead(s: State, g: SeenCode, f: string, ids: Ids, now: int, family: string)
    requires Legal(s, Issue(g, f, ids, now)) && Dead(s, family)
    ensures var s' := ApplyIssue(s, g, f, ids, now);
            && Dead(s', family) && LiveAccess(s', s'.db, family) <= LiveAccess(s, s.db, family)
  {
    var s' := ApplyIssue(s, g, f, ids, now);
    assert forall t <- s'.db.refresh :: t == ids.refresh || (t in s.db.refresh && s'.db.refresh[t] == s.db.refresh[t]);
    assert s'.db.refresh != s.db.refresh ==> s'.db.refresh[ids.refresh].familyId == f;
  }

  // No step but these two inserts a token.
  lemma OthersOnlyDelete(s: State, step: Step)
    requires !step.Exchange? && !step.Issue?
    ensures var s' := Apply(s, step);
            && s'.log.minted == s.log.minted && s'.log.families == s.log.families
            && (forall t <- s'.db.refresh :: t in s.db.refresh && s'.db.refresh[t] == s.db.refresh[t])
            && (forall a <- s'.db.access :: a in s.db.access && s'.db.access[a] == s.db.access[a])
  {
  }

  // ---------- how long an access token can outlive its family ----------

  ghost predicate BoundedRow(log: Log, a: string, row: AccessRow) {
    && a in log.minted && log.minted[a] in log.families && row.expiresAt.Some?
    && row.expiresAt.value <= log.families[log.minted[a]].expiresAt + ACCESS_TOKEN_EXPIRY_SECONDS
  }

  ghost predicate Bounded(s: State) {
    forall a <- s.db.access :: BoundedRow(s.log, a, s.db.access[a])
  }

  // A rotation happens before the family expires, so its access token ends an hour after at most.
  lemma RotationIsBounded(s: State, held: Seen, scopes: seq<string>, ids: Ids, now: int)
    requires Inv(s) && Legal(s, Exchange(held, scopes, ids, now)) && held.row.userId.Some?
    requires Claimable(s.db, held.token, now)
    ensures var pair := SuccessorPair(held, scopes, ids, now);
            && pair.familyId in s.log.families
            && pair.accessExpiresAt <= s.log.families[pair.familyId].expiresAt + ACCESS_TOKEN_EXPIRY_SECONDS
  {
    assert s.db.refresh[held.token].(consumedAt := None) == s.log.issued[held.token];
    assert FromOrigin(s.log, s.log.issued[held.token]);
  }

  lemma InsertKeepsBounded(db: Tables, log: Log, pair: TokenPair)
    requires forall a <- db.access :: BoundedRow(log, a, db.access[a])
    requires pair.accessToken !in log.minted && pair.familyId in log.families
    requires pair.accessExpiresAt <= log.families[pair.familyId].expiresAt + ACCESS_TOKEN_EXPIRY_SECONDS
    ensures forall a <- Insert(db, pair).access :: BoundedRow(Record(log, pair), a, Insert(db, pair).access[a])
  {
  }

  lemma ExchangeKeepsBounded(s: State, held: Seen, scopes: seq<string>, ids: Ids, now: int)
    requires Inv(s) && Legal(s, Exchange(held, scopes, ids, now)) && Bounded(s)
    ensures Bounded(ApplyExchange(s, held, scopes, ids, now))
  {
    if held.row.userId.Some? && Claimable(s.db, held.token, now) {
      RotationIsBounded(s, held, scopes, ids, now);
      InsertKeepsBounded(Consume(s.db, held.token, now), s.log, SuccessorPair(held, scopes, ids, now));
    }
  }

  lemma IssueKeepsBounded(s: State, g: SeenCode, family: string, ids: Ids, now: int)
    requires Legal(s, Issue(g, family, ids, now)) && Bounded(s)
    ensures Bounded(ApplyIssue(s, g, family, ids, now))
  {
    if g.row.userId.Some? {
      var pair := IssuedPair(g, family, ids, now);
      var origin := Origin(g.code, pair.clientId, pair.userId, pair.scopes, pair.refreshExpiresAt);
      InsertKeepsBounded(s.db, s.log.(families := s.log.families[family := origin]), pair);
    }
  }

  lemma StepKeepsBounded(s: State, step: Step)
    requires Inv(s) && Legal(s, step) && Bounded(s)
    ensures Bounded(Apply(s, step))
  {
    if step.Exchange? {
      ExchangeKeepsBounded(s, step.held, step.scopes, step.ids, step.now);
    } else if step.Issue? {
      IssueKeepsBounded(s, step.grant, step.family, step.ids, step.now);
    } else {
      OthersOnlyDelete(s, step);
    }
  }

  lemma {:induction false} RunKeepsBounded(s: State, steps: seq<Step>)
    requires Inv(s) && LegalRun(s, steps) && Bounded(s)
    ensures Bounded(Exec(s, steps))
    decreases |steps|
  {
    if |steps| > 0 {
      StepKeepsTokens(s, steps[0]);
      StepKeepsHeld(s, steps[0]);
      StepKeepsCodes(s, steps[0]);
      StepKeepsBounded(s, steps[0]);
      RunKeepsBounded(Apply(s, steps[0]), steps[1..]);
    }
  }

  /** In every run an access token ends at most an access lifetime after its family does, so a sweep
      that late leaves the family no access token. */
  lemma GapIsBounded(steps: seq<Step>, s: State, family: string, now: int)
    requires Reached(steps, s) && family in s.log.families
    ensures forall a <- LiveAccess(s, s.db, family) ::
              && s.db.access[a].expiresAt.Some?
              && s.db.access[a].expiresAt.value <= s.log.families[family].expiresAt + ACCESS_TOKEN_EXPIRY_SECONDS
    ensures now >= s.log.families[family].expiresAt + ACCESS_TOKEN_EXPIRY_SECONDS
            ==> LiveAccess(s, Sweep(s.db, now), family) == {}
  {
    RunKeepsBounded(Init(), steps);
    forall a | a in LiveAccess(s, s.db, family) ensures BoundedRow(s.log, a, s.db.access[a]) {
    }
  }

  lemma StepKeepsDead(s: State, step: Step, family: string)
    requires Inv(s) && Legal(s, step) && Dead(s, family)
    ensures Dead(Apply(s, step), family)
    ensures LiveAccess(Apply(s, step), Apply(s, step).db, family) <= LiveAccess(s, s.db, family)
  {
    if step.Exchange? {
      ExchangeKeepsDead(s, step.held, step.scopes, step.ids, step.now, family);
    } else if step.Issue? {
      IssueKeepsDead(s, step.grant, step.family, step.ids, step.now, family);
    } else {
      OthersOnlyDelete(s, step);
    }
  }

  /** A family once deleted never gains a refresh row or an access token again, not even from
      an exchange that had loaded one of its tokens before. */
  lemma {:induction false} DeletedStaysDeleted(steps: seq<Step>, s: State, more: seq<Step>, family: string)
    requires Reached(steps, s) && LegalRun(s, more) && Dead(s, family)
    ensures FamilyTokens(Exec(s, more).db, family) == {}
    ensures LiveAccess(Exec(s, more), Exec(s, more).db, family) <= LiveAccess(s, s.db, family)
  {
    ReachedKeeps(steps, s);
    DeadForever(s, more, family);
  }

  lemma {:induction false} DeadForever(s: State, more: seq<Step>, family: string)
    requires Inv(s) && LegalRun(s, more) && Dead(s, family)
    ensures Dead(Exec(s, more), family)
    ensures LiveAccess(Exec(s, more), Exec(s, more).db, family) <= LiveAccess(s, s.db, family)
    decreases |more|
  {
    if |more| > 0 {
      StepKeepsTokens(s, more[0]);
      StepKeepsHeld(s, more[0]);
      StepKeepsCodes(s, more[0]);
      StepKeepsDead(s, more[0], family);
      DeadForever(Apply(s, more[0]), more[1..], family);
    }
  }

  // What the second phase does with a token that was already rotated.
  lemma ReplayDeletes(s: State, held: Seen, scopes: seq<string>, ids: Ids, now: int)
    requires Inv(s) && held in s.loaded && held.token in s.log.rotated
    requires SubsetOf(scopes, held.row.scopes) && held.row.userId.Some?
    ensures var s' := ApplyExchange(s, held, scopes, ids, now);
            s'.log == s.log && s'.db == if held.token in s.db.refresh then DeleteFamily(s.db, held.row.familyId)
            else s.db
  {
    if held.token in s.db.refresh {
      assert s.db.refresh[held.token].(consumedAt := None) == s.log.issued[held.token];
    }
  }

  // The rows of a family are there all or none.
  lemma GoneTogether(s: State, held: Seen)
    requires Inv(s) && held in s.loaded && held.token !in s.db.refresh
    ensures FamilyTokens(s.db, held.row.familyId) == {}
  {
    forall t | t in s.db.refresh ensures s.db.refresh[t].familyId != held.row.familyId {
      assert s.db.refresh[t].(consumedAt := None) == s.log.issued[t];
    }
  }

  /** Presenting a token that was already rotated ends its family: by the next transaction no
      refresh row of it is left, nor any access token if the replayed row was still stored. */
  lemma ReplayRevokes(steps: seq<Step>, s: State, held: Seen, scopes: seq<string>, ids: Ids, now: int)
    requires Reached(steps, s) && Legal(s, Exchange(held, scopes, ids, now))
    requires SubsetOf(scopes, held.row.scopes) && held.row.userId.Some? && held.token in s.log.rotated
    ensures var s' := Apply(s, Exchange(held, scopes, ids, now));
            && FamilyTokens(s'.db, held.row.familyId) == {}
            && (held.token in s.db.refresh ==> LiveAccess(s', s'.db, held.row.familyId) == {})
            && s'.log == s.log
  {
    ReachedKeeps(steps, s);
    ReplayDeletes(s, held, scopes, ids, now);
    if held.token in s.db.refresh {
      assert s.db.refresh[held.token].(consumedAt := None) == s.log.issued[held.token];
      assert held.token in FamilyTokens(s.db, held.row.familyId);
      RevocationIsComplete(steps, s, held.row.familyId);
    } else {
      GoneTogether(s, held);
    }
  }

  /** A replay is caught while loading already: a rotated token is read as a consumed row, and
      finishing the load of such a row, whatever happened since the read, deletes its family and
      hands nothing on to an exchange. */
  lemma LoadedReplayRevokes(steps: seq<Step>, s: State, seen: Seen, now: int)
    requires Reached(steps, s) && Legal(s, FinishLoad(seen, now)) && seen.row.consumedAt.Some?
    ensures var s' := Apply(s, FinishLoad(seen, now));
            && FamilyTokens(s'.db, seen.row.familyId) == {} && s'.loaded == s.loaded
            && (LiveAccess(s', s'.db, seen.row.familyId) == {}
                <==> FamilyTokens(s.db, seen.row.familyId) != {} || LiveAccess(s, s.db, seen.row.familyId) == {})
  {
    ReachedKeeps(steps, s);
    assert FromOrigin(s.log, s.log.issued[seen.token]);
    RevocationIsComplete(steps, s, seen.row.familyId);
  }

  lemma RotatedIsReadConsumed(steps: seq<Step>, s: State, token: string)
    requires Reached(steps, s) && token in s.log.rotated && token in s.db.refresh
    ensures s.db.refresh[token].consumedAt.Some?
    ensures Seen(token, s.db.refresh[token]) in Apply(s, ReadRefresh(token, s.db.refresh[token].clientId)).rowsRead
  {
    ReachedKeeps(steps, s);
  }

  // The states of a run that founds a family and loads its first token.
  const CODE_ROW := CodeRow("client", Some("user"), [], 600.0)
  const LAST := REFRESH_TOKEN_EXPIRY_SECONDS
  const FIRST_ROW := RefreshRow("client", Some("user"), [], Some(LAST), "fam", None)
  const FOUNDING: seq<Step> := [
    Authorize("code", CODE_ROW), ReadCode("code", "client", 0.0), Redeem(SeenCode("code", CODE_ROW)),
    Issue(SeenCode("code", CODE_ROW), "fam", Ids("at1", "rt1"), 0), ReadRefresh("rt1", "client"),
        FinishLoad(Seen("rt1", FIRST_ROW), 0)]

  // The state after the family is founded.
  function Founded(): State {
    Apply(Apply(Apply(Apply(Init(), FOUNDING[0]), FOUNDING[1]), FOUNDING[2]), FOUNDING[3])
  }

  lemma FoundedFacts()
    ensures Legal(Init(), FOUNDING[0]) && Legal(Apply(Init(), FOUNDING[0]), FOUNDING[1])
    ensures Legal(Apply(Apply(Init(), FOUNDING[0]), FOUNDING[1]), FOUNDING[2])
    ensures Legal(Apply(Apply(Apply(Init(), FOUNDING[0]), FOUNDING[1]), FOUNDING[2]), FOUNDING[3])
    ensures var s := Founded();
            && s.db.refresh == map["rt1" := FIRST_ROW] && s.db.access.Keys == {"at1"} && s.log.families.Keys == {"fam"}
            && s.log.issued.Keys == {"rt1"} && s.log.minted == map["at1" := "fam"] && s.rowsRead == {} && s.loaded == {}
            && s.db.access["at1"].refreshToken == Some("rt1")
  {
    var s1 := Apply(Init(), FOUNDING[0]);
    var s2 := Apply(s1, FOUNDING[1]);
    var s3 := Apply(s2, FOUNDING[2]);
    assert s3.grants == {SeenCode("code", CODE_ROW)} && s3.db == Tables(map[], map[], map[]);
  }

  lemma LoadedFacts(s: State, s': State)
    requires s.db.refresh == map["rt1" := FIRST_ROW] && s.rowsRead == {} && s.loaded == {}
    requires s' == Apply(Apply(s, FOUNDING[4]), FOUNDING[5])
    ensures Legal(s, FOUNDING[4]) && Legal(Apply(s, FOUNDING[4]), FOUNDING[5])
    ensures s'.db == s.db && s'.log == s.log && s'.loaded == {Seen("rt1", FIRST_ROW)}
  {
    assert Apply(s, FOUNDING[4]).rowsRead == {Seen("rt1", FIRST_ROW)};
  }

  lemma {:induction false} ExecLegal(s: State, step: Step, rest: seq<Step>)
    requires Legal(s, step)
    ensures Exec(s, [step] + rest) == Exec(Apply(s, step), rest)
    ensures LegalRun(s, [step] + rest) <==> LegalRun(Apply(s, step), rest)
  {
    assert ([step] + rest)[1..] == rest;
  }

  lemma FoundingRun(s: State, k: nat)
    requires k < 6 && Legal(s, FOUNDING[k])
    ensures Exec(s, FOUNDING[k..]) == Exec(Apply(s, FOUNDING[k]), FOUNDING[k + 1..])
    ensures LegalRun(s, FOUNDING[k..]) <==> LegalRun(Apply(s, FOUNDING[k]), FOUNDING[k + 1..])
  {
    ExecLegal(s, FOUNDING[k], FOUNDING[k + 1..]);
    assert FOUNDING[k..] == [FOUNDING[k]] + FOUNDING[k + 1..];
  }

  lemma Founding(s: State)
    requires s == Exec(Init(), FOUNDING)
    ensures LegalRun(Init(), FOUNDING)
    ensures s.db.refresh == map["rt1" := FIRST_ROW] && s.db.access.Keys == {"at1"} && s.log.families.Keys == {"fam"}
    ensures s.log.issued.Keys == {"rt1"} && s.log.minted == map["at1" := "fam"] && s.loaded == {Seen("rt1", FIRST_ROW)}
    ensures s.db.access["at1"].refreshToken == Some("rt1")
  {
    FoundedFacts();
    var s1 := Apply(Init(), FOUNDING[0]);
    var s2 := Apply(s1, FOUNDING[1]);
    var s3 := Apply(s2, FOUNDING[2]);
    var s4 := Founded();
    var s5 := Apply(s4, FOUNDING[4]);
    LoadedFacts(s4, Apply(s5, FOUNDING[5]));
    assert FOUNDING[0..] == FOUNDING && FOUNDING[6..] == [];
    FoundingRun(Init(), 0);
    FoundingRun(s1, 1);
    FoundingRun(s2, 2);
    FoundingRun(s3, 3);
    FoundingRun(s4, 4);
    FoundingRun(s5, 5);
  }

  lemma LastSecondRotation(s: State, s': State)
    requires s.db.refresh == map["rt1" := FIRST_ROW] && s.db.access.Keys == {"at1"}
    requires s' == ApplyExchange(s, Seen("rt1", FIRST_ROW), [], Ids("at2", "rt2"), LAST)
    ensures forall t <- s'.db.refresh :: s'.db.refresh[t].expiresAt == Some(LAST)
    ensures "at2" in s'.db.access && s'.db.access["at2"].expiresAt == Some(LAST + ACCESS_TOKEN_EXPIRY_SECONDS)
    ensures "at2" in s'.log.minted && s'.log.minted["at2"] == "fam"
  {
    var pair := SuccessorPair(Seen("rt1", FIRST_ROW), [], Ids("at2", "rt2"), LAST);
    assert Claimable(s.db, "rt1", LAST);
    var c := Consume(s.db, "rt1", LAST);
    assert "rt2" !in c.refresh && "at2" !in c.access;
    assert s'.db == Insert(c, pair);
  }

  /** The gap is real: rotate in the last second a family is valid, then sweep. The new access
      token outlives the family's refresh rows, and revoking the family leaves it live. */
  lemma AccessTokenCanOutliveItsFamily(s: State, s': State, s'': State)
    requires s == Exec(Init(), FOUNDING)
    requires s' == Apply(s, Exchange(Seen("rt1", FIRST_ROW), [], Ids("at2", "rt2"), LAST))
    requires s'' == Apply(s', SweepExpired(LAST))
    ensures LegalRun(Init(), FOUNDING) && Legal(s, Exchange(Seen("rt1", FIRST_ROW), [], Ids("at2", "rt2"), LAST))
    ensures FamilyTokens(s''.db, "fam") == {}
    ensures "at2" in LiveAccess(s'', DeleteFamily(s''.db, "fam"), "fam")
  {
    assert LegalRun(Init(), FOUNDING) && Legal(s, Exchange(Seen("rt1", FIRST_ROW), [], Ids("at2", "rt2"), LAST)) by {
      Founding(s);
    }
    assert s.db.refresh == map["rt1" := FIRST_ROW] && s.db.access.Keys == {"at1"} by {
      Founding(s);
    }
    LastSecondRotation(s, s');
    assert s''.db.refresh == map[];
  }
}
