/** What each step of the token protocol achieves, in every state a run can reach. */
module OAuthOutcomes {
  import opened Options
  import opened OAuthStore
  import opened OAuthProtocol
  import opened OAuthTheorems

  // The family a stored refresh token was issued in, and a live access token was minted in.
  lemma RowsKnown(steps: seq<Step>, s: State)
    requires Reached(steps, s)
    ensures forall t <- s.db.refresh :: KnownRefresh(s, t)
    ensures forall a <- s.db.access :: KnownAccess(s, a)
  {
    ReachedKeeps(steps, s);
    forall t | t in s.db.refresh ensures KnownRefresh(s, t) {
      assert FromOrigin(s.log, s.log.issued[t]) && s.db.refresh[t].(consumedAt := None) == s.log.issued[t];
    }
    forall a | a in s.db.access ensures KnownAccess(s, a) {
      assert TaggedRow(s.log, a, s.db.access[a]);
      assert FromOrigin(s.log, s.log.issued[s.db.access[a].refreshToken.value]);
    }
  }

  ghost predicate KnownRefresh(s: State, t: string)
    requires t in s.db.refresh
  {
    && s.db.refresh[t].familyId in s.log.families
    && s.db.refresh[t].userId == Some(s.log.families[s.db.refresh[t].familyId].userId)
    && s.db.refresh[t].expiresAt == Some(s.log.families[s.db.refresh[t].familyId].expiresAt)
  }

  ghost predicate KnownAccess(s: State, a: string)
    requires a in s.db.access
  {
    && a in s.log.minted && s.log.minted[a] in s.log.families
    && s.db.access[a].userId == Some(s.log.families[s.log.minted[a]].userId)
  }

  // ---------- revocation ----------

  // Nothing is left of the family, and nothing of another family is touched.
  ghost predicate Ended(s: State, after: Tables, family: string) {
    && (forall t :: t in after.refresh <==> t in s.db.refresh && s.db.refresh[t].familyId != family)
    && (forall t <- after.refresh :: after.refresh[t] == s.db.refresh[t])
    && (forall a :: a in after.access <==> a in s.db.access && a in s.log.minted && s.log.minted[a] != family)
    && (forall a <- after.access :: after.access[a] == s.db.access[a])
    && after.codes == s.db.codes
  }

  ghost predicate HasRefresh(s: State, family: string) {
    exists t :: t in s.db.refresh && s.db.refresh[t].familyId == family
  }

  lemma FamilyEnds(steps: seq<Step>, s: State, family: string)
    requires Reached(steps, s) && HasRefresh(s, family)
    ensures Ended(s, DeleteFamily(s.db, family), family)
  {
    ReachedKeeps(steps, s);
    var t :| t in s.db.refresh && s.db.refresh[t].familyId == family;
    assert t in FamilyTokens(s.db, family);
    forall a | a in s.db.access ensures a in DeleteFamily(s.db, family).access <==> s.log.minted[a] != family {
      BackingIsExact(s, family, a);
    }
  }

  // A live access token points at a refresh row of its family, which is stored while any is.
  lemma BackingRow(steps: seq<Step>, s: State, a: string) returns (r: string)
    requires Reached(steps, s) && a in s.db.access
    ensures a in s.log.minted && s.db.access[a].refreshToken == Some(r)
    ensures r in s.db.refresh ==> s.db.refresh[r].familyId == s.log.minted[a]
    ensures r in s.db.refresh <==> HasRefresh(s, s.log.minted[a])
  {
    ReachedKeeps(steps, s);
    assert TaggedRow(s.log, a, s.db.access[a]);
    r := s.db.access[a].refreshToken.value;
    if r in s.db.refresh {
      assert s.db.refresh[r].(consumedAt := None) == s.log.issued[r];
    }
    forall t | t in s.db.refresh && s.db.refresh[t].familyId == s.log.minted[a] ensures r in s.db.refresh {
      assert s.db.refresh[t].(consumedAt := None) == s.log.issued[t];
    }
  }

  /** Revoking an access token ends its whole family while the family has a refresh row: no refresh
      token and no access token of it is left. Without one, exactly that access token goes. */
  lemma AccessRevocationIsComplete(steps: seq<Step>, s: State, a: string)
    requires Reached(steps, s) && a in s.db.access
    ensures a in s.log.minted && Apply(s, RevokeAccess(a)).log == s.log && a !in Apply(s, RevokeAccess(a)).db.access
    ensures HasRefresh(s, s.log.minted[a]) ==> Ended(s, Apply(s, RevokeAccess(a)).db, s.log.minted[a])
    ensures !HasRefresh(s, s.log.minted[a]) ==>
              Apply(s, RevokeAccess(a)).db == s.db.(access := map b | b in s.db.access && b != a :: s.db.access[b])
  {
    var r := BackingRow(steps, s, a);
    if HasRefresh(s, s.log.minted[a]) {
      FamilyEnds(steps, s, s.log.minted[a]);
    }
  }

  /** Revoking a stored refresh token, consumed or not, ends its whole family. */
  lemma RefreshRevocationIsComplete(steps: seq<Step>, s: State, token: string)
    requires Reached(steps, s)
    ensures var s' := Apply(s, RevokeRefresh(token));
            && s'.log == s.log
            && (if token in s.db.refresh then Ended(s, s'.db, s.db.refresh[token].familyId) else s'.db == s.db)
  {
    if token in s.db.refresh {
      FamilyEnds(steps, s, s.db.refresh[token].familyId);
    }
  }

  ghost predicate FoundedBy(s: State, family: string, user: string) {
    family in s.log.families && s.log.families[family].userId == user
  }

  // The family was founded, and its refresh tokens have ended by now.
  ghost predicate Over(s: State, family: string, now: int) {
    family in s.log.families && s.log.families[family].expiresAt <= now
  }

  ghost predicate MintedFor(s: State, a: string, user: string) {
    a in s.log.minted && FoundedBy(s, s.log.minted[a], user)
  }

  /** Forgetting a user deletes every token of the families that user founded, and the user's
      unredeemed codes, and nothing of anyone else. */
  lemma UserIsForgotten(steps: seq<Step>, s: State, user: string)
    requires Reached(steps, s)
    ensures Apply(s, ForgetUser(user)).log == s.log
    ensures var after := Apply(s, ForgetUser(user)).db;
            && (forall t :: t in after.refresh <==>
                  t in s.db.refresh && !FoundedBy(s, s.db.refresh[t].familyId, user))
            && (forall a :: a in after.access <==> a in s.db.access && !MintedFor(s, a, user))
            && (forall c :: c in after.codes <==> c in s.db.codes && s.db.codes[c].userId != Some(user))
            && (forall t <- after.refresh :: after.refresh[t] == s.db.refresh[t])
            && (forall a <- after.access :: after.access[a] == s.db.access[a])
            && (forall c <- after.codes :: after.codes[c] == s.db.codes[c])
  {
    RowsKnown(steps, s);
  }

  /** A sweep deletes the refresh rows of exactly the families that have ended by now, and exactly
      the access tokens and codes that have; what it spares it leaves alone. */
  lemma SweepIsExact(steps: seq<Step>, s: State, now: int)
    requires Reached(steps, s)
    ensures var after := Apply(s, SweepExpired(now)).db;
            && (forall t :: t in after.refresh <==>
                  t in s.db.refresh && !Over(s, s.db.refresh[t].familyId, now))
            && (forall a :: a in after.access <==>
                  a in s.db.access && (s.db.access[a].expiresAt.Some? ==> now < s.db.access[a].expiresAt.value))
            && (forall c :: c in after.codes <==> c in s.db.codes && now as real < s.db.codes[c].expiresAt)
            && (forall t <- after.refresh :: after.refresh[t] == s.db.refresh[t])
            && (forall a <- after.access :: after.access[a] == s.db.access[a])
            && (forall c <- after.codes :: after.codes[c] == s.db.codes[c])
  {
    RowsKnown(steps, s);
  }

  // ---------- issuing and rotating ----------

  /** A grant for a user becomes a family of one refresh and one access token, with the grant's
      client, user and scopes, thirty days and one hour to live. */
  lemma IssueSucceeds(steps: seq<Step>, s: State, g: SeenCode, family: string, ids: Ids, now: int)
    requires Reached(steps, s) && Legal(s, Issue(g, family, ids, now)) && g.row.userId.Some?
    ensures var s', row := Apply(s, Issue(g, family, ids, now)), g.row;
            && s'.db.refresh == s.db.refresh[
                 ids.refresh := RefreshRow(row.clientId, row.userId, row.scopes, Some(now + 2592000), family, None)]
            && s'.db.access == s.db.access[
                 ids.access := AccessRow(row.clientId, row.userId, row.scopes, Some(now + 3600), Some(ids.refresh))]
            && s'.db.codes == s.db.codes && s'.grants == s.grants - {g}
  {
    NewPairFits(steps, s, ids);
    assert 30 * 24 * 3600 == 2592000;
  }

  // Fresh tokens are not stored yet.
  lemma NewPairFits(steps: seq<Step>, s: State, ids: Ids)
    requires Reached(steps, s) && FreshIds(s, ids)
    ensures ids.access !in s.db.access && ids.refresh !in s.db.refresh
  {
    ReachedKeeps(steps, s);
    RowsKnown(steps, s);
    assert forall a <- s.db.access :: a in s.log.minted by {
      assert forall a <- s.db.access :: KnownAccess(s, a);
    }
  }

  // What a refresh token may still do: it is stored, not used up, and its family has not ended.
  ghost predicate Usable(s: State, held: Seen, now: int) {
    && held.token in s.db.refresh && s.db.refresh[held.token].consumedAt.None?
    && held.row.familyId in s.log.families && now <= s.log.families[held.row.familyId].expiresAt
  }

  lemma HeldIsKnown(steps: seq<Step>, s: State, held: Seen)
    requires Reached(steps, s) && held in s.loaded
    ensures held.row.familyId in s.log.families
    ensures var o := s.log.families[held.row.familyId];
            held.row.clientId == o.clientId && held.row.userId == Some(o.userId)
            && held.row.expiresAt == Some(o.expiresAt)
    ensures held.token in s.db.refresh ==> s.db.refresh[held.token].(consumedAt := None) == held.row
  {
    ReachedKeeps(steps, s);
    assert FromOrigin(s.log, s.log.issued[held.token]);
  }

  /** An exchange rotates exactly when the scopes asked for were granted and the token is usable. */
  lemma ExchangeRotatesExactly(steps: seq<Step>, s: State, held: Seen, scopes: seq<string>, ids: Ids, now: int)
    requires Reached(steps, s) && Legal(s, Exchange(held, scopes, ids, now))
    ensures var s' := Apply(s, Exchange(held, scopes, ids, now));
            var asked := forall x :: x in scopes ==> x in held.row.scopes;
            && (asked && Usable(s, held, now) ==> Successor(s, s', held, scopes, ids, now))
            && (!(asked && Usable(s, held, now)) ==> s'.log == s.log)
            && (!asked ==> s' == s)
            && (asked && !Usable(s, held, now) ==>
                  if held.token in s.db.refresh then Ended(s, s'.db, held.row.familyId) else s'.db == s.db)
  {
    ReachedKeeps(steps, s);
    HeldIsKnown(steps, s, held);
    if SubsetOf(scopes, held.row.scopes) {
      if Usable(s, held, now) {
        ExchangeRotates(steps, s, held, scopes, ids, now);
      } else {
        ExchangeFails(steps, s, held, scopes, ids, now);
      }
    }
  }

  /** What a rotation answers: missing, for a token that is not stored; reused, for one that was rotated
      before; expired, for an unused one whose family is over; and rotated for any other. */
  lemma AnswerIsExact(steps: seq<Step>, s: State, held: Seen, scopes: seq<string>, ids: Ids, now: int)
    requires Reached(steps, s) && Legal(s, Exchange(held, scopes, ids, now))
    ensures held.row.userId.Some? && held.row.familyId in s.log.families
    ensures var answer := RotatePair(s.db, held.token, SuccessorPair(held, scopes, ids, now), now);
            && answer.Committed?
            && (answer.outcome.Missing? <==> held.token !in s.db.refresh)
            && (answer.outcome.Reused? <==> held.token in s.db.refresh && s.db.refresh[held.token].consumedAt.Some?)
            && (answer.outcome.Expired? <==>
                  held.token in s.db.refresh && s.db.refresh[held.token].consumedAt.None?
                  && s.log.families[held.row.familyId].expiresAt < now)
            && (answer.outcome.Rotated? <==> Usable(s, held, now))
  {
    HeldIsKnown(steps, s, held);
    NewPairFits(steps, s, ids);
    if Usable(s, held, now) {
      assert CanInsert(Consume(s.db, held.token, now), SuccessorPair(held, scopes, ids, now));
    }
  }

  lemma ExchangeFails(steps: seq<Step>, s: State, held: Seen, scopes: seq<string>, ids: Ids, now: int)
    requires Reached(steps, s) && Legal(s, Exchange(held, scopes, ids, now)) && SubsetOf(scopes, held.row.scopes)
    requires !Usable(s, held, now)
    ensures var s' := Apply(s, Exchange(held, scopes, ids, now));
            && s'.log == s.log
            && (if held.token in s.db.refresh then Ended(s, s'.db, held.row.familyId) else s'.db == s.db)
  {
    HeldIsKnown(steps, s, held);
    FailedExchange(s, held, scopes, ids, now);
    if held.token in s.db.refresh {
      FamilyEnds(steps, s, held.row.familyId);
    }
  }

  // The token is used up and replaced by one of the same client, user, family and end.
  ghost predicate RefreshReplaced(s: State, after: Tables, held: Seen, scopes: seq<string>, ids: Ids, now: int) {
    && held.row.familyId in s.log.families && held.token in s.db.refresh
    && var o := s.log.families[held.row.familyId];
    && after.refresh == s.db.refresh
         [held.token := s.db.refresh[held.token].(consumedAt := Some(now))]
         [ids.refresh := RefreshRow(o.clientId, Some(o.userId), scopes, Some(o.expiresAt), held.row.familyId, None)]
  }

  // One new access token is the only one of the family, and those of others are untouched.
  ghost predicate AccessReplaced(s: State, after: Tables, held: Seen, scopes: seq<string>, ids: Ids, now: int) {
    && held.row.familyId in s.log.families && ids.access in after.access
    && var o := s.log.families[held.row.familyId];
    && after.access[ids.access] == AccessRow(o.clientId, Some(o.userId), scopes, Some(now + 3600), Some(ids.refresh))
    && (forall a :: a in after.access && a != ids.access <==>
          a in s.db.access && a in s.log.minted && s.log.minted[a] != held.row.familyId)
    && (forall a <- after.access :: a != ids.access ==> after.access[a] == s.db.access[a])
  }

  ghost predicate Successor(s: State, s': State, held: Seen, scopes: seq<string>, ids: Ids, now: int) {
    && RefreshReplaced(s, s'.db, held, scopes, ids, now) && AccessReplaced(s, s'.db, held, scopes, ids, now)
    && s'.db.codes == s.db.codes && s'.log.rotated == s.log.rotated + [held.token]
  }

  // The tables after a rotation.
  lemma RotationTables(steps: seq<Step>, s: State, held: Seen, scopes: seq<string>, ids: Ids, now: int)
    requires Reached(steps, s) && Legal(s, Exchange(held, scopes, ids, now)) && SubsetOf(scopes, held.row.scopes)
    requires Usable(s, held, now)
    ensures held.row.userId.Some?
    ensures var s' := Apply(s, Exchange(held, scopes, ids, now));
            && s'.db == Insert(Consume(s.db, held.token, now), SuccessorPair(held, scopes, ids, now))
            && s'.log.rotated == s.log.rotated + [held.token]
  {
    ReachedKeeps(steps, s);
    HeldIsKnown(steps, s, held);
    assert Claimable(s.db, held.token, now);
    RotationGrows(s, held, scopes, ids, now);
  }

  lemma RotationReplacesAccess(steps: seq<Step>, s: State, held: Seen, scopes: seq<string>, ids: Ids, now: int)
    requires Reached(steps, s) && held in s.loaded && FreshIds(s, ids) && held.row.userId.Some? && Usable(s, held, now)
    ensures AccessReplaced(s, Insert(Consume(s.db, held.token, now), SuccessorPair(held, scopes, ids, now)),
                           held, scopes, ids, now)
  {
    ReachedKeeps(steps, s);
    HeldIsKnown(steps, s, held);
    NewPairFits(steps, s, ids);
    assert Claimable(s.db, held.token, now);
    NoAccessLeft(s.db, s.log, held.token, now);
    ConsumeSparesOthers(s, held.token, now);
  }

  lemma RotationReplacesRefresh(steps: seq<Step>, s: State, held: Seen, scopes: seq<string>, ids: Ids, now: int)
    requires Reached(steps, s) && held in s.loaded && held.row.userId.Some? && Usable(s, held, now)
    ensures RefreshReplaced(s, Insert(Consume(s.db, held.token, now), SuccessorPair(held, scopes, ids, now)),
                            held, scopes, ids, now)
  {
    ReachedKeeps(steps, s);
    HeldIsKnown(steps, s, held);
    assert FromOrigin(s.log, s.log.issued[held.token]);
  }

  lemma ExchangeRotates(steps: seq<Step>, s: State, held: Seen, scopes: seq<string>, ids: Ids, now: int)
    requires Reached(steps, s) && Legal(s, Exchange(held, scopes, ids, now)) && SubsetOf(scopes, held.row.scopes)
    requires Usable(s, held, now)
    ensures Successor(s, Apply(s, Exchange(held, scopes, ids, now)), held, scopes, ids, now)
  {
    RotationTables(steps, s, held, scopes, ids, now);
    RotationReplacesAccess(steps, s, held, scopes, ids, now);
    RotationReplacesRefresh(steps, s, held, scopes, ids, now);
  }

  // Consuming a token deletes the access tokens of its family only.
  lemma ConsumeSparesOthers(s: State, token: string, now: int)
    requires Inv(s) && token in s.db.refresh
    ensures forall a <- s.db.access ::
              a in s.log.minted
              && (s.log.minted[a] != s.db.refresh[token].familyId ==> a in Consume(s.db, token, now).access)
  {
    forall a | a in s.db.access
      ensures a in s.log.minted
        && (s.log.minted[a] != s.db.refresh[token].familyId ==> a in Consume(s.db, token, now).access)
    {
      assert TaggedRow(s.log, a, s.db.access[a]);
      assert s.db.refresh[token].(consumedAt := None) == s.log.issued[token];
    }
  }

  // ---------- loading ----------

  /** Finishing a load hands the token on exactly when it was unused when read and its family has
      not ended; otherwise the family ends, if the token is still stored. */
  lemma LoadIsExact(steps: seq<Step>, s: State, seen: Seen, now: int)
    requires Reached(steps, s) && Legal(s, FinishLoad(seen, now))
    ensures seen.row.familyId in s.log.families
    ensures var s' := Apply(s, FinishLoad(seen, now));
            var fine := seen.row.consumedAt.None? && now <= s.log.families[seen.row.familyId].expiresAt;
            && s'.loaded == (if fine then s.loaded + {seen} else s.loaded)
            && s'.log == s.log && (fine ==> s'.db == s.db)
            && (!fine && seen.token in s.db.refresh ==> Ended(s, s'.db, seen.row.familyId))
  {
    ReachedKeeps(steps, s);
    assert FromOrigin(s.log, s.log.issued[seen.token]);
    if seen.token in s.db.refresh {
      assert s.db.refresh[seen.token].(consumedAt := None) == s.log.issued[seen.token];
      FamilyEnds(steps, s, seen.row.familyId);
    }
  }

  /** A client reads only its own tokens and codes; an expired code is deleted when it is read. */
  lemma ReadsAreOwn(s: State, token: string, code: string, clientId: string, at: real)
    ensures var s' := Apply(s, ReadRefresh(token, clientId));
            s' == if token in s.db.refresh && s.db.refresh[token].clientId == clientId
                  then s.(rowsRead := s.rowsRead + {Seen(token, s.db.refresh[token])}) else s
    ensures var s' := Apply(s, ReadCode(code, clientId, at));
            && (forall c :: c in s'.codesRead - s.codesRead ==>
                  c.row.clientId == clientId && at <= c.row.expiresAt && c.code in s.db.codes
                  && s.db.codes[c.code] == c.row)
            && (code in s.db.codes && s.db.codes[code].clientId == clientId && at <= s.db.codes[code].expiresAt ==>
                  SeenCode(code, s.db.codes[code]) in s'.codesRead && s'.db == s.db)
            && (forall c :: c in s.db.codes && c !in s'.db.codes ==> c == code && s.db.codes[c].expiresAt < at)
  {
  }

  /** Redeeming succeeds exactly for a code that is still stored, and takes it out of the store. */
  lemma RedeemIsExact(s: State, c: SeenCode)
    requires Legal(s, Redeem(c)) && c.row.userId.Some? && c !in s.grants
    ensures var s' := Apply(s, Redeem(c));
            && (c in s'.grants <==> c.code in s.db.codes) && c.code !in s'.db.codes
            && (forall k :: k != c.code ==> (k in s'.db.codes <==> k in s.db.codes))
  {
  }
}
