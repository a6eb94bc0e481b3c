/**
 The OAuth tables and their transactions. Every method of the class performs the
 statements of one transaction in the repository's order; the functions above it say
 what each transaction does to the tables as values.
 */
module OAuthStore {
  import opened Options

  datatype RefreshRow = RefreshRow(
    clientId: string,
    userId: Option<string>,
    scopes: seq<string>,
    expiresAt: Option<int>,
    familyId: string,
    consumedAt: Option<int>)

  datatype AccessRow = AccessRow(
    clientId: string,
    userId: Option<string>,
    scopes: seq<string>,
    expiresAt: Option<int>,
    refreshToken: Option<string>)

  datatype CodeRow = CodeRow(
    clientId: string,
    userId: Option<string>,
    scopes: seq<string>,
    expiresAt: real)

  datatype TokenPair = TokenPair(
    accessToken: string,
    refreshToken: string,
    clientId: string,
    userId: string,
    scopes: seq<string>,
    accessExpiresAt: int,
    refreshExpiresAt: int,
    familyId: string)

  datatype Tables = Tables(
    codes: map<string, CodeRow>,
    access: map<string, AccessRow>,
    refresh: map<string, RefreshRow>)

  datatype RotationOutcome = Rotated | Reused | Expired | Missing

  /** What a transaction did: it committed with an outcome, or raised and was rolled back. */
  datatype Commit<T> = Committed(tables: Tables, outcome: T) | RolledBack

  function RefreshRowOf(pair: TokenPair): RefreshRow {
    RefreshRow(pair.clientId, Some(pair.userId), pair.scopes, Some(pair.refreshExpiresAt), pair.familyId, None)
  }

  function AccessRowOf(pair: TokenPair): AccessRow {
    AccessRow(pair.clientId, Some(pair.userId), pair.scopes, Some(pair.accessExpiresAt), Some(pair.refreshToken))
  }

  // Token columns are primary keys: inserting a token that is already there raises.
  predicate CanInsert(t: Tables, pair: TokenPair) {
    pair.refreshToken !in t.refresh && pair.accessToken !in t.access
  }

  function Insert(t: Tables, pair: TokenPair): Tables {
    t.(refresh := t.refresh[pair.refreshToken := RefreshRowOf(pair)],
       access := t.access[pair.accessToken := AccessRowOf(pair)])
  }

  function SavePair(t: Tables, pair: TokenPair): Commit<()> {
    if CanInsert(t, pair) then Committed(Insert(t, pair), ()) else RolledBack
  }

  function FamilyTokens(t: Tables, family: string): set<string> {
    set k | k in t.refresh && t.refresh[k].familyId == family
  }

  predicate BackedBy(row: AccessRow, tokens: set<string>) {
    row.refreshToken.Some? && row.refreshToken.value in tokens
  }

  function DropBackedBy(t: Tables, tokens: set<string>): Tables {
    t.(access := map a | a in t.access && !BackedBy(t.access[a], tokens) :: t.access[a])
  }

  function DeleteFamily(t: Tables, family: string): Tables {
    DropBackedBy(t, FamilyTokens(t, family))
      .(refresh := map k | k in t.refresh && t.refresh[k].familyId != family :: t.refresh[k])
  }

  // The row the UPDATE of a rotation claims: unconsumed, and not past its expiry.
  predicate Claimable(t: Tables, token: string, now: int) {
    && token in t.refresh
    && t.refresh[token].consumedAt.None?
    && (t.refresh[token].expiresAt.None? || t.refresh[token].expiresAt.value >= now)
  }

  function Consume(t: Tables, token: string, now: int): Tables
    requires token in t.refresh
  {
    DropBackedBy(t.(refresh := t.refresh[token := t.refresh[token].(consumedAt := Some(now))]), {token})
  }

  function RotatePair(t: Tables, old_: string, pair: TokenPair, now: int): Commit<RotationOutcome> {
    if Claimable(t, old_, now) then
      if t.refresh[old_].familyId != pair.familyId || !CanInsert(Consume(t, old_, now), pair) then RolledBack
      else Committed(Insert(Consume(t, old_, now), pair), Rotated)
    else if old_ !in t.refresh then
      Committed(t, Missing)
    else
      Committed(DeleteFamily(t, t.refresh[old_].familyId),
                if t.refresh[old_].consumedAt.Some? then Reused else Expired)
  }

  function RevokeByRefresh(t: Tables, token: string): Tables {
    if token in t.refresh then DeleteFamily(t, t.refresh[token].familyId) else t
  }

  function DropAccess(t: Tables, token: string): Tables {
    t.(access := t.access - {token})
  }

  function RevokeByAccess(t: Tables, token: string): Tables {
    if token !in t.access then t
    else
      var r := t.access[token].refreshToken;
      if r.Some? && r.value in t.refresh then DeleteFamily(t, t.refresh[r.value].familyId)
      else DropAccess(t, token)
  }

  function DropUser(t: Tables, user: string): Tables {
    Tables(
      map c | c in t.codes && t.codes[c].userId != Some(user) :: t.codes[c],
      map a | a in t.access && t.access[a].userId != Some(user) :: t.access[a],
      map k | k in t.refresh && t.refresh[k].userId != Some(user) :: t.refresh[k])
  }

  predicate Due(expiresAt: Option<int>, now: int) {
    expiresAt.Some? && expiresAt.value <= now
  }

  function Sweep(t: Tables, now: int): Tables {
    Tables(
      map c | c in t.codes && t.codes[c].expiresAt > now as real :: t.codes[c],
      map a | a in t.access && !Due(t.access[a].expiresAt, now) :: t.access[a],
      map k | k in t.refresh && !Due(t.refresh[k].expiresAt, now) :: t.refresh[k])
  }

  function DeleteCode(t: Tables, code: string): Tables {
    t.(codes := t.codes - {code})
  }

  class OAuthRepository {
    var codes: map<string, CodeRow>
    var access: map<string, AccessRow>
    var refresh: map<string, RefreshRow>
    var pending: map<string, real> // the expiry of each authorization in progress

    ghost function Contents(): Tables
      reads this
    {
      Tables(codes, access, refresh)
    }

    method InsertRefreshToken(pair: TokenPair) returns (ok: bool)
      modifies this`refresh
      ensures ok == (pair.refreshToken !in old(refresh))
      ensures refresh == if ok then old(refresh)[pair.refreshToken := RefreshRowOf(pair)] else old(refresh)
    {
      ok := pair.refreshToken !in refresh;
      if ok {
        refresh := refresh[pair.refreshToken := RefreshRowOf(pair)];
      }
    }

    method InsertAccessToken(pair: TokenPair) returns (ok: bool)
      modifies this`access
      ensures ok == (pair.accessToken !in old(access))
      ensures access == if ok then old(access)[pair.accessToken := AccessRowOf(pair)] else old(access)
    {
      ok := pair.accessToken !in access;
      if ok {
        access := access[pair.accessToken := AccessRowOf(pair)];
      }
    }

    // Deletes the access tokens first: their family is only reachable through the refresh rows.
    method DeleteFamilyRows(family: string) returns (accessCount: nat, refreshCount: nat)
      modifies this`codes, this`access, this`refresh
      ensures Contents() == DeleteFamily(old(Contents()), family)
      ensures refreshCount == |FamilyTokens(old(Contents()), family)|
      ensures var tokens := FamilyTokens(old(Contents()), family);
              accessCount == |set a | a in old(access) && BackedBy(old(access)[a], tokens)|
    {
      var tokens := set k | k in refresh && refresh[k].familyId == family;
      var gone := set a | a in access && BackedBy(access[a], tokens);
      accessCount, refreshCount := |gone|, |tokens|;
      access := access - gone;
      refresh := refresh - tokens;
    }

    method SaveTokenPair(pair: TokenPair) returns (ok: bool)
      modifies this`codes, this`access, this`refresh
      ensures ok == SavePair(old(Contents()), pair).Committed?
      ensures Contents() == if ok then SavePair(old(Contents()), pair).tables else old(Contents())
    {
      var savedRefresh := refresh;
      ok := InsertRefreshToken(pair);
      if ok {
        ok := InsertAccessToken(pair);
      }
      if !ok {
        refresh := savedRefresh;
      }
    }

    method RotateTokenPair(oldRefreshToken: string, pair: TokenPair, now: int) returns (r: Option<RotationOutcome>)
      modifies this`codes, this`access, this`refresh
      ensures var c := RotatePair(old(Contents()), oldRefreshToken, pair, now);
              if c.Committed? then r == Some(c.outcome) && Contents() == c.tables
              else r == None && Contents() == old(Contents())
    {
      var savedAccess, savedRefresh := access, refresh;
      if && oldRefreshToken in refresh && refresh[oldRefreshToken].consumedAt.None?
         && (refresh[oldRefreshToken].expiresAt.None? || refresh[oldRefreshToken].expiresAt.value >= now)
      {
        refresh := refresh[oldRefreshToken := refresh[oldRefreshToken].(consumedAt := Some(now))];
        var ok := refresh[oldRefreshToken].familyId == pair.familyId;
        if ok {
          access := map a | a in access && !BackedBy(access[a], {oldRefreshToken}) :: access[a];
          ok := InsertRefreshToken(pair);
        }
        if ok {
          ok := InsertAccessToken(pair);
        }
        if ok {
          return Some(Rotated);
        }
        access, refresh := savedAccess, savedRefresh;
        return None;
      }
      if oldRefreshToken !in refresh {
        return Some(Missing);
      }
      var row := refresh[oldRefreshToken];
      var _, _ := DeleteFamilyRows(row.familyId);
      return Some(if row.consumedAt.Some? then Reused else Expired);
    }

    method RevokeByAccessToken(token: string) returns (revoked: bool)
      modifies this`codes, this`access, this`refresh
      ensures Contents() == RevokeByAccess(old(Contents()), token)
      ensures revoked == (token in old(access))
    {
      if token !in access {
        return false;
      }
      var r := access[token].refreshToken;
      if r.Some? && r.value in refresh {
        ghost var was := Contents();
        var accessCount, refreshCount := DeleteFamilyRows(refresh[r.value].familyId);
        assert r.value in FamilyTokens(was, was.refresh[r.value].familyId);
        return accessCount > 0 || refreshCount > 0;
      }
      access := access - {token};
      return true;
    }

    method RevokeByRefreshToken(token: string) returns (revoked: bool)
      modifies this`codes, this`access, this`refresh
      ensures Contents() == RevokeByRefresh(old(Contents()), token)
      ensures revoked == (token in old(refresh))
    {
      if token !in refresh {
        return false;
      }
      ghost var was := Contents();
      var accessCount, refreshCount := DeleteFamilyRows(refresh[token].familyId);
      assert token in FamilyTokens(was, was.refresh[token].familyId);
      return accessCount > 0 || refreshCount > 0;
    }

    method DeleteCredentialsByUser(user: string) returns (deleted: nat)
      modifies this`codes, this`access, this`refresh
      ensures Contents() == DropUser(old(Contents()), user)
      ensures deleted == |set c | c in old(codes) && old(codes)[c].userId == Some(user)|
                         + |set a | a in old(access) && old(access)[a].userId == Some(user)|
                         + |set k | k in old(refresh) && old(refresh)[k].userId == Some(user)|
    {
      deleted := |set c | c in codes && codes[c].userId == Some(user)|
        + |set a | a in access && access[a].userId == Some(user)|
        + |set k | k in refresh && refresh[k].userId == Some(user)|;
      codes := map c | c in codes && codes[c].userId != Some(user) :: codes[c];
      access := map a | a in access && access[a].userId != Some(user) :: access[a];
      refresh := map k | k in refresh && refresh[k].userId != Some(user) :: refresh[k];
    }

    method DeleteExpiredTokens(now: int)
      modifies this
      ensures Contents() == Sweep(old(Contents()), now)
      ensures pending == map p | p in old(pending) && old(pending)[p] > now as real :: old(pending)[p]
    {
      pending := map p | p in pending && pending[p] > now as real :: pending[p];
      access := map a | a in access && !Due(access[a].expiresAt, now) :: access[a];
      refresh := map k | k in refresh && !Due(refresh[k].expiresAt, now) :: refresh[k];
      codes := map c | c in codes && codes[c].expiresAt > now as real :: codes[c];
    }

    // True exactly for the one caller that finds the code still there.
    method DeleteAuthCode(code: string) returns (deleted: bool)
      modifies this`codes
      ensures Contents() == DeleteCode(old(Contents()), code)
      ensures deleted == (code in old(codes))
    {
      deleted := code in codes;
      codes := codes - {code};
    }
  }
}
