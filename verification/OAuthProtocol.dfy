/**
 The OAuth provider as a state machine over whole runs. Each step is one database
 transaction (or one read), so every interleaving of two-phase exchanges is a run. The
 log remembers what was ever issued: in particular the family each access token was
 minted in, which the access table itself does not record.
 */
module OAuthProtocol {
  import opened Options
  import opened Sequences
  import opened OAuthStore

  const REFRESH_TOKEN_EXPIRY_SECONDS := 30 * 24 * 3600
  const ACCESS_TOKEN_EXPIRY_SECONDS := 3600

  /** A refresh row as some earlier read transaction saw it. */
  datatype Seen = Seen(token: string, row: RefreshRow)

  /** An authorization code as some earlier read transaction saw it. */
  datatype SeenCode = SeenCode(code: string, row: CodeRow)

  /** Freshly generated random values. */
  datatype Ids = Ids(access: string, refresh: string)

  /** What a family was founded with. */
  datatype Origin = Origin(code: string, clientId: string, userId: string, scopes: seq<string>, expiresAt: int)

  datatype Log = Log(
    authorized: set<string>,           // every code ever stored
    redeemed: seq<string>,             // codes whose atomic delete succeeded, in order
    families: map<string, Origin>,     // every family ever founded
    issued: map<string, RefreshRow>,   // every refresh row ever inserted, as inserted
    minted: map<string, string>,       // every access token ever inserted, with its family
    rotated: seq<string>)              // refresh tokens whose rotation succeeded, in order

  datatype State = State(
    db: Tables,
    codesRead: set<SeenCode>,
    grants: set<SeenCode>,             // redeemed codes whose token pair is not saved yet
    rowsRead: set<Seen>,               // load_refresh_token between its read and its decision
    loaded: set<Seen>,                 // tokens handed on to exchange_refresh_token
    log: Log)

  datatype Step =
    | Authorize(code: string, codeRow: CodeRow)
    | ReadCode(code: string, clientId: string, at: real)
    | Redeem(seenCode: SeenCode)
    | Issue(grant: SeenCode, family: string, ids: Ids, now: int)
    | ReadRefresh(token: string, clientId: string)
    | FinishLoad(seen: Seen, now: int)
    | Exchange(held: Seen, scopes: seq<string>, ids: Ids, now: int)
    | RevokeFamily(family: string)
    | RevokeRefresh(token: string)
    | RevokeAccess(token: string)
    | ForgetAccess(token: string)
    | ForgetUser(user: string)
    | SweepExpired(now: int)

  function Init(): State {
    State(Tables(map[], map[], map[]), {}, {}, {}, {}, Log({}, [], map[], map[], map[], []))
  }

  function NewPair(clientId: string, scopes: seq<string>, userId: string, family: string,
                   refreshExpiresAt: int, now: int, ids: Ids): TokenPair
  {
    TokenPair(ids.access, ids.refresh, clientId, userId, scopes,
              now + ACCESS_TOKEN_EXPIRY_SECONDS, refreshExpiresAt, family)
  }

  function IssuedPair(g: SeenCode, family: string, ids: Ids, now: int): TokenPair
    requires g.row.userId.Some?
  {
    NewPair(g.row.clientId, g.row.scopes, g.row.userId.value, family, now + REFRESH_TOKEN_EXPIRY_SECONDS, now, ids)
  }

  // `expires_at or now + 30 days`: both a missing and a zero expiry take the default.
  function SuccessorExpiry(row: RefreshRow, now: int): int {
    if row.expiresAt.Some? && row.expiresAt.value != 0 then row.expiresAt.value
    else now + REFRESH_TOKEN_EXPIRY_SECONDS
  }

  function SuccessorPair(held: Seen, scopes: seq<string>, ids: Ids, now: int): TokenPair
    requires held.row.userId.Some?
  {
    NewPair(held.row.clientId, scopes, held.row.userId.value, held.row.familyId, SuccessorExpiry(held.row, now),
        now, ids)
  }

  predicate FreshIds(s: State, ids: Ids) {
    ids.refresh !in s.log.issued && ids.access !in s.log.minted
  }

  // What the environment owes each step: generated values are new, and a later phase
  // works on something an earlier phase produced.
  predicate Legal(s: State, step: Step) {
    match step
    case Authorize(code, _) => code !in s.log.authorized
    case Redeem(c) => c in s.codesRead
    case Issue(g, family, ids, now) => g in s.grants && family !in s.log.families && FreshIds(s, ids) && now >= 0
    case FinishLoad(seen, _) => seen in s.rowsRead
    case Exchange(held, _, ids, now) => held in s.loaded && FreshIds(s, ids) && now >= 0
    case _ => true
  }

  predicate SubsetOf(scopes: seq<string>, granted: seq<string>) {
    forall x :: x in scopes ==> x in granted
  }

  function Record(log: Log, pair: TokenPair): Log {
    log.(issued := log.issued[pair.refreshToken := RefreshRowOf(pair)],
         minted := log.minted[pair.accessToken := pair.familyId])
  }

  function ApplyIssue(s: State, g: SeenCode, family: string, ids: Ids, now: int): State {
    if g.row.userId.None? then s
    else
      var pair := IssuedPair(g, family, ids, now);
      var c := SavePair(s.db, pair);
      if c.RolledBack? then s.(grants := s.grants - {g})
      else
        var origin := Origin(g.code, pair.clientId, pair.userId, pair.scopes, pair.refreshExpiresAt);
        s.(db := c.tables, grants := s.grants - {g},
           log := Record(s.log, pair).(families := s.log.families[family := origin]))
  }

  function ApplyExchange(s: State, held: Seen, scopes: seq<string>, ids: Ids, now: int): State {
    if !SubsetOf(scopes, held.row.scopes) || held.row.userId.None? then s
    else
      var pair := SuccessorPair(held, scopes, ids, now);
      var c := RotatePair(s.db, held.token, pair, now);
      if c.RolledBack? then s
      else if c.outcome != Rotated then s.(db := c.tables)
      else s.(db := c.tables, log := Record(s.log, pair).(rotated := s.log.rotated + [held.token]))
  }

  function ApplyFinishLoad(s: State, seen: Seen, now: int): State {
    var rest := s.(rowsRead := s.rowsRead - {seen});
    if seen.row.userId.None? then rest
    else if seen.row.consumedAt.Some? then rest.(db := DeleteFamily(s.db, seen.row.familyId))
    else if seen.row.expiresAt.Some? && seen.row.expiresAt.value < now then
      rest.(db := RevokeByRefresh(s.db, seen.token))
    else rest.(loaded := s.loaded + {seen})
  }

  function Apply(s: State, step: Step): State {
    match step
    case Authorize(code, row) =>
      s.(db := s.db.(codes := s.db.codes[code := row]), log := s.log.(authorized := s.log.authorized + {code}))
    case ReadCode(code, clientId, at) =>
      if code !in s.db.codes || s.db.codes[code].clientId != clientId then s
      else if s.db.codes[code].expiresAt < at then s.(db := DeleteCode(s.db, code))
      else s.(codesRead := s.codesRead + {SeenCode(code, s.db.codes[code])})
    case Redeem(c) =>
      if c.code !in s.db.codes then s
      else
        var deleted := s.(db := DeleteCode(s.db, c.code), log := s.log.(redeemed := s.log.redeemed + [c.code]));
        if c.row.userId.None? then deleted else deleted.(grants := s.grants + {c})
    case Issue(g, family, ids, now) => ApplyIssue(s, g, family, ids, now)
    case ReadRefresh(token, clientId) =>
      if token in s.db.refresh && s.db.refresh[token].clientId == clientId
      then s.(rowsRead := s.rowsRead + {Seen(token, s.db.refresh[token])}) else s
    case FinishLoad(seen, now) => ApplyFinishLoad(s, seen, now)
    case Exchange(held, scopes, ids, now) => ApplyExchange(s, held, scopes, ids, now)
    case RevokeFamily(family) => s.(db := DeleteFamily(s.db, family))
    case RevokeRefresh(token) => s.(db := RevokeByRefresh(s.db, token))
    case RevokeAccess(token) => s.(db := RevokeByAccess(s.db, token))
    case ForgetAccess(token) => s.(db := DropAccess(s.db, token))
    case ForgetUser(user) => s.(db := DropUser(s.db, user))
    case SweepExpired(now) => s.(db := Sweep(s.db, now))
  }

  predicate LegalRun(s: State, steps: seq<Step>)
    decreases |steps|
  {
    |steps| == 0 || (Legal(s, steps[0]) && LegalRun(Apply(s, steps[0]), steps[1..]))
  }

  function Exec(s: State, steps: seq<Step>): State
    decreases |steps|
  {
    if |steps| == 0 then s else Exec(Apply(s, steps[0]), steps[1..])
  }

  // ---------- what every run keeps ----------

  // Every refresh row is one that was issued, with nothing but `consumed_at` changed.
  ghost predicate RowsIssued(db: Tables, log: Log) {
    forall t <- db.refresh :: t in log.issued && db.refresh[t].(consumedAt := None) == log.issued[t]
  }

  // Every row ever issued carries its family's client, user and expiry, and scopes within
  // the original grant.
  ghost predicate OneOrigin(log: Log) {
    forall t <- log.issued :: FromOrigin(log, log.issued[t])
  }

  ghost predicate FromOrigin(log: Log, row: RefreshRow) {
    && row.familyId in log.families
    && row.consumedAt.None?
    && var o := log.families[row.familyId];
       && row.clientId == o.clientId && row.userId == Some(o.userId) && row.expiresAt == Some(o.expiresAt)
       && o.expiresAt > 0 && SubsetOf(row.scopes, o.scopes)
  }

  // A family's refresh rows are all there, or all gone.
  ghost predicate WholeFamilies(db: Tables, log: Log) {
    forall t, u :: t in log.issued && u in log.issued && log.issued[t].familyId == log.issued[u].familyId
                   ==> (t in db.refresh <==> u in db.refresh)
  }

  ghost predicate AtMostOneUnconsumed(db: Tables) {
    forall t, u :: (&& t in db.refresh && u in db.refresh && db.refresh[t].familyId == db.refresh[u].familyId
                    && db.refresh[t].consumedAt.None? && db.refresh[u].consumedAt.None?)
                   ==> t == u
  }

  // An access row points at an issued refresh token of the family it was minted in.
  ghost predicate AccessTagged(db: Tables, log: Log) {
    forall a <- db.access :: TaggedRow(log, a, db.access[a])
  }

  ghost predicate TaggedRow(log: Log, a: string, row: AccessRow) {
    && a in log.minted
    && row.refreshToken.Some? && row.refreshToken.value in log.issued
    && log.issued[row.refreshToken.value].familyId == log.minted[a]
    && row.userId == log.issued[row.refreshToken.value].userId
  }

  // A live access token is never backed by a consumed refresh token ...
  ghost predicate AccessCurrent(db: Tables) {
    forall a <- db.access :: CurrentRow(db, db.access[a])
  }

  ghost predicate CurrentRow(db: Tables, row: AccessRow) {
    row.refreshToken.Some? && row.refreshToken.value in db.refresh ==>
      db.refresh[row.refreshToken.value].consumedAt.None?
  }

  // ... and is the only one of its family.
  ghost predicate OneAccessPerFamily(db: Tables, log: Log) {
    forall a, b :: (&& a in db.access && b in db.access && a in log.minted && b in log.minted
                    && log.minted[a] == log.minted[b])
                   ==> a == b
  }

  ghost predicate RotatedOnce(db: Tables, log: Log) {
    && NoRepeats(log.rotated)
    && (forall t <- log.rotated :: t in log.issued)
    && (forall t <- log.rotated :: t in db.refresh ==> db.refresh[t].consumedAt.Some?)
  }

  ghost predicate HeldRows(s: State) {
    && (forall h <- s.rowsRead :: h.token in s.log.issued && h.row.(consumedAt := None) == s.log.issued[h.token])
    && (forall h <- s.loaded :: h.token in s.log.issued && h.row == s.log.issued[h.token])
  }

  // A code is stored until it is redeemed, and redeemed once.
  ghost predicate RedeemedOnce(codes: map<string, CodeRow>, authorized: set<string>, redeemed: seq<string>) {
    && NoRepeats(redeemed)
    && (forall c <- codes :: c in authorized && c !in redeemed)
    && (forall c <- redeemed :: c in authorized)
  }

  // A redeemed code is one grant.
  ghost predicate GrantedOnce(grants: set<SeenCode>, redeemed: seq<string>) {
    && (forall g <- grants :: g.code in redeemed)
    && (forall g, h :: g in grants && h in grants && g.code == h.code ==> g == h)
  }

  // What a code redeemed founds at most one family.
  ghost predicate FoundedOnce(families: map<string, Origin>, grants: set<SeenCode>, redeemed: seq<string>) {
    && (forall f <- families :: families[f].code in redeemed)
    && (forall f, g :: f in families && g in grants ==> families[f].code != g.code)
    && (forall f, h :: f in families && h in families && families[f].code == families[h].code ==> f == h)
  }

  ghost predicate CodesOnce(s: State) {
    && RedeemedOnce(s.db.codes, s.log.authorized, s.log.redeemed)
    && (forall c <- s.codesRead :: c.code in s.log.authorized)
    && GrantedOnce(s.grants, s.log.redeemed) && FoundedOnce(s.log.families, s.grants, s.log.redeemed)
  }

  ghost predicate Refreshes(db: Tables, log: Log) {
    RowsIssued(db, log) && OneOrigin(log) && WholeFamilies(db, log) && AtMostOneUnconsumed(db) && RotatedOnce(db, log)
  }

  ghost predicate Accesses(db: Tables, log: Log) {
    AccessTagged(db, log) && AccessCurrent(db) && OneAccessPerFamily(db, log)
  }

  ghost predicate Inv(s: State) {
    Refreshes(s.db, s.log) && Accesses(s.db, s.log) && HeldRows(s) && CodesOnce(s)
  }

  // ---------- deletions ----------

  ghost predicate Shrinks(db: Tables, db': Tables) {
    && (forall t <- db'.refresh :: t in db.refresh && db'.refresh[t] == db.refresh[t])
    && (forall a <- db'.access :: a in db.access && db'.access[a] == db.access[a])
  }

  ghost predicate FamilyWise(db: Tables, db': Tables) {
    forall t, u :: t in db.refresh && u in db.refresh && db.refresh[t].familyId == db.refresh[u].familyId
                   ==> (t in db'.refresh <==> u in db'.refresh)
  }

  // Removing rows keeps the invariant as long as whole families go at once.
  lemma ShrinkKeeps(db: Tables, log: Log, db': Tables)
    requires Refreshes(db, log) && Accesses(db, log)
    requires Shrinks(db, db') && FamilyWise(db, db')
    ensures Refreshes(db', log) && Accesses(db', log)
  {
    assert AccessCurrent(db');
    assert RotatedOnce(db', log);
    forall t, u | t in log.issued && u in log.issued && log.issued[t].familyId == log.issued[u].familyId
      ensures t in db'.refresh <==> u in db'.refresh
    {
      assert t in db.refresh <==> u in db.refresh;
      if t in db.refresh {
        assert db.refresh[t].familyId == log.issued[t].familyId;
        assert db.refresh[u].familyId == log.issued[u].familyId;
      }
    }
  }

  lemma DeleteFamilyKeeps(db: Tables, log: Log, family: string)
    requires Refreshes(db, log) && Accesses(db, log)
    ensures Refreshes(DeleteFamily(db, family), log) && Accesses(DeleteFamily(db, family), log)
  {
    ShrinkKeeps(db, log, DeleteFamily(db, family));
  }

  // Rows of one family share owner and expiry, so a user's deletion and the expiry sweep
  // take whole families.
  lemma SameOrigin(db: Tables, log: Log)
    requires RowsIssued(db, log) && OneOrigin(log)
    ensures forall t, u :: t in db.refresh && u in db.refresh && db.refresh[t].familyId == db.refresh[u].familyId
                           ==> db.refresh[t].userId == db.refresh[u].userId
                               && db.refresh[t].expiresAt == db.refresh[u].expiresAt
  {
    forall t, u | t in db.refresh && u in db.refresh && db.refresh[t].familyId == db.refresh[u].familyId
      ensures db.refresh[t].userId == db.refresh[u].userId && db.refresh[t].expiresAt == db.refresh[u].expiresAt
    {
      assert FromOrigin(log, log.issued[t]) && FromOrigin(log, log.issued[u]);
      assert db.refresh[t].(consumedAt := None) == log.issued[t];
      assert db.refresh[u].(consumedAt := None) == log.issued[u];
    }
  }

  lemma DropUserKeeps(db: Tables, log: Log, user: string)
    requires Refreshes(db, log) && Accesses(db, log)
    ensures Refreshes(DropUser(db, user), log) && Accesses(DropUser(db, user), log)
  {
    SameOrigin(db, log);
    ShrinkKeeps(db, log, DropUser(db, user));
  }

  lemma SweepKeeps(db: Tables, log: Log, now: int)
    requires Refreshes(db, log) && Accesses(db, log)
    ensures Refreshes(Sweep(db, now), log) && Accesses(Sweep(db, now), log)
  {
    SameOrigin(db, log);
    ShrinkKeeps(db, log, Sweep(db, now));
  }

  lemma RevokeByRefreshKeeps(db: Tables, log: Log, token: string)
    requires Refreshes(db, log) && Accesses(db, log)
    ensures Refreshes(RevokeByRefresh(db, token), log) && Accesses(RevokeByRefresh(db, token), log)
  {
    if token in db.refresh {
      DeleteFamilyKeeps(db, log, db.refresh[token].familyId);
    }
  }

  lemma DropAccessKeeps(db: Tables, log: Log, token: string)
    requires Refreshes(db, log) && Accesses(db, log)
    ensures Refreshes(DropAccess(db, token), log) && Accesses(DropAccess(db, token), log)
  {
    ShrinkKeeps(db, log, DropAccess(db, token));
  }

  lemma RevokeByAccessKeeps(db: Tables, log: Log, token: string)
    requires Refreshes(db, log) && Accesses(db, log)
    ensures Refreshes(RevokeByAccess(db, token), log) && Accesses(RevokeByAccess(db, token), log)
  {
    if token in db.access {
      var r := db.access[token].refreshToken;
      if r.Some? && r.value in db.refresh {
        DeleteFamilyKeeps(db, log, db.refresh[r.value].familyId);
      } else {
        DropAccessKeeps(db, log, token);
      }
    }
  }

  // ---------- inserting a pair ----------

  // The log after a pair is saved; a founding pair also records its family's origin.
  ghost predicate Grows(log: Log, pair: TokenPair, log': Log) {
    && pair.refreshToken !in log.issued && pair.accessToken !in log.minted
    && log'.issued == log.issued[pair.refreshToken := RefreshRowOf(pair)]
    && log'.minted == log.minted[pair.accessToken := pair.familyId]
    && (forall f <- log.families :: f in log'.families && log'.families[f] == log.families[f])
    && FromOrigin(log', RefreshRowOf(pair))
  }

  lemma InsertKeepsOrigin(log: Log, pair: TokenPair, log': Log)
    requires OneOrigin(log) && Grows(log, pair, log')
    ensures OneOrigin(log')
  {
    forall t | t in log'.issued ensures FromOrigin(log', log'.issued[t]) {
      if t != pair.refreshToken {
        assert FromOrigin(log, log.issued[t]);
      }
    }
  }

  lemma InsertKeepsFamilies(db: Tables, log: Log, pair: TokenPair, log': Log)
    requires WholeFamilies(db, log) && Grows(log, pair, log')
    requires forall t <- log.issued :: log.issued[t].familyId == pair.familyId ==> t in db.refresh
    ensures WholeFamilies(Insert(db, pair), log')
  {
  }

  lemma InsertKeepsOneUnconsumed(db: Tables, pair: TokenPair)
    requires AtMostOneUnconsumed(db)
    requires forall t <- db.refresh :: db.refresh[t].familyId == pair.familyId ==> db.refresh[t].consumedAt.Some?
    ensures AtMostOneUnconsumed(Insert(db, pair))
  {
  }

  lemma InsertKeepsRefreshes(db: Tables, log: Log, pair: TokenPair, log': Log)
    requires RowsIssued(db, log) && OneOrigin(log) && WholeFamilies(db, log) && AtMostOneUnconsumed(db)
    requires Grows(log, pair, log')
    requires forall t <- log.issued :: log.issued[t].familyId == pair.familyId ==> t in db.refresh
    requires forall t <- db.refresh :: db.refresh[t].familyId == pair.familyId ==> db.refresh[t].consumedAt.Some?
    ensures RowsIssued(Insert(db, pair), log') && OneOrigin(log')
    ensures WholeFamilies(Insert(db, pair), log') && AtMostOneUnconsumed(Insert(db, pair))
  {
    InsertKeepsOrigin(log, pair, log');
    InsertKeepsFamilies(db, log, pair, log');
    InsertKeepsOneUnconsumed(db, pair);
  }

  lemma InsertKeepsAccesses(db: Tables, log: Log, pair: TokenPair, log': Log)
    requires RowsIssued(db, log) && Accesses(db, log) && Grows(log, pair, log')
    requires forall a <- db.access :: log.minted[a] != pair.familyId
    ensures Accesses(Insert(db, pair), log')
  {
    var db' := Insert(db, pair);
    forall a | a in db'.access ensures TaggedRow(log', a, db'.access[a]) && CurrentRow(db', db'.access[a]) {
      if a != pair.accessToken {
        assert TaggedRow(log, a, db.access[a]) && CurrentRow(db, db.access[a]);
      }
    }
  }

  lemma IssueKeeps(s: State, g: SeenCode, family: string, ids: Ids, now: int)
    requires Refreshes(s.db, s.log) && Accesses(s.db, s.log) && Legal(s, Issue(g, family, ids, now))
    ensures var s' := ApplyIssue(s, g, family, ids, now); Refreshes(s'.db, s'.log) && Accesses(s'.db, s'.log)
  {
    if g.row.userId.Some? {
      var pair := IssuedPair(g, family, ids, now);
      var s' := ApplyIssue(s, g, family, ids, now);
      assert CanInsert(s.db, pair) by {
        assert forall a <- s.db.access :: TaggedRow(s.log, a, s.db.access[a]);
      }
      assert forall t <- s.log.issued :: s.log.issued[t].familyId != family by {
        assert forall t <- s.log.issued :: FromOrigin(s.log, s.log.issued[t]);
      }
      assert forall a <- s.db.access :: s.log.minted[a] != family by {
        assert forall a <- s.db.access :: TaggedRow(s.log, a, s.db.access[a]);
      }
      InsertKeepsRefreshes(s.db, s.log, pair, s'.log);
      InsertKeepsAccesses(s.db, s.log, pair, s'.log);
    }
  }

  // ---------- rotating ----------

  lemma ConsumeKeeps(db: Tables, log: Log, token: string, now: int)
    requires Refreshes(db, log) && Accesses(db, log) && Claimable(db, token, now)
    ensures var c := Consume(db, token, now);
            && RowsIssued(c, log) && WholeFamilies(c, log) && AtMostOneUnconsumed(c) && Accesses(c, log)
            && forall t <- c.refresh :: c.refresh[t].familyId == c.refresh[token].familyId ==>
                 c.refresh[t].consumedAt.Some?
  {
    var c := Consume(db, token, now);
    forall a | a in c.access ensures TaggedRow(log, a, c.access[a]) && CurrentRow(c, c.access[a]) {
      assert TaggedRow(log, a, db.access[a]) && CurrentRow(db, db.access[a]);
    }
  }

  // Deleting the access token of the rotated refresh token deletes the family's only one.
  lemma NoAccessLeft(db: Tables, log: Log, token: string, now: int)
    requires Refreshes(db, log) && Accesses(db, log) && Claimable(db, token, now)
    ensures forall a <- Consume(db, token, now).access :: log.minted[a] != db.refresh[token].familyId
  {
    forall a | a in Consume(db, token, now).access ensures log.minted[a] != db.refresh[token].familyId {
      assert TaggedRow(log, a, db.access[a]) && CurrentRow(db, db.access[a]);
      var r := db.access[a].refreshToken.value;
      assert r != token;
      if r in db.refresh {
        assert db.refresh[r].(consumedAt := None) == log.issued[r];
      }
    }
  }

  // The successor was built from a row read in an earlier transaction: what it copies
  // from that row is exactly what never changes.
  lemma RotationGrows(s: State, held: Seen, scopes: seq<string>, ids: Ids, now: int)
    requires Refreshes(s.db, s.log) && Accesses(s.db, s.log) && HeldRows(s)
    requires Legal(s, Exchange(held, scopes, ids, now))
    requires SubsetOf(scopes, held.row.scopes) && held.row.userId.Some?
    requires Claimable(s.db, held.token, now)
    ensures var pair := SuccessorPair(held, scopes, ids, now);
            && pair.familyId == s.db.refresh[held.token].familyId
            && CanInsert(Consume(s.db, held.token, now), pair)
            && Grows(s.log, pair, Record(s.log, pair))
  {
    assert FromOrigin(s.log, s.log.issued[held.token]);
    assert s.db.refresh[held.token].(consumedAt := None) == s.log.issued[held.token];
    forall a | a in s.db.access ensures a in s.log.minted {
      assert TaggedRow(s.log, a, s.db.access[a]);
    }
  }

  lemma RotationKeeps(s: State, held: Seen, scopes: seq<string>, ids: Ids, now: int)
    requires Refreshes(s.db, s.log) && Accesses(s.db, s.log) && HeldRows(s)
    requires Legal(s, Exchange(held, scopes, ids, now))
    requires SubsetOf(scopes, held.row.scopes) && held.row.userId.Some?
    requires Claimable(s.db, held.token, now)
    ensures var s' := ApplyExchange(s, held, scopes, ids, now);
            && Refreshes(s'.db, s'.log) && Accesses(s'.db, s'.log)
            && s'.log.rotated == s.log.rotated + [held.token]
  {
    var pair := SuccessorPair(held, scopes, ids, now);
    var c := Consume(s.db, held.token, now);
    RotationGrows(s, held, scopes, ids, now);
    ConsumeKeeps(s.db, s.log, held.token, now);
    NoAccessLeft(s.db, s.log, held.token, now);
    var s' := ApplyExchange(s, held, scopes, ids, now);
    assert s'.db == Insert(c, pair);
    FamilyPresent(s.db, s.log, held.token);
    InsertKeepsRefreshes(c, s.log, pair, s'.log);
    InsertKeepsAccesses(c, s.log, pair, s'.log);
    RotatedGrows(s.db, s.log, held.token, pair, now);
  }

  lemma FamilyPresent(db: Tables, log: Log, token: string)
    requires RowsIssued(db, log) && WholeFamilies(db, log) && token in db.refresh
    ensures forall t <- log.issued :: log.issued[t].familyId == db.refresh[token].familyId ==> t in db.refresh
  {
    assert db.refresh[token].(consumedAt := None) == log.issued[token];
  }

  lemma RotatedGrows(db: Tables, log: Log, token: string, pair: TokenPair, now: int)
    requires RowsIssued(db, log) && RotatedOnce(db, log) && Claimable(db, token, now)
    requires pair.refreshToken !in log.issued
    ensures RotatedOnce(Insert(Consume(db, token, now), pair), Record(log, pair).(rotated := log.rotated + [token]))
  {
    assert token !in log.rotated;
  }

  lemma ExchangeKeeps(s: State, held: Seen, scopes: seq<string>, ids: Ids, now: int)
    requires Refreshes(s.db, s.log) && Accesses(s.db, s.log) && HeldRows(s)
    requires Legal(s, Exchange(held, scopes, ids, now))
    ensures var s' := ApplyExchange(s, held, scopes, ids, now); Refreshes(s'.db, s'.log) && Accesses(s'.db, s'.log)
  {
    if SubsetOf(scopes, held.row.scopes) && held.row.userId.Some? {
      if Claimable(s.db, held.token, now) {
        RotationKeeps(s, held, scopes, ids, now);
      } else if held.token in s.db.refresh {
        DeleteFamilyKeeps(s.db, s.log, s.db.refresh[held.token].familyId);
      }
    }
  }

  // ---------- every step, every run ----------

  predicate Deletes(step: Step) {
    step.RevokeFamily? || step.RevokeRefresh? || step.RevokeAccess? || step.ForgetAccess? || step.ForgetUser?
        || step.SweepExpired?
  }

  lemma DeletionKeeps(s: State, step: Step)
    requires Refreshes(s.db, s.log) && Accesses(s.db, s.log) && Deletes(step)
    ensures var s' := Apply(s, step); Refreshes(s'.db, s'.log) && Accesses(s'.db, s'.log)
  {
    match step
    case RevokeFamily(family) => DeleteFamilyKeeps(s.db, s.log, family);
    case RevokeRefresh(token) => RevokeByRefreshKeeps(s.db, s.log, token);
    case RevokeAccess(token) => RevokeByAccessKeeps(s.db, s.log, token);
    case ForgetAccess(token) => DropAccessKeeps(s.db, s.log, token);
    case ForgetUser(user) => DropUserKeeps(s.db, s.log, user);
    case SweepExpired(now) => SweepKeeps(s.db, s.log, now);
  }

  lemma FinishLoadKeeps(s: State, seen: Seen, now: int)
    requires Refreshes(s.db, s.log) && Accesses(s.db, s.log)
    ensures var s' := ApplyFinishLoad(s, seen, now); Refreshes(s'.db, s'.log) && Accesses(s'.db, s'.log)
  {
    if seen.row.consumedAt.Some? {
      DeleteFamilyKeeps(s.db, s.log, seen.row.familyId);
    } else {
      RevokeByRefreshKeeps(s.db, s.log, seen.token);
    }
  }

  // Authorization codes live in a table of their own.
  lemma CodesApart(db: Tables, log: Log, codes: map<string, CodeRow>, log': Log)
    requires Refreshes(db, log) && Accesses(db, log)
    requires log' == log.(authorized := log'.authorized, redeemed := log'.redeemed)
    ensures Refreshes(db.(codes := codes), log') && Accesses(db.(codes := codes), log')
  {
    assert OneOrigin(log') by {
      forall t | t in log'.issued ensures FromOrigin(log', log'.issued[t]) {
        assert FromOrigin(log, log.issued[t]);
      }
    }
    forall a | a in db.access
        ensures TaggedRow(log', a, db.access[a]) && CurrentRow(db.(codes := codes), db.access[a]) {
      assert TaggedRow(log, a, db.access[a]) && CurrentRow(db, db.access[a]);
    }
  }

  predicate OnlyCodes(step: Step) {
    step.Authorize? || step.ReadCode? || step.Redeem? || step.ReadRefresh?
  }

  lemma CodeStepsLeaveTokens(s: State, step: Step)
    requires OnlyCodes(step)
    ensures var s' := Apply(s, step);
            s'.db == s.db.(codes := s'.db.codes)
                && s'.log == s.log.(authorized := s'.log.authorized, redeemed := s'.log.redeemed)
  {
  }

  ghost predicate Tokens(s: State) {
    Refreshes(s.db, s.log) && Accesses(s.db, s.log)
  }

  lemma CodeStepsKeepTokens(s: State, step: Step)
    requires Tokens(s) && OnlyCodes(step)
    ensures Tokens(Apply(s, step))
  {
    CodeStepsLeaveTokens(s, step);
    CodesApart(s.db, s.log, Apply(s, step).db.codes, Apply(s, step).log);
  }

  lemma StepKeepsTokens(s: State, step: Step)
    requires Tokens(s) && HeldRows(s) && Legal(s, step)
    ensures Tokens(Apply(s, step))
  {
    if OnlyCodes(step) {
      CodeStepsKeepTokens(s, step);
    } else if step.Issue? {
      IssueKeeps(s, step.grant, step.family, step.ids, step.now);
    } else if step.FinishLoad? {
      FinishLoadKeeps(s, step.seen, step.now);
    } else if step.Exchange? {
      ExchangeKeeps(s, step.held, step.scopes, step.ids, step.now);
    } else {
      DeletionKeeps(s, step);
    }
  }

  lemma StepKeepsHeld(s: State, step: Step)
    requires RowsIssued(s.db, s.log) && HeldRows(s) && Legal(s, step)
    ensures HeldRows(Apply(s, step))
  {
  }

  lemma StepKeepsCodes(s: State, step: Step)
    requires CodesOnce(s) && Legal(s, step)
    ensures CodesOnce(Apply(s, step))
  {
    if step.Issue? {
      IssueKeepsCodes(s, step.grant, step.family, step.ids, step.now);
    } else if step.Redeem? {
      RedeemKeepsCodes(s, step.seenCode);
    } else if !step.Authorize? && !step.ReadCode? {
      OtherStepsLeaveCodes(s, step);
      SameCodes(s, Apply(s, step));
    }
  }

  // The other steps at most delete stored codes.
  ghost predicate CodesLeft(s: State, s': State) {
    && (forall c <- s'.db.codes :: c in s.db.codes)
    && s'.codesRead == s.codesRead && s'.grants == s.grants
    && s'.log.authorized == s.log.authorized && s'.log.redeemed == s.log.redeemed && s'.log.families == s.log.families
  }

  lemma OtherStepsLeaveCodes(s: State, step: Step)
    requires !step.Issue? && !step.Redeem? && !step.Authorize? && !step.ReadCode?
    ensures CodesLeft(s, Apply(s, step))
  {
  }

  lemma SameCodes(s: State, s': State)
    requires CodesOnce(s) && CodesLeft(s, s')
    ensures CodesOnce(s')
  {
  }

  lemma RedeemedGrows(codes: map<string, CodeRow>, authorized: set<string>, redeemed: seq<string>, code: string)
    requires RedeemedOnce(codes, authorized, redeemed) && code in codes
    ensures code !in redeemed && RedeemedOnce(codes - {code}, authorized, redeemed + [code])
  {
    assert code !in redeemed;
  }

  lemma GrantGrows(grants: set<SeenCode>, redeemed: seq<string>, c: SeenCode)
    requires GrantedOnce(grants, redeemed) && c.code !in redeemed
    ensures GrantedOnce(grants, redeemed + [c.code]) && GrantedOnce(grants + {c}, redeemed + [c.code])
  {
    assert forall g <- grants :: g.code in redeemed + [c.code] && g.code != c.code;
  }

  lemma FoundedStays(families: map<string, Origin>, grants: set<SeenCode>, redeemed: seq<string>, c: SeenCode)
    requires FoundedOnce(families, grants, redeemed) && c.code !in redeemed
    ensures FoundedOnce(families, grants, redeemed + [c.code])
      && FoundedOnce(families, grants + {c}, redeemed + [c.code])
  {
    assert forall f <- families :: families[f].code in redeemed + [c.code] && families[f].code != c.code;
  }

  lemma RedeemKeepsCodes(s: State, c: SeenCode)
    requires CodesOnce(s) && c in s.codesRead
    ensures CodesOnce(Apply(s, Redeem(c)))
  {
    if c.code in s.db.codes {
      RedeemedGrows(s.db.codes, s.log.authorized, s.log.redeemed, c.code);
      GrantGrows(s.grants, s.log.redeemed, c);
      FoundedStays(s.log.families, s.grants, s.log.redeemed, c);
    }
  }

  lemma FoundedGrows(families: map<string, Origin>, grants: set<SeenCode>, redeemed: seq<string>, g: SeenCode,
                     family: string, origin: Origin)
    requires FoundedOnce(families, grants, redeemed) && GrantedOnce(grants, redeemed)
    requires g in grants && family !in families && origin.code == g.code
    ensures FoundedOnce(families[family := origin], grants - {g}, redeemed) && GrantedOnce(grants - {g}, redeemed)
    ensures FoundedOnce(families, grants - {g}, redeemed)
  {
  }

  lemma IssueKeepsCodes(s: State, g: SeenCode, family: string, ids: Ids, now: int)
    requires CodesOnce(s) && Legal(s, Issue(g, family, ids, now))
    ensures CodesOnce(ApplyIssue(s, g, family, ids, now))
  {
    if g.row.userId.Some? {
      var pair := IssuedPair(g, family, ids, now);
      FoundedGrows(s.log.families, s.grants, s.log.redeemed, g, family,
                   Origin(g.code, pair.clientId, pair.userId, pair.scopes, pair.refreshExpiresAt));
    }
  }

  lemma {:induction false} RunKeeps(s: State, steps: seq<Step>)
    requires Inv(s) && LegalRun(s, steps)
    ensures Inv(Exec(s, steps))
    decreases |steps|
  {
    if |steps| > 0 {
      StepKeepsTokens(s, steps[0]);
      StepKeepsHeld(s, steps[0]);
      StepKeepsCodes(s, steps[0]);
      RunKeeps(Apply(s, steps[0]), steps[1..]);
    }
  }
}
