/** The wiki's refresh-token sessions (auth.service.ts): `issueTokens`, the `refreshToken`
    transaction, `logout` and the session deletion of the password methods.

    A token is identified with the session whose stored hash is the token's hash; newId random
    ids are ids that were never issued before.  Two machines share the same decisions: in one
    a transaction is a single step, in the other every statement is. */
module Sessions {
  import opened Options
  import opened Collections

  type Id = nat

  datatype Link = Link(provider: nat, recheckAfter: Option<int>)
  datatype Session = Session(
    user: nat, family: Id, expiresAt: int, rotated: bool, revoked: bool, external: Option<Link>)

  /** A refresh token whose signature was accepted: the row its hash finds, and its claims. */
  datatype Token = Token(row: Id, user: nat, tokenId: Option<Id>)

  datatype Db = Db(sessions: map<Id, Session>, activeUsers: set<nat>, activeProviders: set<nat>)

  datatype Outcome = Invalid | Reused(user: nat, family: Id) | Rotated(id: Id)

  predicate Live(session: Session) {
    !session.rotated && !session.revoked
  }

  // ------------------------------------------------------ the shared decisions

  /** What makes the first check answer "invalid" before reuse is even considered. */
  predicate IdentityHolds(db: Db, token: Token, now: int) {
    && token.row in db.sessions
    && var session := db.sessions[token.row];
       && session.expiresAt >= now
       && session.user == token.user
       && (token.tokenId.Some? ==> token.tokenId.value == token.row)
       && (session.external.Some? ==>
             && session.external.value.provider in db.activeProviders
             && session.external.value.recheckAfter.Some?
             && session.external.value.recheckAfter.value > now)
  }

  datatype Decision = Refuse | Punish(session: Session) | Proceed(session: Session)

  /** The branches between reading the row and writing anything. */
  function Decide(db: Db, token: Token, now: int): Decision {
    if !IdentityHolds(db, token, now) then Refuse
    else
      var session := db.sessions[token.row];
      if session.rotated then Punish(session)
      else if session.revoked || session.user !in db.activeUsers then Refuse
      else Proceed(session)
  }

  /** The condition of the claiming update. */
  predicate Claimable(db: Db, id: Id, now: int) {
    id in db.sessions && Live(db.sessions[id]) && db.sessions[id].expiresAt > now
  }

  function Claim(db: Db, id: Id): Db
    requires id in db.sessions
  {
    db.(sessions := db.sessions[id := db.sessions[id].(rotated := true, revoked := true)])
  }

  function RevokeFamily(db: Db, family: Id): Db {
    db.(sessions := map id | id in db.sessions ::
      if db.sessions[id].family == family then db.sessions[id].(revoked := true) else db.sessions[id])
  }

  function Replacement(parent: Session, expiresAt: int): Session {
    Session(parent.user, parent.family, expiresAt, false, false, parent.external)
  }

  function Insert(db: Db, id: Id, session: Session): Db {
    db.(sessions := db.sessions[id := session])
  }

  function DeleteUser(db: Db, user: nat): Db {
    db.(sessions := map id | id in db.sessions && db.sessions[id].user != user :: db.sessions[id])
  }

  // ---------------------------------------------------- a transaction as one step

  function Refresh(db: Db, token: Token, now: int, newId: Id, expiresAt: int): (Db, Outcome) {
    match Decide(db, token, now)
    case Refuse => (db, Invalid)
    case Punish(session) => (RevokeFamily(db, session.family), Reused(session.user, session.family))
    case Proceed(session) =>
      if Claimable(db, token.row, now) then
        (Insert(Claim(db, token.row), newId, Replacement(session, expiresAt)), Rotated(newId))
      else (db, Invalid)
  }

  function Logout(db: Db, row: Id): Db {
    if row in db.sessions then RevokeFamily(db, db.sessions[row].family) else db
  }

  function Login(db: Db, user: nat, newId: Id, expiresAt: int, external: Option<Link>): Db {
    Insert(db, newId, Session(user, newId, expiresAt, false, false, external))
  }

  // ------------------------------------------------- what the decisions promise

  /** The rows of one family are revoked; nothing else of them, and nothing of other rows, changes. */
  predicate RevokedOnly(before: map<Id, Session>, after: map<Id, Session>, family: Id) {
    && after.Keys == before.Keys
    && forall id | id in before ::
         after[id] == if before[id].family == family then before[id].(revoked := true) else before[id]
  }

  /** The claims of the token fit the row, and a linked provider still vouches for it at `now`. */
  predicate Vouched(row: Session, token: Token, now: int, providers: set<nat>) {
    && row.user == token.user
    && (token.tokenId == None || token.tokenId == Some(token.row))
    && match row.external
       case None => true
       case Some(Link(provider, None)) => false
       case Some(Link(provider, Some(recheckAfter))) => provider in providers && now < recheckAfter
  }

  /** All that a refresh may do, field by field. */
  predicate RefreshMeans(
      before: map<Id, Session>, token: Token, now: int, users: set<nat>, providers: set<nat>, newId: Id, expiresAt: int,
      outcome: Outcome, after: map<Id, Session>)
  {
    if token.row in before && before[token.row].rotated && now <= before[token.row].expiresAt && Vouched(before[token.row], token, now, providers) then
      outcome == Reused(before[token.row].user, before[token.row].family) && RevokedOnly(before, after, before[token.row].family)
    else if token.row in before && !before[token.row].rotated && !before[token.row].revoked && now < before[token.row].expiresAt
            && before[token.row].user in users && Vouched(before[token.row], token, now, providers) then
      var row := before[token.row];
      && outcome == Rotated(newId)
      && after.Keys == before.Keys + {newId}
      && after[newId] == Session(row.user, row.family, expiresAt, false, false, row.external)
      && (forall id | id in before && id != newId ::
            after[id] == if id == token.row then before[id].(rotated := true, revoked := true) else before[id])
    else outcome == Invalid && after == before
  }

  /** The service over its rows, statement by statement. */
  class SessionStore {
    var sessions: map<Id, Session>
    var activeUsers: set<nat>
    var activeProviders: set<nat>

    function Rows(): Db
      reads this
    {
      Db(sessions, activeUsers, activeProviders)
    }

    method IssueTokens(user: nat, sessionId: Id, expiresAt: int, external: Option<Link>)
      modifies this`sessions
      ensures Rows() == Login(old(Rows()), user, sessionId, expiresAt, external)
      ensures sessions == old(sessions)[sessionId := Session(user, sessionId, expiresAt, false, false, external)]
    {
      sessions := sessions[sessionId := Session(user, sessionId, expiresAt, false, false, external)];
    }

    /** `updateMany({ where: { familyId, revokedAt: null } })`. */
    method RevokeUnrevoked(family: Id)
      modifies this`sessions
      ensures Rows() == RevokeFamily(old(Rows()), family)
      ensures RevokedOnly(old(sessions), sessions, family)
    {
      var hit := set id | id in sessions && sessions[id].family == family && !sessions[id].revoked;
      sessions := map id | id in sessions :: if id in hit then sessions[id].(revoked := true) else sessions[id];
    }

    /** The conditional update; the result is its row count. */
    method Consume(id: Id, now: int) returns (count: nat)
      modifies this`sessions
      ensures count == if Claimable(old(Rows()), id, now) then 1 else 0
      ensures Rows() == if count == 1 then Claim(old(Rows()), id) else old(Rows())
      ensures count == 1 <==>
                && id in old(sessions) && !old(sessions)[id].rotated && !old(sessions)[id].revoked && now < old(sessions)[id].expiresAt
      ensures count == 1 ==> sessions == old(sessions)[id := old(sessions)[id].(rotated := true, revoked := true)]
    {
      if id in sessions && !sessions[id].rotated && !sessions[id].revoked && sessions[id].expiresAt > now {
        sessions := sessions[id := sessions[id].(rotated := true, revoked := true)];
        return 1;
      }
      return 0;
    }

    method RefreshToken(token: Token, now: int, replacementId: Id, expiresAt: int) returns (outcome: Outcome)
      modifies this`sessions
      ensures (Rows(), outcome) == Refresh(old(Rows()), token, now, replacementId, expiresAt)
      ensures RefreshMeans(old(sessions), token, now, activeUsers, activeProviders, replacementId, expiresAt, outcome, sessions)
    {
      if !IdentityHolds(Rows(), token, now) { return Invalid; }
      var session := sessions[token.row];
      if session.rotated {
        RevokeUnrevoked(session.family);
        return Reused(session.user, session.family);
      }
      if session.revoked || session.user !in activeUsers { return Invalid; }
      var count := Consume(token.row, now);
      if count != 1 {
        // Only other transactions can have rotated the row since; here the re-read finds it
        // unrotated, and the token was expiring this very millisecond.
        assert !sessions[token.row].rotated;
        return Invalid;
      }
      sessions := sessions[replacementId := Replacement(session, expiresAt)];
      return Rotated(replacementId);
    }

    method LogoutSession(row: Id)
      modifies this`sessions
      ensures Rows() == Logout(old(Rows()), row)
      ensures row in old(sessions) ==> RevokedOnly(old(sessions), sessions, old(sessions)[row].family)
      ensures row !in old(sessions) ==> sessions == old(sessions)
    {
      if row in sessions { RevokeUnrevoked(sessions[row].family); }
    }

    /** The `deleteMany({ where: { userId } })` of every password change and reset. */
    method DiscardSessions(user: nat)
      modifies this`sessions
      ensures Rows() == DeleteUser(old(Rows()), user)
      ensures forall id :: id in sessions <==> id in old(sessions) && old(sessions)[id].user != user
    {
      sessions := map id | id in sessions && sessions[id].user != user :: sessions[id];
    }
  }

  /** A token is rotated exactly when its claims hold, its row is live and strictly unexpired and its
      user active; reuse is reported exactly for an unexpired rotated row whose claims hold.  A new
      row takes over user, family and provider link, and has the expiry of the new token. */
  lemma RefreshOutcomes(db: Db, token: Token, now: int, newId: Id, expiresAt: int)
    ensures var (after, outcome) := Refresh(db, token, now, newId, expiresAt);
            && RefreshMeans(db.sessions, token, now, db.activeUsers, db.activeProviders, newId, expiresAt, outcome, after.sessions)
            && after.activeUsers == db.activeUsers && after.activeProviders == db.activeProviders
  {
  }

  /** After a rotation the old token is answered as a reuse for as long as its claims hold, so two
      clients cannot share a token.  The new one is rotated in turn exactly while it has not expired, the user is
      active, and a linked provider still vouches: whatever accounts and providers have become. */
  lemma RotationHandsOver(
      db: Db, token: Token, now: int, newId: Id, expiresAt: int,
      users: set<nat>, providers: set<nat>, later: int, nextId: Id, nextExpiresAt: int)
    requires newId !in db.sessions && Refresh(db, token, now, newId, expiresAt).1.Rotated?
    ensures var session := db.sessions[token.row];
            var after := Refresh(db, token, now, newId, expiresAt).0.(activeUsers := users, activeProviders := providers);
            && (Refresh(after, token, later, nextId, nextExpiresAt).1 == Reused(session.user, session.family) <==>
                  later <= session.expiresAt && Vouched(session, token, later, providers))
            && (Refresh(after, Token(newId, session.user, Some(newId)), later, nextId, nextExpiresAt).1 == Rotated(nextId) <==>
                  && later < expiresAt && session.user in users
                  && (session.external.Some? ==>
                        && session.external.value.provider in providers
                        && session.external.value.recheckAfter.Some?
                        && later < session.external.value.recheckAfter.value))
  {
    hide Refresh;
    var (after, outcome) := Refresh(db, token, now, newId, expiresAt);
    RefreshOutcomes(db, token, now, newId, expiresAt);
    var later' := after.(activeUsers := users, activeProviders := providers);
    RefreshOutcomes(later', token, later, nextId, nextExpiresAt);
    RefreshOutcomes(later', Token(newId, db.sessions[token.row].user, Some(newId)), later, nextId, nextExpiresAt);
  }

  datatype Committed = Committed(db: Db, issued: set<Id>)

  /** Transactions, and changes to accounts and providers made elsewhere. */
  datatype Transaction =
    | LoginTx(user: nat, newId: Id, expiresAt: int, external: Option<Link>)
    | RefreshTx(token: Token, now: int, newId: Id, expiresAt: int)
    | LogoutTx(row: Id)
    | PasswordTx(user: nat)
    | AccountsTx(users: set<nat>, providers: set<nat>)
    | RecheckTx(row: Id, recheckAfter: Option<int>)

  /** A provider check renews the deadline of a linked session. */
  function Recheck(db: Db, row: Id, recheckAfter: Option<int>): Db {
    if row in db.sessions && db.sessions[row].external.Some? then
      var link := db.sessions[row].external.value.(recheckAfter := recheckAfter);
      Insert(db, row, db.sessions[row].(external := Some(link)))
    else db
  }

  function Commit(c: Committed, t: Transaction): Committed {
    match t
    case LoginTx(user, newId, expiresAt, external) =>
      if newId in c.issued then c
      else Committed(Login(c.db, user, newId, expiresAt, external), c.issued + {newId})
    case RefreshTx(token, now, newId, expiresAt) =>
      if newId in c.issued then c
      else Committed(Refresh(c.db, token, now, newId, expiresAt).0, c.issued + {newId})
    case LogoutTx(row) => c.(db := Logout(c.db, row))
    case PasswordTx(user) => c.(db := DeleteUser(c.db, user))
    case AccountsTx(users, providers) => c.(db := c.db.(activeUsers := users, activeProviders := providers))
    case RecheckTx(row, recheckAfter) => c.(db := Recheck(c.db, row, recheckAfter))
  }

  function CommitAll(c: Committed, run: seq<Transaction>): Committed
    decreases |run|
  {
    if run == [] then c else CommitAll(Commit(c, run[0]), run[1..])
  }

  // ------------------------------------------------ what a family keeps of its login

  /** Whom a login let in, and through which provider. */
  datatype Origin = Origin(user: nat, external: Option<Link>)

  function ProviderOf(external: Option<Link>): Option<nat> {
    if external.Some? then Some(external.value.provider) else None
  }

  /** The logins of a run, under the ids of the families that they started. */
  function Logins(c: Committed, run: seq<Transaction>, before: map<Id, Origin>): map<Id, Origin>
    decreases |run|
  {
    if run == [] then before
    else
      var t := run[0];
      Logins(Commit(c, t), run[1..],
        if t.LoginTx? && t.newId !in c.issued then before[t.newId := Origin(t.user, t.external)] else before)
  }

  /** A row belongs to the user and the provider of its family's login; `exact`: with its deadline. */
  predicate AsLoggedIn(session: Session, logins: map<Id, Origin>, exact: bool) {
    && session.family in logins
    && session.user == logins[session.family].user
    && ProviderOf(session.external) == ProviderOf(logins[session.family].external)
    && (exact ==> session.external == logins[session.family].external)
  }

  predicate RowsAsLoggedIn(c: Committed, logins: map<Id, Origin>, exact: bool) {
    && logins.Keys <= c.issued
    && forall id | id in c.db.sessions :: AsLoggedIn(c.db.sessions[id], logins, exact)
  }

  lemma LoggedInStep(c: Committed, t: Transaction, logins: map<Id, Origin>, exact: bool)
    requires RowsAsLoggedIn(c, logins, exact) && (exact ==> !t.RecheckTx?)
    ensures var logins' := if t.LoginTx? && t.newId !in c.issued then logins[t.newId := Origin(t.user, t.external)] else logins;
            RowsAsLoggedIn(Commit(c, t), logins', exact)
  {
    if t.LoginTx? && t.newId !in c.issued { assert t.newId !in logins; }
  }

  lemma {:induction false} LoggedInOnRuns(c: Committed, run: seq<Transaction>, logins: map<Id, Origin>, exact: bool)
    requires RowsAsLoggedIn(c, logins, exact)
    requires exact ==> forall i | 0 <= i < |run| :: !run[i].RecheckTx?
    ensures RowsAsLoggedIn(CommitAll(c, run), Logins(c, run, logins), exact)
    decreases |run|
  {
    if run != [] {
      var t := run[0];
      LoggedInStep(c, t, logins, exact);
      LoggedInOnRuns(Commit(c, t), run[1..],
        if t.LoginTx? && t.newId !in c.issued then logins[t.newId := Origin(t.user, t.external)] else logins, exact);
    }
  }

  /** However often its tokens are rotated, every row of a family belongs to the user and the provider of
      the login that started it, and has the deadline of that login unless a provider check renewed one. */
  lemma FamilyKeepsItsLogin(users: set<nat>, providers: set<nat>, history: seq<Transaction>, id: Id)
    requires id in After(users, providers, history).db.sessions
    ensures var row, logins := After(users, providers, history).db.sessions[id], Logins(Committed(Db(map[], users, providers), {}), history, map[]);
            && row.family in logins
            && row.user == logins[row.family].user
            && ProviderOf(row.external) == ProviderOf(logins[row.family].external)
            && ((forall i | 0 <= i < |history| :: !history[i].RecheckTx?) ==> row.external == logins[row.family].external)
  {
    var start := Committed(Db(map[], users, providers), {});
    LoggedInOnRuns(start, history, map[], false);
    if forall i | 0 <= i < |history| :: !history[i].RecheckTx? { LoggedInOnRuns(start, history, map[], true); }
  }

  /** A family in which every row is revoked and which no login can start again. */
  predicate FamilyDead(c: Committed, family: Id) {
    && family in c.issued
    && forall id | id in c.db.sessions && c.db.sessions[id].family == family :: c.db.sessions[id].revoked
  }

  lemma DeadStays(c: Committed, t: Transaction, family: Id)
    requires FamilyDead(c, family)
    ensures FamilyDead(Commit(c, t), family)
  {
  }

  lemma {:induction false} DeadStaysOnRuns(c: Committed, run: seq<Transaction>, family: Id)
    requires FamilyDead(c, family)
    ensures FamilyDead(CommitAll(c, run), family)
    decreases |run|
  {
    if run != [] {
      DeadStays(c, run[0], family);
      DeadStaysOnRuns(Commit(c, run[0]), run[1..], family);
    }
  }

  predicate FamiliesIssued(c: Committed) {
    forall id | id in c.db.sessions :: id in c.issued && c.db.sessions[id].family in c.issued
  }

  lemma FamiliesIssuedStep(c: Committed, t: Transaction)
    requires FamiliesIssued(c)
    ensures FamiliesIssued(Commit(c, t))
  {
  }

  lemma {:induction false} FamiliesIssuedOnRuns(c: Committed, run: seq<Transaction>)
    requires FamiliesIssued(c)
    ensures FamiliesIssued(CommitAll(c, run))
    decreases |run|
  {
    if run != [] {
      FamiliesIssuedStep(c, run[0]);
      FamiliesIssuedOnRuns(Commit(c, run[0]), run[1..]);
    }
  }

  /** The database after a history of transactions that began without sessions. */
  function After(users: set<nat>, providers: set<nat>, history: seq<Transaction>): Committed {
    CommitAll(Committed(Db(map[], users, providers), {}), history)
  }

  /** After any history, presenting an unexpired rotated token whose identity checks hold is reported,
      leaves no live row in its family, and from then on no token of that family is ever rotated again,
      whatever transactions follow. */
  lemma ReuseKillsFamilyForever(
      users: set<nat>, providers: set<nat>, history: seq<Transaction>, token: Token, now: int, newId: Id, expiresAt: int,
      later: seq<Transaction>, token': Token, now': int, newId': Id, expiresAt': int)
    requires var c := After(users, providers, history);
             newId !in c.issued && IdentityHolds(c.db, token, now) && c.db.sessions[token.row].rotated
    ensures var c := After(users, providers, history);
            var session, after := c.db.sessions[token.row], CommitAll(Commit(c, RefreshTx(token, now, newId, expiresAt)), later);
            && Refresh(c.db, token, now, newId, expiresAt).1 == Reused(session.user, session.family)
            && (forall id | id in after.db.sessions && after.db.sessions[id].family == session.family :: !Live(after.db.sessions[id]))
            && (token'.row in after.db.sessions && after.db.sessions[token'.row].family == session.family ==>
                  !Refresh(after.db, token', now', newId', expiresAt').1.Rotated?)
  {
    var c := After(users, providers, history);
    FamiliesIssuedOnRuns(Committed(Db(map[], users, providers), {}), history);
    DeadStaysOnRuns(Commit(c, RefreshTx(token, now, newId, expiresAt)), later, c.db.sessions[token.row].family);
  }

  /** After any history, logging out with any token of a family ends it in the same way. */
  lemma LogoutKillsFamilyForever(
      users: set<nat>, providers: set<nat>, history: seq<Transaction>, row: Id, later: seq<Transaction>, id: Id)
    requires row in After(users, providers, history).db.sessions
    ensures var c := After(users, providers, history);
            var family, after := c.db.sessions[row].family, CommitAll(Commit(c, LogoutTx(row)), later);
            id in after.db.sessions && after.db.sessions[id].family == family ==> after.db.sessions[id].revoked
  {
    var c := After(users, providers, history);
    FamiliesIssuedOnRuns(Committed(Db(map[], users, providers), {}), history);
    DeadStaysOnRuns(Commit(c, LogoutTx(row)), later, c.db.sessions[row].family);
  }

  predicate UserAbsent(c: Committed, user: nat) {
    forall id | id in c.db.sessions :: c.db.sessions[id].user != user
  }

  lemma {:induction false} AbsentStays(c: Committed, run: seq<Transaction>, user: nat)
    requires UserAbsent(c, user) && forall i | 0 <= i < |run| && run[i].LoginTx? :: run[i].user != user
    ensures UserAbsent(CommitAll(c, run), user)
    decreases |run|
  {
    if run != [] {
      assert UserAbsent(Commit(c, run[0]), user);
      AbsentStays(Commit(c, run[0]), run[1..], user);
    }
  }

  /** After a password change no token of the user is answered with anything but "invalid" until the user
      logs in again, whatever else is committed. */
  lemma PasswordChangeEndsSessions(
      c: Committed, user: nat, later: seq<Transaction>, token: Token, now: int, newId: Id, expiresAt: int)
    requires forall i | 0 <= i < |later| && later[i].LoginTx? :: later[i].user != user
    requires token.user == user
    ensures var after := CommitAll(Commit(c, PasswordTx(user)), later);
            UserAbsent(after, user) && Refresh(after.db, token, now, newId, expiresAt).1 == Invalid
  {
    AbsentStays(Commit(c, PasswordTx(user)), later, user);
  }

  /** Deactivating an account or a provider takes effect at the next refresh. */
  lemma DeactivationIsImmediate(
      c: Committed, users: set<nat>, providers: set<nat>, token: Token, now: int, newId: Id, expiresAt: int)
    ensures var after := Commit(c, AccountsTx(users, providers));
            && after.db.sessions == c.db.sessions
            && (Refresh(after.db, token, now, newId, expiresAt).1.Rotated? ==>
                  && token.user in users
                  && (c.db.sessions[token.row].external.Some? ==> c.db.sessions[token.row].external.value.provider in providers))
  {
    hide Refresh;
    RefreshOutcomes(Commit(c, AccountsTx(users, providers)).db, token, now, newId, expiresAt);
  }

  // ------------------------------------------------------- a statement as one step

  /** Where a request stands between two of its statements. */
  datatype Request =
    | Claiming(row: Id, now: int, seen: Session)
    | Rereading(row: Id, seen: Session)
    | Inserting(row: Id, seen: Session)
    | Revoking(family: Id)

  datatype State = State(db: Db, requests: map<nat, Request>, issued: set<Id>)

  datatype Step =
    | LoginRow(user: nat, newId: Id, expiresAt: int, external: Option<Link>)
    | ReadForRefresh(request: nat, token: Token, now: int)
    | ClaimRow(request: nat)
    | RereadRow(request: nat)
    | InsertRow(request: nat, newId: Id, expiresAt: int)
    | RevokeRows(request: nat)
    | Abort(request: nat)
    | ReadForLogout(request: nat, row: Id)
    | DeleteRows(user: nat)
    | SetAccounts(users: set<nat>, providers: set<nat>)
    | SetRecheck(row: Id, recheckAfter: Option<int>)

  predicate At(s: State, r: nat, pc: Request) {
    r in s.requests && s.requests[r] == pc
  }

  function Goto(s: State, r: nat, pc: Request): State { s.(requests := s.requests[r := pc]) }

  function Finish(s: State, r: nat): State { s.(requests := s.requests - {r}) }

  /** Rolling back an uncommitted claim makes the row live again. */
  function Unclaim(db: Db, id: Id): Db {
    if id in db.sessions then Insert(db, id, db.sessions[id].(rotated := false, revoked := false)) else db
  }

  /** One statement; a step that is not enabled changes nothing. */
  function Apply(s: State, step: Step): State {
    match step
    case LoginRow(user, newId, expiresAt, external) =>
      if newId in s.issued then s
      else s.(db := Login(s.db, user, newId, expiresAt, external), issued := s.issued + {newId})
    case ReadForRefresh(r, token, now) =>
      if r in s.requests then s else (
        match Decide(s.db, token, now)
        case Refuse => s
        case Punish(session) => Goto(s, r, Revoking(session.family))
        case Proceed(session) => Goto(s, r, Claiming(token.row, now, session)))
    case ClaimRow(r) =>
      if !(r in s.requests && s.requests[r].Claiming?) then s
      else
        var pc := s.requests[r];
        if Claimable(s.db, pc.row, pc.now) then Goto(s.(db := Claim(s.db, pc.row)), r, Inserting(pc.row, pc.seen))
        else Goto(s, r, Rereading(pc.row, pc.seen))
    case RereadRow(r) =>
      if !(r in s.requests && s.requests[r].Rereading?) then s
      else
        var pc := s.requests[r];
        if pc.row in s.db.sessions && s.db.sessions[pc.row].rotated then Goto(s, r, Revoking(pc.seen.family))
        else Finish(s, r)
    case InsertRow(r, newId, expiresAt) =>
      if !(r in s.requests && s.requests[r].Inserting?) || newId in s.issued then s
      else
        Finish(s, r).(db := Insert(s.db, newId, Replacement(s.requests[r].seen, expiresAt)), issued := s.issued + {newId})
    case RevokeRows(r) =>
      if !(r in s.requests && s.requests[r].Revoking?) then s
      else Finish(s, r).(db := RevokeFamily(s.db, s.requests[r].family))
    case Abort(r) =>
      if r !in s.requests then s
      else if s.requests[r].Inserting? then Finish(s, r).(db := Unclaim(s.db, s.requests[r].row))
      else Finish(s, r)
    case ReadForLogout(r, row) =>
      if r in s.requests || row !in s.db.sessions then s
      else Goto(s, r, Revoking(s.db.sessions[row].family))
    case DeleteRows(user) => s.(db := DeleteUser(s.db, user))
    case SetAccounts(users, providers) => s.(db := s.db.(activeUsers := users, activeProviders := providers))
    case SetRecheck(row, recheckAfter) => s.(db := Recheck(s.db, row, recheckAfter))
  }

  function Run(s: State, steps: seq<Step>): State
    decreases |steps|
  {
    if steps == [] then s else Run(Apply(s, steps[0]), steps[1..])
  }

  function Initial(users: set<nat>, providers: set<nat>): State {
    State(Db(map[], users, providers), map[], {})
  }

  /** The live rows of a family, and the rotations between their claim and their insert. */
  function LiveRows(s: State, family: Id): set<Id> {
    set id | id in s.db.sessions && s.db.sessions[id].family == family && Live(s.db.sessions[id])
  }

  function InFlight(s: State, family: Id): set<nat> {
    set r | r in s.requests && s.requests[r].Inserting? && s.requests[r].seen.family == family
  }

  predicate IdsIssued(s: State) {
    && (forall id | id in s.db.sessions :: id in s.issued && s.db.sessions[id].family in s.issued)
    && (forall r | r in s.requests && s.requests[r].Claiming? :: PointsAt(s, s.requests[r].row, s.requests[r].seen))
    && (forall r | r in s.requests && s.requests[r].Inserting? :: PointsAt(s, s.requests[r].row, s.requests[r].seen))
  }

  /** A request's copy of a row names its family and its user, for as long as the row exists. */
  predicate PointsAt(s: State, row: Id, seen: Session) {
    && row in s.issued && seen.family in s.issued
    && (row in s.db.sessions ==> s.db.sessions[row].family == seen.family && s.db.sessions[row].user == seen.user)
  }

  predicate LiveRow(s: State, id: Id, family: Id) {
    id in s.db.sessions && s.db.sessions[id].family == family && Live(s.db.sessions[id])
  }

  predicate Rotating(s: State, r: nat, family: Id) {
    r in s.requests && s.requests[r].Inserting? && s.requests[r].seen.family == family
  }

  ghost predicate OneHolder(s: State, family: Id) {
    && (forall a, b | LiveRow(s, a, family) && LiveRow(s, b, family) :: a == b)
    && (forall p, q | Rotating(s, p, family) && Rotating(s, q, family) :: p == q)
    && (forall a, p | LiveRow(s, a, family) :: !Rotating(s, p, family))
  }

  ghost predicate Invariant(s: State) {
    IdsIssued(s) && forall family: Id :: OneHolder(s, family)
  }

  lemma IdsIssuedStep(s: State, step: Step)
    requires IdsIssued(s)
    ensures IdsIssued(Apply(s, step))
  {
  }

  /** A row that is live after a step was live before, is the first of a new family, or takes
      over from a rotation of its family that ends with this step. */
  lemma LiveOrigin(s: State, step: Step, id: Id, family: Id)
    requires IdsIssued(s) && LiveRow(Apply(s, step), id, family)
    ensures || LiveRow(s, id, family)
            || (step.LoginRow? && id == family == step.newId && family !in s.issued)
            || ((step.InsertRow? || step.Abort?) && Rotating(s, step.request, family) && step.request !in Apply(s, step).requests
                && id == if step.InsertRow? then step.newId else s.requests[step.request].row)
  {
  }

  /** A rotation in flight after a step was so before, or takes over from its family's live row. */
  lemma RotationOrigin(s: State, step: Step, r: nat, family: Id)
    requires IdsIssued(s) && Rotating(Apply(s, step), r, family)
    ensures || Rotating(s, r, family)
            || (step == ClaimRow(r) && r in s.requests && s.requests[r].Claiming?
                && LiveRow(s, s.requests[r].row, family) && !LiveRow(Apply(s, step), s.requests[r].row, family))
  {
  }

  lemma OneHolderStep(s: State, step: Step, family: Id)
    requires IdsIssued(s) && OneHolder(s, family)
    ensures OneHolder(Apply(s, step), family)
  {
    var t := Apply(s, step);
    forall a, b | LiveRow(t, a, family) && LiveRow(t, b, family) ensures a == b {
      NewFamilyIsEmpty(s, step, family);
      LiveOrigin(s, step, a, family);
      LiveOrigin(s, step, b, family);
    }
    forall p, q | Rotating(t, p, family) && Rotating(t, q, family) ensures p == q {
      RotationOrigin(s, step, p, family);
      RotationOrigin(s, step, q, family);
    }
    forall a, p | LiveRow(t, a, family) ensures !Rotating(t, p, family) {
      if Rotating(t, p, family) {
        NewFamilyIsEmpty(s, step, family);
        LiveOrigin(s, step, a, family);
        RotationOrigin(s, step, p, family);
        assert false;
      }
    }
  }

  lemma NewFamilyIsEmpty(s: State, step: Step, family: Id)
    requires IdsIssued(s)
    ensures family !in s.issued ==> (forall a :: !LiveRow(s, a, family)) && (forall p :: !Rotating(s, p, family))
  {
  }

  lemma InvariantStep(s: State, step: Step)
    requires Invariant(s)
    ensures Invariant(Apply(s, step))
  {
    IdsIssuedStep(s, step);
    forall family: Id ensures OneHolder(Apply(s, step), family) { OneHolderStep(s, step, family); }
  }

  lemma {:induction false} InvariantOnRuns(s: State, steps: seq<Step>)
    requires Invariant(s)
    ensures Invariant(Run(s, steps))
    decreases |steps|
  {
    if steps != [] {
      InvariantStep(s, steps[0]);
      InvariantOnRuns(Apply(s, steps[0]), steps[1..]);
    }
  }

  /** In every interleaving of the statements of any number of logins, refreshes, logouts and
      password changes, a family has at most one live row, counting a rotation between its
      claim and its insert as that one. */
  lemma AtMostOnePerFamily(users: set<nat>, providers: set<nat>, steps: seq<Step>, family: Id)
    ensures var s := Run(Initial(users, providers), steps);
            |LiveRows(s, family)| + |InFlight(s, family)| <= 1
  {
    var s := Run(Initial(users, providers), steps);
    InvariantOnRuns(Initial(users, providers), steps);
    assert OneHolder(s, family);
    assert forall a | a in LiveRows(s, family) :: LiveRow(s, a, family);
    assert forall p | p in InFlight(s, family) :: Rotating(s, p, family);
    AtMostOne(LiveRows(s, family));
    AtMostOne(InFlight(s, family));
  }

  // ------------------------------------------- what revoking a family achieves there

  predicate NoHolder(s: State, family: Id) {
    LiveRows(s, family) == {} && InFlight(s, family) == {}
  }

  lemma NoHolderMeans(s: State, family: Id)
    ensures NoHolder(s, family) <==> (forall id :: !LiveRow(s, id, family)) && (forall r :: !Rotating(s, r, family))
  {
    assert forall id :: LiveRow(s, id, family) <==> id in LiveRows(s, family);
    assert forall r :: Rotating(s, r, family) <==> r in InFlight(s, family);
  }

  /** Nobody can revive a family that has neither a live row nor a rotation in flight. */
  lemma NoHolderStep(s: State, step: Step, family: Id)
    requires IdsIssued(s) && family in s.issued && NoHolder(s, family)
    ensures family in Apply(s, step).issued && NoHolder(Apply(s, step), family)
  {
    var t := Apply(s, step);
    NoHolderMeans(s, family);
    NoHolderMeans(t, family);
    forall id ensures !LiveRow(t, id, family) { if LiveRow(t, id, family) { LiveOrigin(s, step, id, family); } }
    forall r ensures !Rotating(t, r, family) { if Rotating(t, r, family) { RotationOrigin(s, step, r, family); } }
  }

  lemma {:induction false} NoHolderOnRuns(s: State, steps: seq<Step>, family: Id)
    requires IdsIssued(s) && family in s.issued && NoHolder(s, family)
    ensures NoHolder(Run(s, steps), family)
    decreases |steps|
  {
    if steps != [] {
      NoHolderStep(s, steps[0], family);
      IdsIssuedStep(s, steps[0]);
      NoHolderOnRuns(Apply(s, steps[0]), steps[1..], family);
    }
  }

  /** Statement by statement, revoking a family is final exactly when no rotation of it stands
      between its claim and its insert: that one still inserts a live row afterwards. */
  lemma RevocationIsFinalExactlyWhen(s: State, r: nat, family: Id)
    requires IdsIssued(s) && family in s.issued && At(s, r, Revoking(family))
    ensures (forall steps: seq<Step> :: LiveRows(Run(Apply(s, RevokeRows(r)), steps), family) == {}) <==> InFlight(s, family) == {}
  {
    var t := Apply(s, RevokeRows(r));
    IdsIssuedStep(s, RevokeRows(r));
    assert LiveRows(t, family) == {};
    assert InFlight(t, family) == InFlight(s, family);
    if InFlight(s, family) == {} {
      forall steps: seq<Step> ensures LiveRows(Run(t, steps), family) == {} { NoHolderOnRuns(t, steps, family); }
    } else {
      var p :| p in InFlight(t, family);
      InsertRevives(t, p, family);
    }
  }

  lemma InsertRevives(s: State, p: nat, family: Id)
    requires Rotating(s, p, family)
    ensures exists steps: seq<Step> :: LiveRows(Run(s, steps), family) != {}
  {
    var newId := Unused(s.issued);
    var step := InsertRow(p, newId, 0);
    var t := Apply(s, step);
    assert newId !in s.issued;
    assert t == Run(t, [step][1..]) == Run(s, [step]);
    assert newId in LiveRows(t, family);
    assert LiveRows(Run(s, [step]), family) != {};
  }

  // ------------------------------------------- what a password change achieves there

  function UserRows(s: State, user: nat): set<Id> {
    set id | id in s.db.sessions && s.db.sessions[id].user == user
  }

  function UserRotations(s: State, user: nat): set<nat> {
    set r | r in s.requests && s.requests[r].Inserting? && s.requests[r].seen.user == user
  }

  /** The user does not log in again. */
  predicate NoLogin(steps: seq<Step>, user: nat) {
    forall i | 0 <= i < |steps| && steps[i].LoginRow? :: steps[i].user != user
  }

  lemma UserGoneStep(s: State, step: Step, user: nat)
    requires IdsIssued(s) && UserRows(s, user) == {} && UserRotations(s, user) == {}
    requires step.LoginRow? ==> step.user != user
    ensures UserRows(Apply(s, step), user) == {} && UserRotations(Apply(s, step), user) == {}
  {
    var t := Apply(s, step);
    forall id | id in t.db.sessions ensures t.db.sessions[id].user != user {
      if id in s.db.sessions { assert id !in UserRows(s, user); }
      if step.InsertRow? && step.request in s.requests { assert step.request !in UserRotations(s, user); }
    }
    forall r | r in t.requests && t.requests[r].Inserting? ensures t.requests[r].seen.user != user {
      assert r !in UserRotations(s, user);
      if step == ClaimRow(r) { assert s.requests[r].row !in UserRows(s, user); }
    }
  }

  lemma {:induction false} UserStaysGone(s: State, steps: seq<Step>, user: nat)
    requires IdsIssued(s) && UserRows(s, user) == {} && UserRotations(s, user) == {} && NoLogin(steps, user)
    ensures UserRows(Run(s, steps), user) == {}
    decreases |steps|
  {
    if steps != [] {
      UserGoneStep(s, steps[0], user);
      IdsIssuedStep(s, steps[0]);
      UserStaysGone(Apply(s, steps[0]), steps[1..], user);
    }
  }

  /** Statement by statement, deleting a user's sessions is final, until the user logs in again, exactly
      when no rotation of one of them stands between its claim and its insert. */
  lemma PasswordChangeIsFinalExactlyWhen(s: State, user: nat)
    requires IdsIssued(s)
    ensures (forall steps | NoLogin(steps, user) :: UserRows(Run(Apply(s, DeleteRows(user)), steps), user) == {})
            <==> UserRotations(s, user) == {}
  {
    var t := Apply(s, DeleteRows(user));
    IdsIssuedStep(s, DeleteRows(user));
    assert UserRows(t, user) == {};
    assert UserRotations(t, user) == UserRotations(s, user);
    if UserRotations(s, user) == {} {
      forall steps | NoLogin(steps, user) ensures UserRows(Run(t, steps), user) == {} { UserStaysGone(t, steps, user); }
    } else {
      var r :| r in UserRotations(t, user);
      InsertRestores(t, r, user);
    }
  }

  lemma InsertRestores(s: State, r: nat, user: nat)
    requires r in UserRotations(s, user)
    ensures exists steps :: NoLogin(steps, user) && UserRows(Run(s, steps), user) != {}
  {
    var newId := Unused(s.issued);
    var step := InsertRow(r, newId, 0);
    var t := Apply(s, step);
    assert newId !in s.issued;
    assert t == Run(t, [step][1..]) == Run(s, [step]);
    assert newId in UserRows(t, user);
    assert NoLogin([step], user) && UserRows(Run(s, [step]), user) != {};
  }

  // ------------------------------------ what a family keeps of its login, there

  function LoginRows(s: State, steps: seq<Step>, before: map<Id, Origin>): map<Id, Origin>
    decreases |steps|
  {
    if steps == [] then before else LoginRows(Apply(s, steps[0]), steps[1..], WithLogin(s, steps[0], before))
  }

  function WithLogin(s: State, step: Step, before: map<Id, Origin>): map<Id, Origin> {
    if step.LoginRow? && step.newId !in s.issued then before[step.newId := Origin(step.user, step.external)] else before
  }

  /** Rows and the copies that requests hold of them. */
  predicate AllAsLoggedIn(s: State, logins: map<Id, Origin>, exact: bool) {
    && RowsAsLoggedIn(Committed(s.db, s.issued), logins, exact)
    && forall r | r in s.requests && !s.requests[r].Revoking? :: AsLoggedIn(s.requests[r].seen, logins, exact)
  }

  lemma LoggedInStatement(s: State, step: Step, logins: map<Id, Origin>, exact: bool)
    requires AllAsLoggedIn(s, logins, exact) && (exact ==> !step.SetRecheck?)
    ensures AllAsLoggedIn(Apply(s, step), WithLogin(s, step, logins), exact)
  {
    if step.LoginRow? && step.newId !in s.issued { assert step.newId !in logins; }
  }

  lemma {:induction false} LoggedInOnStatements(s: State, steps: seq<Step>, logins: map<Id, Origin>, exact: bool)
    requires AllAsLoggedIn(s, logins, exact)
    requires exact ==> forall i | 0 <= i < |steps| :: !steps[i].SetRecheck?
    ensures AllAsLoggedIn(Run(s, steps), LoginRows(s, steps, logins), exact)
    decreases |steps|
  {
    if steps != [] {
      LoggedInStatement(s, steps[0], logins, exact);
      LoggedInOnStatements(Apply(s, steps[0]), steps[1..], WithLogin(s, steps[0], logins), exact);
    }
  }

  /** The same in every interleaving of single statements. */
  lemma InterleavedFamilyKeepsItsLogin(users: set<nat>, providers: set<nat>, steps: seq<Step>, id: Id)
    requires id in Run(Initial(users, providers), steps).db.sessions
    ensures var row, logins := Run(Initial(users, providers), steps).db.sessions[id], LoginRows(Initial(users, providers), steps, map[]);
            && row.family in logins
            && row.user == logins[row.family].user
            && ProviderOf(row.external) == ProviderOf(logins[row.family].external)
            && ((forall i | 0 <= i < |steps| :: !steps[i].SetRecheck?) ==> row.external == logins[row.family].external)
  {
    LoggedInOnStatements(Initial(users, providers), steps, map[], false);
    if forall i | 0 <= i < |steps| :: !steps[i].SetRecheck? {
      LoggedInOnStatements(Initial(users, providers), steps, map[], true);
    }
  }

  // --------------------------------------------------------- the two machines agree

  /** Running one refresh without interruption is the transaction: same rows, and the request
      ends exactly when it is invalid, has inserted, or has revoked. */
  lemma UninterruptedRefresh(s: State, r: nat, token: Token, now: int, newId: Id, expiresAt: int)
    requires r !in s.requests && newId !in s.issued
    ensures var steps := [ReadForRefresh(r, token, now), ClaimRow(r), RereadRow(r), InsertRow(r, newId, expiresAt), RevokeRows(r)];
            && Run(s, steps).db == Refresh(s.db, token, now, newId, expiresAt).0
            && Run(s, steps).requests == s.requests
            && (Run(s, steps).issued == s.issued + {newId} <==> Refresh(s.db, token, now, newId, expiresAt).1.Rotated?)
  {
    var a := Apply(s, ReadForRefresh(r, token, now));
    var b := Apply(a, ClaimRow(r));
    var c := Apply(b, RereadRow(r));
    var d := Apply(c, InsertRow(r, newId, expiresAt));
    var e := Apply(d, RevokeRows(r));
    var steps := [ReadForRefresh(r, token, now), ClaimRow(r), RereadRow(r), InsertRow(r, newId, expiresAt), RevokeRows(r)];
    FiveSteps(s, steps);
    assert Run(s, steps) == e;
    assert e.requests == s.requests;
  }

  /** Logging out without interruption is its transaction. */
  lemma UninterruptedLogout(s: State, r: nat, row: Id)
    requires r !in s.requests
    ensures var t := Apply(Apply(s, ReadForLogout(r, row)), RevokeRows(r));
            && t == s.(db := Logout(s.db, row))
            && (row in s.db.sessions ==> RevokedOnly(s.db.sessions, t.db.sessions, s.db.sessions[row].family))
            && (row !in s.db.sessions ==> t == s)
  {
    var t := Apply(Apply(s, ReadForLogout(r, row)), RevokeRows(r));
    assert t.requests == s.requests;
  }

  /** Of two refreshes that read the same live row, the second to claim it ends as a reuse: the family
      is revoked, and only the winner's insert is still to come. */
  lemma LoserOfRaceRevokes(s: State, p: nat, q: nat, row: Id, now: int, now': int)
    requires p != q && row in s.db.sessions && Claimable(s.db, row, now)
    requires At(s, p, Claiming(row, now, s.db.sessions[row])) && At(s, q, Claiming(row, now', s.db.sessions[row]))
    ensures var t := Apply(Apply(Apply(Apply(s, ClaimRow(p)), ClaimRow(q)), RereadRow(q)), RevokeRows(q));
            && At(t, p, Inserting(row, s.db.sessions[row])) && q !in t.requests
            && t.db.sessions.Keys == s.db.sessions.Keys
            && t.db.sessions[row].rotated
            && (forall id | id in t.db.sessions && t.db.sessions[id].family == s.db.sessions[row].family :: t.db.sessions[id].revoked)
  {
    var a := Apply(s, ClaimRow(p));
    var b := Apply(a, ClaimRow(q));
    assert At(b, q, Rereading(row, s.db.sessions[row]));
    var c := Apply(b, RereadRow(q));
    assert At(c, q, Revoking(s.db.sessions[row].family));
  }

  /** A transaction that is rolled back after its claim leaves the rows as they were. */
  lemma AbortUndoesClaim(s: State, r: nat)
    requires r in s.requests && s.requests[r].Claiming? && Claimable(s.db, s.requests[r].row, s.requests[r].now)
    ensures Apply(Apply(s, ClaimRow(r)), Abort(r)) == Finish(s, r)
  {
    var t := Apply(Apply(s, ClaimRow(r)), Abort(r));
    assert t.db.sessions == s.db.sessions;
    assert t.requests == s.requests - {r};
  }

  lemma FiveSteps(s: State, steps: seq<Step>)
    requires |steps| == 5
    ensures Run(s, steps) == Apply(Apply(Apply(Apply(Apply(s, steps[0]), steps[1]), steps[2]), steps[3]), steps[4])
  {
    var a := Apply(s, steps[0]);
    var b := Apply(a, steps[1]);
    var c := Apply(b, steps[2]);
    var d := Apply(c, steps[3]);
    var e := Apply(d, steps[4]);
    assert Run(e, steps[1..][1..][1..][1..][1..]) == e;
    assert Run(d, steps[1..][1..][1..][1..]) == e;
    assert Run(c, steps[1..][1..][1..]) == e;
    assert Run(b, steps[1..][1..]) == e;
    assert Run(a, steps[1..]) == e;
  }
}
