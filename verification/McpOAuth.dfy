/** The OAuth server for MCP clients (mcp-oauth.service.ts): authorization requests, one-time
    codes and rotating refresh tokens, none of it inside a transaction except the approval.

    Every database statement is one step; requests of any number of users and clients, token
    revocation, the clean-up job and crashes interleave freely.  Codes and tokens are identified
    with the rows their hashes find; a PKCE proof is the hash of the presented verifier. */
module McpOAuth {
  import opened Options
  import opened Collections

  type Id = nat

  const RETENTION_MS: int := 30 * 24 * 60 * 60 * 1000

  /** What a user has agreed to. */
  datatype Grant = Grant(user: nat, client: nat, resource: nat, scopes: seq<string>)

  datatype AuthRequest = AuthRequest(
    client: nat, redirect: nat, challenge: nat, resource: nat, scopes: seq<string>, expiresAt: int)

  datatype Code = Code(grant: Grant, redirect: nat, challenge: nat, expiresAt: int, usedAt: Option<int>)

  datatype RefreshRow = RefreshRow(
    grant: Grant, family: Id, expiresAt: int, revokedAt: Option<int>, rotatedAt: Option<int>)

  /** What an access token was issued in exchange for. */
  datatype Source = FromCode(code: Id) | FromRefresh(row: Id)

  datatype Access = Access(grant: Grant, source: Source)

  datatype Tables = Tables(
    requests: map<Id, AuthRequest>,
    codes: map<Id, Code>,
    refresh: map<Id, RefreshRow>,
    access: seq<Access>)

  // ------------------------------------------------------------- the statements

  function GrantOf(request: AuthRequest, user: nat): Grant {
    Grant(user, request.client, request.resource, request.scopes)
  }

  function CodeFor(request: AuthRequest, user: nat, expiresAt: int): Code {
    Code(GrantOf(request, user), request.redirect, request.challenge, expiresAt, None)
  }

  function DeleteRequest(t: Tables, id: Id): Tables {
    t.(requests := t.requests - {id})
  }

  function AddCode(t: Tables, id: Id, code: Code): Tables {
    t.(codes := t.codes[id := code])
  }

  predicate CodeClaimable(t: Tables, id: Id) {
    id in t.codes && t.codes[id].usedAt.None?
  }

  function ClaimCode(t: Tables, id: Id, now: int): Tables
    requires id in t.codes
  {
    t.(codes := t.codes[id := t.codes[id].(usedAt := Some(now))])
  }

  predicate RefreshClaimable(t: Tables, id: Id) {
    id in t.refresh && t.refresh[id].revokedAt.None? && t.refresh[id].rotatedAt.None?
  }

  function ClaimRefresh(t: Tables, id: Id, now: int): Tables
    requires id in t.refresh
  {
    t.(refresh := t.refresh[id := t.refresh[id].(revokedAt := Some(now), rotatedAt := Some(now))])
  }

  function AddAccess(t: Tables, grant: Grant, source: Source): Tables {
    t.(access := t.access + [Access(grant, source)])
  }

  function AddRefresh(t: Tables, id: Id, grant: Grant, family: Id, expiresAt: int): Tables {
    t.(refresh := t.refresh[id := RefreshRow(grant, family, expiresAt, None, None)])
  }

  function Revoked(row: RefreshRow, now: int): RefreshRow {
    if row.revokedAt.None? then row.(revokedAt := Some(now)) else row
  }

  function RevokeFamily(t: Tables, family: Id, now: int): Tables {
    t.(refresh := map id | id in t.refresh ::
      if t.refresh[id].family == family then Revoked(t.refresh[id], now) else t.refresh[id])
  }

  function RevokeRow(t: Tables, id: Id, now: int): Tables {
    if id in t.refresh then t.(refresh := t.refresh[id := Revoked(t.refresh[id], now)]) else t
  }

  function CleanRequests(t: Tables, now: int): Tables {
    t.(requests := map id | id in t.requests && t.requests[id].expiresAt >= now :: t.requests[id])
  }

  function CleanCodes(t: Tables, now: int): Tables {
    t.(codes := map id | id in t.codes && t.codes[id].expiresAt >= now :: t.codes[id])
  }

  predicate Outdated(row: RefreshRow, now: int) {
    row.expiresAt < now || (row.revokedAt.Some? && row.revokedAt.value < now - RETENTION_MS)
  }

  function CleanRefresh(t: Tables, now: int): Tables {
    t.(refresh := map id | id in t.refresh && !Outdated(t.refresh[id], now) :: t.refresh[id])
  }

  // -------------------------------------------------------------- the decisions

  datatype CodeForm = CodeForm(code: Id, client: nat, redirect: nat, resource: nat, proof: nat)

  datatype RefreshForm = RefreshForm(row: Id, client: nat, resource: Option<nat>)

  predicate CodeAccepted(t: Tables, form: CodeForm, now: int) {
    && form.code in t.codes
    && var code := t.codes[form.code];
       && code.usedAt.None? && code.expiresAt > now
       && code.grant.client == form.client && code.redirect == form.redirect
       && code.grant.resource == form.resource && code.challenge == form.proof
  }

  predicate RefreshReused(t: Tables, form: RefreshForm) {
    form.row in t.refresh && t.refresh[form.row].rotatedAt.Some?
  }

  predicate RefreshAccepted(t: Tables, form: RefreshForm, now: int) {
    && form.row in t.refresh
    && var row := t.refresh[form.row];
       && row.rotatedAt.None? && row.revokedAt.None? && row.expiresAt > now
       && row.grant.client == form.client
       && (form.resource.Some? ==> form.resource.value == row.grant.resource)
  }

  predicate RequestAccepted(t: Tables, id: Id, now: int) {
    id in t.requests && t.requests[id].expiresAt > now
  }

  /** Revoking one token, for the client that presents it if it names itself. */
  function RevokedFor(t: Tables, row: Id, client: Option<nat>, now: int): Tables {
    if row in t.refresh && (client.Some? ==> t.refresh[row].grant.client == client.value) then RevokeRow(t, row, now) else t
  }

  /** The clean-up of all three tables, as one call does it. */
  function Cleaned(t: Tables, now: int): Tables {
    CleanRefresh(CleanCodes(CleanRequests(t, now), now), now)
  }

  /** Cleaning up never changes what is accepted afterwards; what it ends is the detection of reuse,
      exactly for the outdated rows. */
  lemma CleanupIsInvisible(t: Tables, now: int, later: int, request: Id, code: CodeForm, form: RefreshForm)
    requires now <= later
    ensures RequestAccepted(Cleaned(t, now), request, later) <==> RequestAccepted(t, request, later)
    ensures CodeAccepted(Cleaned(t, now), code, later) <==> CodeAccepted(t, code, later)
    ensures RefreshAccepted(Cleaned(t, now), form, later) <==> RefreshAccepted(t, form, later)
    ensures RefreshReused(Cleaned(t, now), form) <==> RefreshReused(t, form) && !Outdated(t.refresh[form.row], now)
  {
  }

  // ------------------------------------------------- what the service promises

  /** Approving replaces a request that has not expired by one unused code for what was asked. */
  predicate ApproveMeans(
      before: Tables, id: Id, user: nat, newCode: Id, codeExpiresAt: int, now: int, approved: bool, after: Tables)
  {
    if id in before.requests && now < before.requests[id].expiresAt then
      var asked := before.requests[id];
      && approved
      && after == before.(
           requests := before.requests - {id},
           codes := before.codes[newCode :=
             Code(Grant(user, asked.client, asked.resource, asked.scopes), asked.redirect, asked.challenge, codeExpiresAt, None)])
    else !approved && after == before
  }

  /** A code is exchanged exactly when it is unused and unexpired and the form repeats client, redirect and
      resource and proves the challenge; it is then used up, and the tokens carry its grant. */
  predicate ExchangeCodeMeans(
      before: Tables, form: CodeForm, newFamily: Id, newRow: Id, expiresAt: int, now: int, issued: bool, after: Tables)
  {
    if && form.code in before.codes
       && before.codes[form.code].usedAt == None && now < before.codes[form.code].expiresAt
       && form.client == before.codes[form.code].grant.client && form.redirect == before.codes[form.code].redirect
       && form.resource == before.codes[form.code].grant.resource && form.proof == before.codes[form.code].challenge
    then
      var code := before.codes[form.code];
      && issued
      && after == before.(
           codes := before.codes[form.code := code.(usedAt := Some(now))],
           access := before.access + [Access(code.grant, FromCode(form.code))],
           refresh := before.refresh[newRow := RefreshRow(code.grant, newFamily, expiresAt, None, None)])
    else !issued && after == before
  }

  /** A rotated token revokes what is left of its family, whatever else the form says; any other is exchanged exactly when it is
      neither revoked nor expired and the form names its client and no other resource. */
  predicate ExchangeRefreshMeans(
      before: Tables, form: RefreshForm, newRow: Id, expiresAt: int, now: int, issued: bool, after: Tables)
  {
    if form.row in before.refresh && before.refresh[form.row].rotatedAt != None then
      var family := before.refresh[form.row].family;
      !issued && after == before.(
        refresh := map id | id in before.refresh ::
          if before.refresh[id].family == family && before.refresh[id].revokedAt == None
          then before.refresh[id].(revokedAt := Some(now)) else before.refresh[id])
    else if && form.row in before.refresh
            && before.refresh[form.row].revokedAt == None && now < before.refresh[form.row].expiresAt
            && form.client == before.refresh[form.row].grant.client
            && (form.resource == None || form.resource == Some(before.refresh[form.row].grant.resource))
    then
      var row := before.refresh[form.row];
      && issued
      && after == before.(
           access := before.access + [Access(row.grant, FromRefresh(form.row))],
           refresh := before.refresh[form.row := row.(revokedAt := Some(now), rotatedAt := Some(now))]
                                    [newRow := RefreshRow(row.grant, row.family, expiresAt, None, None)])
    else !issued && after == before
  }

  // ------------------------------------------- the service methods, uninterrupted

  class OAuthService {
    var requests: map<Id, AuthRequest>
    var codes: map<Id, Code>
    var refresh: map<Id, RefreshRow>
    var access: seq<Access>

    function View(): Tables
      reads this
    {
      Tables(requests, codes, refresh, access)
    }

    method Approve(id: Id, user: nat, newCode: Id, codeExpiresAt: int, now: int) returns (approved: bool)
      modifies this
      ensures ApproveMeans(old(View()), id, user, newCode, codeExpiresAt, now, approved, View())
    {
      if id !in requests || requests[id].expiresAt <= now { return false; }
      var request := requests[id];
      requests := requests - {id};
      codes := codes[newCode := CodeFor(request, user, codeExpiresAt)];
      return true;
    }

    method Deny(id: Id) returns (denied: bool)
      modifies this
      ensures denied <==> id in old(requests)
      ensures View() == old(View()).(requests := old(requests) - {id})
    {
      if id !in requests { return false; }
      requests := requests - {id};
      return true;
    }

    method IssueTokens(grant: Grant, source: Source, family: Id, newRow: Id, expiresAt: int)
      modifies this
      ensures access == old(access) + [Access(grant, source)]
      ensures refresh == old(refresh)[newRow := RefreshRow(grant, family, expiresAt, None, None)]
      ensures requests == old(requests) && codes == old(codes)
    {
      access := access + [Access(grant, source)];
      refresh := refresh[newRow := RefreshRow(grant, family, expiresAt, None, None)];
    }

    method ExchangeCode(form: CodeForm, newFamily: Id, newRow: Id, expiresAt: int, now: int) returns (issued: bool)
      modifies this
      ensures ExchangeCodeMeans(old(View()), form, newFamily, newRow, expiresAt, now, issued, View())
    {
      if !CodeAccepted(View(), form, now) { return false; }
      var record := codes[form.code];
      codes := codes[form.code := record.(usedAt := Some(now))];
      IssueTokens(record.grant, FromCode(form.code), newFamily, newRow, expiresAt);
      return true;
    }

    method ExchangeRefreshToken(form: RefreshForm, newRow: Id, expiresAt: int, now: int) returns (issued: bool)
      modifies this
      ensures ExchangeRefreshMeans(old(View()), form, newRow, expiresAt, now, issued, View())
    {
      if form.row in refresh && refresh[form.row].rotatedAt.Some? {
        var family := refresh[form.row].family;
        var hit := set id | id in refresh && refresh[id].family == family && refresh[id].revokedAt.None?;
        refresh := map id | id in refresh :: if id in hit then refresh[id].(revokedAt := Some(now)) else refresh[id];
        return false;
      }
      if !RefreshAccepted(View(), form, now) { return false; }
      var record := refresh[form.row];
      refresh := refresh[form.row := record.(revokedAt := Some(now), rotatedAt := Some(now))];
      IssueTokens(record.grant, FromRefresh(form.row), record.family, newRow, expiresAt);
      return true;
    }

    method Revoke(row: Id, client: Option<nat>, now: int)
      modifies this
      ensures View() == RevokedFor(old(View()), row, client, now)
      ensures forall id | id in old(refresh) :: id in refresh && refresh[id] ==
                if id == row && old(refresh)[id].revokedAt == None && (client == None || client == Some(old(refresh)[id].grant.client))
                then old(refresh)[id].(revokedAt := Some(now)) else old(refresh)[id]
    {
      if row in refresh && (client.Some? ==> refresh[row].grant.client == client.value) {
        if refresh[row].revokedAt.None? { refresh := refresh[row := refresh[row].(revokedAt := Some(now))]; }
      }
    }

    method CleanupExpired(now: int)
      modifies this
      ensures View() == Cleaned(old(View()), now)
      ensures forall id :: id in requests <==> id in old(requests) && now <= old(requests)[id].expiresAt
      ensures forall id :: id in codes <==> id in old(codes) && now <= old(codes)[id].expiresAt
      ensures forall id :: id in refresh <==>
                && id in old(refresh) && now <= old(refresh)[id].expiresAt
                && (old(refresh)[id].revokedAt == None || now <= old(refresh)[id].revokedAt.value + 2592000000)
    {
      requests := map id | id in requests && requests[id].expiresAt >= now :: requests[id];
      codes := map id | id in codes && codes[id].expiresAt >= now :: codes[id];
      refresh := map id | id in refresh && !Outdated(refresh[id], now) :: refresh[id];
    }
  }

  // ---------------------------------------------------- interleaved statements

  /** Where a service call stands between two of its statements. */
  datatype Call =
    | Approving(request: Id, user: nat, asked: AuthRequest)
    | Denying(request: Id)
    | ClaimingCode(code: Id, record: Code)
    | ClaimingRefresh(row: Id, seen: RefreshRow)
    | Issuing(source: Source, grant: Grant, family: Id)
    | AccessIssued(source: Source, grant: Grant, family: Id)
    | RevokingFamily(family: Id)
    | RevokingRow(row: Id)

  /** `resolved` and `claimed` record history: which requests were approved or denied, and which codes
      and tokens were claimed. */
  datatype State = State(
    now: int,
    tables: Tables,
    calls: map<nat, Call>,
    issued: set<Id>,
    resolved: seq<Id>,
    claimed: seq<Source>)

  datatype Step =
    | Tick(delta: nat)
    | StartAuthorization(newId: Id, asked: AuthRequest)
    | ReadForApprove(call: nat, request: Id, user: nat)
    | CommitApproval(call: nat, newId: Id, expiresAt: int)
    | ReadForDeny(call: nat, request: Id)
    | CommitDenial(call: nat)
    | ReadForCode(call: nat, code: CodeForm)
    | ClaimTheCode(call: nat, newId: Id)
    | ReadForRefresh(call: nat, form: RefreshForm)
    | ClaimTheRefresh(call: nat)
    | CreateAccess(call: nat)
    | CreateRefresh(call: nat, newId: Id, expiresAt: int)
    | RevokeTheFamily(call: nat)
    | ReadForRevoke(call: nat, row: Id, client: Option<nat>)
    | RevokeTheRow(call: nat)
    | CleanupRequests(at: int)
    | CleanupCodes(at: int)
    | CleanupRefresh(at: int)
    | DropClient(dropped: nat)
    | Crash(call: nat)

  function Initial(now: int): State {
    State(now, Tables(map[], map[], map[], []), map[], {}, [], [])
  }

  function Goto(s: State, c: nat, call: Call): State { s.(calls := s.calls[c := call]) }

  function Finish(s: State, c: nat): State { s.(calls := s.calls - {c}) }

  /** Deleting a client deletes its rows in all three tables. */
  function WithoutClient(t: Tables, client: nat): Tables {
    t.(requests := map id | id in t.requests && t.requests[id].client != client :: t.requests[id],
       codes := map id | id in t.codes && t.codes[id].grant.client != client :: t.codes[id],
       refresh := map id | id in t.refresh && t.refresh[id].grant.client != client :: t.refresh[id])
  }

  /** Whether the call is at this statement. */
  predicate Ready(s: State, step: Step) {
    match step
    case CommitApproval(c, _, _) => c in s.calls && s.calls[c].Approving?
    case CommitDenial(c) => c in s.calls && s.calls[c].Denying?
    case ClaimTheCode(c, _) => c in s.calls && s.calls[c].ClaimingCode?
    case ClaimTheRefresh(c) => c in s.calls && s.calls[c].ClaimingRefresh?
    case CreateAccess(c) => c in s.calls && s.calls[c].Issuing?
    case CreateRefresh(c, _, _) => c in s.calls && s.calls[c].AccessIssued?
    case RevokeTheFamily(c) => c in s.calls && s.calls[c].RevokingFamily?
    case RevokeTheRow(c) => c in s.calls && s.calls[c].RevokingRow?
    case ReadForApprove(c, _, _) => c !in s.calls
    case ReadForDeny(c, _) => c !in s.calls
    case ReadForCode(c, _) => c !in s.calls
    case ReadForRefresh(c, _) => c !in s.calls
    case ReadForRevoke(c, _, _) => c !in s.calls
    case _ => true
  }

  /** New rows and families take ids that were never used. */
  predicate NewIdUnused(s: State, step: Step) {
    step.StartAuthorization? || step.CommitApproval? || step.ClaimTheCode? || step.CreateRefresh? ==> step.newId !in s.issued
  }

  function Apply(s: State, step: Step): State {
    if Ready(s, step) && NewIdUnused(s, step) then Perform(s, step) else s
  }

  function Perform(s: State, step: Step): State
    requires Ready(s, step)
  {
    match step
    case Tick(delta) => s.(now := s.now + delta)
    case StartAuthorization(newId, request) =>
      s.(tables := s.tables.(requests := s.tables.requests[newId := request]), issued := s.issued + {newId})
    case ReadForApprove(c, id, user) =>
      if id in s.tables.requests && s.tables.requests[id].expiresAt > s.now
      then Goto(s, c, Approving(id, user, s.tables.requests[id])) else s
    case CommitApproval(c, newId, expiresAt) =>
      var call := s.calls[c];
      if call.request !in s.tables.requests then Finish(s, c)
      else
        Finish(s, c).(
          tables := AddCode(DeleteRequest(s.tables, call.request), newId, CodeFor(call.asked, call.user, expiresAt)),
          issued := s.issued + {newId},
          resolved := s.resolved + [call.request])
    case ReadForDeny(c, id) => if id in s.tables.requests then Goto(s, c, Denying(id)) else s
    case CommitDenial(c) =>
      var id := s.calls[c].request;
      if id !in s.tables.requests then Finish(s, c)
      else Finish(s, c).(tables := DeleteRequest(s.tables, id), resolved := s.resolved + [id])
    case ReadForCode(c, form) =>
      if CodeAccepted(s.tables, form, s.now) then Goto(s, c, ClaimingCode(form.code, s.tables.codes[form.code])) else s
    case ClaimTheCode(c, newId) =>
      var call := s.calls[c];
      if !CodeClaimable(s.tables, call.code) then Finish(s, c)
      else
        Goto(s, c, Issuing(FromCode(call.code), call.record.grant, newId)).(
          tables := ClaimCode(s.tables, call.code, s.now), issued := s.issued + {newId}, claimed := s.claimed + [FromCode(call.code)])
    case ReadForRefresh(c, form) =>
      if RefreshReused(s.tables, form) then Goto(s, c, RevokingFamily(s.tables.refresh[form.row].family))
      else if RefreshAccepted(s.tables, form, s.now) then Goto(s, c, ClaimingRefresh(form.row, s.tables.refresh[form.row]))
      else s
    case ClaimTheRefresh(c) =>
      var call := s.calls[c];
      if !RefreshClaimable(s.tables, call.row) then Finish(s, c)
      else
        Goto(s, c, Issuing(FromRefresh(call.row), call.seen.grant, call.seen.family)).(
          tables := ClaimRefresh(s.tables, call.row, s.now), claimed := s.claimed + [FromRefresh(call.row)])
    case CreateAccess(c) =>
      var call := s.calls[c];
      Goto(s, c, AccessIssued(call.source, call.grant, call.family)).(tables := AddAccess(s.tables, call.grant, call.source))
    case CreateRefresh(c, newId, expiresAt) =>
      var call := s.calls[c];
      Finish(s, c).(tables := AddRefresh(s.tables, newId, call.grant, call.family, expiresAt), issued := s.issued + {newId})
    case RevokeTheFamily(c) => Finish(s, c).(tables := RevokeFamily(s.tables, s.calls[c].family, s.now))
    case ReadForRevoke(c, row, client) =>
      if row in s.tables.refresh && (client.Some? ==> s.tables.refresh[row].grant.client == client.value)
      then Goto(s, c, RevokingRow(row)) else s
    case RevokeTheRow(c) => Finish(s, c).(tables := RevokeRow(s.tables, s.calls[c].row, s.now))
    case CleanupRequests(at) => s.(tables := CleanRequests(s.tables, at))
    case CleanupCodes(at) => s.(tables := CleanCodes(s.tables, at))
    case CleanupRefresh(at) => s.(tables := CleanRefresh(s.tables, at))
    case DropClient(client) => s.(tables := WithoutClient(s.tables, client))
    case Crash(c) => Finish(s, c)
  }

  function Run(s: State, steps: seq<Step>): State
    decreases |steps|
  {
    if steps == [] then s else Run(Apply(s, steps[0]), steps[1..])
  }

  // ------------------------------------------------------------ what is kept

  predicate Distinct<T(==)>(s: seq<T>) {
    forall i, j | 0 <= i < j < |s| :: s[i] != s[j]
  }

  function SourceId(source: Source): Id {
    if source.FromCode? then source.code else source.row
  }

  /** A code that was used, a refresh token that was rotated, or either of them deleted. */
  predicate Consumed(t: Tables, source: Source) {
    match source
    case FromCode(id) => id in t.codes ==> t.codes[id].usedAt.Some?
    case FromRefresh(id) => id in t.refresh ==> t.refresh[id].rotatedAt.Some? && t.refresh[id].revokedAt.Some?
  }

  predicate InExchange(s: State, c: nat) {
    c in s.calls && (s.calls[c].Issuing? || s.calls[c].AccessIssued?)
  }

  predicate Sourced(t: Tables, source: Source) {
    exists i :: 0 <= i < |t.access| && t.access[i].source == source
  }

  /** Every id in use was issued. */
  predicate IdsIssued(s: State) {
    RowsIssued(s) && HistoryIssued(s) && forall c | c in s.calls :: CallIssued(s, s.calls[c])
  }

  predicate RowsIssued(s: State) {
    && (forall id | id in s.tables.requests :: id in s.issued)
    && (forall id | id in s.tables.codes :: id in s.issued)
    && (forall id | id in s.tables.refresh :: id in s.issued && s.tables.refresh[id].family in s.issued)
  }

  predicate HistoryIssued(s: State) {
    && (forall i | 0 <= i < |s.resolved| :: s.resolved[i] in s.issued)
    && (forall i | 0 <= i < |s.claimed| :: SourceId(s.claimed[i]) in s.issued)
  }

  predicate CallIssued(s: State, call: Call) {
    match call
    case ClaimingCode(code, _) => code in s.issued
    case ClaimingRefresh(row, seen) =>
      row in s.issued && seen.family in s.issued
      && (row in s.tables.refresh ==> s.tables.refresh[row].family == seen.family && s.tables.refresh[row].grant == seen.grant)
    case Issuing(_, _, family) => family in s.issued
    case AccessIssued(_, _, family) => family in s.issued
    case Approving(id, _, seen) => id in s.issued && (id in s.tables.requests ==> s.tables.requests[id] == seen)
    case Denying(id) => id in s.issued
    case _ => true
  }

  /** Requests are resolved once and are gone afterwards. */
  predicate ResolvedOnce(s: State) {
    Distinct(s.resolved) && forall i | 0 <= i < |s.resolved| :: s.resolved[i] !in s.tables.requests
  }

  /** Codes and refresh tokens are claimed once and are consumed afterwards. */
  predicate ClaimedOnce(s: State) {
    Distinct(s.claimed) && forall i | 0 <= i < |s.claimed| :: Consumed(s.tables, s.claimed[i])
  }

  /** No two access tokens have the same source, and each source was claimed. */
  predicate AccessOnce(s: State) {
    && (forall i, j | 0 <= i < j < |s.tables.access| :: s.tables.access[i].source != s.tables.access[j].source)
    && (forall i | 0 <= i < |s.tables.access| :: s.tables.access[i].source in s.claimed)
  }

  /** Whoever issues for a source holds its only claim, and has not yet created the access token
      unless past that statement. */
  ghost predicate ExchangesApart(s: State) {
    && (forall c | InExchange(s, c) :: s.calls[c].source in s.claimed)
    && (forall c, d | InExchange(s, c) && InExchange(s, d) && c != d :: s.calls[c].source != s.calls[d].source)
    && (forall c | InExchange(s, c) && s.calls[c].Issuing? :: !Sourced(s.tables, s.calls[c].source))
  }

  lemma RowsIssuedStep(s: State, step: Step)
    requires IdsIssued(s)
    ensures RowsIssued(Apply(s, step))
  {
    RequestsIssuedStep(s, step);
    RefreshIssuedStep(s, step);
  }

  lemma RequestsIssuedStep(s: State, step: Step)
    requires IdsIssued(s)
    ensures var t := Apply(s, step);
            && (forall id | id in t.tables.requests :: id in t.issued)
            && (forall id | id in t.tables.codes :: id in t.issued)
  {
    hide CallIssued, HistoryIssued;
  }

  /** A refresh token was there before, of the same grant and family, or was just created. */
  lemma RefreshOrigin(s: State, step: Step, id: Id)
    requires id in Apply(s, step).tables.refresh
    ensures var row := Apply(s, step).tables.refresh[id];
            || (id in s.tables.refresh && row.grant == s.tables.refresh[id].grant && row.family == s.tables.refresh[id].family)
            || (step.CreateRefresh? && InExchange(s, step.call) && id == step.newId && id in Apply(s, step).issued
                && row.grant == s.calls[step.call].grant && row.family == s.calls[step.call].family)
    ensures s.issued <= Apply(s, step).issued
  {
  }

  lemma RefreshIssuedStep(s: State, step: Step)
    requires IdsIssued(s)
    ensures var t := Apply(s, step);
            forall id | id in t.tables.refresh :: id in t.issued && t.tables.refresh[id].family in t.issued
  {
    hide HistoryIssued, Apply;
    var t := Apply(s, step);
    forall id | id in t.tables.refresh ensures id in t.issued && t.tables.refresh[id].family in t.issued {
      RefreshOrigin(s, step, id);
      if step.CreateRefresh? && InExchange(s, step.call) { assert CallIssued(s, s.calls[step.call]); }
    }
  }

  lemma HistoryIssuedStep(s: State, step: Step)
    requires IdsIssued(s)
    ensures HistoryIssued(Apply(s, step))
  {
  }

  /** What holds of a waiting call stays true, whatever others do to the rows it has read. */
  lemma CallStaysIssued(s: State, step: Step, call: Call)
    requires RowsIssued(s) && CallIssued(s, call)
    ensures CallIssued(Apply(s, step), call)
  {
    hide Apply, RowsIssued;
    var t := Apply(s, step);
    IssuedGrows(s, step);
    match call
    case ClaimingRefresh(row, _) =>
      if row in t.tables.refresh { RefreshStays(s, step, row); }
    case Approving(id, _, _) =>
      if id in t.tables.requests { RequestOrigin(s, step, id); }
    case _ =>
  }

  /** A row of an id that was in use was there before, of the same grant and family. */
  lemma RefreshStays(s: State, step: Step, id: Id)
    requires id in s.issued && id in Apply(s, step).tables.refresh
    ensures var row := Apply(s, step).tables.refresh[id];
            id in s.tables.refresh && row.grant == s.tables.refresh[id].grant && row.family == s.tables.refresh[id].family
  {
  }

  lemma NewCallIssued(s: State, step: Step, c: nat)
    requires IdsIssued(s) && c in Apply(s, step).calls && !(c in s.calls && s.calls[c] == Apply(s, step).calls[c])
    ensures CallIssued(Apply(s, step), Apply(s, step).calls[c])
  {
    if c in s.calls { assert CallIssued(s, s.calls[c]); }
  }

  lemma CallIssuedStep(s: State, step: Step, c: nat)
    requires IdsIssued(s) && c in Apply(s, step).calls
    ensures CallIssued(Apply(s, step), Apply(s, step).calls[c])
  {
    hide Apply, CallIssued;
    if c in s.calls && s.calls[c] == Apply(s, step).calls[c] { CallStaysIssued(s, step, s.calls[c]); } else { NewCallIssued(s, step, c); }
  }

  lemma IdsIssuedStep(s: State, step: Step)
    requires IdsIssued(s)
    ensures IdsIssued(Apply(s, step))
  {
    RowsIssuedStep(s, step);
    HistoryIssuedStep(s, step);
    forall c | c in Apply(s, step).calls ensures CallIssued(Apply(s, step), Apply(s, step).calls[c]) { CallIssuedStep(s, step, c); }
  }

  lemma ResolvedOnceStep(s: State, step: Step)
    requires IdsIssued(s) && ResolvedOnce(s)
    ensures ResolvedOnce(Apply(s, step))
  {
  }

  lemma ConsumedStays(s: State, step: Step, source: Source)
    requires SourceId(source) in s.issued && Consumed(s.tables, source)
    ensures Consumed(Apply(s, step).tables, source)
  {
  }

  lemma ClaimedOnceStep(s: State, step: Step)
    requires IdsIssued(s) && ClaimedOnce(s)
    ensures ClaimedOnce(Apply(s, step))
  {
    forall i | 0 <= i < |s.claimed| ensures Consumed(Apply(s, step).tables, s.claimed[i]) { ConsumedStays(s, step, s.claimed[i]); }
  }

  /** A call that issues for a source did so before, or has just claimed it. */
  lemma ExchangeOrigin(s: State, step: Step, c: nat)
    requires ClaimedOnce(s) && InExchange(Apply(s, step), c)
    ensures var t := Apply(s, step);
            || (InExchange(s, c) && s.calls[c] == t.calls[c] && t.tables.access == s.tables.access)
            || (InExchange(s, c) && s.calls[c] == t.calls[c] && step.CreateAccess? && step.call != c)
            || (step == CreateAccess(c) && InExchange(s, c) && s.calls[c].Issuing? && t.calls[c].AccessIssued?
                && s.calls[c].source == t.calls[c].source)
            || ((step.ClaimTheCode? || step.ClaimTheRefresh?) && step.call == c && t.calls[c].Issuing?
                && t.calls[c].source !in s.claimed && t.claimed == s.claimed + [t.calls[c].source]
                && t.tables.access == s.tables.access)
  {
  }

  lemma AccessOrigin(s: State, step: Step)
    ensures var t := Apply(s, step);
            && s.claimed <= t.claimed
            && (|| t.tables.access == s.tables.access
                || (step.CreateAccess? && InExchange(s, step.call) && s.calls[step.call].Issuing?
                    && t.tables.access == s.tables.access + [Access(s.calls[step.call].grant, s.calls[step.call].source)]))
  {
  }

  lemma AccessOnceStep(s: State, step: Step)
    requires AccessOnce(s) && ExchangesApart(s)
    ensures AccessOnce(Apply(s, step))
  {
    AccessOrigin(s, step);
    var t := Apply(s, step);
    forall source | source in s.claimed ensures source in t.claimed { MemberOfPrefix(s.claimed, t.claimed, source); }
    if t.tables.access != s.tables.access {
      assert !Sourced(s.tables, s.calls[step.call].source);
      assert forall i | 0 <= i < |s.tables.access| :: s.tables.access[i].source != s.calls[step.call].source;
    }
  }

  lemma MemberOfPrefix<T>(s: seq<T>, t: seq<T>, x: T)
    requires s <= t && x in s
    ensures x in t
  {
    var i :| 0 <= i < |s| && s[i] == x;
    assert t[i] == x;
  }

  lemma ExchangesApartStep(s: State, step: Step)
    requires AccessOnce(s) && ClaimedOnce(s) && ExchangesApart(s)
    ensures ExchangesApart(Apply(s, step))
  {
    var t := Apply(s, step);
    AccessOrigin(s, step);
    forall source | source in s.claimed ensures source in t.claimed { MemberOfPrefix(s.claimed, t.claimed, source); }
    forall c | InExchange(t, c) ensures t.calls[c].source in t.claimed { ExchangeOrigin(s, step, c); }
    forall c, d | InExchange(t, c) && InExchange(t, d) && c != d ensures t.calls[c].source != t.calls[d].source {
      ExchangeOrigin(s, step, c);
      ExchangeOrigin(s, step, d);
    }
    forall c | InExchange(t, c) && t.calls[c].Issuing? ensures !Sourced(t.tables, t.calls[c].source) { IssuingStep(s, step, c); }
  }

  lemma IssuingStep(s: State, step: Step, c: nat)
    requires AccessOnce(s) && ClaimedOnce(s) && ExchangesApart(s)
    requires InExchange(Apply(s, step), c) && Apply(s, step).calls[c].Issuing?
    ensures !Sourced(Apply(s, step).tables, Apply(s, step).calls[c].source)
  {
    ExchangeOrigin(s, step, c);
    AccessOrigin(s, step);
    var t := Apply(s, step);
    var source := t.calls[c].source;
    assert !Sourced(s.tables, source);
    forall i | 0 <= i < |t.tables.access| ensures t.tables.access[i].source != source {
      if i < |s.tables.access| { assert s.tables.access[i] == t.tables.access[i]; }
    }
  }

  // ------------------------------------------------------ one token per family

  predicate LiveRow(s: State, id: Id, family: Id) {
    id in s.tables.refresh && s.tables.refresh[id].family == family && s.tables.refresh[id].revokedAt.None?
  }

  /** An exchange between its claim and the creation of its refresh token. */
  predicate Exchanging(s: State, c: nat, family: Id) {
    InExchange(s, c) && s.calls[c].family == family
  }

  ghost predicate OneHolder(s: State, family: Id) {
    && (forall a, b | LiveRow(s, a, family) && LiveRow(s, b, family) :: a == b)
    && (forall c, d | Exchanging(s, c, family) && Exchanging(s, d, family) :: c == d)
    && (forall a, c | LiveRow(s, a, family) :: !Exchanging(s, c, family))
  }

  lemma LiveOrigin(s: State, step: Step, id: Id, family: Id)
    requires LiveRow(Apply(s, step), id, family)
    ensures || LiveRow(s, id, family)
            || (step.CreateRefresh? && id == step.newId && Exchanging(s, step.call, family) && step.call !in Apply(s, step).calls)
  {
  }

  lemma ExchangingOrigin(s: State, step: Step, c: nat, family: Id)
    requires IdsIssued(s) && Exchanging(Apply(s, step), c, family)
    ensures || Exchanging(s, c, family)
            || (step.ClaimTheCode? && step.call == c && family == step.newId && family !in s.issued)
            || (step == ClaimTheRefresh(c) && c in s.calls && s.calls[c].ClaimingRefresh?
                && LiveRow(s, s.calls[c].row, family) && !LiveRow(Apply(s, step), s.calls[c].row, family))
  {
    if c in s.calls { assert CallIssued(s, s.calls[c]); }
  }

  lemma NewFamilyIsEmpty(s: State, family: Id)
    requires IdsIssued(s)
    ensures family !in s.issued ==> (forall a :: !LiveRow(s, a, family)) && (forall c :: !Exchanging(s, c, family))
  {
    forall c | Exchanging(s, c, family) ensures family in s.issued { assert CallIssued(s, s.calls[c]); }
  }

  lemma OneHolderStep(s: State, step: Step, family: Id)
    requires IdsIssued(s) && OneHolder(s, family)
    ensures OneHolder(Apply(s, step), family)
  {
    var t := Apply(s, step);
    NewFamilyIsEmpty(s, family);
    forall a, b | LiveRow(t, a, family) && LiveRow(t, b, family) ensures a == b {
      LiveOrigin(s, step, a, family);
      LiveOrigin(s, step, b, family);
    }
    forall c, d | Exchanging(t, c, family) && Exchanging(t, d, family) ensures c == d {
      ExchangingOrigin(s, step, c, family);
      ExchangingOrigin(s, step, d, family);
    }
    forall a, c | LiveRow(t, a, family) ensures !Exchanging(t, c, family) {
      if Exchanging(t, c, family) {
        LiveOrigin(s, step, a, family);
        ExchangingOrigin(s, step, c, family);
        assert false;
      }
    }
  }

  // ------------------------------------------------------ what tokens go back to

  datatype Agreement = Agreement(request: Id, user: nat, codeExpiresAt: int)
  datatype CodePresented = CodePresented(form: CodeForm, at: int, unused: bool)
  datatype RefreshPresented = RefreshPresented(form: RefreshForm, at: int, found: Option<RefreshRow>)

  /** What has happened, kept apart from the state: the requests as they were made, who set out to
      approve them, for which request each code was made, and every code and token that was
      presented, with the time and what its row was then. */
  datatype Log = Log(
    asked: map<Id, AuthRequest>,
    approvals: set<(Id, nat)>,
    agreed: map<Id, Agreement>,
    codeForms: set<CodePresented>,
    refreshForms: set<RefreshPresented>)

  const NoLog: Log := Log(map[], {}, map[], {}, {})

  function Record(s: State, step: Step, log: Log): Log {
    match step
    case StartAuthorization(newId, asked) =>
      if newId in s.issued then log else log.(asked := log.asked[newId := asked])
    case ReadForApprove(_, request, user) => log.(approvals := log.approvals + {(request, user)})
    case CommitApproval(c, newId, expiresAt) =>
      if newId in s.issued || !(c in s.calls && s.calls[c].Approving? && s.calls[c].request in s.tables.requests) then log
      else log.(agreed := log.agreed[newId := Agreement(s.calls[c].request, s.calls[c].user, expiresAt)])
    case ReadForCode(_, form) =>
      var unused := form.code in s.tables.codes && s.tables.codes[form.code].usedAt == None;
      log.(codeForms := log.codeForms + {CodePresented(form, s.now, unused)})
    case ReadForRefresh(_, form) =>
      var found := if form.row in s.tables.refresh then Some(s.tables.refresh[form.row]) else None;
      log.(refreshForms := log.refreshForms + {RefreshPresented(form, s.now, found)})
    case _ => log
  }

  function LogOf(s: State, steps: seq<Step>, log: Log): Log
    decreases |steps|
  {
    if steps == [] then log else LogOf(Apply(s, steps[0]), steps[1..], Record(s, steps[0], log))
  }

  /** The user approved a request for just this. */
  predicate Granted(log: Log, request: Id, grant: Grant) {
    && request in log.asked && (request, grant.user) in log.approvals
    && grant.client == log.asked[request].client && grant.resource == log.asked[request].resource
    && grant.scopes == log.asked[request].scopes
  }

  ghost predicate GrantedOnce(log: Log, grant: Grant) {
    exists request :: Granted(log, request, grant)
  }

  /** Somebody presented this code before it expired or was used, repeating what the request had
      said and proving its challenge. */
  ghost predicate CodeEarned(log: Log, code: Id) {
    && code in log.agreed && log.agreed[code].request in log.asked
    && exists p | p in log.codeForms ::
         var asked := log.asked[log.agreed[code].request];
         && p.form.code == code && p.unused && p.at < log.agreed[code].codeExpiresAt
         && p.form.client == asked.client && p.form.redirect == asked.redirect
         && p.form.resource == asked.resource && p.form.proof == asked.challenge
  }

  /** Somebody presented this token, which carried this grant, before it expired or was revoked or
      rotated, for its client and no other resource. */
  ghost predicate RefreshEarned(log: Log, row: Id, grant: Grant) {
    exists p | p in log.refreshForms ::
      && p.form.row == row && p.found.Some? && p.found.value.grant == grant
      && p.found.value.revokedAt == None && p.found.value.rotatedAt == None && p.at < p.found.value.expiresAt
      && p.form.client == grant.client && (p.form.resource == None || p.form.resource == Some(grant.resource))
  }

  ghost predicate Earned(log: Log, access: Access) {
    match access.source
    case FromCode(code) => CodeEarned(log, code) && Granted(log, log.agreed[code].request, access.grant) && log.agreed[code].user == access.grant.user
    case FromRefresh(row) => RefreshEarned(log, row, access.grant) && GrantedOnce(log, access.grant)
  }

  predicate CodeTraced(log: Log, id: Id, code: Code) {
    && id in log.agreed
    && var agreed := log.agreed[id];
       && Granted(log, agreed.request, code.grant) && agreed.user == code.grant.user && agreed.codeExpiresAt == code.expiresAt
       && code.redirect == log.asked[agreed.request].redirect && code.challenge == log.asked[agreed.request].challenge
  }

  ghost predicate CallTraced(log: Log, call: Call) {
    match call
    case Approving(request, user, asked) => request in log.asked && log.asked[request] == asked && (request, user) in log.approvals
    case ClaimingCode(code, record) => CodeTraced(log, code, record) && CodeEarned(log, code)
    case ClaimingRefresh(row, seen) => GrantedOnce(log, seen.grant) && RefreshEarned(log, row, seen.grant)
    case Issuing(source, grant, _) => GrantedOnce(log, grant) && Earned(log, Access(grant, source))
    case AccessIssued(source, grant, _) => GrantedOnce(log, grant) && Earned(log, Access(grant, source))
    case _ => true
  }

  predicate LogIssued(s: State, log: Log) {
    log.asked.Keys <= s.issued && log.agreed.Keys <= s.issued
  }

  ghost predicate RowsTraced(s: State, log: Log) {
    && (forall id | id in s.tables.requests :: id in log.asked && log.asked[id] == s.tables.requests[id])
    && (forall id | id in s.tables.codes :: CodeTraced(log, id, s.tables.codes[id]))
    && (forall id | id in s.tables.refresh :: GrantedOnce(log, s.tables.refresh[id].grant))
    && (forall i | 0 <= i < |s.tables.access| :: Earned(log, s.tables.access[i]))
  }

  ghost predicate Traced(s: State, log: Log) {
    LogIssued(s, log) && RowsTraced(s, log) && forall c | c in s.calls :: CallTraced(log, s.calls[c])
  }

  /** Nothing that was recorded is lost or overwritten. */
  predicate Grows(log: Log, log': Log) {
    && (forall id | id in log.asked :: id in log'.asked && log'.asked[id] == log.asked[id])
    && log.approvals <= log'.approvals
    && (forall id | id in log.agreed :: id in log'.agreed && log'.agreed[id] == log.agreed[id])
    && log.codeForms <= log'.codeForms && log.refreshForms <= log'.refreshForms
  }

  lemma RecordGrows(s: State, step: Step, log: Log)
    requires LogIssued(s, log)
    ensures Grows(log, Record(s, step, log)) && LogIssued(Apply(s, step), Record(s, step, log))
  {
    hide Apply;
    IssuedGrows(s, step);
  }

  lemma IssuedGrows(s: State, step: Step)
    ensures s.issued <= Apply(s, step).issued
    ensures step.StartAuthorization? ==> step.newId in Apply(s, step).issued
    ensures step.CommitApproval? && step.call in s.calls && s.calls[step.call].Approving? && s.calls[step.call].request in s.tables.requests ==>
              step.newId in Apply(s, step).issued
  {
  }

  lemma GrantedStays(log: Log, log': Log, grant: Grant)
    requires Grows(log, log') && GrantedOnce(log, grant)
    ensures GrantedOnce(log', grant)
  {
    var request :| Granted(log, request, grant);
    assert Granted(log', request, grant);
  }

  lemma EarnedStays(log: Log, log': Log, access: Access)
    requires Grows(log, log') && Earned(log, access)
    ensures Earned(log', access)
  {
    match access.source
    case FromCode(code) => CodeEarnedStays(log, log', code);
    case FromRefresh(row) => RefreshEarnedStays(log, log', row, access.grant); GrantedStays(log, log', access.grant);
  }

  lemma CodeEarnedStays(log: Log, log': Log, code: Id)
    requires Grows(log, log') && CodeEarned(log, code)
    ensures CodeEarned(log', code)
  {
  }

  lemma RefreshEarnedStays(log: Log, log': Log, row: Id, grant: Grant)
    requires Grows(log, log') && RefreshEarned(log, row, grant)
    ensures RefreshEarned(log', row, grant)
  {
  }

  lemma CallStaysTraced(log: Log, log': Log, call: Call)
    requires Grows(log, log') && CallTraced(log, call)
    ensures CallTraced(log', call)
  {
    hide GrantedOnce, Earned, CodeEarned, RefreshEarned;
    match call
    case ClaimingCode(code, record) => CodeEarnedStays(log, log', code);
    case ClaimingRefresh(row, seen) => GrantedStays(log, log', seen.grant); RefreshEarnedStays(log, log', row, seen.grant);
    case Issuing(source, grant, _) => GrantedStays(log, log', grant); EarnedStays(log, log', Access(grant, source));
    case AccessIssued(source, grant, _) => GrantedStays(log, log', grant); EarnedStays(log, log', Access(grant, source));
    case _ =>
  }

  /** A code that passes the comparison has been earned by this very form. */
  lemma ReadCodeTraced(s: State, call: nat, form: CodeForm, log: Log)
    requires RowsTraced(s, log) && LogIssued(s, log) && CodeAccepted(s.tables, form, s.now)
    ensures CallTraced(Record(s, ReadForCode(call, form), log), ClaimingCode(form.code, s.tables.codes[form.code]))
  {
    var log' := Record(s, ReadForCode(call, form), log);
    assert CodeTraced(log, form.code, s.tables.codes[form.code]);
    var p := CodePresented(form, s.now, true);
    assert p in log'.codeForms;
    assert CodeEarned(log', form.code);
  }

  lemma ReadRefreshTraced(s: State, call: nat, form: RefreshForm, log: Log)
    requires RowsTraced(s, log) && LogIssued(s, log) && RefreshAccepted(s.tables, form, s.now)
    ensures CallTraced(Record(s, ReadForRefresh(call, form), log), ClaimingRefresh(form.row, s.tables.refresh[form.row]))
  {
    var row, log' := s.tables.refresh[form.row], Record(s, ReadForRefresh(call, form), log);
    RecordGrows(s, ReadForRefresh(call, form), log);
    GrantedStays(log, log', row.grant);
    var p := RefreshPresented(form, s.now, Some(row));
    assert p in log'.refreshForms;
    assert RefreshEarned(log', form.row, row.grant);
  }

  /** How a call came to where it stands: by a read that found its row, or from its last statement. */
  lemma NewCallOrigin(s: State, step: Step, c: nat)
    requires c in Apply(s, step).calls && !(c in s.calls && s.calls[c] == Apply(s, step).calls[c])
    ensures match Apply(s, step).calls[c]
            case Approving(request, user, asked) =>
              step == ReadForApprove(c, request, user) && request in s.tables.requests && s.tables.requests[request] == asked
            case ClaimingCode(code, record) =>
              step.ReadForCode? && step.code.code == code && CodeAccepted(s.tables, step.code, s.now) && s.tables.codes[code] == record
            case ClaimingRefresh(row, seen) =>
              step.ReadForRefresh? && step.form.row == row && RefreshAccepted(s.tables, step.form, s.now) && s.tables.refresh[row] == seen
            case Issuing(source, grant, _) =>
              && c in s.calls && (step.ClaimTheCode? || step.ClaimTheRefresh?)
              && (|| (s.calls[c].ClaimingCode? && source == FromCode(s.calls[c].code) && grant == s.calls[c].record.grant)
                  || (s.calls[c].ClaimingRefresh? && source == FromRefresh(s.calls[c].row) && grant == s.calls[c].seen.grant))
            case AccessIssued(source, grant, family) => step.CreateAccess? && c in s.calls && s.calls[c] == Issuing(source, grant, family)
            case _ => true
  {
  }

  lemma NewCallTraced(s: State, step: Step, c: nat, log: Log)
    requires Traced(s, log) && c in Apply(s, step).calls && !(c in s.calls && s.calls[c] == Apply(s, step).calls[c])
    ensures CallTraced(Record(s, step, log), Apply(s, step).calls[c])
  {
    hide Apply, GrantedOnce, CodeEarned, RefreshEarned, CodeAccepted, RefreshAccepted;
    NewCallOrigin(s, step, c);
    if c in s.calls { assert CallTraced(log, s.calls[c]); }
    match Apply(s, step).calls[c]
    case ClaimingCode(_, _) => ReadCodeTraced(s, step.call, step.code, log);
    case ClaimingRefresh(_, _) => ReadRefreshTraced(s, step.call, step.form, log);
    case Issuing(source, grant, _) => if s.calls[c].ClaimingCode? { GrantedMeans(log, log.agreed[s.calls[c].code].request, grant); }
    case _ =>
  }

  lemma GrantedMeans(log: Log, request: Id, grant: Grant)
    requires Granted(log, request, grant)
    ensures GrantedOnce(log, grant)
  {
  }

  lemma CallsTracedStep(s: State, step: Step, log: Log)
    requires Traced(s, log)
    ensures forall c | c in Apply(s, step).calls :: CallTraced(Record(s, step, log), Apply(s, step).calls[c])
  {
    hide Apply, CallTraced, Record;
    var t := Apply(s, step);
    RecordGrows(s, step, log);
    forall c | c in t.calls ensures CallTraced(Record(s, step, log), t.calls[c]) {
      if c in s.calls && s.calls[c] == t.calls[c] { CallStaysTraced(log, Record(s, step, log), s.calls[c]); }
      else { NewCallTraced(s, step, c, log); }
    }
  }

  /** A request was there before, or has just been made. */
  lemma RequestOrigin(s: State, step: Step, id: Id)
    requires id in Apply(s, step).tables.requests
    ensures var asked := Apply(s, step).tables.requests[id];
            || (id in s.tables.requests && asked == s.tables.requests[id] && (step.StartAuthorization? && id == step.newId ==> id in s.issued))
            || (step == StartAuthorization(id, asked) && id !in s.issued)
  {
  }

  lemma RequestsTracedStep(s: State, step: Step, log: Log)
    requires Traced(s, log)
    ensures var t, log' := Apply(s, step), Record(s, step, log);
            forall id | id in t.tables.requests :: id in log'.asked && log'.asked[id] == t.tables.requests[id]
  {
    hide Apply, CallTraced, CodeTraced, GrantedOnce, Earned;
    var t, log' := Apply(s, step), Record(s, step, log);
    RecordGrows(s, step, log);
    forall id | id in t.tables.requests ensures id in log'.asked && log'.asked[id] == t.tables.requests[id] { RequestOrigin(s, step, id); }
  }

  /** A code was there before, used or not, or has just been made for the request that its call read. */
  lemma CodeOrigin(s: State, step: Step, id: Id)
    requires id in Apply(s, step).tables.codes
    ensures var code := Apply(s, step).tables.codes[id];
            || (id in s.tables.codes && code == s.tables.codes[id].(usedAt := code.usedAt))
            || (step.CommitApproval? && id == step.newId && id !in s.issued && step.call in s.calls && s.calls[step.call].Approving?
                && s.calls[step.call].request in s.tables.requests
                && code == CodeFor(s.calls[step.call].asked, s.calls[step.call].user, step.expiresAt))
  {
  }

  lemma CodesTracedStep(s: State, step: Step, log: Log)
    requires Traced(s, log)
    ensures var t, log' := Apply(s, step), Record(s, step, log);
            forall id | id in t.tables.codes :: CodeTraced(log', id, t.tables.codes[id])
  {
    hide Apply, GrantedOnce, Earned;
    RecordGrows(s, step, log);
    var t, log' := Apply(s, step), Record(s, step, log);
    forall id | id in t.tables.codes ensures CodeTraced(log', id, t.tables.codes[id]) {
      CodeOrigin(s, step, id);
      if step.CommitApproval? && step.call in s.calls { assert CallTraced(log, s.calls[step.call]); }
    }
  }

  lemma RefreshTracedStep(s: State, step: Step, log: Log)
    requires Traced(s, log)
    ensures var t, log' := Apply(s, step), Record(s, step, log);
            forall id | id in t.tables.refresh :: GrantedOnce(log', t.tables.refresh[id].grant)
  {
    hide Apply, Record, GrantedOnce, Earned;
    RecordGrows(s, step, log);
    var t, log' := Apply(s, step), Record(s, step, log);
    forall id | id in t.tables.refresh ensures GrantedOnce(log', t.tables.refresh[id].grant) {
      RefreshOrigin(s, step, id);
      if step.CreateRefresh? && InExchange(s, step.call) { assert CallTraced(log, s.calls[step.call]); }
      GrantedStays(log, log', t.tables.refresh[id].grant);
    }
  }

  lemma AccessTracedStep(s: State, step: Step, log: Log)
    requires Traced(s, log)
    ensures var t, log' := Apply(s, step), Record(s, step, log);
            forall i | 0 <= i < |t.tables.access| :: Earned(log', t.tables.access[i])
  {
    hide Apply, Record, GrantedOnce, Earned;
    RecordGrows(s, step, log);
    AccessOrigin(s, step);
    var t, log' := Apply(s, step), Record(s, step, log);
    forall i | 0 <= i < |t.tables.access| ensures Earned(log', t.tables.access[i]) {
      if i < |s.tables.access| { assert t.tables.access[i] == s.tables.access[i]; } else { assert CallTraced(log, s.calls[step.call]); }
      EarnedStays(log, log', t.tables.access[i]);
    }
  }

  lemma TracedStep(s: State, step: Step, log: Log)
    requires Traced(s, log)
    ensures Traced(Apply(s, step), Record(s, step, log))
  {
    hide Apply, Record, CallTraced, CodeTraced, GrantedOnce, Earned;
    RecordGrows(s, step, log);
    RequestsTracedStep(s, step, log);
    CodesTracedStep(s, step, log);
    RefreshTracedStep(s, step, log);
    AccessTracedStep(s, step, log);
    CallsTracedStep(s, step, log);
  }

  lemma {:induction false} TracedOnRuns(s: State, steps: seq<Step>, log: Log)
    requires Traced(s, log)
    ensures Traced(Run(s, steps), LogOf(s, steps, log))
    decreases |steps|
  {
    hide Apply, Traced, Record;
    if steps != [] {
      TracedStep(s, steps[0], log);
      TracedOnRuns(Apply(s, steps[0]), steps[1..], Record(s, steps[0], log));
    }
  }

  // ------------------------------------------------- statements without interruption

  /** The statements of one call, with nothing in between, have the effect of the service method. */
  lemma UninterruptedApproval(s: State, c: nat, id: Id, user: nat, newCode: Id, codeExpiresAt: int)
    requires c !in s.calls && newCode !in s.issued
    ensures var t := Apply(Apply(s, ReadForApprove(c, id, user)), CommitApproval(c, newCode, codeExpiresAt));
            && t.calls == s.calls
            && exists approved :: ApproveMeans(s.tables, id, user, newCode, codeExpiresAt, s.now, approved, t.tables)
  {
    var t := Apply(Apply(s, ReadForApprove(c, id, user)), CommitApproval(c, newCode, codeExpiresAt));
    assert t.calls == s.calls;
    assert ApproveMeans(s.tables, id, user, newCode, codeExpiresAt, s.now, RequestAccepted(s.tables, id, s.now), t.tables);
  }

  lemma UninterruptedDenial(s: State, c: nat, id: Id)
    requires c !in s.calls
    ensures var t := Apply(Apply(s, ReadForDeny(c, id)), CommitDenial(c));
            && t.calls == s.calls && t.tables == s.tables.(requests := s.tables.requests - {id})
            && t.resolved == s.resolved + (if id in s.tables.requests then [id] else [])
  {
    var t := Apply(Apply(s, ReadForDeny(c, id)), CommitDenial(c));
    assert t.calls == s.calls;
    if id !in s.tables.requests { assert s.tables.requests - {id} == s.tables.requests; }
  }

  lemma UninterruptedCodeExchange(s: State, c: nat, form: CodeForm, family: Id, newRow: Id, expiresAt: int)
    requires c !in s.calls && newRow !in s.issued && family !in s.issued && family != newRow
    ensures var t := Apply(Apply(Apply(Apply(s, ReadForCode(c, form)), ClaimTheCode(c, family)), CreateAccess(c)), CreateRefresh(c, newRow, expiresAt));
            && t.calls == s.calls
            && exists issued :: ExchangeCodeMeans(s.tables, form, family, newRow, expiresAt, s.now, issued, t.tables)
  {
    if CodeAccepted(s.tables, form, s.now) {
      CodeClaimed(s, c, form, family);
      TokensCreated(Apply(Apply(s, ReadForCode(c, form)), ClaimTheCode(c, family)), c, newRow, expiresAt);
    }
    var t := Apply(Apply(Apply(Apply(s, ReadForCode(c, form)), ClaimTheCode(c, family)), CreateAccess(c)), CreateRefresh(c, newRow, expiresAt));
    assert t.calls == s.calls;
    assert ExchangeCodeMeans(s.tables, form, family, newRow, expiresAt, s.now, CodeAccepted(s.tables, form, s.now), t.tables);
  }

  lemma CodeClaimed(s: State, c: nat, form: CodeForm, family: Id)
    requires c !in s.calls && family !in s.issued && CodeAccepted(s.tables, form, s.now)
    ensures var code, b := s.tables.codes[form.code], Apply(Apply(s, ReadForCode(c, form)), ClaimTheCode(c, family));
            && b.calls == s.calls[c := Issuing(FromCode(form.code), code.grant, family)]
            && b.tables == ClaimCode(s.tables, form.code, s.now) && b.issued == s.issued + {family}
  {
    assert Apply(s, ReadForCode(c, form)) == Goto(s, c, ClaimingCode(form.code, s.tables.codes[form.code]));
  }

  lemma UninterruptedRefreshExchange(s: State, c: nat, form: RefreshForm, newRow: Id, expiresAt: int)
    requires c !in s.calls && newRow !in s.issued
    ensures var claimed := Apply(Apply(s, ReadForRefresh(c, form)), ClaimTheRefresh(c));
            var t := Apply(Apply(Apply(claimed, CreateAccess(c)), CreateRefresh(c, newRow, expiresAt)), RevokeTheFamily(c));
            && t.calls == s.calls
            && exists issued :: ExchangeRefreshMeans(s.tables, form, newRow, expiresAt, s.now, issued, t.tables)
  {
    hide ExchangeRefreshMeans;
    if RefreshReused(s.tables, form) {
      ReuseRevokes(s, c, form, newRow, expiresAt);
    } else if RefreshAccepted(s.tables, form, s.now) {
      RefreshRotates(s, c, form, newRow, expiresAt);
    } else {
      RefreshRefused(s, form, newRow, expiresAt);
      assert ExchangeRefreshMeans(s.tables, form, newRow, expiresAt, s.now, false, s.tables);
    }
  }

  lemma RefreshRefused(s: State, form: RefreshForm, newRow: Id, expiresAt: int)
    requires !RefreshReused(s.tables, form) && !RefreshAccepted(s.tables, form, s.now)
    ensures ExchangeRefreshMeans(s.tables, form, newRow, expiresAt, s.now, false, s.tables)
  {
  }

  lemma ReuseRevokes(s: State, c: nat, form: RefreshForm, newRow: Id, expiresAt: int)
    requires c !in s.calls && newRow !in s.issued && RefreshReused(s.tables, form)
    ensures var claimed := Apply(Apply(s, ReadForRefresh(c, form)), ClaimTheRefresh(c));
            var t := Apply(Apply(Apply(claimed, CreateAccess(c)), CreateRefresh(c, newRow, expiresAt)), RevokeTheFamily(c));
            t.calls == s.calls && ExchangeRefreshMeans(s.tables, form, newRow, expiresAt, s.now, false, t.tables)
  {
    var a := Apply(s, ReadForRefresh(c, form));
    assert a.calls[c].RevokingFamily?;
    assert Apply(Apply(Apply(a, ClaimTheRefresh(c)), CreateAccess(c)), CreateRefresh(c, newRow, expiresAt)) == a;
    var t := Apply(a, RevokeTheFamily(c));
    assert t.calls == s.calls;
    assert t.tables == RevokeFamily(s.tables, s.tables.refresh[form.row].family, s.now);
  }

  lemma RefreshRotates(s: State, c: nat, form: RefreshForm, newRow: Id, expiresAt: int)
    requires c !in s.calls && newRow !in s.issued && !RefreshReused(s.tables, form) && RefreshAccepted(s.tables, form, s.now)
    ensures var claimed := Apply(Apply(s, ReadForRefresh(c, form)), ClaimTheRefresh(c));
            var t := Apply(Apply(Apply(claimed, CreateAccess(c)), CreateRefresh(c, newRow, expiresAt)), RevokeTheFamily(c));
            t.calls == s.calls && ExchangeRefreshMeans(s.tables, form, newRow, expiresAt, s.now, true, t.tables)
  {
    var row := s.tables.refresh[form.row];
    RefreshClaimed(s, c, form);
    var b := Apply(Apply(s, ReadForRefresh(c, form)), ClaimTheRefresh(c));
    TokensCreated(b, c, newRow, expiresAt);
    var e := Apply(Apply(b, CreateAccess(c)), CreateRefresh(c, newRow, expiresAt));
    assert e.calls == s.calls;
    hide Apply;
    assert Apply(e, RevokeTheFamily(c)) == e by { NothingToRevoke(e, c); }
  }

  lemma NothingToRevoke(s: State, c: nat)
    requires c !in s.calls
    ensures Apply(s, RevokeTheFamily(c)) == s
  {
  }

  lemma RefreshClaimed(s: State, c: nat, form: RefreshForm)
    requires c !in s.calls && !RefreshReused(s.tables, form) && RefreshAccepted(s.tables, form, s.now)
    ensures var row, b := s.tables.refresh[form.row], Apply(Apply(s, ReadForRefresh(c, form)), ClaimTheRefresh(c));
            && b.calls == s.calls[c := Issuing(FromRefresh(form.row), row.grant, row.family)]
            && b.tables == ClaimRefresh(s.tables, form.row, s.now) && b.issued == s.issued
  {
    assert Apply(s, ReadForRefresh(c, form)) == Goto(s, c, ClaimingRefresh(form.row, s.tables.refresh[form.row]));
  }

  lemma TokensCreated(s: State, c: nat, newRow: Id, expiresAt: int)
    requires c in s.calls && s.calls[c].Issuing? && newRow !in s.issued
    ensures var call, t := s.calls[c], Apply(Apply(s, CreateAccess(c)), CreateRefresh(c, newRow, expiresAt));
            && t.calls == s.calls - {c}
            && t.tables == AddRefresh(AddAccess(s.tables, call.grant, call.source), newRow, call.grant, call.family, expiresAt)
  {
    var call := s.calls[c];
    assert Apply(s, CreateAccess(c)).calls == s.calls[c := AccessIssued(call.source, call.grant, call.family)];
  }

  lemma UninterruptedRevocation(s: State, c: nat, row: Id, client: Option<nat>)
    requires c !in s.calls
    ensures var t := Apply(Apply(s, ReadForRevoke(c, row, client)), RevokeTheRow(c));
            t.calls == s.calls && t.tables == RevokedFor(s.tables, row, client, s.now)
  {
    var t := Apply(Apply(s, ReadForRevoke(c, row, client)), RevokeTheRow(c));
    assert t.calls == s.calls;
  }

  // ------------------------------------------------------------------ main results

  ghost predicate Invariant(s: State) {
    && IdsIssued(s) && ResolvedOnce(s) && ClaimedOnce(s) && AccessOnce(s) && ExchangesApart(s)
    && forall family: Id :: OneHolder(s, family)
  }

  lemma InvariantStep(s: State, step: Step)
    requires Invariant(s)
    ensures Invariant(Apply(s, step))
  {
    hide Apply;
    IdsIssuedStep(s, step);
    ResolvedOnceStep(s, step);
    ClaimedOnceStep(s, step);
    AccessOnceStep(s, step);
    ExchangesApartStep(s, step);
    forall family: Id ensures OneHolder(Apply(s, step), family) { OneHolderStep(s, step, family); }
  }

  lemma {:induction false} InvariantOnRuns(s: State, steps: seq<Step>)
    requires Invariant(s)
    ensures Invariant(Run(s, steps))
    decreases |steps|
  {
    hide Apply, Invariant;
    if steps != [] {
      InvariantStep(s, steps[0]);
      InvariantOnRuns(Apply(s, steps[0]), steps[1..]);
    }
  }

  /** In every interleaving, an authorization request is approved or denied at most once, and is
      gone once it was. */
  lemma RequestsResolveOnce(now: int, steps: seq<Step>)
    ensures Distinct(Run(Initial(now), steps).resolved)
    ensures forall id | id in Run(Initial(now), steps).tables.requests :: id !in Run(Initial(now), steps).resolved
  {
    InvariantOnRuns(Initial(now), steps);
  }

  /** A code, and a refresh token, is exchanged for at most one access token (section 4.1.2 of
      RFC 6749). */
  lemma TokensIssueOnce(now: int, steps: seq<Step>)
    ensures var access := Run(Initial(now), steps).tables.access;
            forall i, j | 0 <= i < j < |access| :: access[i].source != access[j].source
  {
    InvariantOnRuns(Initial(now), steps);
  }

  /** What every access token goes back to, in every interleaving: an authorization request that was made
      and that the token's user approved, and the presentation of a valid code or refresh token by
      the client that made it. */
  lemma TokensAreEarned(now: int, steps: seq<Step>, i: nat)
    requires i < |Run(Initial(now), steps).tables.access|
    ensures Earned(LogOf(Initial(now), steps, NoLog), Run(Initial(now), steps).tables.access[i])
  {
    TracedOnRuns(Initial(now), steps, NoLog);
  }

  function LiveRows(s: State, family: Id): set<Id> {
    set id | id in s.tables.refresh && LiveRow(s, id, family)
  }

  function InFlight(s: State, family: Id): set<nat> {
    set c | c in s.calls && Exchanging(s, c, family)
  }

  /** Per family, unrevoked refresh tokens and exchanges between claim and create are together
      at most one, with revocation, clean-up, deletions and crashes anywhere. */
  lemma OneTokenPerFamily(now: int, steps: seq<Step>, family: Id)
    ensures var s := Run(Initial(now), steps); |LiveRows(s, family)| + |InFlight(s, family)| <= 1
  {
    var s := Run(Initial(now), steps);
    InvariantOnRuns(Initial(now), steps);
    assert OneHolder(s, family);
    assert forall a | a in LiveRows(s, family) :: LiveRow(s, a, family);
    assert forall c | c in InFlight(s, family) :: Exchanging(s, c, family);
    AtMostOne(LiveRows(s, family));
    AtMostOne(InFlight(s, family));
  }

  predicate NoHolder(s: State, family: Id) {
    LiveRows(s, family) == {} && InFlight(s, family) == {}
  }

  lemma NoHolderMeans(s: State, family: Id)
    ensures NoHolder(s, family) <==> (forall id :: !LiveRow(s, id, family)) && (forall c :: !Exchanging(s, c, family))
  {
    assert forall id :: LiveRow(s, id, family) <==> id in LiveRows(s, family);
    assert forall c :: Exchanging(s, c, family) <==> c in InFlight(s, family);
  }

  lemma NoHolderStep(s: State, step: Step, family: Id)
    requires IdsIssued(s) && family in s.issued && NoHolder(s, family)
    ensures family in Apply(s, step).issued && NoHolder(Apply(s, step), family)
  {
    var t := Apply(s, step);
    NoHolderMeans(s, family);
    NoHolderMeans(t, family);
    forall id ensures !LiveRow(t, id, family) { if LiveRow(t, id, family) { LiveOrigin(s, step, id, family); } }
    forall c ensures !Exchanging(t, c, family) { if Exchanging(t, c, family) { ExchangingOrigin(s, step, c, family); } }
  }

  lemma {:induction false} NoHolderOnRuns(s: State, steps: seq<Step>, family: Id)
    requires IdsIssued(s) && family in s.issued && NoHolder(s, family)
    ensures NoHolder(Run(s, steps), family)
    decreases |steps|
  {
    if steps != [] {
      NoHolderStep(s, steps[0], family);
      IdsIssuedStep(s, steps[0]);
      NoHolderOnRuns(Apply(s, steps[0]), steps[1..], family);
    }
  }

  /** Reuse detection revokes a family for good exactly when no exchange of that family has
      already claimed its token: such an exchange still creates a live one. */
  lemma RevocationIsFinalExactlyWhen(s: State, c: nat, family: Id)
    requires IdsIssued(s) && family in s.issued && c in s.calls && s.calls[c] == RevokingFamily(family)
    ensures (forall steps: seq<Step> :: LiveRows(Run(Apply(s, RevokeTheFamily(c)), steps), family) == {}) <==> InFlight(s, family) == {}
  {
    var t := Apply(s, RevokeTheFamily(c));
    IdsIssuedStep(s, RevokeTheFamily(c));
    assert LiveRows(t, family) == {};
    assert InFlight(t, family) == InFlight(s, family);
    if InFlight(s, family) == {} {
      forall steps: seq<Step> ensures LiveRows(Run(t, steps), family) == {} { NoHolderOnRuns(t, steps, family); }
    } else {
      var p :| p in InFlight(t, family);
      CreationRevives(t, p, family);
    }
  }

  lemma CreationRevives(s: State, p: nat, family: Id)
    requires Exchanging(s, p, family)
    ensures exists steps: seq<Step> :: LiveRows(Run(s, steps), family) != {}
  {
    var newId := Unused(s.issued);
    assert newId !in s.issued;
    var first := if s.calls[p].Issuing? then CreateAccess(p) else Tick(0);
    var t := Apply(s, first);
    assert t.calls[p].AccessIssued? && t.issued == s.issued;
    var u := Apply(t, CreateRefresh(p, newId, 0));
    var steps := [first, CreateRefresh(p, newId, 0)];
    assert u == Run(u, steps[1..][1..]) == Run(t, steps[1..]) == Run(s, steps);
    assert newId in LiveRows(u, family);
    assert LiveRows(Run(s, steps), family) != {};
  }
}
