/** The API client that refreshes through `tryRefresh` only (packages/api-client/src/http.ts),
    composed with the server's session transactions over a network that delays, loses and
    garbles messages.  One asynchronous function body between two awaits is one step. */
module TokenClient {
  import opened Options
  import Collections
  import Sessions

  type Id = Sessions.Id

  /** The stored refresh token, and the token that the shared refresh promise was started with. */
  datatype Client = Client(store: Option<Id>, promise: Option<Id>)

  /** How the awaited `fetch` ends. */
  datatype Response = TokenPair(refresh: Id) | Malformed | HttpError | NetworkError

  /** `tryRefresh` up to its first await: the client, and the token that is sent, if any. */
  function StartRefresh(c: Client): (Client, Option<Id>) {
    if c.promise.Some? || c.store.None? then (c, None)
    else (c.(promise := c.store), c.store)
  }

  /** The rest of `doRefresh`, and the `finally` that clears the shared promise. */
  function Settle(c: Client, response: Response): Client {
    Client(if response.TokenPair? then Some(response.refresh) else None, None)
  }

  class ApiClient {
    var refreshToken: Option<Id>
    var refreshPromise: Option<Id>

    function View(): Client
      reads this
    {
      Client(refreshToken, refreshPromise)
    }

    constructor ()
      ensures View() == Client(None, None)
    {
      refreshToken, refreshPromise := None, None;
    }

    method TryRefresh() returns (sent: Option<Id>)
      modifies this
      ensures (View(), sent) == StartRefresh(old(View()))
    {
      sent := None;
      if refreshPromise.None? {
        if refreshToken.Some? {
          refreshPromise := refreshToken;
          sent := refreshToken;
        }
      }
    }

    method FinishRefresh(response: Response) returns (refreshed: bool)
      modifies this
      ensures View() == Settle(old(View()), response)
      ensures refreshed <==> response.TokenPair?
    {
      if response.NetworkError? || response.HttpError? || response.Malformed? {
        refreshToken := None;
        refreshed := false;
      } else {
        refreshToken := Some(response.refresh);
        refreshed := true;
      }
      refreshPromise := None;
    }

    method PersistTokens(refresh: Id)
      modifies this
      ensures View() == old(View()).(store := Some(refresh))
      ensures old(refreshPromise).None? ==> StartRefresh(View()).1 == Some(refresh)
    {
      refreshToken := Some(refresh);
    }

    method Clear()
      modifies this
      ensures View() == old(View()).(store := None)
      ensures StartRefresh(View()).1.None?
    {
      refreshToken := None;
    }
  }

  // ------------------------------------------------------------ client and server

  /** `outgoing`: refresh requests not yet at the server.  `replies`: its answers, by the token
      they answer.  `logins`: answers to this client's logins.  `mine`: ids handed to this client. */
  datatype State = State(
    server: Sessions.Committed,
    client: Client,
    mine: set<Id>,
    outgoing: set<Id>,
    replies: map<Id, Response>,
    logins: set<Id>)

  datatype Step =
    | Unauthorized
    | Deliver(token: Sessions.Token, now: int, newId: Id, expiresAt: int)
    | LoseRequest(id: Id)
    | Receive(id: Id)
    | ReceiveGarbled(id: Id)
    | GiveUp
    | LoginAtServer(user: nat, newId: Id, expiresAt: int, external: Option<Sessions.Link>)
    | LoginReply(id: Id)
    | LoseLoginReply(id: Id)
    | ClearStore
    | Elsewhere(transaction: Sessions.Transaction)

  /** Anything may happen at the server except that others present this client's tokens. */
  predicate Foreign(s: State, t: Sessions.Transaction) {
    t.RefreshTx? ==> t.token.row !in s.mine
  }

  function Outcome(s: State, step: Step): Sessions.Outcome
    requires step.Deliver?
  {
    Sessions.Refresh(s.server.db, step.token, step.now, step.newId, step.expiresAt).1
  }

  /** One step; a step that is not enabled changes nothing. */
  function Apply(s: State, step: Step): State {
    match step
    case Unauthorized =>
      var (client, sent) := StartRefresh(s.client);
      s.(client := client, outgoing := s.outgoing + (if sent.Some? then {sent.value} else {}))
    case Deliver(token, now, newId, expiresAt) =>
      if token.row !in s.outgoing || newId in s.server.issued then s
      else
        s.(server := Sessions.Commit(s.server, Sessions.RefreshTx(token, now, newId, expiresAt)),
           mine := s.mine + {newId},
           outgoing := s.outgoing - {token.row},
           replies := s.replies[token.row := if Outcome(s, step).Rotated? then TokenPair(newId) else HttpError])
    case LoseRequest(id) => s.(outgoing := s.outgoing - {id})
    case Receive(id) =>
      if s.client.promise == Some(id) && id in s.replies then
        s.(client := Settle(s.client, s.replies[id]), replies := s.replies - {id})
      else s
    case ReceiveGarbled(id) =>
      if s.client.promise == Some(id) && id in s.replies then
        s.(client := Settle(s.client, Malformed), replies := s.replies - {id})
      else s
    case GiveUp =>
      if s.client.promise.Some? then s.(client := Settle(s.client, NetworkError)) else s
    case LoginAtServer(user, newId, expiresAt, external) =>
      if newId in s.server.issued then s
      else
        s.(server := Sessions.Commit(s.server, Sessions.LoginTx(user, newId, expiresAt, external)),
           mine := s.mine + {newId}, logins := s.logins + {newId})
    case LoginReply(id) =>
      if id in s.logins then s.(client := s.client.(store := Some(id)), logins := s.logins - {id}) else s
    case LoseLoginReply(id) => s.(logins := s.logins - {id})
    case ClearStore => s.(client := s.client.(store := None))
    case Elsewhere(t) => if Foreign(s, t) then s.(server := Sessions.Commit(s.server, t)) else s
  }

  function Run(s: State, steps: seq<Step>): State
    decreases |steps|
  {
    if steps == [] then s else Run(Apply(s, steps[0]), steps[1..])
  }

  predicate Initial(s: State) {
    Sessions.FamiliesIssued(s.server) && s.client == Client(None, None) && s.mine == {} && s.outgoing == {} && s.replies == map[] && s.logins == {}
  }

  // ---------------------------------------------------------------- the invariant

  /** No session row of this id has been rotated. */
  predicate Unrotated(s: State, id: Id) {
    id in s.server.db.sessions ==> !s.server.db.sessions[id].rotated
  }

  /** A token that was sent, or whose answer is still under way. */
  predicate Spent(s: State, id: Id) {
    id in s.outgoing || id in s.replies || s.client.promise == Some(id)
  }

  /** A token on its way to the store, other than through its own key. */
  predicate Arriving(s: State, id: Id) {
    id in s.logins || InReply(s, id)
  }

  predicate InReply(s: State, id: Id) {
    exists k :: k in s.replies && s.replies[k] == TokenPair(id)
  }

  predicate Known(s: State, id: Id) {
    id in s.mine && id in s.server.issued
  }

  /** What holds of one token: it belongs to this client; on its way anywhere it is unrotated;
      on its way to the store it was never sent; in the store it was not sent unless the
      promise waits for exactly it. */
  predicate Orderly(s: State, id: Id) {
    && (Spent(s, id) || Arriving(s, id) || s.client.store == Some(id) ==> Known(s, id))
    && (id in s.outgoing || Arriving(s, id) ==> Unrotated(s, id))
    && (Arriving(s, id) ==> !Spent(s, id) && s.client.store != Some(id))
    && (id in s.logins ==> !InReply(s, id))
    && (s.client.store == Some(id) && s.client.promise != Some(id) ==> Unrotated(s, id) && !Spent(s, id))
    && (id in s.outgoing ==> id !in s.replies)
  }

  predicate AnswersDiffer(s: State) {
    forall j, k | j in s.replies && k in s.replies && j != k && s.replies[j].TokenPair? :: s.replies[j] != s.replies[k]
  }

  ghost predicate Invariant(s: State) {
    && AnswersDiffer(s)
    && Sessions.FamiliesIssued(s.server)
    && forall id: Id :: Orderly(s, id)
  }

  /** The client never presents a rotated token, so the server never sees reuse from it. */
  lemma DeliveredIsUnrotated(s: State, step: Step)
    requires Invariant(s) && step.Deliver? && step.token.row in s.outgoing
    ensures !Outcome(s, step).Reused?
  {
    assert Orderly(s, step.token.row);
  }

  /** Only a served refresh puts a new token into an answer. */
  lemma AnswersAfter(s: State, step: Step, id: Id)
    requires InReply(Apply(s, step), id)
    ensures InReply(s, id) || (step.Deliver? && id == step.newId && id !in s.server.issued)
  {
  }

  /** Of the tokens handed to this client, a step rotates at most the one it delivers. */
  lemma RotatesOnlyDelivered(s: State, step: Step, id: Id)
    requires Known(s, id) && Unrotated(s, id)
    requires !(step.Deliver? && step.token.row == id && id in s.outgoing && step.newId !in s.server.issued)
    ensures Unrotated(Apply(s, step), id)
  {
  }

  lemma NewRowIsUnrotated(s: State, step: Step, id: Id)
    requires id !in s.server.db.sessions && !Spent(s, id)
    requires step.Deliver? || step.LoginAtServer?
    requires id == step.newId
    ensures Unrotated(Apply(s, step), id)
  {
  }

  lemma AnswersDifferStep(s: State, step: Step)
    requires Invariant(s)
    ensures AnswersDiffer(Apply(s, step))
  {
    if step.Deliver? {
      assert Orderly(s, step.newId);
      forall k | k in s.replies ensures s.replies[k] != TokenPair(step.newId) || step.newId in s.server.issued {
        if s.replies[k] == TokenPair(step.newId) { assert InReply(s, step.newId); }
      }
    }
  }

  /** Receiving an answer takes its token out of the network. */
  lemma ReceivedIsGone(s: State, step: Step, id: Id)
    requires AnswersDiffer(s) && step.Receive? && step.id in s.replies && s.client.promise == Some(step.id)
    requires s.replies[step.id] == TokenPair(id)
    ensures !InReply(Apply(s, step), id)
  {
  }

  lemma UnrotatedStep(s: State, step: Step, id: Id)
    requires Invariant(s)
    requires var t := Apply(s, step);
             id in t.outgoing || Arriving(t, id) || (t.client.store == Some(id) && t.client.promise != Some(id))
    ensures Unrotated(Apply(s, step), id)
  {
    assert Orderly(s, id);
    if InReply(Apply(s, step), id) { AnswersAfter(s, step, id); }
    if id in s.server.issued {
      if step.Receive? && step.id in s.replies && s.replies[step.id] == TokenPair(id) { assert InReply(s, id); }
      RotatesOnlyDelivered(s, step, id);
    } else {
      NewRowIsUnrotated(s, step, id);
    }
  }

  lemma OrderlyStep(s: State, step: Step, id: Id)
    requires Invariant(s)
    ensures Orderly(Apply(s, step), id)
  {
    var t := Apply(s, step);
    assert Orderly(s, id);
    if InReply(t, id) { AnswersAfter(s, step, id); }
    if step.Receive? && step.id in s.replies && s.client.promise == Some(step.id) && s.replies[step.id] == TokenPair(id) {
      assert InReply(s, id);
      ReceivedIsGone(s, step, id);
    }
    if id in t.outgoing || Arriving(t, id) || (t.client.store == Some(id) && t.client.promise != Some(id)) {
      UnrotatedStep(s, step, id);
    }
  }

  lemma FamiliesStep(s: State, step: Step)
    requires Sessions.FamiliesIssued(s.server)
    ensures Sessions.FamiliesIssued(Apply(s, step).server)
  {
  }

  lemma InvariantStep(s: State, step: Step)
    requires Invariant(s)
    ensures Invariant(Apply(s, step))
  {
    AnswersDifferStep(s, step);
    FamiliesStep(s, step);
    forall id: Id ensures Orderly(Apply(s, step), id) { OrderlyStep(s, step, id); }
  }

  lemma {:induction false} InvariantOnRuns(s: State, steps: seq<Step>)
    requires Invariant(s)
    ensures Invariant(Run(s, steps))
    decreases |steps|
  {
    if steps != [] {
      InvariantStep(s, steps[0]);
      InvariantOnRuns(Apply(s, steps[0]), steps[1..]);
    }
  }

  /** However many 401s arrive at once, whatever is lost, garbled or delivered late, and
      whatever logins, logouts, password changes and foreign sessions come between: no refresh
      request of this client is ever answered as a reuse. */
  lemma NeverPunished(start: State, steps: seq<Step>, step: Step)
    requires Initial(start) && step.Deliver? && step.token.row in Run(start, steps).outgoing
    ensures !Outcome(Run(start, steps), step).Reused?
  {
    InvariantOnRuns(start, steps);
    DeliveredIsUnrotated(Run(start, steps), step);
  }

  /** A refresh that nothing disturbs leaves the client with the server's new token, and with none exactly
      when the server does not rotate the old one; however many 401s there were, one request was sent. */
  lemma RefreshReplacesToken(s: State, token: Sessions.Token, now: int, newId: Id, expiresAt: int)
    requires s.client == Client(Some(token.row), None) && newId !in s.server.issued
    ensures var sent := Apply(s, Unauthorized);
            var t := Apply(Apply(Apply(sent, Unauthorized), Deliver(token, now, newId, expiresAt)), Receive(token.row));
            && Apply(sent, Unauthorized) == sent && sent.outgoing == s.outgoing + {token.row}
            && t.server.db == Sessions.Refresh(s.server.db, token, now, newId, expiresAt).0
            && t.client == Client(if Sessions.Refresh(s.server.db, token, now, newId, expiresAt).1.Rotated? then Some(newId) else None, None)
            && t.outgoing == s.outgoing - {token.row}
  {
    hide Sessions.Refresh;
    var sent := Apply(s, Unauthorized);
    assert Apply(sent, Unauthorized) == sent;
    assert s.outgoing + {token.row} - {token.row} == s.outgoing - {token.row};
  }

  // ------------------------------------------------------------------- logging out

  predicate NoLoginReply(steps: seq<Step>) {
    forall i | 0 <= i < |steps| :: !steps[i].LoginReply?
  }

  lemma {:induction false} EmptyStays(s: State, steps: seq<Step>)
    requires s.client == Client(None, None) && NoLoginReply(steps)
    ensures Run(s, steps).client == Client(None, None) && Run(s, steps).outgoing <= s.outgoing
    decreases |steps|
  {
    if steps != [] { EmptyStays(Apply(s, steps[0]), steps[1..]); }
  }

  /** When no refresh is pending, discarding the tokens is final: until a login is answered the store
      stays empty and no further refresh request is sent, however many 401s arrive. */
  lemma LogoutIsFinal(s: State, steps: seq<Step>)
    requires s.client.promise.None? && NoLoginReply(steps)
    ensures var t := Run(Apply(s, ClearStore), steps);
            t.client == Client(None, None) && t.outgoing <= s.outgoing
  {
    EmptyStays(Apply(s, ClearStore), steps);
  }

  /** An answer that is already there puts a token back exactly when it is a complete pair. */
  lemma PendingRefreshOutlivesLogout(s: State, id: Id)
    requires s.client.promise == Some(id) && id in s.replies
    ensures Apply(Apply(s, ClearStore), Receive(id)).client.store.Some? <==> s.replies[id].TokenPair?
  {
  }

  predicate RowLive(s: State, id: Id) {
    id in s.server.db.sessions && Sessions.Live(s.server.db.sessions[id])
  }

  /** The pending refresh may still be answered with a token pair: the pair is on its way, or the
      request is and the server would still rotate its row. */
  predicate CanAnswer(s: State) {
    && s.client.promise.Some?
    && var id := s.client.promise.value;
       || (id in s.replies && s.replies[id].TokenPair?)
       || (id in s.outgoing && id !in s.replies && RowLive(s, id))
  }

  /** No transaction makes a row of an issued id live. */
  lemma NeverRevived(s: State, step: Step, id: Id)
    requires id in s.server.issued && !RowLive(s, id)
    ensures !RowLive(Apply(s, step), id)
  {
  }

  lemma UnansweredStep(s: State, step: Step)
    requires Invariant(s) && s.client.store.None? && !CanAnswer(s) && !step.LoginReply?
    ensures Apply(s, step).client.store.None? && !CanAnswer(Apply(s, step))
  {
    if s.client.promise.Some? {
      var id := s.client.promise.value;
      assert Orderly(s, id);
      if !RowLive(s, id) { NeverRevived(s, step, id); }
    }
  }

  lemma {:induction false} UnansweredStays(s: State, steps: seq<Step>)
    requires Invariant(s) && s.client.store.None? && !CanAnswer(s) && NoLoginReply(steps)
    ensures Run(s, steps).client.store.None?
    decreases |steps|
  {
    if steps != [] {
      UnansweredStep(s, steps[0]);
      InvariantStep(s, steps[0]);
      UnansweredStays(Apply(s, steps[0]), steps[1..]);
    }
  }

  lemma FourSteps(s: State, a: Step, b: Step, c: Step, d: Step)
    ensures Run(s, [a, b, c, d]) == Apply(Apply(Apply(Apply(s, a), b), c), d)
  {
    var s1 := Apply(s, a);
    var s2 := Apply(s1, b);
    var s3 := Apply(s2, c);
    assert Run(s3, [d]) == Run(Apply(s3, d), []);
    assert Run(s2, [c, d]) == Run(s3, [d]);
    assert Run(s1, [b, c, d]) == Run(s2, [c, d]);
  }

  /** While the row is live, the outgoing request can be answered with a pair. */
  lemma RequestCanSucceed(s: State, id: Id) returns (steps: seq<Step>)
    requires s.client.promise == Some(id) && id in s.outgoing && RowLive(s, id)
    ensures NoLoginReply(steps) && Run(s, steps).client.store.Some?
  {
    var session := s.server.db.sessions[id];
    var now, newId := session.expiresAt - 1, Collections.Unused(s.server.issued);
    var providers := if session.external.Some? then {session.external.value.provider} else {};
    var token := Sessions.Token(id, session.user, None);
    var a := Elsewhere(Sessions.AccountsTx({session.user}, providers));
    var b := Elsewhere(Sessions.RecheckTx(id, Some(now + 1)));
    var c := Deliver(token, now, newId, 0);
    steps := [a, b, c, Receive(id)];
    FourSteps(s, a, b, c, Receive(id));
    var s2 := Apply(Apply(s, a), b);
    assert newId !in s2.server.issued && token.row in s2.outgoing;
    assert Sessions.Decide(s2.server.db, token, now).Proceed?;
    assert Outcome(s2, c).Rotated?;
  }

  /** Discarding the tokens is final, until a login is answered, exactly when the pending refresh, if
      there is one, can no longer be answered with a pair: it was refused, lost or given up, or its row
      is not live any more. */
  lemma LogoutIsFinalExactlyWhen(s: State)
    requires Invariant(s)
    ensures (forall steps | NoLoginReply(steps) :: Run(Apply(s, ClearStore), steps).client.store.None?) <==> !CanAnswer(s)
  {
    var t := Apply(s, ClearStore);
    InvariantStep(s, ClearStore);
    assert CanAnswer(t) <==> CanAnswer(s);
    if !CanAnswer(s) {
      forall steps | NoLoginReply(steps) ensures Run(t, steps).client.store.None? { UnansweredStays(t, steps); }
    } else {
      var id := s.client.promise.value;
      if id in s.replies && s.replies[id].TokenPair? {
        PendingRefreshOutlivesLogout(s, id);
        assert Run(t, [Receive(id)]) == Run(Apply(t, Receive(id)), []);
        assert NoLoginReply([Receive(id)]) && Run(t, [Receive(id)]).client.store.Some?;
      } else {
        var steps := RequestCanSucceed(t, id);
        assert NoLoginReply(steps) && !Run(t, steps).client.store.None?;
      }
    }
  }

  /** The same for every reachable state. */
  lemma LogoutAfterAnyRun(start: State, history: seq<Step>)
    requires Initial(start)
    ensures var s := Run(start, history);
            (forall steps | NoLoginReply(steps) :: Run(Apply(s, ClearStore), steps).client.store.None?) <==> !CanAnswer(s)
  {
    InvariantOnRuns(start, history);
    LogoutIsFinalExactlyWhen(Run(start, history));
  }

  /** A run that fails: login, a 401, the refresh is served, the user logs out, the answer arrives. */
  lemma LogoutRace(user: nat, now: int)
    ensures var start := State(Sessions.Committed(Sessions.Db(map[], {user}, {}), {}), Client(None, None), {}, {}, map[], {});
            var history := [LoginAtServer(user, 0, now + 1, None), LoginReply(0), Unauthorized,
                            Deliver(Sessions.Token(0, user, None), now, 1, now + 2)];
            && Initial(start)
            && Run(Apply(Run(start, history), ClearStore), [Receive(0)]).client == Client(Some(1), None)
  {
    var start := State(Sessions.Committed(Sessions.Db(map[], {user}, {}), {}), Client(None, None), {}, {}, map[], {});
    var deliver := Deliver(Sessions.Token(0, user, None), now, 1, now + 2);
    FourSteps(start, LoginAtServer(user, 0, now + 1, None), LoginReply(0), Unauthorized, deliver);
    var s3 := Apply(Apply(Apply(start, LoginAtServer(user, 0, now + 1, None)), LoginReply(0)), Unauthorized);
    assert s3.client == Client(Some(0), Some(0)) && s3.outgoing == {0};
    assert Outcome(s3, deliver) == Sessions.Rotated(1);
    var cleared := Apply(Apply(s3, deliver), ClearStore);
    assert Run(cleared, [Receive(0)]) == Run(Apply(cleared, Receive(0)), []);
  }
}
