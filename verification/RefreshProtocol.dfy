/** Logins, two-phase refreshes, logouts and revocations, interleaved query by query. */
module RefreshProtocol {
  import opened Options
  import opened RefreshSessions

  /** What an unfinished request remembers from its earlier queries. */
  datatype Pending =
    | LoginFound(user: nat, device: nat, found: Option<nat>)
    | LoginReady(user: nat, session: nat)
    | RefreshClaimed(token: nat, session: nat)
    | LogoutFound(session: nat)
    | RevokeFound(session: nat)
    | RevokeOthersFound(user: nat, current: nat)

  datatype World = World(table: Table, pending: map<nat, Pending>)

  datatype Event =
    | LoginLookup(request: nat, user: nat, device: nat, found: Option<nat>)
    | LoginPrepare(request: nat)
    | LoginSave(request: nat)
    | RefreshLookup(request: nat, token: nat, session: nat)
    | RefreshCommit(request: nat, device: nat)
    | LogoutLookup(request: nat, token: nat, session: nat)
    | LogoutSave(request: nat)
    | RevokeLookup(request: nat, session: nat)
    | RevokeSave(request: nat)
    | RevokeOthersLookup(request: nat, token: nat, session: nat)
    | RevokeOthersSave(request: nat)
    | RevokeEverySession(user: nat)
    | PurgeExpired(grace: nat)
    | Tick(seconds: nat)

  ghost predicate Enabled(w: World, e: Event) {
    match e
    case LoginLookup(r, user, device, found) => r !in w.pending && IsNewestFor(w.table, user, device, found)
    case LoginPrepare(r) => r in w.pending && w.pending[r].LoginFound?
    case LoginSave(r) => r in w.pending && w.pending[r].LoginReady?
    // A lookup that matches nothing is answered with an error and leaves nothing behind.
    case RefreshLookup(r, token, session) => r !in w.pending && RefreshMatches(w.table, token, session)
    case RefreshCommit(r, _) => r in w.pending && w.pending[r].RefreshClaimed?
    case LogoutLookup(r, token, session) => r !in w.pending && LookupMatches(w.table, token, session)
    case LogoutSave(r) => r in w.pending && w.pending[r].LogoutFound?
    case RevokeLookup(r, session) => r !in w.pending && session in w.table.sessions
    case RevokeSave(r) => r in w.pending && w.pending[r].RevokeFound?
    case RevokeOthersLookup(r, token, session) => r !in w.pending && LookupMatches(w.table, token, session)
    case RevokeOthersSave(r) => r in w.pending && w.pending[r].RevokeOthersFound?
    case _ => true
  }

  /** The sessions an event revokes: the one a logout or a revocation found, all active ones of the
      user but the current one, or all of the user. */
  function RevokedBy(w: World, e: Event): set<nat> {
    match e
    case LogoutSave(r) => if r in w.pending && w.pending[r].LogoutFound? then {w.pending[r].session} else {}
    case RevokeSave(r) => if r in w.pending && w.pending[r].RevokeFound? then {w.pending[r].session} else {}
    case RevokeOthersSave(r) =>
      if r in w.pending && w.pending[r].RevokeOthersFound? then ActiveOf(w.table, w.pending[r].user) - {w.pending[r].current} else {}
    case RevokeEverySession(user) => set id | id in w.table.sessions && w.table.sessions[id].user == user
    case _ => {}
  }

  function TableAfter(w: World, e: Event): Table {
    match e
    case LoginPrepare(r) =>
      if r in w.pending && w.pending[r].LoginFound?
      then Prepared(w.table, w.pending[r].user, w.pending[r].device, w.pending[r].found) else w.table
    case LoginSave(r) =>
      if r in w.pending && w.pending[r].LoginReady?
      then LoggedIn(w.table, w.pending[r].user, w.pending[r].session) else w.table
    case RefreshCommit(r, device) =>
      if r in w.pending && w.pending[r].RefreshClaimed?
      then Refreshed(w.table, w.pending[r].token, w.pending[r].session, device) else w.table
    case LogoutSave(_) => Revoked(w.table, RevokedBy(w, e))
    case RevokeSave(_) => Revoked(w.table, RevokedBy(w, e))
    case RevokeOthersSave(_) => Revoked(w.table, RevokedBy(w, e))
    case RevokeEverySession(_) => Revoked(w.table, RevokedBy(w, e))
    case PurgeExpired(grace) => Purged(w.table, grace)
    case Tick(seconds) => Ticked(w.table, seconds)
    case _ => w.table
  }

  function PendingAfter(w: World, e: Event): map<nat, Pending> {
    match e
    case LoginLookup(r, user, device, found) => w.pending[r := LoginFound(user, device, found)]
    case LoginPrepare(r) =>
      if r in w.pending && w.pending[r].LoginFound?
      then w.pending[r := LoginReady(w.pending[r].user, PreparedId(w.table, w.pending[r].found))] else w.pending
    case RefreshLookup(r, token, session) => w.pending[r := RefreshClaimed(token, session)]
    case LogoutLookup(r, _, session) => w.pending[r := LogoutFound(session)]
    case RevokeLookup(r, session) => w.pending[r := RevokeFound(session)]
    case RevokeOthersLookup(r, token, session) =>
      if token < |w.table.claims| then w.pending[r := RevokeOthersFound(w.table.claims[token].user, session)] else w.pending
    case RevokeEverySession(_) => w.pending
    case PurgeExpired(_) => w.pending
    case Tick(_) => w.pending
    case _ => w.pending - {e.request}
  }

  ghost function Step(w: World, e: Event): World {
    if Enabled(w, e) then World(TableAfter(w, e), PendingAfter(w, e)) else w
  }

  ghost function Run(w: World, events: seq<Event>): World {
    if events == [] then w
    else Step(Run(w, events[..|events| - 1]), events[|events| - 1])
  }

  ghost predicate Initial(w: World) {
    w.table.sessions == map[] && w.pending == map[]
  }

  /** A login saves into a row of its own user; whatever else happens, rows keep their user. */
  ghost predicate PendingInvariant(w: World) {
    forall r :: r in w.pending ==>
      match w.pending[r]
      case LoginFound(user, device, Some(id)) =>
        id < w.table.nextSession && (id in w.table.sessions ==> w.table.sessions[id].user == user)
      case LoginReady(user, id) =>
        id < w.table.nextSession && (id in w.table.sessions ==> w.table.sessions[id].user == user)
      case _ => true
  }

  ghost predicate Invariant(w: World) { Bound(w.table) && PendingInvariant(w) }

  lemma TableStep(w: World, e: Event)
    requires Invariant(w) && Enabled(w, e)
    ensures GoodStep(w.table, TableAfter(w, e))
  {
    hide Prepared, LoggedIn, Refreshed, Revoked, Purged;
    match e
    case LoginPrepare(r) => PreparedIsGood(w.table, w.pending[r].user, w.pending[r].device, w.pending[r].found);
    case LoginSave(r) => LoggedInIsGood(w.table, w.pending[r].user, w.pending[r].session);
    case RefreshCommit(r, device) => RefreshedIsGood(w.table, w.pending[r].token, w.pending[r].session, device);
    case LogoutSave(r) => RevokedIsGood(w.table, {w.pending[r].session});
    case RevokeSave(r) => RevokedIsGood(w.table, {w.pending[r].session});
    case RevokeOthersSave(r) =>
      RevokedIsGood(w.table, ActiveOf(w.table, w.pending[r].user) - {w.pending[r].current});
    case RevokeEverySession(user) =>
      RevokedIsGood(w.table, set id | id in w.table.sessions && w.table.sessions[id].user == user);
    case PurgeExpired(grace) => PurgedIsGood(w.table, grace);
    case _ =>
  }

  lemma PendingStep(w: World, e: Event)
    requires Invariant(w) && Enabled(w, e) && RowsKeepUsers(w.table, TableAfter(w, e))
    ensures PendingInvariant(World(TableAfter(w, e), PendingAfter(w, e)))
  {
    var w' := World(TableAfter(w, e), PendingAfter(w, e));
    forall r | r in w'.pending && r in w.pending && w'.pending[r] == w.pending[r]
      ensures match w'.pending[r]
              case LoginFound(user, device, Some(id)) =>
                id < w'.table.nextSession && (id in w'.table.sessions ==> w'.table.sessions[id].user == user)
              case LoginReady(user, id) =>
                id < w'.table.nextSession && (id in w'.table.sessions ==> w'.table.sessions[id].user == user)
              case _ => true
    {
    }
  }

  lemma StepKeepsInvariant(w: World, e: Event)
    requires Invariant(w)
    ensures Invariant(Step(w, e)) && Advances(w.table, Step(w, e).table)
  {
    if Enabled(w, e) {
      TableStep(w, e);
      PendingStep(w, e);
    }
  }

  lemma {:induction false} RunKeepsInvariant(w: World, events: seq<Event>)
    requires Invariant(w)
    ensures Invariant(Run(w, events))
  {
    if events != [] {
      RunKeepsInvariant(w, events[..|events| - 1]);
      StepKeepsInvariant(Run(w, events[..|events| - 1]), events[|events| - 1]);
    }
  }

  lemma InitialInvariant(w: World)
    requires Initial(w)
    ensures Invariant(w)
  {
  }

  /** A minted token that no session takes is never taken again, however the requests interleave
      from there: not after its session is revoked, exchanged, expired or purged, and not after
      the same row is reused by a later login. */
  lemma {:induction false} DeadTokensStayDead(w: World, events: seq<Event>, token: nat)
    requires Invariant(w) && token < |w.table.claims| && !w.table.Live(token)
    ensures !Run(w, events).table.Live(token) && token < |Run(w, events).table.claims|
  {
    if events != [] {
      var front := events[..|events| - 1];
      DeadTokensStayDead(w, front, token);
      RunKeepsInvariant(w, front);
      StepKeepsInvariant(Run(w, front), events[|events| - 1]);
      DeadStaysDeadOnce(Run(w, front).table, Run(w, events).table, token);
    }
  }

  /** The event exchanges the token: a claimed refresh whose locked re-check passes. */
  ghost predicate Exchanges(w: World, e: Event, token: nat) {
    && e.RefreshCommit? && Enabled(w, e)
    && w.pending[e.request].token == token
    && Rotates(w.table, token, w.pending[e.request].session)
  }

  ghost function TimesExchanged(w: World, events: seq<Event>, token: nat): nat {
    if events == [] then 0
    else
      var front := events[..|events| - 1];
      TimesExchanged(w, front, token) + if Exchanges(Run(w, front), events[|events| - 1], token) then 1 else 0
  }

  lemma {:induction false} ExchangedTokenIsDead(w: World, events: seq<Event>, token: nat)
    requires Invariant(w)
    ensures TimesExchanged(w, events, token) <= 1
    ensures TimesExchanged(w, events, token) == 1 ==>
              token < |Run(w, events).table.claims| && !Run(w, events).table.Live(token)
  {
    if events != [] {
      var front, e := events[..|events| - 1], events[|events| - 1];
      var before := Run(w, front);
      ExchangedTokenIsDead(w, front, token);
      RunKeepsInvariant(w, front);
      StepKeepsInvariant(before, e);
      if Exchanges(before, e, token) {
        RotationExchangesTheToken(before.table, token, before.pending[e.request].session, e.device);
      } else if TimesExchanged(w, front, token) == 1 {
        DeadStaysDeadOnce(before.table, Run(w, events).table, token);
      }
    }
  }

  /** However many requests present it, and however they interleave, a token is exchanged once at most. */
  lemma ExchangedAtMostOnce(w: World, events: seq<Event>, token: nat)
    requires Initial(w)
    ensures TimesExchanged(w, events, token) <= 1
  {
    InitialInvariant(w);
    ExchangedTokenIsDead(w, events, token);
  }

  /** In every reachable table a session takes at most one token and a token opens at most one session. */
  lemma ReachableTablesAreOneToOne(w: World, events: seq<Event>, token: nat, token': nat, id: nat, id': nat)
    requires Initial(w)
    requires var t := Run(w, events).table;
             id in t.sessions && id' in t.sessions &&
             t.sessions[id].Accepts(token, t.now) && t.sessions[id'].Accepts(token', t.now)
    ensures token == token' <==> id == id'
  {
    InitialInvariant(w);
    RunKeepsInvariant(w, events);
    OneTokenOneSession(Run(w, events).table, token, token', id, id');
  }

  /** Once the session holding a token is revoked, by a logout, on its own, with the other sessions
      or with all of the user's, the token is refused for ever after. */
  lemma RevokedTokenNeverReturns(w: World, e: Event, id: nat, events: seq<Event>, token: nat)
    requires Invariant(w) && Enabled(w, e) && id in RevokedBy(w, e)
    requires id in w.table.sessions && w.table.sessions[id].tokenHash == Some(token)
    ensures !Run(Step(w, e), events).table.Live(token)
  {
    RevocationKills(w.table, RevokedBy(w, e), id, token);
    StepKeepsInvariant(w, e);
    DeadTokensStayDead(Step(w, e), events, token);
  }

  /** What ends a session's token: a login that removes the session as a duplicate of its device or
      reuses it, its own exchange, a revocation that reaches the session, or its expiry. */
  ghost predicate Ends(w: World, e: Event, id: nat, token: nat)
    requires id in w.table.sessions
  {
    var row := w.table.sessions[id];
    match e
    case LoginPrepare(r) =>
      && r in w.pending && w.pending[r].LoginFound? && w.pending[r].found.Some? && w.pending[r].found.value != id
      && row.user == w.pending[r].user && row.device == w.pending[r].device
    case LoginSave(r) => r in w.pending && w.pending[r].LoginReady? && w.pending[r].session == id
    case RefreshCommit(r, _) => r in w.pending && w.pending[r].RefreshClaimed? && w.pending[r].token == token && w.pending[r].session == id
    case LogoutSave(r) => r in w.pending && w.pending[r].LogoutFound? && w.pending[r].session == id
    case RevokeSave(r) => r in w.pending && w.pending[r].RevokeFound? && w.pending[r].session == id
    case RevokeOthersSave(r) =>
      r in w.pending && w.pending[r].RevokeOthersFound? && w.pending[r].user == row.user && w.pending[r].current != id
    case RevokeEverySession(user) => user == row.user
    case Tick(seconds) => row.expiresAt <= w.table.now + seconds
    case _ => false
  }

  /** Whatever else is going on, one event makes a live token dead exactly when it ends its session's
      token: nobody is logged out by what happens on another device or to another user. */
  lemma TokenDiesIffEnded(w: World, e: Event, id: nat, token: nat)
    requires Invariant(w) && id in w.table.sessions && w.table.sessions[id].Accepts(token, w.table.now)
    ensures w.table.Live(token)
    ensures !Step(w, e).table.Live(token) <==> Ends(w, e, id, token)
  {
    if Enabled(w, e) {
      OnlyItsSessionTakesIt(w, e, id, token);
      hide Enabled, Prepared, LoggedIn, Refreshed, Revoked, Purged, Bound, PendingInvariant;
      var t, t' := w.table, Step(w, e).table;
      SessionAfter(w, e, id, token);
      if !Ends(w, e, id, token) {
        assert t'.sessions[id].Accepts(token, t'.now);
      }
    }
  }

  /** After the event no session but its own can take the token. */
  lemma OnlyItsSessionTakesIt(w: World, e: Event, id: nat, token: nat)
    requires Invariant(w) && Enabled(w, e) && id in w.table.sessions && w.table.sessions[id].Accepts(token, w.table.now)
    ensures var t' := TableAfter(w, e);
            forall q :: q in t'.sessions && t'.sessions[q].Accepts(token, t'.now) ==> q == id
  {
    TableStep(w, e);
    hide TableAfter;
    var t, t' := w.table, TableAfter(w, e);
    forall q | q in t'.sessions && t'.sessions[q].Accepts(token, t'.now) ensures q == id {
      assert t'.claims[token].session == Some(q);
    }
  }

  lemma SessionAfter(w: World, e: Event, id: nat, token: nat)
    requires Invariant(w) && Enabled(w, e) && id in w.table.sessions && w.table.sessions[id].Accepts(token, w.table.now)
    ensures var t' := TableAfter(w, e);
            (id in t'.sessions && t'.sessions[id].Accepts(token, t'.now)) <==> !Ends(w, e, id, token)
  {
  }

  /** Without interference a live token is exchanged, and its successor is live in its place. */
  lemma LoneRefreshSucceeds(w: World, request: nat, token: nat, id: nat, device: nat)
    requires Invariant(w) && request !in w.pending && RefreshMatches(w.table, token, id)
    ensures var w' := Step(w, RefreshLookup(request, token, id));
            && Exchanges(w', RefreshCommit(request, device), token)
            && Step(w', RefreshCommit(request, device)).table.Live(|w.table.claims|)
            && !Step(w', RefreshCommit(request, device)).table.Live(token)
  {
    RotationExchangesTheToken(w.table, token, id, device);
  }
}
