/** Device sessions and the refresh tokens they accept.

    A token is a position in `claims`, the list of every token minted so far, so a new token is
    fresh by construction and its hash is the token itself. */
module RefreshSessions {
  import opened Options

  /** What a token says about itself: its user and, since sessions are bound, its session. */
  datatype Claim = Claim(user: nat, session: Option<nat>)

  datatype Session = Session(user: nat, device: nat, tokenHash: Option<nat>, expiresAt: nat, revoked: bool) {
    predicate Active(now: nat) { !revoked && expiresAt > now }
    predicate Accepts(token: nat, now: nat) { Active(now) && tokenHash == Some(token) }
  }

  /** The table, with the clock. Session ids are issued in creation order. */
  datatype Table = Table(sessions: map<nat, Session>, nextSession: nat, claims: seq<Claim>, now: nat) {
    /** Some session would take this token in exchange now. */
    ghost predicate Live(token: nat) {
      exists id :: id in sessions && sessions[id].Accepts(token, now)
    }
  }

  const LIFETIME: nat := 30 * 24 * 60 * 60

  predicate SameDevice(row: Session, user: nat, device: nat) { row.user == user && row.device == device }

  // One query or one committed transaction each.

  /** The device's newest session, if it has one. */
  ghost predicate IsNewestFor(t: Table, user: nat, device: nat, found: Option<nat>) {
    match found
    case None => forall id :: id in t.sessions ==> !SameDevice(t.sessions[id], user, device)
    case Some(newest) =>
      && newest in t.sessions && SameDevice(t.sessions[newest], user, device)
      && forall id :: id in t.sessions && SameDevice(t.sessions[id], user, device) ==> id <= newest
  }

  /** Without a session for the device an empty row is created; otherwise its duplicates go. */
  function Prepared(t: Table, user: nat, device: nat, found: Option<nat>): Table {
    match found
    case None =>
      t.(sessions := t.sessions[t.nextSession := Session(user, device, None, t.now + LIFETIME, false)],
         nextSession := t.nextSession + 1)
    case Some(keep) =>
      t.(sessions := map id | id in t.sessions && (id == keep || !SameDevice(t.sessions[id], user, device)) :: t.sessions[id])
  }

  function PreparedId(t: Table, found: Option<nat>): nat { found.GetOr(t.nextSession) }

  /** Saving the new token into the row; a row that has gone makes the save fail. */
  function LoggedIn(t: Table, user: nat, id: nat): Table {
    if id !in t.sessions then t
    else
      t.(sessions := t.sessions[id := t.sessions[id].(tokenHash := Some(|t.claims|), expiresAt := t.now + LIFETIME, revoked := false)],
         claims := t.claims + [Claim(user, Some(id))])
  }

  /** The unlocked lookup: an active session of the token's user holding its hash, and named by
      the token if it names one. */
  predicate LookupMatches(t: Table, token: nat, id: nat) {
    && token < |t.claims|
    && id in t.sessions
    && t.sessions[id].user == t.claims[token].user
    && t.sessions[id].Accepts(token, t.now)
  }

  predicate RefreshMatches(t: Table, token: nat, id: nat) {
    LookupMatches(t, token, id) && (t.claims[token].session.Some? ==> t.claims[token].session == Some(id))
  }

  /** The locked re-check, and the rotation it guards. */
  predicate Rotates(t: Table, token: nat, id: nat) { LookupMatches(t, token, id) }

  function Refreshed(t: Table, token: nat, id: nat, device: nat): Table {
    if !Rotates(t, token, id) then t
    else
      t.(sessions := t.sessions[id := t.sessions[id].(tokenHash := Some(|t.claims|), expiresAt := t.now + LIFETIME, device := device)],
         claims := t.claims + [Claim(t.sessions[id].user, Some(id))])
  }

  function Revoked(t: Table, ids: set<nat>): Table {
    t.(sessions := map id | id in t.sessions :: if id in ids then t.sessions[id].(revoked := true) else t.sessions[id])
  }

  function ActiveOf(t: Table, user: nat): set<nat> {
    set id | id in t.sessions && t.sessions[id].user == user && t.sessions[id].Active(t.now)
  }

  function Purged(t: Table, grace: nat): Table {
    t.(sessions := map id | id in t.sessions && t.sessions[id].expiresAt + grace >= t.now :: t.sessions[id])
  }

  function Ticked(t: Table, seconds: nat): Table { t.(now := t.now + seconds) }

  // What every step does to the tokens.

  /** Time goes forward, tokens are only added, and every row either is an old one that was not
      revived, or holds no token, or holds a token that was not minted before. */
  ghost predicate Advances(t: Table, t': Table) {
    && t.now <= t'.now
    && t.claims <= t'.claims
    && forall id :: id in t'.sessions ==>
         var row := t'.sessions[id];
         || row.tokenHash.None?
         || row.tokenHash.value >= |t.claims|
         || (id in t.sessions && t.sessions[id].tokenHash == row.tokenHash
             && row.expiresAt <= t.sessions[id].expiresAt && (t.sessions[id].revoked ==> row.revoked))
  }

  lemma DeadStaysDeadOnce(t: Table, t': Table, token: nat)
    requires Advances(t, t') && token < |t.claims| && !t.Live(token)
    ensures !t'.Live(token)
  {
    forall id | id in t'.sessions ensures !t'.sessions[id].Accepts(token, t'.now) {
      assert id in t.sessions ==> !t.sessions[id].Accepts(token, t.now);
    }
  }

  /** Every stored token was minted for the row and user that store it, so no two rows share one. */
  ghost predicate Bound(t: Table) {
    && (forall id :: id in t.sessions ==> id < t.nextSession)
    && (forall id :: id in t.sessions && t.sessions[id].tokenHash.Some? ==>
         var token := t.sessions[id].tokenHash.value;
         token < |t.claims| && t.claims[token] == Claim(t.sessions[id].user, Some(id)))
  }

  /** In every bound table a token opens at most one session, and a session takes at most one token. */
  lemma OneTokenOneSession(t: Table, token: nat, token': nat, id: nat, id': nat)
    requires Bound(t) && id in t.sessions && id' in t.sessions
    requires t.sessions[id].Accepts(token, t.now) && t.sessions[id'].Accepts(token', t.now)
    ensures token == token' <==> id == id'
  {
  }

  /** The claim check of the refresh view never refuses a row the hash matched. */
  lemma ClaimCheckIsRedundant(t: Table, token: nat, id: nat)
    requires Bound(t)
    ensures LookupMatches(t, token, id) <==> RefreshMatches(t, token, id)
  {
  }

  lemma RotationExchangesTheToken(t: Table, token: nat, id: nat, device: nat)
    requires Bound(t) && Rotates(t, token, id)
    ensures t.Live(token) && !Refreshed(t, token, id, device).Live(token)
    ensures Refreshed(t, token, id, device).Live(|t.claims|)
  {
    var t' := Refreshed(t, token, id, device);
    assert t'.sessions[id].Accepts(|t.claims|, t'.now);
    forall other | other in t'.sessions ensures !t'.sessions[other].Accepts(token, t'.now) {
      assert t.claims[token].session == Some(id);
    }
  }

  /** Revoking a session kills the token it held. */
  lemma RevocationKills(t: Table, ids: set<nat>, id: nat, token: nat)
    requires Bound(t) && id in ids && id in t.sessions && t.sessions[id].tokenHash == Some(token)
    ensures !Revoked(t, ids).Live(token)
  {
    var t' := Revoked(t, ids);
    assert t.claims[token].session == Some(id);
    assert forall other :: other in t'.sessions ==> !t'.sessions[other].Accepts(token, t'.now);
  }

  /** Revoking sessions kills exactly the tokens they held: any other token that was live still is. */
  lemma RevocationKillsExactly(t: Table, ids: set<nat>, token: nat)
    requires Bound(t)
    ensures Revoked(t, ids).Live(token) <==>
            t.Live(token) && forall id :: id in ids && id in t.sessions ==> t.sessions[id].tokenHash != Some(token)
  {
    var t' := Revoked(t, ids);
    if id :| id in ids && id in t.sessions && t.sessions[id].tokenHash == Some(token) {
      RevocationKills(t, ids, id, token);
    } else if t.Live(token) {
      var id :| id in t.sessions && t.sessions[id].Accepts(token, t.now);
      assert t'.sessions[id].Accepts(token, t'.now);
    } else {
      assert forall id :: id in t'.sessions && t'.sessions[id].Accepts(token, t'.now) ==> t.sessions[id].Accepts(token, t.now);
    }
  }

  /** Reusing a row for a login opens it for the new token alone, even if it had been revoked. */
  lemma LoginReplacesToken(t: Table, user: nat, id: nat, token: nat)
    requires Bound(t) && id in t.sessions && t.sessions[id].tokenHash == Some(token)
    ensures var t' := LoggedIn(t, user, id); t'.Live(|t.claims|) && !t'.Live(token)
  {
    var t' := LoggedIn(t, user, id);
    assert t'.sessions[id].Accepts(|t.claims|, t'.now);
    assert t.claims[token].session == Some(id);
    assert forall other :: other in t'.sessions ==> !t'.sessions[other].Accepts(token, t'.now);
  }

  /** What a login does to the table: every session of another user or device stays as it was, and
      those of this device give way to the one that holds the new token. */
  ghost predicate OpensOnly(t: Table, t': Table, user: nat, device: nat) {
    var token := |t.claims|;
    && t'.now == t.now
    && (forall id :: id in t.sessions && !SameDevice(t.sessions[id], user, device) ==> id in t'.sessions && t'.sessions[id] == t.sessions[id])
    && (forall id :: id in t'.sessions ==>
          || (id in t.sessions && t'.sessions[id] == t.sessions[id] && !SameDevice(t.sessions[id], user, device))
          || (t'.sessions[id] == Session(user, device, Some(token), t.now + LIFETIME, false) && t'.claims == t.claims + [Claim(user, Some(id))]))
    && (exists id :: id in t'.sessions && t'.sessions[id].tokenHash == Some(token) && SameDevice(t'.sessions[id], user, device))
  }

  lemma LoginOpensOnly(t: Table, user: nat, device: nat, found: Option<nat>)
    requires Bound(t) && IsNewestFor(t, user, device, found)
    ensures var prepared := Prepared(t, user, device, found);
            OpensOnly(t, LoggedIn(prepared, user, PreparedId(t, found)), user, device)
  {
    var id := PreparedId(t, found);
    var t' := LoggedIn(Prepared(t, user, device, found), user, id);
    assert t'.sessions[id].tokenHash == Some(|t.claims|);
    assert t'.claims == t.claims + [Claim(user, Some(id))];
  }

  /** So the new token is taken, the device's former tokens are refused, and every other token is
      taken exactly when it was. */
  lemma LoginDecidesEveryToken(t: Table, t': Table, user: nat, device: nat, token: nat)
    requires Bound(t) && OpensOnly(t, t', user, device)
    ensures t'.Live(token) <==>
              || token == |t.claims|
              || exists id :: id in t.sessions && t.sessions[id].Accepts(token, t.now) && !SameDevice(t.sessions[id], user, device)
  {
    if token == |t.claims| {
      var id :| id in t'.sessions && t'.sessions[id].tokenHash == Some(token) && SameDevice(t'.sessions[id], user, device);
      assert t'.sessions[id].Accepts(token, t'.now);
    } else if id :| id in t.sessions && t.sessions[id].Accepts(token, t.now) && !SameDevice(t.sessions[id], user, device) {
      assert t'.sessions[id].Accepts(token, t'.now);
    }
  }

  /** In a bound table a stored token is taken exactly when the session that stores it is active. */
  lemma HeldTokenIsLiveIff(t: Table)
    requires Bound(t)
    ensures forall id :: id in t.sessions && t.sessions[id].tokenHash.Some? ==>
              (t.Live(t.sessions[id].tokenHash.value) <==> t.sessions[id].Active(t.now))
  {
    forall id | id in t.sessions && t.sessions[id].tokenHash.Some?
      ensures t.Live(t.sessions[id].tokenHash.value) <==> t.sessions[id].Active(t.now)
    {
      var token := t.sessions[id].tokenHash.value;
      assert t.claims[token].session == Some(id);
      if t.sessions[id].Active(t.now) {
        assert t.sessions[id].Accepts(token, t.now);
      }
    }
  }

  /** A rotation decides about two tokens only, and about one session. */
  lemma RotationSparesOthers(t: Table, token: nat, id: nat, device: nat, other: nat)
    requires Bound(t) && Rotates(t, token, id)
    ensures var t' := Refreshed(t, token, id, device);
            && (other != token && other != |t.claims| ==> (t'.Live(other) <==> t.Live(other)))
            && t'.sessions.Keys == t.sessions.Keys && (forall q :: q in t.sessions && q != id ==> t'.sessions[q] == t.sessions[q])
            && t'.sessions[id] == Session(t.claims[token].user, device, Some(|t.claims|), t.now + LIFETIME, false)
            && t'.claims == t.claims + [Claim(t.claims[token].user, Some(id))]
  {
    var t' := Refreshed(t, token, id, device);
    if other != token && other != |t.claims| {
      if t.Live(other) {
        var q :| q in t.sessions && t.sessions[q].Accepts(other, t.now);
        assert t'.sessions[q].Accepts(other, t'.now);
      } else {
        forall q | q in t'.sessions ensures !t'.sessions[q].Accepts(other, t'.now) {
          assert !t.sessions[q].Accepts(other, t.now);
        }
      }
    }
  }

  /** The purge takes only rows that expired long enough ago, so it decides about no token. */
  lemma PurgeSparesLive(t: Table, grace: nat, token: nat)
    ensures var t' := Purged(t, grace);
            && (t'.Live(token) <==> t.Live(token))
            && forall id :: id in t.sessions ==> (id !in t'.sessions <==> t.sessions[id].expiresAt + grace < t.now)
  {
    var t' := Purged(t, grace);
    if t.Live(token) {
      var id :| id in t.sessions && t.sessions[id].Accepts(token, t.now);
      assert t'.sessions[id].Accepts(token, t'.now);
    } else {
      forall id | id in t'.sessions ensures !t'.sessions[id].Accepts(token, t'.now) {
        assert !t.sessions[id].Accepts(token, t.now);
      }
    }
  }

  // Every operation of the table is such an advance, and keeps it bound.

  ghost predicate RowsKeepUsers(t: Table, t': Table) {
    && t.nextSession <= t'.nextSession
    && forall id :: id in t'.sessions && id < t.nextSession ==> id in t.sessions && t'.sessions[id].user == t.sessions[id].user
  }

  ghost predicate GoodStep(t: Table, t': Table) {
    Advances(t, t') && Bound(t') && RowsKeepUsers(t, t')
  }

  lemma PreparedIsGood(t: Table, user: nat, device: nat, found: Option<nat>)
    requires Bound(t)
    ensures GoodStep(t, Prepared(t, user, device, found))
  {
  }

  lemma LoggedInIsGood(t: Table, user: nat, id: nat)
    requires Bound(t) && (id in t.sessions ==> t.sessions[id].user == user)
    ensures GoodStep(t, LoggedIn(t, user, id))
  {
    assert t.claims <= LoggedIn(t, user, id).claims;
  }

  lemma RefreshedIsGood(t: Table, token: nat, id: nat, device: nat)
    requires Bound(t)
    ensures GoodStep(t, Refreshed(t, token, id, device))
  {
    assert t.claims <= Refreshed(t, token, id, device).claims;
  }

  lemma RevokedIsGood(t: Table, ids: set<nat>)
    requires Bound(t)
    ensures GoodStep(t, Revoked(t, ids))
  {
  }

  lemma PurgedIsGood(t: Table, grace: nat)
    requires Bound(t)
    ensures GoodStep(t, Purged(t, grace))
  {
  }
}
