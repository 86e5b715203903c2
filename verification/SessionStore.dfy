/** The session table updated in place, one method for each query or transaction of the views. */
module SessionStore {
  import opened Options
  import opened RefreshSessions

  class Store {
    var sessions: map<nat, Session>
    var nextSession: nat
    var claims: seq<Claim>
    var now: nat

    function State(): Table
      reads this
    {
      Table(sessions, nextSession, claims, now)
    }

    constructor ()
      ensures State() == Table(map[], 0, [], 0)
    {
      sessions, nextSession, claims, now := map[], 0, [], 0;
    }

    /** Scans the rows in the order the query yields them for the first active one that takes the
        token, then drops a match the token does not name. */
    method FindSession(rows: seq<nat>, token: nat) returns (found: Option<nat>)
      requires token < |claims| && forall id :: id in sessions <==> id in rows
      ensures found.Some? ==> RefreshMatches(State(), token, found.value)
      ensures found.None? && Bound(State()) ==> forall id :: !RefreshMatches(State(), token, id)
    {
      found := None;
      var i := 0;
      while i < |rows| && found.None?
        invariant 0 <= i <= |rows|
        invariant found.Some? ==> LookupMatches(State(), token, found.value)
        invariant found.None? ==> forall j :: 0 <= j < i ==> !LookupMatches(State(), token, rows[j])
      {
        var row := sessions[rows[i]];
        if row.user == claims[token].user && row.Active(now) && row.tokenHash == Some(token) {
          found := Some(rows[i]);
        }
        i := i + 1;
      }
      if found.Some? && claims[token].session.Some? && claims[token].session != found {
        found := None;
      }
    }

    /** The newest row of the user and device, by scanning. */
    method NewestSession(rows: seq<nat>, user: nat, device: nat) returns (found: Option<nat>)
      requires forall id :: id in sessions <==> id in rows
      ensures IsNewestFor(State(), user, device, found)
    {
      found := None;
      for i := 0 to |rows|
        invariant found.Some? ==> found.value in sessions && SameDevice(sessions[found.value], user, device)
        invariant forall j :: 0 <= j < i && SameDevice(sessions[rows[j]], user, device) ==> found.Some? && rows[j] <= found.value
      {
        if SameDevice(sessions[rows[i]], user, device) && (found.None? || found.value < rows[i]) {
          found := Some(rows[i]);
        }
      }
    }

    /** Another user's or device's session stays as it was; of this device's only the newest is left,
        or a new empty one. */
    method PrepareSession(user: nat, device: nat, found: Option<nat>) returns (id: nat)
      modifies this`sessions, this`nextSession
      ensures State() == Prepared(old(State()), user, device, found)
      ensures forall other :: other in old(sessions) && !SameDevice(old(sessions)[other], user, device) ==>
                other in sessions && (other < old(nextSession) ==> sessions[other] == old(sessions)[other])
      ensures IsNewestFor(old(State()), user, device, found) ==>
                && id in sessions && SameDevice(sessions[id], user, device)
                && (found.Some? ==> sessions[id] == old(sessions)[id])
                && forall other :: other in sessions && other != id ==> other in old(sessions) && !SameDevice(sessions[other], user, device)
      ensures id == PreparedId(old(State()), found)
    {
      match found
      case None =>
        id := nextSession;
        sessions := sessions[id := Session(user, device, None, now + LIFETIME, false)];
        nextSession := nextSession + 1;
      case Some(keep) =>
        id := keep;
        sessions := map other | other in sessions && (other == keep || !SameDevice(sessions[other], user, device)) :: sessions[other];
    }

    method SaveLogin(user: nat, id: nat) returns (token: Option<nat>)
      modifies this`sessions, this`claims
      ensures State() == LoggedIn(old(State()), user, id)
      ensures token == if id in old(sessions) then Some(|old(claims)|) else None
    {
      if id !in sessions {
        return None;
      }
      token := Some(|claims|);
      claims := claims + [Claim(user, Some(id))];
      sessions := sessions[id := sessions[id].(tokenHash := token)];
      sessions := sessions[id := sessions[id].(expiresAt := now + LIFETIME)];
      sessions := sessions[id := sessions[id].(revoked := false)];
    }

    method RotateToken(token: nat, id: nat, device: nat) returns (successor: Option<nat>)
      requires token < |claims|
      modifies this`sessions, this`claims
      ensures State() == Refreshed(old(State()), token, id, device)
      ensures successor == if Rotates(old(State()), token, id) then Some(|old(claims)|) else None
    {
      if id !in sessions || sessions[id].user != claims[token].user || !sessions[id].Active(now)
         || sessions[id].tokenHash != Some(token) {
        return None;
      }
      successor := Some(|claims|);
      claims := claims + [Claim(sessions[id].user, Some(id))];
      sessions := sessions[id := sessions[id].(tokenHash := successor)];
      sessions := sessions[id := sessions[id].(expiresAt := now + LIFETIME)];
      sessions := sessions[id := sessions[id].(device := device)];
    }

    /** Revoking the rows a filter selects: the tokens those rows held are refused
        from now on, every other live token is still taken, and no token starts to be. */
    method Revoke(ids: set<nat>)
      modifies this`sessions
      ensures Bound(old(State())) ==> Bound(State()) && forall token: nat :: State().Live(token) <==>
                old(State()).Live(token) && forall id :: id in ids && id in old(sessions) ==> old(sessions)[id].tokenHash != Some(token)
      ensures State() == Revoked(old(State()), ids)
    {
      ghost var before := State();
      sessions := map id | id in sessions :: if id in ids then sessions[id].(revoked := true) else sessions[id];
      forall token: nat | Bound(before) ensures State().Live(token) <==>
          before.Live(token) && forall id :: id in ids && id in before.sessions ==> before.sessions[id].tokenHash != Some(token)
      {
        RevocationKillsExactly(before, ids, token);
      }
    }

    /** The refresh view with nothing in between its two phases: a live token is traded for a
        fresh one of the same user that is live in its place, and any other token changes nothing.
        Every other token stays as live as it was, and every other session as it was. */
    method Refresh(rows: seq<nat>, token: nat, device: nat) returns (successor: Option<nat>)
      requires token < |claims| && (forall id :: id in sessions <==> id in rows) && Bound(State())
      modifies this`sessions, this`claims
      ensures successor.Some? <==> old(State()).Live(token)
      ensures successor.None? ==> State() == old(State())
      ensures successor.Some? ==> successor.value == |old(claims)| && State().Live(successor.value) && !State().Live(token)
      ensures successor.Some? ==> |claims| == successor.value + 1 && claims[successor.value].user == old(claims)[token].user
      ensures forall other: nat :: other != token && other != |old(claims)| ==> (State().Live(other) <==> old(State()).Live(other))
      ensures forall id :: id in old(sessions) && old(sessions)[id].tokenHash != Some(token) ==>
                id in sessions && sessions[id] == old(sessions)[id]
      ensures Bound(State())
    {
      var found := FindSession(rows, token);
      if found.None? {
        forall id | id in sessions ensures !sessions[id].Accepts(token, now) {
          ClaimCheckIsRedundant(State(), token, id);
        }
        return None;
      }
      RotationExchangesTheToken(State(), token, found.value, device);
      RefreshedIsGood(State(), token, found.value, device);
      forall other: nat {
        RotationSparesOthers(State(), token, found.value, device, other);
      }
      successor := RotateToken(token, found.value, device);
    }

    /** Logging in opens the device's session for one fresh token of the user and closes it for its
        old ones. Every session of another user or device stays as it was, and so does what its
        token opens; the device is left with one session. */
    method Login(rows: seq<nat>, user: nat, device: nat) returns (token: nat)
      requires (forall id :: id in sessions <==> id in rows) && Bound(State())
      modifies this`sessions, this`claims, this`nextSession
      ensures Bound(State()) && State().Live(token) && token == |old(claims)|
      ensures |claims| == token + 1 && claims[token].user == user
      ensures forall id :: id in old(sessions) && SameDevice(old(sessions)[id], user, device) && old(sessions)[id].tokenHash.Some? ==>
                !State().Live(old(sessions)[id].tokenHash.value)
      ensures forall id :: id in old(sessions) && !SameDevice(old(sessions)[id], user, device) ==>
                && id in sessions && sessions[id] == old(sessions)[id]
                && (sessions[id].tokenHash.Some? ==>
                    (State().Live(sessions[id].tokenHash.value) <==> old(State()).Live(sessions[id].tokenHash.value)))
      ensures forall id, other :: id in sessions && SameDevice(sessions[id], user, device) ==>
                other in sessions && SameDevice(sessions[other], user, device) ==> id == other
      ensures OpensOnly(old(State()), State(), user, device)
    {
      ghost var before := State();
      var found := NewestSession(rows, user, device);
      LoginOpensOnly(before, user, device, found);
      PreparedIsGood(before, user, device, found);
      var id := PrepareSession(user, device, found);
      LoggedInIsGood(State(), user, id);
      var saved := SaveLogin(user, id);
      token := saved.value;
      ghost var after := State();
      forall other: nat {
        LoginDecidesEveryToken(before, after, user, device, other);
      }
      HeldTokenIsLiveIff(before);
    }
  }
}
