/** The code table and the cached pointers updated in place. */
module OtpStore {
  import opened Options
  import opened OtpCodes

  class Store {
    var codes: seq<Otp>
    var pointers: map<Key, nat>
    var now: nat

    function View(): State
      reads this
    {
      State(codes, pointers, now)
    }

    function Pointer(key: Key): Option<nat>
      reads this
    {
      if key in pointers then Some(pointers[key]) else None
    }

    predicate PointsTo(key: Key, id: Option<nat>)
      reads this
    {
      Pointer(key) == id
    }

    constructor ()
      ensures View() == State([], map[], 0)
    {
      codes, pointers, now := [], map[], 0;
    }

    method LatestValid(user: nat, purpose: nat) returns (found: Option<nat>)
      modifies this`pointers
      ensures found == Latest(old(View()), user, purpose)
      ensures View() == AfterLookup(old(View()), user, purpose)
      ensures found.Some? ==> Matches(View(), found.value, user, purpose) && PointsTo(Key(user, purpose), found)
      ensures found.None? ==> PointsTo(Key(user, purpose), None) && forall id: nat :: !Matches(old(View()), id, user, purpose)
      ensures forall key: Key :: key != Key(user, purpose) ==> PointsTo(key, old(Pointer(key)))
    {
      var key := Key(user, purpose);
      if key in pointers {
        var cached := pointers[key];
        if cached < |codes| && codes[cached].For(user, purpose) && codes[cached].Live(now) {
          return Some(cached);
        }
      }
      found := TableQuery(View(), user, purpose);
      if found.Some? {
        pointers := pointers[key := found.value];
      } else {
        pointers := pointers - {key};
      }
    }

    method ConsumeCode(user: nat, purpose: nat, raw: nat) returns (outcome: Outcome)
      modifies this`codes, this`pointers
      ensures (View(), outcome) == Consume(old(View()), user, purpose, raw)
      ensures outcome.Accepted? || outcome.Exceeded? || outcome.NotFound? ==> PointsTo(Key(user, purpose), None)
      ensures forall key: Key :: key != Key(user, purpose) ==> PointsTo(key, old(Pointer(key)))
    {
      var found := LatestValid(user, purpose);
      if found.None? {
        return NotFound;
      }
      var id := found.value;
      if codes[id].attempts >= MAX_ATTEMPTS {
        codes := codes[id := codes[id].(consumed := true)];
        pointers := pointers - {Key(user, purpose)};
        return Exceeded;
      }
      if raw != codes[id].code {
        codes := codes[id := codes[id].(attempts := codes[id].attempts + 1)];
        return Invalid;
      }
      codes := codes[id := codes[id].(consumed := true)];
      pointers := pointers - {Key(user, purpose)};
      return Accepted;
    }

    /** The new row comes last, and can be used if it was sent; the codes and pointers of other users
        and purposes are as they were. */
    method CreateAndSend(user: Option<nat>, purpose: nat, code: nat, seconds: nat, sent: bool) returns (id: nat)
      modifies this`codes, this`pointers
      ensures View() == Issue(old(View()), user, purpose, code, seconds, sent)
      ensures id == |old(codes)| && |codes| == id + 1
      ensures codes[id] == Otp(user, purpose, code, now + seconds, 0, !sent)
      ensures SparesOthers(old(View()), View(), user, purpose)
    {
      IssueSparesOthers(View(), user, purpose, code, seconds, sent);
      id := |codes|;
      if user.Some? {
        codes := Superseded(codes, user, purpose);
      } else {
        assert codes == Superseded(codes, user, purpose);
      }
      codes := codes + [Otp(user, purpose, code, now + seconds, 0, false)];
      if user.Some? {
        pointers := pointers[Key(user.value, purpose) := id];
      }
      if !sent {
        codes := codes[id := codes[id].(consumed := true)];
        if user.Some? {
          pointers := pointers - {Key(user.value, purpose)};
        }
      }
    }
  }
}
