/** One-time codes: issuing, finding the newest live one through a cached pointer, consuming. */
module OtpCodes {
  import opened Options

  /** A row; `code` stands for its hash, which is ideal. A code sent before registration has no user. */
  datatype Otp = Otp(user: Option<nat>, purpose: nat, code: nat, expiresAt: nat, attempts: nat, consumed: bool) {
    predicate For(u: nat, p: nat) { user == Some(u) && purpose == p }
    predicate Live(now: nat) { !consumed && expiresAt > now }
  }

  datatype Key = Key(user: nat, purpose: nat)

  /** The rows in creation order, the cached pointers, and the clock. */
  datatype State = State(codes: seq<Otp>, pointers: map<Key, nat>, now: nat)

  datatype Outcome = Accepted | NotFound | Exceeded | Invalid

  const MAX_ATTEMPTS: nat := 3

  predicate Matches(s: State, id: nat, user: nat, purpose: nat) {
    id < |s.codes| && s.codes[id].For(user, purpose) && s.codes[id].Live(s.now)
  }

  /** The table-only query: the newest live code among the first `n` rows. */
  function NewestLive(s: State, user: nat, purpose: nat, n: nat): (found: Option<nat>)
    requires n <= |s.codes|
    ensures found.Some? ==> found.value < n && Matches(s, found.value, user, purpose)
    ensures forall id: nat :: id < n && Matches(s, id, user, purpose) ==> found.Some? && id <= found.value
  {
    if n == 0 then None
    else if Matches(s, n - 1, user, purpose) then Some(n - 1)
    else NewestLive(s, user, purpose, n - 1)
  }

  function TableQuery(s: State, user: nat, purpose: nat): Option<nat> {
    NewestLive(s, user, purpose, |s.codes|)
  }

  /** `latest_valid_otp`: the pointer when it still names a live code of this user and purpose,
      the table otherwise. */
  function Latest(s: State, user: nat, purpose: nat): Option<nat> {
    var key := Key(user, purpose);
    if key in s.pointers && Matches(s, s.pointers[key], user, purpose) then Some(s.pointers[key])
    else TableQuery(s, user, purpose)
  }

  /** A lookup refreshes the pointer it did not use. */
  function AfterLookup(s: State, user: nat, purpose: nat): State {
    var key := Key(user, purpose);
    if key in s.pointers && Matches(s, s.pointers[key], user, purpose) then s
    else
      match TableQuery(s, user, purpose)
      case Some(id) => s.(pointers := s.pointers[key := id])
      case None => s.(pointers := s.pointers - {key})
  }

  function WithCode(s: State, id: nat, otp: Otp): State
    requires id < |s.codes|
  {
    s.(codes := s.codes[id := otp])
  }

  /** The row update and the pointer deletion of `consume_otp`; only an accepted or exhausted code
      is marked consumed. */
  function Consume(s: State, user: nat, purpose: nat, raw: nat): (State, Outcome) {
    var looked := AfterLookup(s, user, purpose);
    match Latest(s, user, purpose)
    case None => (looked, NotFound)
    case Some(id) =>
      var otp := looked.codes[id];
      var dropped := looked.pointers - {Key(user, purpose)};
      if otp.attempts >= MAX_ATTEMPTS then
        (WithCode(looked, id, otp.(consumed := true)).(pointers := dropped), Exceeded)
      else if raw != otp.code then
        (WithCode(looked, id, otp.(attempts := otp.attempts + 1)), Invalid)
      else
        (WithCode(looked, id, otp.(consumed := true)).(pointers := dropped), Accepted)
  }

  /** Earlier codes of the user and purpose are consumed before the new row is created. */
  function Superseded(codes: seq<Otp>, user: Option<nat>, purpose: nat): seq<Otp> {
    seq(|codes|, i requires 0 <= i < |codes| =>
      if user.Some? && codes[i].For(user.value, purpose) then codes[i].(consumed := true) else codes[i])
  }

  /** `create_and_send_otp`: a code whose message could not be sent is consumed at once. */
  function Issue(s: State, user: Option<nat>, purpose: nat, code: nat, seconds: nat, sent: bool): State {
    var codes := Superseded(s.codes, user, purpose) + [Otp(user, purpose, code, s.now + seconds, 0, !sent)];
    s.(codes := codes,
       pointers := if user.None? then s.pointers
                   else if sent then s.pointers[Key(user.value, purpose) := |s.codes|]
                   else s.pointers - {Key(user.value, purpose)})
  }

  // What one request leaves alone.

  /** Issuing withdraws exactly the codes of this user and purpose: every other code that could be
      found still can, no earlier row changes in anything but that, and other pointers stay. */
  lemma IssueSparesOthers(s: State, user: Option<nat>, purpose: nat, code: nat, seconds: nat, sent: bool)
    ensures var now := Issue(s, user, purpose, code, seconds, sent); SparesOthers(s, now, user, purpose)
  {
  }

  ghost predicate SparesOthers(s: State, now: State, user: Option<nat>, purpose: nat) {
    && now.now == s.now && |now.codes| >= |s.codes|
    && (forall id: nat, u: nat, p: nat :: id < |s.codes| ==>
          (Matches(now, id, u, p) <==> Matches(s, id, u, p) && !(user == Some(u) && purpose == p)))
    && (forall id: nat :: id < |s.codes| ==> now.codes[id].(consumed := s.codes[id].consumed) == s.codes[id])
    && (forall key: Key :: user != Some(key.user) || purpose != key.purpose ==>
          (key in now.pointers <==> key in s.pointers) && (key in s.pointers ==> now.pointers[key] == s.pointers[key]))
  }

  /** The row that issuing adds: it can be found by its user and purpose alone, for `seconds`, if it was sent. */
  lemma IssueAddsOne(s: State, user: Option<nat>, purpose: nat, code: nat, seconds: nat, sent: bool, u: nat, p: nat, later: nat)
    ensures var now, id := Issue(s, user, purpose, code, seconds, sent), |s.codes|;
            && |now.codes| == id + 1 && now.codes[id].code == code && now.codes[id].attempts == 0
            && (Matches(now.(now := s.now + later), id, u, p) <==> sent && user == Some(u) && purpose == p && later < seconds)
            && (TableQuery(now, u, p) == Some(id) <==> sent && user == Some(u) && purpose == p && seconds > 0)
  {
    var now := Issue(s, user, purpose, code, seconds, sent);
    assert now.codes[|s.codes|] == Otp(user, purpose, code, s.now + seconds, 0, !sent);
  }

  /** What a verification answers, in terms of the codes that can be found, and what it writes: the
      attempts of the code it found, or that it is used up. Every other row stays as it was. */
  lemma VerifyMeans(s: State, user: nat, purpose: nat, raw: nat)
    requires OneUnconsumed(s.codes)
    ensures var (now, outcome) := Consume(s, user, purpose, raw);
            && now.now == s.now && |now.codes| == |s.codes|
            && (outcome.NotFound? <==> forall id :: !Matches(s, id, user, purpose))
            && (outcome.NotFound? ==> now.codes == s.codes)
            && forall id :: 0 <= id < |s.codes| ==>
                 var was, after := s.codes[id], now.codes[id];
                 if !Matches(s, id, user, purpose) then after == was
                 else if was.attempts >= 3 then outcome == Exceeded && after == was.(consumed := true)
                 else if was.code == raw then outcome == Accepted && after == was.(consumed := true)
                 else outcome == Invalid && after == was.(attempts := was.attempts + 1)
  {
    OneUnconsumedMeansOneLive(s);
    var found := Latest(s, user, purpose);
    assert found.Some? ==> Matches(s, found.value, user, purpose);
    assert forall id: nat :: Matches(s, id, user, purpose) ==> found == Some(id);
  }

  // At most one code per user and purpose.

  ghost predicate OneUnconsumed(codes: seq<Otp>) {
    forall i, j :: 0 <= i < j < |codes| && !codes[i].consumed && !codes[j].consumed && codes[i].user.Some? ==>
      codes[i].user != codes[j].user || codes[i].purpose != codes[j].purpose
  }

  ghost predicate OneLive(s: State) {
    forall i: nat, j: nat, user: nat, purpose: nat :: i < j && Matches(s, i, user, purpose) ==> !Matches(s, j, user, purpose)
  }

  /** The pointer never changes the answer: whatever it holds, looking through it is the table
      query, exactly when no user and purpose has two live codes. */
  lemma PointerIsTransparentIff(s: State)
    ensures (forall pointers: map<Key, nat>, user: nat, purpose: nat ::
               Latest(s.(pointers := pointers), user, purpose) == TableQuery(s, user, purpose))
            <==> OneLive(s)
  {
    if OneLive(s) {
      forall pointers: map<Key, nat>, user: nat, purpose: nat
        ensures Latest(s.(pointers := pointers), user, purpose) == TableQuery(s, user, purpose)
      {
        QueryIgnoresPointers(s, pointers, user, purpose, |s.codes|);
      }
    } else {
      var i, j, user, purpose :| i < j && Matches(s, i, user, purpose) && Matches(s, j, user, purpose);
      var stale := s.(pointers := map[Key(user, purpose) := i]);
      assert Matches(stale, i, user, purpose);
      assert Latest(stale, user, purpose) == Some(i);
    }
  }

  lemma {:induction false} QueryIgnoresPointers(s: State, pointers: map<Key, nat>, user: nat, purpose: nat, n: nat)
    requires n <= |s.codes|
    ensures NewestLive(s.(pointers := pointers), user, purpose, n) == NewestLive(s, user, purpose, n)
    ensures forall id: nat :: Matches(s.(pointers := pointers), id, user, purpose) == Matches(s, id, user, purpose)
  {
    if n > 0 {
      QueryIgnoresPointers(s, pointers, user, purpose, n - 1);
    }
  }

  lemma OneUnconsumedMeansOneLive(s: State)
    requires OneUnconsumed(s.codes)
    ensures OneLive(s)
  {
  }

  // Runs.

  datatype Event =
    | Create(owner: Option<nat>, purpose: nat, code: nat, seconds: nat, sent: bool)
    | Verify(user: nat, purpose: nat, raw: nat)
    | CacheChanges(pointers: map<Key, nat>)
    | Tick(seconds: nat)

  function Step(s: State, e: Event): State {
    match e
    case Create(user, purpose, code, seconds, sent) => Issue(s, user, purpose, code, seconds, sent)
    case Verify(user, purpose, raw) => Consume(s, user, purpose, raw).0
    case CacheChanges(pointers) => s.(pointers := pointers)
    case Tick(seconds) => s.(now := s.now + seconds)
  }

  function Run(s: State, events: seq<Event>): State {
    if events == [] then s else Step(Run(s, events[..|events| - 1]), events[|events| - 1])
  }

  /** The event compares a raw code with the code in row `id`. */
  predicate Compares(s: State, e: Event, id: nat) {
    && e.Verify?
    && Latest(s, e.user, e.purpose) == Some(id)
    && s.codes[id].attempts < MAX_ATTEMPTS
  }

  predicate Accepts(s: State, e: Event, id: nat) {
    Compares(s, e, id) && Consume(s, e.user, e.purpose, e.raw).1.Accepted?
  }

  function TimesCompared(s: State, events: seq<Event>, id: nat): nat {
    if events == [] then 0
    else
      var front := events[..|events| - 1];
      TimesCompared(s, front, id) + if Compares(Run(s, front), events[|events| - 1], id) then 1 else 0
  }

  function TimesAccepted(s: State, events: seq<Event>, id: nat): nat {
    if events == [] then 0
    else
      var front := events[..|events| - 1];
      TimesAccepted(s, front, id) + if Accepts(Run(s, front), events[|events| - 1], id) then 1 else 0
  }

  lemma StepKeepsOneUnconsumed(s: State, e: Event)
    requires OneUnconsumed(s.codes)
    ensures OneUnconsumed(Step(s, e).codes)
  {
  }

  lemma {:induction false} RunKeepsOneUnconsumed(s: State, events: seq<Event>)
    requires OneUnconsumed(s.codes)
    ensures OneUnconsumed(Run(s, events).codes)
  {
    if events != [] {
      RunKeepsOneUnconsumed(s, events[..|events| - 1]);
      StepKeepsOneUnconsumed(Run(s, events[..|events| - 1]), events[|events| - 1]);
    }
  }

  /** Along every run, whatever the cache does, the lookup answers as the table alone would. */
  lemma LookupIsTheTableQuery(s: State, events: seq<Event>, user: nat, purpose: nat)
    requires s.codes == []
    ensures var end := Run(s, events); Latest(end, user, purpose) == TableQuery(end, user, purpose)
  {
    RunKeepsOneUnconsumed(s, events);
    OneUnconsumedMeansOneLive(Run(s, events));
  }

  /** What one row may have been through: while it is open every comparison has cost an attempt. */
  predicate Accounted(s: State, id: nat, compared: nat, accepted: nat) {
    if id >= |s.codes| then compared == accepted == 0
    else if s.codes[id].consumed then compared <= MAX_ATTEMPTS && accepted <= 1
    else compared == s.codes[id].attempts <= MAX_ATTEMPTS && accepted == 0
  }

  lemma StepIsAccounted(s: State, e: Event, id: nat, compared: nat, accepted: nat)
    requires Accounted(s, id, compared, accepted)
    ensures Accounted(Step(s, e), id, compared + (if Compares(s, e, id) then 1 else 0), accepted + (if Accepts(s, e, id) then 1 else 0))
  {
  }

  lemma {:induction false} RunIsAccounted(s: State, events: seq<Event>, id: nat)
    requires s.codes == []
    ensures Accounted(Run(s, events), id, TimesCompared(s, events, id), TimesAccepted(s, events, id))
  {
    if events != [] {
      var front := events[..|events| - 1];
      RunIsAccounted(s, front, id);
      StepIsAccounted(Run(s, front), events[|events| - 1], id, TimesCompared(s, front, id), TimesAccepted(s, front, id));
    }
  }

  /** No code is compared more than three times or accepted more than once. */
  lemma CodeIsBounded(s: State, events: seq<Event>, id: nat)
    requires s.codes == []
    ensures TimesCompared(s, events, id) <= 3 && TimesAccepted(s, events, id) <= 1
  {
    RunIsAccounted(s, events, id);
  }

  /** The event neither issues a code to this user for this purpose nor tries the right one. */
  predicate Undisturbing(e: Event, user: nat, purpose: nat, code: nat) {
    match e
    case Create(owner, p, _, _, _) => owner != Some(user) || p != purpose
    case Verify(u, p, raw) => u != user || p != purpose || raw != code
    case _ => true
  }

  function IsGuess(e: Event, user: nat, purpose: nat): nat {
    if e.Verify? && e.user == user && e.purpose == purpose then 1 else 0
  }

  function Guesses(events: seq<Event>, user: nat, purpose: nat): nat {
    if events == [] then 0
    else Guesses(events[..|events| - 1], user, purpose) + IsGuess(events[|events| - 1], user, purpose)
  }

  /** Row `id` is the only code of this user and purpose that can still be found; it has been tried `tried` times. */
  ghost predicate OnlyCandidate(s: State, user: nat, purpose: nat, id: nat, code: nat, tried: nat) {
    && id < |s.codes|
    && s.codes[id].For(user, purpose) && s.codes[id].expiresAt > s.now && s.codes[id].code == code
    && (if tried <= MAX_ATTEMPTS then !s.codes[id].consumed && s.codes[id].attempts == tried else s.codes[id].consumed)
    && forall other: nat :: other != id ==> !Matches(s, other, user, purpose)
  }

  lemma CandidateIsFound(s: State, user: nat, purpose: nat, id: nat, code: nat, tried: nat)
    requires OnlyCandidate(s, user, purpose, id, code, tried)
    ensures Latest(s, user, purpose) == if tried <= MAX_ATTEMPTS then Some(id) else None
    ensures AfterLookup(s, user, purpose).codes == s.codes
  {
    assert tried <= MAX_ATTEMPTS ==> Matches(s, id, user, purpose);
  }

  /** Row `id` was the only candidate until it expired. */
  ghost predicate StillCandidate(s: State, user: nat, purpose: nat, id: nat, code: nat, tried: nat, until: nat) {
    && (if s.now < until then OnlyCandidate(s, user, purpose, id, code, tried) else forall other: nat :: !Matches(s, other, user, purpose))
    && id < |s.codes| && s.codes[id].expiresAt == until
  }

  lemma WrongGuessCounts(s: State, user: nat, purpose: nat, id: nat, code: nat, tried: nat, raw: nat)
    requires OnlyCandidate(s, user, purpose, id, code, tried) && raw != code
    ensures OnlyCandidate(Consume(s, user, purpose, raw).0, user, purpose, id, code, tried + 1)
  {
    CandidateIsFound(s, user, purpose, id, code, tried);
    var next := Consume(s, user, purpose, raw).0;
    forall other: nat | other != id ensures !Matches(next, other, user, purpose) {
      assert !Matches(s, other, user, purpose);
    }
  }

  /** What one event does to a row that belongs to someone else, or comes later. */
  lemma OtherEventsSpare(s: State, e: Event, user: nat, purpose: nat, code: nat, id: nat)
    requires Undisturbing(e, user, purpose, code) && IsGuess(e, user, purpose) == 0
    ensures var now := Step(s, e);
            && |s.codes| <= |now.codes|
            && (id < |s.codes| && s.codes[id].For(user, purpose) ==> now.codes[id] == s.codes[id])
            && (Matches(now, id, user, purpose) ==> Matches(s, id, user, purpose))
  {
  }

  lemma StepKeepsCandidate(s: State, e: Event, user: nat, purpose: nat, id: nat, code: nat, tried: nat, until: nat)
    requires StillCandidate(s, user, purpose, id, code, tried, until) && Undisturbing(e, user, purpose, code)
    ensures StillCandidate(Step(s, e), user, purpose, id, code, tried + IsGuess(e, user, purpose), until)
  {
    var now := Step(s, e);
    if IsGuess(e, user, purpose) == 0 {
      hide Step;
      TimeGoesOn(s, e);
      forall other: nat {
        OtherEventsSpare(s, e, user, purpose, code, other);
      }
    } else if s.now < until {
      WrongGuessCounts(s, user, purpose, id, code, tried, e.raw);
      ExpiryStays(s, e, id);
    } else {
      NothingIsFound(s, user, purpose);
      assert now.codes == s.codes;
      assert forall other: nat :: Matches(now, other, user, purpose) ==> Matches(s, other, user, purpose);
    }
  }

  lemma TimeGoesOn(s: State, e: Event)
    ensures s.now <= Step(s, e).now
  {
  }

  lemma ExpiryStays(s: State, e: Event, id: nat)
    requires id < |s.codes| && e.Verify?
    ensures Step(s, e).now == s.now && |Step(s, e).codes| == |s.codes| && Step(s, e).codes[id].expiresAt == s.codes[id].expiresAt
  {
  }

  lemma {:induction false} RunKeepsCandidate(s: State, events: seq<Event>, user: nat, purpose: nat, id: nat, code: nat, until: nat)
    requires StillCandidate(s, user, purpose, id, code, 0, until)
    requires forall e :: e in events ==> Undisturbing(e, user, purpose, code)
    ensures StillCandidate(Run(s, events), user, purpose, id, code, Guesses(events, user, purpose), until)
  {
    hide StillCandidate, Step;
    if events != [] {
      var front, last := events[..|events| - 1], events[|events| - 1];
      RunKeepsCandidate(s, front, user, purpose, id, code, until);
      StepKeepsCandidate(Run(s, front), last, user, purpose, id, code, Guesses(front, user, purpose), until);
    }
  }

  lemma IssuedIsCandidate(s: State, user: nat, purpose: nat, code: nat, seconds: nat)
    ensures StillCandidate(Issue(s, Some(user), purpose, code, seconds, true), user, purpose, |s.codes|, code, 0, s.now + seconds)
  {
    var issued := Issue(s, Some(user), purpose, code, seconds, true);
    assert issued.codes[|s.codes|] == Otp(Some(user), purpose, code, s.now + seconds, 0, false);
    assert forall other: nat :: other != |s.codes| ==> !Matches(issued, other, user, purpose);
  }

  /** Whatever codes the user held before, and whatever else happens in between, issues and
      verifications for other users and purposes, changes of the cache and passing time, a code that
      was sent is accepted exactly when fewer than three wrong guesses were made and it is not
      expired. */
  lemma SentCodeIsAcceptedIff(s: State, user: nat, purpose: nat, code: nat, seconds: nat, events: seq<Event>)
    requires forall e :: e in events ==> Undisturbing(e, user, purpose, code)
    ensures var tried := Run(Issue(s, Some(user), purpose, code, seconds, true), events);
            Consume(tried, user, purpose, code).1 == Accepted <==> Guesses(events, user, purpose) < 3 && tried.now < s.now + seconds
  {
    hide Issue, Run, Latest, AfterLookup, Undisturbing;
    var issued := Issue(s, Some(user), purpose, code, seconds, true);
    var tried := Run(issued, events);
    IssuedIsCandidate(s, user, purpose, code, seconds);
    RunKeepsCandidate(issued, events, user, purpose, |s.codes|, code, s.now + seconds);
    if tried.now < s.now + seconds {
      CandidateIsFound(tried, user, purpose, |s.codes|, code, Guesses(events, user, purpose));
    } else {
      NothingIsFound(tried, user, purpose);
    }
  }

  lemma NothingIsFound(s: State, user: nat, purpose: nat)
    requires forall id: nat :: !Matches(s, id, user, purpose)
    ensures Latest(s, user, purpose).None? && AfterLookup(s, user, purpose).codes == s.codes
  {
  }
}
