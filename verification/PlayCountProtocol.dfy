/** Readers, committed plays, lost mirrors, deletions and key expiry, interleaved freely.

    One event is one Redis script, one PostgreSQL query or one committed transaction with the
    script it triggers. `history` lists the contents of PostgreSQL after each commit, so an index
    into it is a moment; a reader remembers the moment it began. */
module PlayCountProtocol {
  import opened Options
  import opened PlayCountState

  /** Where a call of `get_tracked_song_play_counts` stands. */
  datatype Reader =
    | Started(ids: set<nat>, since: nat, latest: nat)
    | Bound(ids: set<nat>, since: nat, latest: nat, namespace: nat)
    | Fetched(ids: set<nat>, since: nat, latest: nat, usable: Option<nat>, hits: map<nat, nat>)
    | Counted(ids: set<nat>, since: nat, latest: nat, usable: Option<nat>, hits: map<nat, nat>, exact: map<nat, nat>, countedAt: nat)
    | Returned(ids: set<nat>, since: nat, until: nat, reply: map<nat, nat>)

  datatype World = World(history: seq<Plays>, lastIssued: nat, redis: Redis, readers: map<nat, Reader>) {
    predicate Started() { |history| > 0 }
    function Now(): nat requires Started() { |history| - 1 }
    function Db(): Plays requires Started() { history[Now()] }
  }

  datatype Event =
    | Begin(reader: nat, ids: set<nat>)
    | EnsureNamespace(reader: nat)
    | RedisUnusable(reader: nat)
    | BulkRead(reader: nat)
    | CountMissing(reader: nat)
    | Warm(reader: nat)
    | SkipWarm(reader: nat)
    | PlayMirrored(song: nat, gap: nat)
    | PlayMirrorLost(song: nat, gap: nat)
    | PlaysDeleted(plays: set<nat>)
    | KeysExpire(keys: set<CountKey>)

  function Hits(r: Redis, namespace: nat, ids: set<nat>): map<nat, nat> {
    map song | song in ids && CountKey(namespace, song) in r.counts :: r.counts[CountKey(namespace, song)]
  }

  function ExactCounts(db: Plays, ids: set<nat>): map<nat, nat> {
    map song | song in ids :: TrackedCount(db, song)
  }

  ghost function AfterMirroredPlay(w: World, song: nat, gap: nat): World
    requires w.Started()
  {
    var play := w.lastIssued + 1 + gap;
    World(w.history + [w.Db()[play := song]], play, Recorded(w.redis, play, song), w.readers)
  }

  ghost function AfterLostMirror(w: World, song: nat, gap: nat): World
    requires w.Started()
  {
    var play := w.lastIssued + 1 + gap;
    World(w.history + [w.Db()[play := song]], play, w.redis, w.readers)
  }

  ghost function AfterDeletion(w: World, plays: set<nat>): World
    requires w.Started()
  {
    var db := w.Db() - plays;
    World(w.history + [db], w.lastIssued, Rotated(w.redis, LatestPlayId(db)), w.readers)
  }

  ghost function AfterExpiry(w: World, keys: set<CountKey>): World {
    w.(redis := Expired(w.redis, keys))
  }

  function WithReader(w: World, id: nat, redis: Redis, reader: Reader): World {
    World(w.history, w.lastIssued, redis, w.readers[id := reader])
  }

  ghost function BeginReader(w: World, ids: set<nat>): Reader
    requires w.Started()
  {
    Reader.Started(ids, w.Now(), LatestPlayId(w.Db()))
  }

  function EnsureReader(w: World, reader: Reader): Reader
    requires reader.Started?
  {
    Bound(reader.ids, reader.since, reader.latest, Ensured(w.redis, reader.latest).Namespace())
  }

  /** No client, or the ensure script or the bulk read failed: every id is counted in PostgreSQL
      and nothing is written back. */
  function UnusableReader(reader: Reader): Reader
    requires reader.Started? || reader.Bound?
  {
    Fetched(reader.ids, reader.since, reader.latest, None, map[])
  }

  function BulkReader(w: World, reader: Reader): Reader
    requires reader.Bound?
  {
    Fetched(reader.ids, reader.since, reader.latest, Some(reader.namespace), Hits(w.redis, reader.namespace, reader.ids))
  }

  function CountingReader(w: World, reader: Reader): Reader
    requires w.Started() && reader.Fetched?
  {
    var missing := reader.ids - reader.hits.Keys;
    if missing == {} then Returned(reader.ids, reader.since, w.Now(), reader.hits)
    else Counted(reader.ids, reader.since, reader.latest, reader.usable, reader.hits, ExactCounts(w.Db(), missing), w.Now())
  }

  function WarmedRedis(w: World, reader: Reader): Redis
    requires reader.Counted? && reader.usable.Some?
  {
    SetIfCoherent(w.redis, reader.usable.value, reader.latest, reader.exact)
  }

  function ReturnedReader(w: World, reader: Reader): Reader
    requires w.Started() && reader.Counted?
  {
    Returned(reader.ids, reader.since, w.Now(), reader.hits + reader.exact)
  }

  /** The events of one call, each in the phase it belongs to. A call whose Redis was not usable,
      or whose warming script failed, skips the warming. */
  predicate Enabled(w: World, e: Event) {
    match e
    case Begin(id, _) => id !in w.readers
    case EnsureNamespace(id) => id in w.readers && w.readers[id].Started?
    case RedisUnusable(id) => id in w.readers && (w.readers[id].Started? || w.readers[id].Bound?)
    case BulkRead(id) => id in w.readers && w.readers[id].Bound?
    case CountMissing(id) => id in w.readers && w.readers[id].Fetched?
    case Warm(id) => id in w.readers && w.readers[id].Counted? && w.readers[id].usable.Some?
    case SkipWarm(id) => id in w.readers && w.readers[id].Counted?
    case _ => true
  }

  /** The world after one event; an event that is not possible changes nothing. */
  ghost function Step(w: World, e: Event): World
    requires w.Started()
  {
    if !Enabled(w, e) then w
    else
      match e
      case Begin(id, ids) => WithReader(w, id, w.redis, BeginReader(w, ids))
      case EnsureNamespace(id) => WithReader(w, id, Ensured(w.redis, w.readers[id].latest), EnsureReader(w, w.readers[id]))
      case RedisUnusable(id) => WithReader(w, id, w.redis, UnusableReader(w.readers[id]))
      case BulkRead(id) => WithReader(w, id, w.redis, BulkReader(w, w.readers[id]))
      case CountMissing(id) => WithReader(w, id, w.redis, CountingReader(w, w.readers[id]))
      case Warm(id) => WithReader(w, id, WarmedRedis(w, w.readers[id]), ReturnedReader(w, w.readers[id]))
      case SkipWarm(id) => WithReader(w, id, w.redis, ReturnedReader(w, w.readers[id]))
      case PlayMirrored(song, gap) => AfterMirroredPlay(w, song, gap)
      case PlayMirrorLost(song, gap) => AfterLostMirror(w, song, gap)
      case PlaysDeleted(plays) => AfterDeletion(w, plays)
      case KeysExpire(keys) => AfterExpiry(w, keys)
  }

  ghost function Run(w: World, events: seq<Event>): (r: World)
    requires w.Started()
  {
    if events == [] then w
    else
      var before := Run(w, events[..|events| - 1]);
      if before.Started() then Step(before, events[|events| - 1]) else before
  }

  /** Redis was never written; PostgreSQL may already hold plays. */
  ghost predicate Initial(w: World) {
    && |w.history| == 1
    && LatestPlayId(w.history[0]) <= w.lastIssued
    && w.redis == Redis(None, None, map[])
    && w.readers == map[]
  }

  // What an entry of the cache is worth.

  ghost predicate ExactAt(history: seq<Plays>, moment: nat, song: nat, value: nat) {
    moment < |history| && value == TrackedCount(history[moment], song)
  }

  ghost predicate ExactBetween(history: seq<Plays>, since: nat, until: nat, song: nat, value: nat) {
    exists moment :: since <= moment <= until && ExactAt(history, moment, song, value)
  }

  /** PostgreSQL has been ahead of `lastId` at every moment after `moment`. */
  ghost predicate AheadSince(history: seq<Plays>, moment: nat, lastId: nat) {
    forall later :: moment < later < |history| ==> LatestPlayId(history[later]) > lastId
  }

  /** The value was exact at some moment, and every moment since has been ahead of Redis. */
  ghost predicate Trusted(history: seq<Plays>, lastId: nat, song: nat, value: nat) {
    exists moment :: ExactAt(history, moment, song, value) && AheadSince(history, moment, lastId)
  }

  ghost predicate IdsInvariant(w: World)
    requires w.Started()
  {
    && (forall m :: 0 <= m < |w.history| ==> LatestPlayId(w.history[m]) <= w.lastIssued)
    && w.redis.LastPlayId() <= w.lastIssued
  }

  ghost predicate KeysInvariant(w: World) {
    forall key :: key in w.redis.counts ==> w.redis.namespaceKey.Some? && key.namespace <= w.redis.Namespace()
  }

  ghost predicate EntriesTrusted(h: seq<Plays>, r: Redis) {
    forall key :: key in r.counts && key.namespace == r.Namespace() ==>
      Trusted(h, r.LastPlayId(), key.song, r.counts[key])
  }

  ghost predicate EntriesInvariant(w: World) { EntriesTrusted(w.history, w.redis) }

  /** A namespace a reader was given: it exists, and while it is current Redis has seen
      everything the reader saw when it began. */
  ghost predicate Holds(w: World, latest: nat, namespace: nat) {
    && w.redis.namespaceKey.Some?
    && namespace <= w.redis.Namespace()
    && (namespace == w.redis.Namespace() ==> latest <= w.redis.LastPlayId())
  }

  ghost predicate AllExactBetween(history: seq<Plays>, since: nat, until: nat, values: map<nat, nat>) {
    forall song :: song in values ==> ExactBetween(history, since, until, song, values[song])
  }

  ghost predicate ReaderInvariant(w: World, reader: Reader)
    requires w.Started()
  {
    match reader
    case Started(ids, since, latest) =>
      since <= w.Now() && latest == LatestPlayId(w.history[since])
    case Bound(ids, since, latest, namespace) =>
      && since <= w.Now() && latest == LatestPlayId(w.history[since])
      && Holds(w, latest, namespace)
      && (forall key :: key in w.redis.counts && key.namespace == namespace ==>
            ExactBetween(w.history, since, w.Now(), key.song, w.redis.counts[key]))
    case Fetched(ids, since, latest, usable, hits) =>
      && since <= w.Now() && latest == LatestPlayId(w.history[since])
      && hits.Keys <= ids
      && (usable.Some? ==> Holds(w, latest, usable.value))
      && AllExactBetween(w.history, since, w.Now(), hits)
    case Counted(ids, since, latest, usable, hits, exact, countedAt) =>
      && since <= countedAt <= w.Now() && latest == LatestPlayId(w.history[since])
      && hits.Keys <= ids && exact.Keys == ids - hits.Keys
      && (usable.Some? ==> Holds(w, latest, usable.value))
      && AllExactBetween(w.history, since, w.Now(), hits)
      && (forall song :: song in exact ==> ExactAt(w.history, countedAt, song, exact[song]))
      && (usable.Some? && CoherentFor(w.redis, usable.value, latest) ==> AheadSince(w.history, countedAt, latest))
    case Returned(ids, since, until, reply) =>
      reply.Keys == ids && since <= until <= w.Now() && AllExactBetween(w.history, since, until, reply)
  }

  ghost predicate Invariant(w: World) {
    && w.Started()
    && IdsInvariant(w)
    && KeysInvariant(w)
    && EntriesInvariant(w)
    && forall id :: id in w.readers ==> ReaderInvariant(w, w.readers[id])
  }

  lemma ExactBetweenGrows(h: seq<Plays>, g: seq<Plays>, since: nat, until: nat, until': nat, song: nat, value: nat)
    requires h <= g && until <= until' && ExactBetween(h, since, until, song, value)
    ensures ExactBetween(g, since, until', song, value)
  {
    var m :| since <= m <= until && ExactAt(h, m, song, value);
    assert ExactAt(g, m, song, value);
  }

  lemma AllExactBetweenGrows(h: seq<Plays>, g: seq<Plays>, since: nat, until: nat, until': nat, values: map<nat, nat>)
    requires h <= g && until <= until' && AllExactBetween(h, since, until, values)
    ensures AllExactBetween(g, since, until', values)
  {
    forall song | song in values ensures ExactBetween(g, since, until', song, values[song]) {
      ExactBetweenGrows(h, g, since, until, until', song, values[song]);
    }
  }

  /** A trusted value is exact since any moment that Redis has caught up with. */
  lemma TrustedIsExactSince(h: seq<Plays>, lastId: nat, song: nat, value: nat, since: nat)
    requires Trusted(h, lastId, song, value)
    requires since < |h| && LatestPlayId(h[since]) <= lastId
    ensures ExactBetween(h, since, |h| - 1, song, value)
  {
    var m :| ExactAt(h, m, song, value) && AheadSince(h, m, lastId);
    assert since <= m;
  }

  /** Once the namespace has moved on, or the history has grown under an unchanged Redis,
      what a reader holds stays good. */
  lemma ReaderSurvivesRotation(w: World, w': World, reader: Reader)
    requires w.Started() && w'.Started() && w.history <= w'.history
    requires ReaderInvariant(w, reader)
    requires w'.redis.namespaceKey.Some?
    requires w.redis.namespaceKey.Some? ==> w'.redis.Namespace() > w.redis.Namespace()
    requires forall key :: key in w'.redis.counts ==> key in w.redis.counts && w'.redis.counts[key] == w.redis.counts[key]
    ensures ReaderInvariant(w', reader)
  {
    match reader
    case Started(_, _, _) =>
    case Bound(ids, since, latest, namespace) =>
      forall key | key in w'.redis.counts && key.namespace == namespace
        ensures ExactBetween(w'.history, since, w'.Now(), key.song, w'.redis.counts[key])
      {
        ExactBetweenGrows(w.history, w'.history, since, w.Now(), w'.Now(), key.song, w.redis.counts[key]);
      }
    case Fetched(ids, since, latest, usable, hits) =>
      AllExactBetweenGrows(w.history, w'.history, since, w.Now(), w'.Now(), hits);
    case Counted(ids, since, latest, usable, hits, exact, countedAt) =>
      AllExactBetweenGrows(w.history, w'.history, since, w.Now(), w'.Now(), hits);
      forall song | song in exact ensures ExactAt(w'.history, countedAt, song, exact[song]) {
        assert ExactAt(w.history, countedAt, song, exact[song]);
      }
    case Returned(ids, since, until, reply) =>
      AllExactBetweenGrows(w.history, w'.history, since, until, until, reply);
  }

  /** Everything that leaves the namespace alone: the last id may rise, one moment may be added
      (ahead of the old last id), and entries may change to values exact since the reader began. */
  lemma ReaderSurvivesSameNamespace(w: World, w': World, reader: Reader)
    requires w.Started() && w'.Started() && w.history <= w'.history
    requires IdsInvariant(w)
    requires ReaderInvariant(w, reader)
    requires w.redis.namespaceKey.Some? ==> w'.redis.namespaceKey.Some?
    requires w.redis.Namespace() == w'.redis.Namespace()
    requires w'.redis.LastPlayId() == w.redis.LastPlayId() || w'.redis.LastPlayId() > w.lastIssued
    requires forall m :: |w.history| <= m < |w'.history| ==> LatestPlayId(w'.history[m]) > w.redis.LastPlayId()
    requires forall key :: key in w'.redis.counts ==>
               || (key in w.redis.counts && w'.redis.counts[key] == w.redis.counts[key])
               || (key.namespace == w'.redis.Namespace() && Trusted(w'.history, w'.redis.LastPlayId(), key.song, w'.redis.counts[key]))
    ensures ReaderInvariant(w', reader)
  {
    match reader
    case Started(_, _, _) =>
    case Bound(ids, since, latest, namespace) =>
      forall key | key in w'.redis.counts && key.namespace == namespace
        ensures ExactBetween(w'.history, since, w'.Now(), key.song, w'.redis.counts[key])
      {
        if key in w.redis.counts && w'.redis.counts[key] == w.redis.counts[key] {
          ExactBetweenGrows(w.history, w'.history, since, w.Now(), w'.Now(), key.song, w.redis.counts[key]);
        } else {
          TrustedIsExactSince(w'.history, w'.redis.LastPlayId(), key.song, w'.redis.counts[key], since);
        }
      }
    case Fetched(ids, since, latest, usable, hits) =>
      AllExactBetweenGrows(w.history, w'.history, since, w.Now(), w'.Now(), hits);
    case Counted(ids, since, latest, usable, hits, exact, countedAt) =>
      AllExactBetweenGrows(w.history, w'.history, since, w.Now(), w'.Now(), hits);
      forall song | song in exact ensures ExactAt(w'.history, countedAt, song, exact[song]) {
        assert ExactAt(w.history, countedAt, song, exact[song]);
      }
      assert latest <= w.lastIssued;
    case Returned(ids, since, until, reply) =>
      AllExactBetweenGrows(w.history, w'.history, since, until, until, reply);
  }

  lemma TrustedGrows(h: seq<Plays>, db: Plays, lastId: nat, song: nat, value: nat)
    requires Trusted(h, lastId, song, value)
    requires LatestPlayId(db) > lastId
    ensures Trusted(h + [db], lastId, song, value)
  {
    var m :| ExactAt(h, m, song, value) && AheadSince(h, m, lastId);
    assert ExactAt(h + [db], m, song, value) && AheadSince(h + [db], m, lastId);
  }

  /** While PostgreSQL is not ahead of Redis, a trusted value is the current count. */
  lemma TrustedIsCurrent(h: seq<Plays>, lastId: nat, song: nat, value: nat)
    requires |h| > 0 && Trusted(h, lastId, song, value) && LatestPlayId(h[|h| - 1]) <= lastId
    ensures value == TrackedCount(h[|h| - 1], song)
  {
    TrustedIsExactSince(h, lastId, song, value, |h| - 1);
    var m :| |h| - 1 <= m <= |h| - 1 && ExactAt(h, m, song, value);
  }

  lemma CurrentIsTrusted(h: seq<Plays>, lastId: nat, song: nat)
    requires |h| > 0
    ensures Trusted(h, lastId, song, TrackedCount(h[|h| - 1], song))
  {
    assert ExactAt(h, |h| - 1, song, TrackedCount(h[|h| - 1], song)) && AheadSince(h, |h| - 1, lastId);
  }

  /** The increment of the record script is applied exactly when it is the one play Redis misses. */
  lemma ConsecutiveMirrorKeepsEntries(h: seq<Plays>, r: Redis, play: nat, song: nat, key: CountKey)
    requires |h| > 0 && play == r.LastPlayId() + 1 && LatestPlayId(h[|h| - 1]) < play
    requires key in r.counts && Trusted(h, r.LastPlayId(), key.song, r.counts[key])
    requires key.namespace == r.Namespace()
    ensures var r' := Recorded(r, play, song);
            Trusted(h + [h[|h| - 1][play := song]], play, key.song, r'.counts[key])
  {
    var db := h[|h| - 1];
    TrustedIsCurrent(h, r.LastPlayId(), key.song, r.counts[key]);
    CountAfterInsert(db, play, song, key.song);
    CurrentIsTrusted(h + [db[play := song]], play, key.song);
  }

  lemma GapMirrorKeepsReaders(w: World, song: nat, gap: nat)
    requires Invariant(w) && w.lastIssued + gap > w.redis.LastPlayId()
    ensures var w' := AfterMirroredPlay(w, song, gap);
            forall id :: id in w.readers ==> ReaderInvariant(w', w.readers[id])
  {
    var w' := AfterMirroredPlay(w, song, gap);
    assert CountKey(w.redis.Namespace() + 1, song) !in w.redis.counts;
    forall id | id in w.readers ensures ReaderInvariant(w', w.readers[id]) {
      ReaderSurvivesRotation(w, w', w.readers[id]);
    }
  }

  lemma ConsecutiveMirrorKeepsReaders(w: World, song: nat, gap: nat)
    requires Invariant(w) && w.lastIssued + gap == w.redis.LastPlayId()
    requires EntriesInvariant(AfterMirroredPlay(w, song, gap))
    ensures var w' := AfterMirroredPlay(w, song, gap);
            forall id :: id in w.readers ==> ReaderInvariant(w', w.readers[id])
  {
    var w' := AfterMirroredPlay(w, song, gap);
    LatestAfterInsert(w.Db(), w.lastIssued + 1 + gap, song);
    forall id | id in w.readers ensures ReaderInvariant(w', w.readers[id]) {
      ReaderSurvivesSameNamespace(w, w', w.readers[id]);
    }
  }

  lemma RecordKeepsEntries(h: seq<Plays>, r: Redis, play: nat, song: nat)
    requires |h| > 0 && LatestPlayId(h[|h| - 1]) < play && r.LastPlayId() < play
    requires EntriesTrusted(h, r)
    requires forall key :: key in r.counts ==> key.namespace <= r.Namespace()
    ensures EntriesTrusted(h + [h[|h| - 1][play := song]], Recorded(r, play, song))
  {
    var r' := Recorded(r, play, song);
    if play == r.LastPlayId() + 1 {
      forall key | key in r'.counts && key.namespace == r'.Namespace()
        ensures Trusted(h + [h[|h| - 1][play := song]], play, key.song, r'.counts[key])
      {
        ConsecutiveMirrorKeepsEntries(h, r, play, song, key);
      }
    } else {
      assert CountKey(r.Namespace() + 1, song) !in r.counts;
    }
  }

  lemma MirroredPlayKeeps(w: World, song: nat, gap: nat)
    requires Invariant(w)
    ensures Invariant(AfterMirroredPlay(w, song, gap))
  {
    var w' := AfterMirroredPlay(w, song, gap);
    LatestAfterInsert(w.Db(), w.lastIssued + 1 + gap, song);
    RecordKeepsEntries(w.history, w.redis, w.lastIssued + 1 + gap, song);
    if w.lastIssued + gap > w.redis.LastPlayId() {
      GapMirrorKeepsReaders(w, song, gap);
    } else {
      ConsecutiveMirrorKeepsReaders(w, song, gap);
    }
    assert IdsInvariant(w');
    assert KeysInvariant(w');
  }

  lemma LostMirrorKeeps(w: World, song: nat, gap: nat)
    requires Invariant(w)
    ensures Invariant(AfterLostMirror(w, song, gap))
  {
    var w' := AfterLostMirror(w, song, gap);
    var play := w.lastIssued + 1 + gap;
    LatestAfterInsert(w.Db(), play, song);
    forall key | key in w'.redis.counts && key.namespace == w'.redis.Namespace()
      ensures Trusted(w'.history, w'.redis.LastPlayId(), key.song, w'.redis.counts[key])
    {
      TrustedGrows(w.history, w.Db()[play := song], w.redis.LastPlayId(), key.song, w.redis.counts[key]);
    }
    forall id | id in w'.readers ensures ReaderInvariant(w', w'.readers[id]) {
      ReaderSurvivesSameNamespace(w, w', w.readers[id]);
    }
  }

  lemma DeletionKeeps(w: World, plays: set<nat>)
    requires Invariant(w)
    ensures Invariant(AfterDeletion(w, plays))
  {
    var w' := AfterDeletion(w, plays);
    LatestAfterDelete(w.Db(), plays);
    assert LatestPlayId(w.history[w.Now()]) <= w.lastIssued;
    forall id | id in w'.readers ensures ReaderInvariant(w', w'.readers[id]) {
      ReaderSurvivesRotation(w, w', w.readers[id]);
    }
  }

  lemma ExpiryKeeps(w: World, keys: set<CountKey>)
    requires Invariant(w)
    ensures Invariant(AfterExpiry(w, keys))
  {
    var w' := AfterExpiry(w, keys);
    forall id | id in w'.readers ensures ReaderInvariant(w', w'.readers[id]) {
      ReaderSurvivesSameNamespace(w, w', w.readers[id]);
    }
  }

  /** A step of one call that leaves Redis alone keeps the invariant if the call itself is in order. */
  lemma ReaderMoveKeeps(w: World, id: nat, reader: Reader)
    requires Invariant(w) && ReaderInvariant(w, reader)
    ensures Invariant(WithReader(w, id, w.redis, reader))
  {
    var w' := WithReader(w, id, w.redis, reader);
    assert IdsInvariant(w') && KeysInvariant(w') && EntriesInvariant(w');
    forall other | other in w'.readers ensures ReaderInvariant(w', w'.readers[other]) {
      ReaderSurvivesSameNamespace(w, w', if other == id then reader else w.readers[other]);
    }
  }

  lemma EnsureKeepsReaders(w: World, id: nat, latest: nat, other: Reader)
    requires Invariant(w) && latest <= w.lastIssued && ReaderInvariant(w, other)
    ensures ReaderInvariant(WithReader(w, id, Ensured(w.redis, latest), other), other)
  {
    var w' := WithReader(w, id, Ensured(w.redis, latest), other);
    if latest > w.redis.LastPlayId() {
      ReaderSurvivesRotation(w, w', other);
    } else {
      ReaderSurvivesSameNamespace(w, w', other);
    }
  }

  lemma EnsuredReaderIsBound(w: World, id: nat)
    requires Invariant(w) && id in w.readers && w.readers[id].Started?
    ensures var r := w.readers[id];
            ReaderInvariant(WithReader(w, id, Ensured(w.redis, r.latest), EnsureReader(w, r)), EnsureReader(w, r))
  {
    var reader := w.readers[id];
    assert ReaderInvariant(w, reader);
    var redis := Ensured(w.redis, reader.latest);
    if reader.latest <= w.redis.LastPlayId() {
      forall key | key in redis.counts && key.namespace == redis.Namespace()
        ensures ExactBetween(w.history, reader.since, w.Now(), key.song, redis.counts[key])
      {
        TrustedIsExactSince(w.history, w.redis.LastPlayId(), key.song, w.redis.counts[key], reader.since);
      }
    }
  }

  lemma SameStores(w: World, w': World, reader: Reader)
    requires w.Started() && w'.history == w.history && w'.redis == w.redis
    ensures ReaderInvariant(w', reader) == ReaderInvariant(w, reader)
  {
  }

  lemma EnsureKeeps(w: World, id: nat)
    requires Invariant(w) && id in w.readers && w.readers[id].Started?
    ensures var r := w.readers[id]; Invariant(WithReader(w, id, Ensured(w.redis, r.latest), EnsureReader(w, r)))
  {
    var reader := w.readers[id];
    assert ReaderInvariant(w, reader);
    assert LatestPlayId(w.history[reader.since]) <= w.lastIssued;
    var w' := WithReader(w, id, Ensured(w.redis, reader.latest), EnsureReader(w, reader));
    EnsuredReaderIsBound(w, id);
    forall other | other in w'.readers ensures ReaderInvariant(w', w'.readers[other]) {
      if other != id {
        EnsureKeepsReaders(w, id, reader.latest, w.readers[other]);
        SameStores(WithReader(w, id, Ensured(w.redis, reader.latest), w.readers[other]), w', w.readers[other]);
      }
    }
    assert IdsInvariant(w') && KeysInvariant(w') && EntriesInvariant(w');
  }

  lemma WarmKeepsEntries(w: World, reader: Reader)
    requires Invariant(w) && reader.Counted? && reader.usable.Some? && ReaderInvariant(w, reader)
    ensures EntriesTrusted(w.history, WarmedRedis(w, reader))
  {
    var r' := WarmedRedis(w, reader);
    if CoherentFor(w.redis, reader.usable.value, reader.latest) {
      forall key | key in r'.counts && key.namespace == r'.Namespace()
        ensures Trusted(w.history, reader.latest, key.song, r'.counts[key])
      {
        if key.song in reader.exact {
          assert ExactAt(w.history, reader.countedAt, key.song, reader.exact[key.song]);
        }
      }
    }
  }

  lemma ReplyIsExact(w: World, reader: Reader)
    requires w.Started() && reader.Counted? && ReaderInvariant(w, reader)
    ensures AllExactBetween(w.history, reader.since, w.Now(), reader.hits + reader.exact)
  {
    var reply := reader.hits + reader.exact;
    forall song | song in reply ensures ExactBetween(w.history, reader.since, w.Now(), song, reply[song]) {
      if song in reader.exact {
        assert ExactAt(w.history, reader.countedAt, song, reader.exact[song]);
      }
    }
  }

  lemma WarmKeeps(w: World, id: nat)
    requires Invariant(w) && id in w.readers && w.readers[id].Counted? && w.readers[id].usable.Some?
    ensures var r := w.readers[id]; Invariant(WithReader(w, id, WarmedRedis(w, r), ReturnedReader(w, r)))
  {
    var reader := w.readers[id];
    var w' := WithReader(w, id, WarmedRedis(w, reader), ReturnedReader(w, reader));
    assert ReaderInvariant(w, reader);
    WarmKeepsEntries(w, reader);
    ReplyIsExact(w, reader);
    assert IdsInvariant(w') && KeysInvariant(w') && EntriesInvariant(w');
    forall other | other in w'.readers ensures ReaderInvariant(w', w'.readers[other]) {
      if other != id {
        ReaderSurvivesSameNamespace(w, w', w.readers[other]);
      }
    }
  }

  lemma BulkReadKeeps(w: World, id: nat)
    requires Invariant(w) && id in w.readers && w.readers[id].Bound?
    ensures Invariant(WithReader(w, id, w.redis, BulkReader(w, w.readers[id])))
  {
    var reader := w.readers[id];
    assert ReaderInvariant(w, reader);
    var hits := Hits(w.redis, reader.namespace, reader.ids);
    forall song | song in hits ensures ExactBetween(w.history, reader.since, w.Now(), song, hits[song]) {
      assert CountKey(reader.namespace, song) in w.redis.counts;
    }
    ReaderMoveKeeps(w, id, BulkReader(w, reader));
  }

  lemma CountMissingKeeps(w: World, id: nat)
    requires Invariant(w) && id in w.readers && w.readers[id].Fetched?
    ensures Invariant(WithReader(w, id, w.redis, CountingReader(w, w.readers[id])))
  {
    var reader := w.readers[id];
    assert ReaderInvariant(w, reader);
    var counting := CountingReader(w, reader);
    if counting.Counted? {
      assert forall song :: song in counting.exact ==> ExactAt(w.history, w.Now(), song, counting.exact[song]);
    } else {
      var missing := reader.ids - reader.hits.Keys;
      forall song | song in reader.ids ensures song in reader.hits {
        assert missing == {} && (song !in reader.hits ==> song in missing);
      }
    }
    ReaderMoveKeeps(w, id, counting);
  }

  lemma StepKeepsInvariant(w: World, e: Event)
    requires Invariant(w)
    ensures Invariant(Step(w, e))
  {
    if Enabled(w, e) {
      match e
      case Begin(id, ids) => ReaderMoveKeeps(w, id, BeginReader(w, ids));
      case EnsureNamespace(id) => EnsureKeeps(w, id);
      case RedisUnusable(id) =>
        assert ReaderInvariant(w, w.readers[id]);
        ReaderMoveKeeps(w, id, UnusableReader(w.readers[id]));
      case BulkRead(id) => BulkReadKeeps(w, id);
      case CountMissing(id) => CountMissingKeeps(w, id);
      case Warm(id) => WarmKeeps(w, id);
      case SkipWarm(id) =>
        ReplyIsExact(w, w.readers[id]);
        ReaderMoveKeeps(w, id, ReturnedReader(w, w.readers[id]));
      case PlayMirrored(song, gap) => MirroredPlayKeeps(w, song, gap);
      case PlayMirrorLost(song, gap) => LostMirrorKeeps(w, song, gap);
      case PlaysDeleted(plays) => DeletionKeeps(w, plays);
      case KeysExpire(keys) => ExpiryKeeps(w, keys);
    }
  }

  lemma {:induction false} RunKeepsInvariant(w: World, events: seq<Event>)
    requires Initial(w)
    ensures Invariant(Run(w, events))
  {
    if events != [] {
      RunKeepsInvariant(w, events[..|events| - 1]);
      StepKeepsInvariant(Run(w, events[..|events| - 1]), events[|events| - 1]);
    }
  }

  /** Whatever readers, plays, lost mirrors, deletions and expiries do to each other, every count
      a call returns was PostgreSQL's count at some moment between its first read and its return. */
  lemma ReturnedCountsWereTrue(w: World, events: seq<Event>, id: nat, song: nat)
    requires Initial(w)
    requires id in Run(w, events).readers && Run(w, events).readers[id].Returned?
    requires song in Run(w, events).readers[id].ids
    ensures song in Run(w, events).readers[id].reply
    ensures var end := Run(w, events); var call := end.readers[id];
            exists moment :: call.since <= moment <= call.until < |end.history| &&
              call.reply[song] == TrackedCount(end.history[moment], song)
  {
    RunKeepsInvariant(w, events);
    var end := Run(w, events);
    var call := end.readers[id];
    var m :| call.since <= m <= call.until && ExactAt(end.history, m, song, call.reply[song]);
  }

  lemma InvariantMeansExact(w: World)
    requires w.Started() && EntriesInvariant(w) && LatestPlayId(w.Db()) <= w.redis.LastPlayId()
    ensures forall key :: key in w.redis.counts && key.namespace == w.redis.Namespace() ==>
              w.redis.counts[key] == TrackedCount(w.Db(), key.song)
  {
    forall key | key in w.redis.counts && key.namespace == w.redis.Namespace()
      ensures w.redis.counts[key] == TrackedCount(w.Db(), key.song)
    {
      TrustedIsCurrent(w.history, w.redis.LastPlayId(), key.song, w.redis.counts[key]);
    }
  }

  /** Whenever PostgreSQL is not ahead of Redis every entry of the current namespace is exact,
      and no key lies under a namespace that has not been opened yet. */
  lemma CoherentEntriesAreExact(w: World, events: seq<Event>)
    requires Initial(w)
    ensures var end := Run(w, events);
            && end.Started()
            && (forall key :: key in end.redis.counts ==> key.namespace <= end.redis.Namespace())
            && (LatestPlayId(end.Db()) <= end.redis.LastPlayId() ==>
                  forall key :: key in end.redis.counts && key.namespace == end.redis.Namespace() ==>
                    end.redis.counts[key] == TrackedCount(end.Db(), key.song))
  {
    RunKeepsInvariant(w, events);
    var end := Run(w, events);
    assert KeysInvariant(end);
    if LatestPlayId(end.Db()) <= end.redis.LastPlayId() {
      InvariantMeansExact(end);
    }
  }

  // What the cache is for.

  /** One call with all its Redis calls working and nothing in between. */
  function LoneCall(reader: nat, ids: set<nat>): seq<Event> {
    LoneRead(reader, ids) + [CountMissing(reader)] + [Warm(reader)]
  }

  /** Its part before PostgreSQL is asked for counts. */
  function LoneRead(reader: nat, ids: set<nat>): seq<Event> {
    [Begin(reader, ids)] + [EnsureNamespace(reader)] + [BulkRead(reader)]
  }

  lemma RunThen(w: World, events: seq<Event>, e: Event)
    requires w.Started()
    ensures Run(w, events).Started() ==> Run(w, events + [e]) == Step(Run(w, events), e)
    ensures Run(w, []) == w
  {
    assert (events + [e])[..|events|] == events;
  }

  lemma LoneReadSteps(w: World, reader: nat, ids: set<nat>)
    requires w.Started()
    ensures var begun := Step(w, Begin(reader, ids)); begun.Started() && Step(begun, EnsureNamespace(reader)).Started()
    ensures Run(w, LoneRead(reader, ids)) == Step(Step(Step(w, Begin(reader, ids)), EnsureNamespace(reader)), BulkRead(reader))
  {
    RunThen(w, [], Begin(reader, ids));
    assert [] + [Begin(reader, ids)] == [Begin(reader, ids)];
    RunThen(w, [Begin(reader, ids)], EnsureNamespace(reader));
    RunThen(w, [Begin(reader, ids)] + [EnsureNamespace(reader)], BulkRead(reader));
  }

  /** After it every song it asked for has an entry that the next call finds. */
  lemma LoneCallFillsTheCache(w: World, reader: nat, ids: set<nat>)
    requires w.Started() && reader !in w.readers && w.redis.LastPlayId() <= LatestPlayId(w.Db())
    ensures var done := Run(w, LoneCall(reader, ids));
            && done.history == w.history && reader in done.readers && done.readers[reader].Returned?
            && done.readers.Keys == w.readers.Keys + {reader}
            && done.redis.LastPlayId() == LatestPlayId(w.Db())
            && forall song :: song in ids ==> CountKey(done.redis.Namespace(), song) in done.redis.counts
  {
    LoneReadSteps(w, reader, ids);
    var read := Run(w, LoneRead(reader, ids));
    RunThen(w, LoneRead(reader, ids), CountMissing(reader));
    RunThen(w, LoneRead(reader, ids) + [CountMissing(reader)], Warm(reader));
    hide Run, LatestPlayId, TrackedCount;
    var fetched := read.readers[reader];
    var counted := Step(read, CountMissing(reader));
    assert fetched.Fetched? && fetched.usable == Some(read.redis.Namespace()) && fetched.latest == read.redis.LastPlayId();
    forall song | song in ids ensures CountKey(read.redis.Namespace(), song) in Step(counted, Warm(reader)).redis.counts {
      if song in fetched.hits {
        assert CountKey(read.redis.Namespace(), song) in read.redis.counts;
      } else {
        assert song in fetched.ids - fetched.hits.Keys;
        assert song in counted.readers[reader].exact;
      }
    }
  }

  /** When every song asked for has an entry and Redis has caught up, a call reads all its counts from
      Redis: nothing is left to count in PostgreSQL. */
  lemma WarmCallNeedsNoCounting(w: World, reader: nat, ids: set<nat>)
    requires w.Started() && reader !in w.readers && w.redis.LastPlayId() == LatestPlayId(w.Db())
    requires forall song :: song in ids ==> CountKey(w.redis.Namespace(), song) in w.redis.counts
    ensures var read := Run(w, LoneRead(reader, ids));
            reader in read.readers && read.readers[reader].Fetched? && read.readers[reader].hits.Keys == ids
  {
    LoneReadSteps(w, reader, ids);
    hide Run, LatestPlayId, TrackedCount;
  }
}
