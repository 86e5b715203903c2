/** The two stores behind the play-count cache, and what each Redis script does to them.

    PostgreSQL is a finite map from the ids of the live play rows to the song each row
    belongs to. Redis holds the namespace key, the last-play-id key and the count keys. */
module PlayCountState {
  import opened Options

  /** The live play rows: play id to song id. */
  type Plays = map<nat, nat>

  datatype CountKey = CountKey(namespace: nat, song: nat)

  datatype Redis = Redis(namespaceKey: Option<nat>, lastPlayIdKey: Option<nat>, counts: map<CountKey, nat>) {
    /** An absent namespace reads as 1. */
    function Namespace(): nat { namespaceKey.GetOr(1) }

    /** An absent last id reads as 0. */
    function LastPlayId(): nat { lastPlayIdKey.GetOr(0) }
  }

  function PlaysOf(db: Plays, song: nat): set<nat> {
    set play | play in db && db[play] == song
  }

  function TrackedCount(db: Plays, song: nat): nat {
    |PlaysOf(db, song)|
  }

  ghost predicate IsLatest(db: Plays, latest: nat) {
    (forall play :: play in db ==> play <= latest) && (latest == 0 || latest in db)
  }

  lemma {:induction false} LatestExists(db: Plays)
    ensures exists latest :: IsLatest(db, latest)
    decreases |db|
  {
    if db == map[] {
      assert IsLatest(db, 0);
    } else {
      var some :| some in db;
      var rest := db - {some};
      LatestExists(rest);
      var latest :| IsLatest(rest, latest);
      assert forall play :: play in db ==> play == some || play in rest;
      assert IsLatest(db, if latest < some then some else latest);
    }
  }

  /** The greatest live play id, zero when there is none. */
  ghost function LatestPlayId(db: Plays): nat {
    LatestExists(db);
    var latest :| IsLatest(db, latest);
    latest
  }

  lemma LatestIsUnique(db: Plays, latest: nat)
    requires IsLatest(db, latest)
    ensures LatestPlayId(db) == latest
  {
  }

  lemma LatestBounds(db: Plays)
    ensures IsLatest(db, LatestPlayId(db))
  {
  }

  /** Adding a row changes the count of its own song by one and of no other. */
  lemma CountAfterInsert(db: Plays, play: nat, song: nat, other: nat)
    requires play !in db
    ensures TrackedCount(db[play := song], other) == TrackedCount(db, other) + if other == song then 1 else 0
  {
    assert PlaysOf(db[play := song], other) ==
      if other == song then PlaysOf(db, other) + {play} else PlaysOf(db, other);
  }

  lemma LatestAfterInsert(db: Plays, play: nat, song: nat)
    requires LatestPlayId(db) < play
    ensures LatestPlayId(db[play := song]) == play
    ensures play !in db
  {
    LatestBounds(db);
    LatestIsUnique(db[play := song], play);
  }

  lemma LatestAfterDelete(db: Plays, plays: set<nat>)
    ensures LatestPlayId(db - plays) <= LatestPlayId(db)
  {
    LatestBounds(db);
    LatestBounds(db - plays);
  }

  // The effect of each script, as a function of the stored keys.

  function Ensured(r: Redis, dbLastId: nat): Redis {
    if dbLastId > r.LastPlayId() then
      r.(namespaceKey := Some(r.Namespace() + 1), lastPlayIdKey := Some(dbLastId))
    else
      r.(namespaceKey := Some(r.Namespace()))
  }

  /** The namespace a mirrored play counts under: a gap in the ids rotates it. */
  function RecordNamespace(r: Redis, play: nat): nat {
    if play > r.LastPlayId() + 1 then r.Namespace() + 1 else r.Namespace()
  }

  function Recorded(r: Redis, play: nat, song: nat): Redis {
    var namespace := RecordNamespace(r, play);
    var key := CountKey(namespace, song);
    Redis(Some(namespace),
          if play > r.LastPlayId() then Some(play) else r.lastPlayIdKey,
          if key in r.counts then r.counts[key := r.counts[key] + 1] else r.counts)
  }

  /** `INCR` treats a missing key as zero. */
  function Rotated(r: Redis, latest: nat): Redis {
    r.(namespaceKey := Some(r.namespaceKey.GetOr(0) + 1), lastPlayIdKey := Some(latest))
  }

  predicate CoherentFor(r: Redis, namespace: nat, lastId: nat) {
    r.Namespace() == namespace && r.LastPlayId() == lastId
  }

  function WithCounts(counts: map<CountKey, nat>, namespace: nat, values: map<nat, nat>): map<CountKey, nat> {
    map key | key in counts.Keys + (set song | song in values :: CountKey(namespace, song)) ::
      if key.namespace == namespace && key.song in values then values[key.song] else counts[key]
  }

  lemma OneMoreCount(counts: map<CountKey, nat>, namespace: nat, values: map<nat, nat>, song: nat, value: nat)
    ensures WithCounts(counts, namespace, values)[CountKey(namespace, song) := value] ==
            WithCounts(counts, namespace, values[song := value])
  {
  }

  lemma NoCounts(counts: map<CountKey, nat>, namespace: nat)
    ensures WithCounts(counts, namespace, map[]) == counts
  {
  }

  function SetIfCoherent(r: Redis, namespace: nat, lastId: nat, values: map<nat, nat>): Redis {
    if CoherentFor(r, namespace, lastId) then r.(counts := WithCounts(r.counts, namespace, values)) else r
  }

  function Expired(r: Redis, keys: set<CountKey>): Redis {
    r.(counts := r.counts - keys)
  }
}
