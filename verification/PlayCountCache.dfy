/** The Redis keys of the play-count cache, updated in place by the four scripts, and the reader
    that serves counts from them. */
module PlayCountCache {
  import opened Options
  import opened Sequences
  import opened PlayCountState

  /** Which of a reader's Redis calls fail; PostgreSQL always answers. */
  datatype Faults = Faults(noClient: bool, ensureFails: bool, bulkReadFails: bool, warmFails: bool)

  /** Every entry of the current namespace is the count PostgreSQL would give. */
  predicate Coherent(r: Redis, db: Plays) {
    forall key :: key in r.counts && key.namespace == r.Namespace() ==>
      r.counts[key] == TrackedCount(db, key.song)
  }

  predicate NoFutureKeys(r: Redis) {
    forall key :: key in r.counts ==> r.namespaceKey.Some? && key.namespace <= r.Namespace()
  }

  /** What holds between calls: exact unless PostgreSQL is visibly ahead. */
  predicate Serves(r: Redis, db: Plays, latest: nat) {
    NoFutureKeys(r) && (latest <= r.LastPlayId() ==> Coherent(r, db))
  }

  function WantedIds(songIds: seq<nat>): seq<nat>
    ensures forall id :: id in WantedIds(songIds) <==> id in songIds && id != 0
  {
    if songIds == [] then []
    else if songIds[0] == 0 then WantedIds(songIds[1..])
    else [songIds[0]] + WantedIds(songIds[1..])
  }

  /** A mirror that arrives after its play is already counted keeps the cache exact precisely
      when it opens a new namespace or finds no entry to increment. */
  lemma LateMirrorIsHarmlessIff(r: Redis, db: Plays, play: nat)
    requires NoFutureKeys(r) && Coherent(r, db) && play in db
    ensures Coherent(Recorded(r, play, db[play]), db) <==>
            play > r.LastPlayId() + 1 || CountKey(r.Namespace(), db[play]) !in r.counts
  {
    var key := CountKey(r.Namespace(), db[play]);
    var r' := Recorded(r, play, db[play]);
    if play > r.LastPlayId() + 1 {
      assert forall k :: k in r'.counts ==> k.namespace != r'.Namespace();
    } else if key in r.counts {
      assert r'.counts[key] == TrackedCount(db, key.song) + 1;
    }
  }

  /** The double count: play 1 is in PostgreSQL, a reader has warmed the cache with it, and only
      then does its own mirror run. */
  lemma LateMirrorDoubleCounts()
    ensures var r := Redis(Some(2), Some(1), map[CountKey(2, 7) := 1]);
            var db: Plays := map[1 := 7];
            Serves(r, db, 1) && Recorded(r, 1, 7).counts[CountKey(2, 7)] == 2 && TrackedCount(db, 7) == 1
  {
    var db: Plays := map[1 := 7];
    assert PlaysOf(db, 7) == {1};
  }

  /** Deleting plays without the rotation that should follow leaves the cache exact precisely
      when no song that lost a play has an entry. */
  lemma LostRotationIsHarmlessIff(r: Redis, db: Plays, plays: set<nat>)
    requires Coherent(r, db)
    ensures Coherent(r, db - plays) <==>
            forall play :: play in plays && play in db ==> CountKey(r.Namespace(), db[play]) !in r.counts
  {
    forall key | key in r.counts && key.namespace == r.Namespace()
      ensures r.counts[key] == TrackedCount(db - plays, key.song) <==>
              forall play :: play in plays && play in db ==> db[play] != key.song
    {
      var before, after := PlaysOf(db, key.song), PlaysOf(db - plays, key.song);
      assert after == before - plays;
      if play :| play in plays && play in db && db[play] == key.song {
        assert play in before && after <= before - {play};
        SubsetSize(after, before - {play});
      } else {
        assert after == before;
      }
    }
    if play :| play in plays && play in db && CountKey(r.Namespace(), db[play]) in r.counts {
      assert CountKey(r.Namespace(), db[play]).song == db[play];
    }
  }

  lemma EnsureServes(r: Redis, db: Plays, latest: nat)
    requires Serves(r, db, latest)
    ensures var r' := Ensured(r, latest);
            NoFutureKeys(r') && latest <= r'.LastPlayId() && Coherent(r', db)
  {
  }

  lemma WarmServes(r: Redis, db: Plays, latest: nat, values: map<nat, nat>)
    requires Serves(r, db, latest) && r.namespaceKey.Some?
    requires forall song :: song in values ==> values[song] == TrackedCount(db, song)
    ensures Serves(SetIfCoherent(r, r.Namespace(), latest, values), db, latest)
  {
  }

  /** A play mirrored in time leaves the cache exact and warm: nothing is evicted, and the entries stay
      readable unless ids were skipped, which starts an empty namespace. */
  lemma MirroredPlayKeepsCacheWarm(r: Redis, db: Plays, play: nat, song: nat)
    requires NoFutureKeys(r) && Coherent(r, db) && play !in db && r.LastPlayId() < play
    ensures var r' := Recorded(r, play, song);
            && NoFutureKeys(r') && Coherent(r', db[play := song]) && r'.LastPlayId() == play
            && r'.counts.Keys == r.counts.Keys
            && (play == r.LastPlayId() + 1 ==> r'.Namespace() == r.Namespace())
            && (play > r.LastPlayId() + 1 ==> r'.Namespace() == r.Namespace() + 1 && r'.counts == r.counts)
  {
    forall other: nat ensures TrackedCount(db[play := song], other) == TrackedCount(db, other) + if other == song then 1 else 0 {
      CountAfterInsert(db, play, song, other);
    }
  }

  class Cache {
    var namespaceKey: Option<nat>
    var lastPlayIdKey: Option<nat>
    var counts: map<CountKey, nat>

    function State(): Redis
      reads this
    {
      Redis(namespaceKey, lastPlayIdKey, counts)
    }

    function Lookup(key: CountKey): Option<nat>
      reads this
    {
      if key in counts then Some(counts[key]) else None
    }

    constructor ()
      ensures State() == Redis(None, None, map[])
    {
      namespaceKey, lastPlayIdKey, counts := None, None, map[];
    }

    method EnsureNamespace(dbLastId: nat) returns (namespace: nat)
      modifies this
      ensures State() == Ensured(old(State()), dbLastId)
      ensures namespaceKey == Some(namespace) && counts == old(counts)
      ensures if dbLastId <= old(State()).LastPlayId() then namespace == old(State()).Namespace() && lastPlayIdKey == old(lastPlayIdKey)
              else namespace == old(State()).Namespace() + 1 && lastPlayIdKey == Some(dbLastId)
    {
      namespace := namespaceKey.GetOr(1);
      var lastId := lastPlayIdKey.GetOr(0);
      if namespaceKey == None {
        namespaceKey := Some(namespace);
      }
      if dbLastId > lastId {
        namespace := namespace + 1;
        namespaceKey := Some(namespace);
        lastPlayIdKey := Some(dbLastId);
      }
    }

    method RecordPlay(play: nat, song: nat) returns (namespace: nat)
      modifies this
      ensures State() == Recorded(old(State()), play, song)
      ensures namespace == State().Namespace()
    {
      namespace := namespaceKey.GetOr(1);
      var lastId := lastPlayIdKey.GetOr(0);
      if namespaceKey == None {
        namespaceKey := Some(namespace);
      }
      if play > lastId + 1 {
        namespace := namespace + 1;
        namespaceKey := Some(namespace);
      }
      var key := CountKey(namespace, song);
      if key in counts {
        counts := counts[key := counts[key] + 1];
      }
      if play > lastId {
        lastPlayIdKey := Some(play);
      }
    }

    method RotateNamespace(latest: nat) returns (namespace: nat)
      modifies this
      ensures State() == Rotated(old(State()), latest)
      ensures namespace == State().Namespace()
    {
      namespace := namespaceKey.GetOr(0) + 1;
      namespaceKey := Some(namespace);
      lastPlayIdKey := Some(latest);
    }

    method StoreIfCoherent(namespace: nat, lastId: nat, songs: seq<nat>, values: map<nat, nat>) returns (ok: bool)
      requires forall song :: song in songs <==> song in values
      modifies this
      ensures State() == SetIfCoherent(old(State()), namespace, lastId, values)
      ensures ok == CoherentFor(old(State()), namespace, lastId)
      ensures namespaceKey == old(namespaceKey) && lastPlayIdKey == old(lastPlayIdKey) && old(counts).Keys <= counts.Keys
      ensures ok ==> forall song :: song in values ==> Lookup(CountKey(namespace, song)) == Some(values[song])
      ensures forall key: CountKey :: !ok || key.namespace != namespace || key.song !in values ==> Lookup(key) == old(Lookup(key))
    {
      if namespaceKey.GetOr(1) != namespace || lastPlayIdKey.GetOr(0) != lastId {
        return false;
      }
      ghost var before := counts;
      ghost var stored: map<nat, nat> := map[];
      NoCounts(before, namespace);
      var i := 0;
      while i < |songs|
        invariant 0 <= i <= |songs|
        invariant namespaceKey == old(namespaceKey) && lastPlayIdKey == old(lastPlayIdKey)
        invariant counts == WithCounts(before, namespace, stored)
        invariant forall song :: song in stored <==> song in songs[..i]
        invariant forall song :: song in stored ==> song in values && stored[song] == values[song]
      {
        assert songs[..i + 1] == songs[..i] + [songs[i]];
        OneMoreCount(before, namespace, stored, songs[i], values[songs[i]]);
        counts := counts[CountKey(namespace, songs[i]) := values[songs[i]]];
        stored := stored[songs[i] := values[songs[i]]];
        i := i + 1;
      }
      assert songs[..i] == songs;
      assert stored == values;
      return true;
    }

    method BulkRead(namespace: nat, ids: seq<nat>) returns (values: seq<Option<nat>>)
      ensures |values| == |ids|
      ensures forall i :: 0 <= i < |ids| ==> values[i] == Lookup(CountKey(namespace, ids[i]))
    {
      values := [];
      for i := 0 to |ids|
        invariant |values| == i
        invariant forall j :: 0 <= j < i ==> values[j] == Lookup(CountKey(namespace, ids[j]))
      {
        values := values + [Lookup(CountKey(namespace, ids[i]))];
      }
    }

    /** Pairs the ids with the bulk reply: the counts Redis knew, and the ids it did not. */
    static method SplitReply(ids: seq<nat>, values: seq<Option<nat>>) returns (known: map<nat, nat>, missing: seq<nat>)
      requires |values| == |ids| && Distinct(ids)
      ensures forall i :: 0 <= i < |ids| && values[i].Some? ==> ids[i] in known && known[ids[i]] == values[i].value
      ensures forall i :: 0 <= i < |ids| && values[i].None? ==> ids[i] !in known
      ensures forall id :: id in known ==> id in ids
      ensures forall id :: id in missing <==> id in ids && id !in known
    {
      known, missing := map[], [];
      for i := 0 to |ids|
        invariant forall id :: id in known || id in missing ==> id in ids[..i]
        invariant forall j :: 0 <= j < i && values[j].Some? ==> ids[j] in known && known[ids[j]] == values[j].value
        invariant forall j :: 0 <= j < i && values[j].None? ==> ids[j] in missing
        invariant forall id :: id in missing ==> id !in known
      {
        assert ids[i] !in ids[..i];
        match values[i]
        case None => missing := missing + [ids[i]];
        case Some(value) => known := known[ids[i] := value];
      }
    }

    /** What Redis can answer: the counts it knows under the namespace the ensure script gives, which are
        PostgreSQL's; nothing when one of its calls fails. */
    method ReadCached(ids: seq<nat>, db: Plays, latest: nat, faults: Faults)
      returns (usable: Option<nat>, known: map<nat, nat>, missing: seq<nat>)
      requires Serves(State(), db, latest) && Distinct(ids)
      modifies this
      ensures Serves(State(), db, latest) && counts == old(counts)
      ensures latest <= old(State()).LastPlayId() ==> State().Namespace() == old(State()).Namespace()
      ensures usable.Some? <==> !faults.noClient && !faults.ensureFails && !faults.bulkReadFails
      ensures usable.Some? ==> usable == namespaceKey && latest <= State().LastPlayId()
      ensures usable.None? ==> known == map[]
      ensures forall id :: id in known ==>
                usable.Some? && id in ids && known[id] == TrackedCount(db, id) && Lookup(CountKey(usable.value, id)) == Some(known[id])
      ensures forall id :: id in missing <==> id in ids && id !in known
    {
      hide TrackedCount, Ensured;
      known, usable, missing := map[], None, ids;
      if !faults.noClient && !faults.ensureFails {
        EnsureServes(State(), db, latest);
        var namespace := EnsureNamespace(latest);
        if !faults.bulkReadFails {
          usable := Some(namespace);
          var values := BulkRead(namespace, ids);
          known, missing := SplitReply(ids, values);
          assert forall i :: 0 <= i < |ids| && values[i].Some? ==> CountKey(namespace, ids[i]) in counts;
        }
      }
    }

    /** Left to run alone, a call answers with PostgreSQL's counts for exactly the non-zero ids it
        was given, whichever Redis calls fail, and leaves the cache serving. If none fails, every count
        it gave can be read from the cache from then on, and no earlier entry is lost. */
    method TrackedSongPlayCounts(songIds: seq<nat>, db: Plays, latest: nat, faults: Faults) returns (reply: map<nat, nat>)
      requires Serves(State(), db, latest)
      modifies this
      ensures Serves(State(), db, latest)
      ensures reply.Keys == set id | id in songIds && id != 0
      ensures forall id :: id in reply ==> reply[id] == TrackedCount(db, id)
      ensures old(counts).Keys <= counts.Keys
      ensures latest <= old(State()).LastPlayId() ==> State().Namespace() == old(State()).Namespace()
      ensures faults == Faults(false, false, false, false) && reply != map[] ==>
                latest <= State().LastPlayId() &&
                (latest == State().LastPlayId() ==>
                 forall id :: id in reply ==> Lookup(CountKey(State().Namespace(), id)) == Some(reply[id]))
    {
      hide TrackedCount, SetIfCoherent, NoFutureKeys, Coherent;
      var ids := Dedupe(WantedIds(songIds));
      if ids == [] {
        assert forall id :: id in songIds && id != 0 ==> id in ids;
        return map[];
      }
      var usable, known, missing := ReadCached(ids, db, latest, faults);
      if missing != [] {
        var exact := map id | id in missing :: TrackedCount(db, id);
        known := known + exact;
        if usable.Some? && !faults.warmFails {
          WarmServes(State(), db, latest, exact);
          var _ := StoreIfCoherent(usable.value, latest, missing, exact);
        }
      }
      reply := map id | id in ids :: if id in known then known[id] else 0;
    }
  }
}
