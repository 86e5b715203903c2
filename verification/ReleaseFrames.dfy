/** What the lifecycle functions may touch, and what every one of them keeps. */
module ReleaseFrames {
  import opened Options
  import opened Releases

  // Well-formed worlds.

  ghost predicate DistinctSongs(links: seq<Link>) {
    forall i, j :: 0 <= i < j < |links| ==> links[i].song != links[j].song
  }

  /** Positions are exactly 1..n in tracklist order. */
  ghost predicate Numbered(links: seq<Link>) {
    forall i :: 0 <= i < |links| ==> links[i].position == i + 1
  }

  /** Each row leaves from where the previous one arrived; the last row is the current status, and a
      release without rows is a draft. */
  ghost predicate Connected(history: seq<Row>, status: Status) {
    && (forall i :: 0 < i < |history| ==> history[i].from == Some(history[i - 1].to))
    && (history != [] ==> history[0].from.None? || history[0].from == Some(Draft))
    && (if history == [] then Draft else history[|history| - 1].to) == status
  }

  ghost predicate AlbumExists(album: Option<nat>, albums: set<nat>) {
    album.Some? ==> album.value in albums
  }

  ghost predicate Fits(w: World, release: Release) {
    && (forall i :: 0 <= i < |release.links| ==> release.links[i].song in w.songs)
    && DistinctSongs(release.links)
    && Numbered(release.links)
    && Connected(release.history, release.status)
  }

  ghost predicate AlbumsExist(w: World) {
    && (forall s :: s in w.songs ==> AlbumExists(w.songs[s].album, w.albums))
    && (forall q :: q in w.releases ==> AlbumExists(w.releases[q].album, w.albums))
    && (forall a :: a in w.albums ==> a < w.nextAlbum)
  }

  /** No song is on two tracklists. */
  ghost predicate NotShared(w: World) {
    forall q, r, s :: Linked(w, q, s) && Linked(w, r, s) ==> q == r
  }

  ghost predicate WellFormed(w: World) {
    && (forall q :: q in w.releases ==> Fits(w, w.releases[q]))
    && AlbumsExist(w)
    && NotShared(w)
    && (forall s :: s in w.songs ==> s < w.nextSong)
    && (forall q :: q in w.releases ==> q < w.nextRelease)
  }

  /** Every linked song that is not deleted has this status. */
  ghost predicate StatusesAre(w: World, r: nat, status: SongStatus) {
    forall s :: s in w.songs && Linked(w, r, s) ==> w.songs[s].status == Deleted || w.songs[s].status == status
  }

  /** The songs of every release have the status its own status calls for. */
  ghost predicate TableHolds(w: World) {
    forall r :: r in w.releases ==> StatusesAre(w, r, Table(w.releases[r].status))
  }

  ghost predicate Invariant(w: World) {
    WellFormed(w) && TableHolds(w)
  }

  // Links.

  lemma {:induction false} LinkOfFound(links: seq<Link>, song: nat)
    ensures LinkOf(links, song).Some? <==> exists i :: 0 <= i < |links| && links[i].song == song
    ensures LinkOf(links, song).Some? ==> LinkOf(links, song).value in links && LinkOf(links, song).value.song == song
  {
    if links != [] {
      LinkOfFound(links[..|links| - 1], song);
      if i :| 0 <= i < |links| && links[i].song == song {
        assert i == |links| - 1 || links[..|links| - 1][i].song == song;
      }
    }
  }

  lemma {:induction false} LinkOfAt(links: seq<Link>, i: nat)
    requires DistinctSongs(links) && i < |links|
    ensures LinkOf(links, links[i].song) == Some(links[i])
  {
    if i < |links| - 1 {
      LinkOfAt(links[..|links| - 1], i);
    }
  }

  /** Same songs in the same places; marks may differ. */
  ghost predicate SameTracks(before: seq<Link>, after: seq<Link>) {
    && |before| == |after|
    && forall i :: 0 <= i < |before| ==> after[i].(inherits := before[i].inherits) == before[i]
  }

  lemma {:induction false} SameTracksLinked(before: seq<Link>, after: seq<Link>, song: nat)
    requires SameTracks(before, after)
    ensures LinkOf(before, song).Some? <==> LinkOf(after, song).Some?
  {
    if before != [] {
      SameTracksLinked(before[..|before| - 1], after[..|after| - 1], song);
      assert after[|after| - 1].song == before[|before| - 1].song;
    }
  }

  // Frames.

  /** The version never falls, it rises with every status change, and rows are only added. */
  ghost predicate Evolves(before: Release, after: Release) {
    && before.lockVersion <= after.lockVersion
    && (before.status != after.status ==> before.lockVersion < after.lockVersion)
    && before.history <= after.history
    && before.artist == after.artist
  }

  /** A release that only lost an album that was deleted. */
  ghost predicate Bystander(before: Release, after: Release) {
    after == before || after == before.(album := None)
  }

  /** A lifecycle step on release `r`: its own songs, marks and fields, and nothing of anyone else. */
  ghost predicate Lifecycle(w: World, now: World, r: nat) {
    && r in w.releases
    && now.releases.Keys == w.releases.Keys && now.songs.Keys == w.songs.Keys
    && now.nextSong == w.nextSong && now.nextRelease == w.nextRelease
    && (forall q :: q in w.releases && q != r ==> Bystander(w.releases[q], now.releases[q]))
    && (forall s :: s in w.songs && !Linked(w, r, s) ==> now.songs[s] == w.songs[s])
    && SameTracks(w.releases[r].links, now.releases[r].links)
    && Evolves(w.releases[r], now.releases[r])
  }

  lemma LifecycleLinked(w: World, now: World, r: nat)
    requires Lifecycle(w, now, r)
    ensures forall q, s :: Linked(w, q, s) <==> Linked(now, q, s)
  {
    forall q, s ensures Linked(w, q, s) <==> Linked(now, q, s) {
      if q in w.releases {
        assert SameTracks(w.releases[q].links, now.releases[q].links);
        SameTracksLinked(w.releases[q].links, now.releases[q].links, s);
      }
    }
  }

  lemma LifecycleThen(w: World, mid: World, now: World, r: nat)
    requires Lifecycle(w, mid, r) && Lifecycle(mid, now, r)
    ensures Lifecycle(w, now, r)
  {
    hide Linked;
    LifecycleLinked(w, mid, r);
  }

  /** Lifecycle steps keep tracklists, numbering and sharing as they are. */
  lemma LifecycleKeepsWellFormed(w: World, now: World, r: nat)
    requires WellFormed(w) && Lifecycle(w, now, r)
    requires AlbumsExist(now) && Connected(now.releases[r].history, now.releases[r].status)
    ensures WellFormed(now)
  {
    LifecycleLinked(w, now, r);
    hide Linked, AlbumsExist, Connected;
    forall q | q in now.releases ensures Fits(now, now.releases[q]) {
      assert Fits(w, w.releases[q]);
      var before, after := w.releases[q].links, now.releases[q].links;
      assert SameTracks(before, after);
      forall i | 0 <= i < |after| ensures after[i].song == before[i].song && after[i].position == before[i].position {
      }
    }
  }

  /** The songs of the other releases keep the status they had to have. */
  lemma LifecycleKeepsInvariant(w: World, now: World, r: nat)
    requires Invariant(w) && Lifecycle(w, now, r) && WellFormed(now)
    requires StatusesAre(now, r, Table(now.releases[r].status))
    ensures Invariant(now)
  {
    hide Linked, WellFormed, Lifecycle, Table;
    LifecycleReleases(w, now, r);
    forall q | q in now.releases ensures StatusesAre(now, q, Table(now.releases[q].status)) {
      if q != r {
        BystanderKeepsStatuses(w, now, r, q);
      }
    }
  }

  lemma LifecycleReleases(w: World, now: World, r: nat)
    requires Lifecycle(w, now, r)
    ensures now.releases.Keys == w.releases.Keys && r in w.releases
  {
  }

  lemma BystanderKeepsStatuses(w: World, now: World, r: nat, q: nat)
    requires WellFormed(w) && Lifecycle(w, now, r) && q in w.releases && q != r
    requires StatusesAre(w, q, Table(w.releases[q].status))
    ensures q in now.releases && StatusesAre(now, q, Table(now.releases[q].status))
  {
    LifecycleLinked(w, now, r);
    hide Table, WellFormed;
    forall s | s in now.songs && Linked(now, q, s)
      ensures now.songs[s].status == Deleted || now.songs[s].status == Table(now.releases[q].status)
    {
      OwnersDiffer(w, q, r, s);
      assert now.songs[s] == w.songs[s];
    }
  }

  lemma OwnersDiffer(w: World, q: nat, r: nat, s: nat)
    requires WellFormed(w) && Linked(w, q, s) && q != r
    ensures !Linked(w, r, s)
  {
  }

  // The primitives.

  lemma WithStatusIsLifecycle(w: World, r: nat, status: SongStatus)
    requires r in w.releases
    ensures Lifecycle(w, WithStatus(w, r, status), r)
    ensures AlbumsExist(w) ==> AlbumsExist(WithStatus(w, r, status))
    ensures StatusesAre(WithStatus(w, r, status), r, status)
  {
    var now := WithStatus(w, r, status);
    assert forall s :: s in w.songs ==> now.songs[s].album == w.songs[s].album;
  }

  /** Moving to the status whose songs are already right. */
  lemma ChangeStatusIsLifecycle(w: World, r: nat, to: Status)
    requires r in w.releases
    ensures var now := ChangeStatus(w, r, to);
            && Lifecycle(w, now, r)
            && (AlbumsExist(w) ==> AlbumsExist(now))
            && (Connected(w.releases[r].history, w.releases[r].status) ==>
                Connected(now.releases[r].history, now.releases[r].status))
            && (StatusesAre(w, r, Table(to)) ==> StatusesAre(now, r, Table(now.releases[r].status)))
  {
    var now := ChangeStatus(w, r, to);
    LifecycleLinked(w, now, r);
    assert now.songs == w.songs && now.albums == w.albums;
  }

  lemma TouchIsLifecycle(w: World, r: nat)
    requires r in w.releases
    ensures Lifecycle(w, Touch(w, r), r) && (AlbumsExist(w) ==> AlbumsExist(Touch(w, r)))
  {
  }

  lemma SetScheduleIsLifecycle(w: World, r: nat, at: Option<nat>)
    requires r in w.releases
    ensures Lifecycle(w, SetSchedule(w, r, at), r) && (AlbumsExist(w) ==> AlbumsExist(SetSchedule(w, r, at)))
  {
  }

  lemma SyncArtworkIsLifecycle(w: World, r: nat, previousCover: nat)
    requires r in w.releases
    ensures var now := SyncArtwork(w, r, previousCover);
            && Lifecycle(w, now, r)
            && (AlbumsExist(w) ==> AlbumsExist(now))
            && now.albums == w.albums && now.nextAlbum == w.nextAlbum
            && now.releases[r] == w.releases[r].(links := now.releases[r].links)
            && forall s :: s in w.songs ==> now.songs[s] == w.songs[s].(cover := now.songs[s].cover)
  {
    var now := SyncArtwork(w, r, previousCover);
    assert forall s :: s in w.songs ==> now.songs[s].album == w.songs[s].album;
  }
}
