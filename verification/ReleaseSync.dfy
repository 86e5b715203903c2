/** `synchronize_release_state` is idempotent: a second run changes nothing at all. */
module ReleaseSync {
  import opened Options
  import opened Releases
  import opened ReleaseFrames
  import opened ReleaseLifecycle

  /** Every track that takes the release cover has it and carries the mark. */
  ghost predicate Settled(w: World, r: nat) {
    && r in w.releases && DistinctSongs(w.releases[r].links)
    && (w.releases[r].cover != 0 ==>
        forall i :: 0 <= i < |w.releases[r].links| ==> SettledLink(w, w.releases[r], w.releases[r].links[i]))
  }

  predicate SettledLink(w: World, release: Release, link: Link) {
    link.song in w.songs && Inherits(release, link, w.songs[link.song], 0)
    ==> link.inherits && w.songs[link.song].cover == release.cover
  }

  lemma SyncSettles(w: World, r: nat)
    requires r in w.releases && DistinctSongs(w.releases[r].links)
    ensures Settled(SyncTracks(w, r), r)
  {
    var release, now := w.releases[r], SyncTracks(w, r);
    if release.cover != 0 {
      forall i | 0 <= i < |release.links| ensures SettledLink(now, now.releases[r], now.releases[r].links[i]) {
        LinkOfAt(release.links, i);
      }
    }
  }

  /** On a settled release the artwork loop writes nothing. */
  lemma SettledSyncIsIdle(w: World, r: nat)
    requires Settled(w, r)
    ensures SyncTracks(w, r) == w
  {
    var release := w.releases[r];
    if release.cover != 0 {
      forall s | s in w.songs ensures InheritingSongs(w.songs, release, 0)[s] == w.songs[s] {
        LinkOfFound(release.links, s);
      }
      assert InheritingSongs(w.songs, release, 0) == w.songs;
      forall i | 0 <= i < |release.links| ensures InheritingLinks(w.songs, release, 0)[i] == release.links[i] {
        assert SettledLink(w, release, release.links[i]);
      }
      assert InheritingLinks(w.songs, release, 0) == release.links;
      assert release.(links := release.links) == release;
    }
  }

  /** Covers and tracks are what settling looks at. */
  lemma SameArtworkStaysSettled(w: World, now: World, r: nat)
    requires Settled(w, r) && r in now.releases
    requires now.releases[r].links == w.releases[r].links && now.releases[r].cover == w.releases[r].cover
    requires now.releases[r].kind == w.releases[r].kind
    requires now.songs.Keys == w.songs.Keys
    requires forall s :: s in w.songs ==> now.songs[s].cover == w.songs[s].cover
    ensures Settled(now, r)
  {
    forall i | 0 <= i < |now.releases[r].links| && now.releases[r].cover != 0
      ensures SettledLink(now, now.releases[r], now.releases[r].links[i])
    {
      assert SettledLink(w, w.releases[r], w.releases[r].links[i]);
    }
  }

  // The statuses that only rewrite song statuses.

  lemma WithStatusTwice(w: World, r: nat, status: SongStatus)
    requires r in w.releases && StatusesAre(w, r, status)
    ensures WithStatus(w, r, status) == w
  {
    forall s | s in w.songs ensures WithStatus(w, r, status).songs[s] == w.songs[s] {
      assert LinkOf(w.releases[r].links, s).Some? ==> Linked(w, r, s);
    }
    assert WithStatus(w, r, status).songs == w.songs;
  }

  lemma StatusOnlyIsIdempotent(w: World, r: nat, status: SongStatus)
    requires r in w.releases && Settled(w, r)
    ensures var now := WithStatus(w, r, status); Settled(now, r) && WithStatus(SyncTracks(now, r), r, status) == now
  {
    var now := WithStatus(w, r, status);
    WithStatusIsLifecycle(w, r, status);
    SameArtworkStaysSettled(w, now, r);
    SettledSyncIsIdle(now, r);
    WithStatusTwice(now, r, status);
  }

  // A live release.

  /** A release whose songs, marks and album are as publishing leaves them. */
  ghost predicate IsPublished(w: World, r: nat) {
    && Settled(w, r) && w.releases[r].published
    && (forall s :: s in w.songs && Linked(w, r, s) ==> IsPublishedSong(w, r, s))
    && (w.releases[r].kind == Single ==> w.releases[r].album.None?)
    && (w.releases[r].kind != Single ==> OwnsAlbum(w, r))
  }

  predicate OwnsAlbum(w: World, r: nat)
    requires r in w.releases
  {
    var album := w.releases[r].album;
    album.Some? && album.value in w.albums && !HasUnrelated(w, r, album.value)
  }

  predicate IsPublishedSong(w: World, r: nat, s: nat)
    requires r in w.releases && s in w.songs && Linked(w, r, s)
  {
    var song, link := w.songs[s], LinkOf(w.releases[r].links, s).value;
    && song.album == w.releases[r].album && song.isSingle == (w.releases[r].kind == Single)
    && song.trackNumber == link.position && song.status == Published
  }

  lemma PublishedIsFixed(w: World, r: nat)
    requires IsPublished(w, r)
    ensures Materialize(w, r) == w
  {
    SettledSyncIsIdle(w, r);
    var release := w.releases[r];
    assert BeforePublish(w, r) == w by {
      assert release.kind != Single ==> w.albums + {release.album.value} == w.albums;
    }
    assert TargetAlbum(w, r) == release.album;
    hide SyncArtwork, BeforePublish, TargetAlbum, HasUnrelated;
    PublishWritesNothing(w, r);
    MarksStay(w, r);
    MaterializeIsPublish(w, r);
    hide Materialize, MarkLinks, Settled;
    assert release.(album := release.album, published := true, links := release.links) == release;
  }

  lemma PublishWritesNothing(w: World, r: nat)
    requires IsPublished(w, r)
    ensures PublishSongs(w.releases[r], w.songs, w.songs, w.releases[r].album) == w.songs
  {
    var release := w.releases[r];
    forall s | s in w.songs ensures PublishSongs(release, w.songs, w.songs, release.album)[s] == w.songs[s] {
      LinkOfFound(release.links, s);
      if Linked(w, r, s) {
        assert IsPublishedSong(w, r, s);
        var link := LinkOf(release.links, s).value;
        assert release.cover != 0 ==> SettledLink(w, release, link);
      }
    }
  }

  lemma MarksStay(w: World, r: nat)
    requires Settled(w, r)
    ensures MarkLinks(w.releases[r], w.songs, w.releases[r].links) == w.releases[r].links
  {
    var release := w.releases[r];
    forall i | 0 <= i < |release.links| ensures MarkLinks(release, w.songs, release.links)[i] == release.links[i] {
      LinkOfAt(release.links, i);
      if release.cover != 0 {
        assert SettledLink(w, release, release.links[i]);
      }
    }
  }

  /** Publishing a settled release leaves it as publishing would leave it again. */
  lemma MaterializePublishes(w: World, r: nat)
    requires AlbumsExist(w) && r in w.releases && Settled(w, r)
    ensures IsPublished(Materialize(w, r), r)
  {
    var now := Materialize(w, r);
    MaterializeIsLifecycle(w, r);
    LifecycleLinked(w, now, r);
    SettledSyncIsIdle(w, r);
    MarksStay(w, r);
    MaterializeArtwork(w, r);
    SameArtworkStaysSettled(w, now, r);
    MaterializeWrites(w, r);
    forall s | s in now.songs && Linked(now, r, s) ensures IsPublishedSong(now, r, s) {
      PublishedAlbumIsTheTracklist(w, r, s);
    }
    if w.releases[r].kind != Single {
      forall s | s in now.songs && now.songs[s].album == now.releases[r].album ensures Linked(now, r, s) {
        PublishedAlbumIsTheTracklist(w, r, s);
      }
    }
  }

  lemma MaterializeWrites(w: World, r: nat)
    requires r in w.releases && AlbumsExist(w)
    ensures var now := Materialize(w, r);
            now.releases[r].published && AlbumExists(now.releases[r].album, now.albums)
            && (w.releases[r].kind == Single <==> now.releases[r].album.None?)
  {
    MaterializeIsLifecycle(w, r);
  }

  /** On a settled release the covers and marks computed from the earlier rows are the current ones. */
  lemma MaterializeArtwork(w: World, r: nat)
    requires r in w.releases && Settled(w, r)
    ensures var now := Materialize(w, r);
            && now.releases[r].links == w.releases[r].links
            && now.songs.Keys == w.songs.Keys
            && forall s :: s in w.songs ==> now.songs[s].cover == w.songs[s].cover
  {
    var now, release := Materialize(w, r), w.releases[r];
    SettledSyncIsIdle(w, r);
    MarksStay(w, r);
    forall s | s in w.songs ensures now.songs[s].cover == w.songs[s].cover {
      LinkOfFound(release.links, s);
      if Linked(w, r, s) && release.cover != 0 {
        assert SettledLink(w, release, LinkOf(release.links, s).value);
      }
    }
  }

  // All statuses.

  lemma SyncKeepsRow(w: World, r: nat)
    requires AlbumsExist(w) && r in w.releases
    ensures var now := SyncTracks(w, r);
            AlbumsExist(now) && Lifecycle(w, now, r) && now.releases[r] == w.releases[r].(links := now.releases[r].links)
  {
    SyncArtworkIsLifecycle(w, r, 0);
  }

  lemma TakeDownKeepsArtwork(w: World, r: nat)
    requires r in w.releases && Settled(w, r)
    ensures Settled(TakeDown(w, r), r)
  {
    var now := TakeDown(w, r);
    TakeDownCovers(w, r);
    hide TakeDown, SettledLink;
    SameArtworkStaysSettled(w, now, r);
  }

  lemma TakeDownCovers(w: World, r: nat)
    requires r in w.releases
    ensures var now := TakeDown(w, r);
            && now.releases[r].links == w.releases[r].links && now.releases[r].cover == w.releases[r].cover
            && now.releases[r].kind == w.releases[r].kind && now.songs.Keys == w.songs.Keys
            && forall s :: s in w.songs ==> now.songs[s].cover == w.songs[s].cover
  {
    hide HasUnrelated, LinkOf;
    var released := ClearAlbum(WithStatus(w, r, SongApproved), r);
    assert forall s :: s in w.songs ==> released.songs[s].cover == w.songs[s].cover;
  }

  /** Running `synchronize_release_state` a second time changes nothing, in every status and however
      inconsistent the rows are: only what the database itself enforces is assumed, that albums
      referred to exist and that a release lists a song once. */
  lemma SynchronizeIsIdempotent(w: World, r: nat)
    requires AlbumsExist(w) && r in w.releases && DistinctSongs(w.releases[r].links)
    ensures var once := Synchronize(w, r); r in once.releases && Synchronize(once, r) == once
  {
    hide SyncArtwork, AlbumsExist, Lifecycle, Materialize, Settled, IsPublished, TakeDown, StatusesAre, WithStatus;
    var synced := SyncTracks(w, r);
    SyncKeepsRow(w, r);
    SyncSettles(w, r);
    var status := w.releases[r].status;
    match status
    case Live =>
      var now := Materialize(synced, r);
      MaterializePublishes(synced, r);
      MaterializeKeepsStatus(synced, r);
      PublishedIsSettled(now, r);
      SettledSyncIsIdle(now, r);
      PublishedIsFixed(now, r);
    case TakenDown =>
      var now := Synchronize(w, r);
      TakenDownIsSettled(synced, r);
      SettledSyncIsIdle(now, r);
      WithStatusTwice(now, r, SongApproved);
    case _ =>
      StatusOnlyIsIdempotent(synced, r, Table(status));
      StatusOnlyKeepsStatus(synced, r, Table(status));
  }

  lemma PublishedIsSettled(w: World, r: nat)
    requires IsPublished(w, r)
    ensures Settled(w, r)
  {
  }

  lemma StatusOnlyKeepsStatus(w: World, r: nat, status: SongStatus)
    requires r in w.releases
    ensures WithStatus(w, r, status).releases == w.releases
  {
  }

  lemma MaterializeKeepsStatus(w: World, r: nat)
    requires AlbumsExist(w) && r in w.releases
    ensures r in Materialize(w, r).releases && Materialize(w, r).releases[r].status == w.releases[r].status
  {
    MaterializeIsLifecycle(w, r);
  }

  lemma TakenDownIsSettled(w: World, r: nat)
    requires AlbumsExist(w) && r in w.releases && Settled(w, r)
    ensures var now := WithStatus(if w.releases[r].album.Some? then TakeDown(w, r) else w, r, SongApproved);
            && r in now.releases && Settled(now, r) && StatusesAre(now, r, SongApproved)
            && now.releases[r].album.None? && now.releases[r].status == w.releases[r].status
  {
    TakeDownIsLifecycle(w, r);
    TakeDownKeepsArtwork(w, r);
    var mid := if w.releases[r].album.Some? then TakeDown(w, r) else w;
    hide TakeDown, Lifecycle, AlbumsExist, StatusesAre;
    StatusKeepsSettled(mid, r);
  }

  lemma StatusKeepsSettled(w: World, r: nat)
    requires Settled(w, r)
    ensures var now := WithStatus(w, r, SongApproved);
            Settled(now, r) && StatusesAre(now, r, SongApproved) && now.releases == w.releases
  {
    WithStatusIsLifecycle(w, r, SongApproved);
    SameArtworkStaysSettled(w, WithStatus(w, r, SongApproved), r);
  }

  /** Synchronizing also makes the songs right, whatever they and the other rows were before, and
      what was well-formed stays so. */
  lemma SynchronizeRepairs(w: World, r: nat)
    requires AlbumsExist(w) && r in w.releases
    ensures var now := Synchronize(w, r);
            && Lifecycle(w, now, r) && AlbumsExist(now)
            && now.releases[r].status == w.releases[r].status
            && StatusesAre(now, r, Table(now.releases[r].status))
            && (WellFormed(w) ==> WellFormed(now))
  {
    hide SyncArtwork, Materialize, TakeDown, SameTracks, Evolves, AlbumsExist, StatusesAre, WellFormed;
    var synced, status := SyncTracks(w, r), w.releases[r].status;
    var now := Synchronize(w, r);
    SyncKeepsRow(w, r);
    match status {
      case Live =>
        MaterializeIsLifecycle(synced, r);
        LifecycleThen(w, synced, now, r);
      case TakenDown =>
        TakeDownIsLifecycle(synced, r);
        var mid := if synced.releases[r].album.Some? then TakeDown(synced, r) else synced;
        if synced.releases[r].album.Some? {
          LifecycleThen(w, synced, mid, r);
        }
        WithStatusIsLifecycle(mid, r, SongApproved);
        LifecycleThen(w, mid, now, r);
      case _ =>
        WithStatusIsLifecycle(synced, r, Table(status));
        LifecycleThen(w, synced, now, r);
    }
    SameHistoryKeepsWellFormed(w, now, r);
  }

  lemma SameHistoryKeepsWellFormed(w: World, now: World, r: nat)
    requires Lifecycle(w, now, r) && AlbumsExist(now)
    requires now.releases[r].status == w.releases[r].status && now.releases[r].history == w.releases[r].history
    ensures WellFormed(w) ==> WellFormed(now)
  {
    hide Linked, AlbumsExist, NotShared, SameTracks, Evolves;
    if WellFormed(w) {
      assert Fits(w, w.releases[r]);
      LifecycleKeepsWellFormed(w, now, r);
    }
  }
}
