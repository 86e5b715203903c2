/** Publishing, taking down, reviewing and synchronizing a release. */
module ReleaseLifecycle {
  import opened Options
  import opened Releases
  import opened ReleaseFrames

  // Publishing.

  lemma DropOwnAlbumIsLifecycle(w: World, r: nat, album: nat)
    requires r in w.releases && !HasUnrelated(w, r, album)
    ensures Lifecycle(w, DropAlbum(w, album), r)
    ensures AlbumsExist(w) ==> AlbumsExist(DropAlbum(w, album))
  {
    var now := DropAlbum(w, album);
    forall s | s in w.songs && !Linked(w, r, s) ensures now.songs[s] == w.songs[s] {
      assert w.songs[s].album != Some(album);
    }
  }

  lemma SyncKeepsUnrelated(w: World, r: nat, album: nat)
    requires r in w.releases
    ensures HasUnrelated(SyncTracks(w, r), r, album) <==> HasUnrelated(w, r, album)
  {
    var now := SyncTracks(w, r);
    SyncArtworkIsLifecycle(w, r, 0);
    hide SyncArtwork;
    forall s ensures LinkOf(now.releases[r].links, s).None? <==> LinkOf(w.releases[r].links, s).None? {
      SameTracksLinked(w.releases[r].links, now.releases[r].links, s);
    }
    if HasUnrelated(w, r, album) {
      var s :| s in w.songs && w.songs[s].album == Some(album) && LinkOf(w.releases[r].links, s).None?;
      assert now.songs[s].album == Some(album);
    }
  }

  /** The last part of `materialize_release`: the songs are written, then the release row. */
  function Publish(stale: World, w: World, r: nat, album: Option<nat>, links: seq<Link>): World
    requires r in stale.releases && r in w.releases
  {
    w.(songs := PublishSongs(stale.releases[r], stale.songs, w.songs, album),
       releases := w.releases[r := w.releases[r].(album := album, published := true, links := links)])
  }

  lemma PublishIsLifecycle(stale: World, w: World, r: nat, album: Option<nat>, links: seq<Link>)
    requires Lifecycle(stale, w, r)
    requires SameTracks(w.releases[r].links, links)
    requires AlbumsExist(w) && AlbumExists(album, w.albums)
    ensures var now := Publish(stale, w, r, album, links);
            Lifecycle(stale, now, r) && AlbumsExist(now) && StatusesAre(now, r, Published)
  {
    var now := Publish(stale, w, r, album, links);
    LifecycleLinked(stale, w, r);
    forall s ensures Linked(now, r, s) <==> Linked(w, r, s) {
      SameTracksLinked(w.releases[r].links, links, s);
    }
    forall s | s in now.songs ensures AlbumExists(now.songs[s].album, now.albums) {
      assert AlbumExists(w.songs[s].album, w.albums);
    }
    forall q | q in now.releases ensures AlbumExists(now.releases[q].album, now.albums) {
      assert AlbumExists(w.releases[q].album, w.albums);
    }
    forall s | s in now.songs && Linked(now, r, s) ensures now.songs[s].status == Published {
      assert Linked(stale, r, s);
    }
    LifecycleSteps(stale, w, now, r);
  }

  lemma LifecycleSteps(stale: World, w: World, now: World, r: nat)
    requires Lifecycle(stale, w, r)
    requires now.songs.Keys == w.songs.Keys && now.nextSong == w.nextSong && now.nextRelease == w.nextRelease
    requires r in now.releases && now.releases == w.releases[r := now.releases[r]]
    requires forall s :: s in stale.songs && !Linked(stale, r, s) ==> now.songs[s] == w.songs[s]
    requires SameTracks(w.releases[r].links, now.releases[r].links)
    requires now.releases[r] ==
               w.releases[r].(album := now.releases[r].album, published := now.releases[r].published, links := now.releases[r].links)
    ensures Lifecycle(stale, now, r)
  {
    hide Linked;
  }

  /** The world `Materialize` writes the songs into, and the album it writes. */
  function BeforePublish(w: World, r: nat): World
    requires r in w.releases
  {
    var own, synced := OwnAlbum(w, r), SyncTracks(w, r);
    if w.releases[r].kind == Single then if own.Some? then DropAlbum(synced, own.value) else synced
    else synced.(albums := synced.albums + {own.GetOr(w.nextAlbum)},
                 nextAlbum := if own.Some? then w.nextAlbum else w.nextAlbum + 1)
  }

  function TargetAlbum(w: World, r: nat): Option<nat>
    requires r in w.releases
  {
    if w.releases[r].kind == Single then None else Some(OwnAlbum(w, r).GetOr(w.nextAlbum))
  }

  lemma MaterializeIsPublish(w: World, r: nat)
    requires r in w.releases
    ensures var before := BeforePublish(w, r);
            && r in before.releases
            && Materialize(w, r) == Publish(w, before, r, TargetAlbum(w, r),
                                            if w.releases[r].kind == Single then before.releases[r].links
                                            else MarkLinks(w.releases[r], w.songs, before.releases[r].links))
  {
    hide SyncArtwork, PublishSongs, OwnAlbum, MarkLinks;
    SyncArtworkIsLifecycle(w, r, 0);
  }

  lemma BeforePublishIsLifecycle(w: World, r: nat)
    requires r in w.releases && AlbumsExist(w)
    ensures var before := BeforePublish(w, r);
            Lifecycle(w, before, r) && AlbumsExist(before) && AlbumExists(TargetAlbum(w, r), before.albums)
            && before.releases[r] == w.releases[r].(links := before.releases[r].links, album := before.releases[r].album)
  {
    var own, synced := OwnAlbum(w, r), SyncTracks(w, r);
    SyncArtworkIsLifecycle(w, r, 0);
    if w.releases[r].kind == Single {
      if own.Some? {
        SyncKeepsUnrelated(w, r, own.value);
        DropOwnAlbumIsLifecycle(synced, r, own.value);
        LifecycleThen(w, synced, DropAlbum(synced, own.value), r);
      }
    } else {
      assert AlbumsExist(BeforePublish(w, r)) by {
        assert AlbumsExist(synced);
      }
    }
  }

  lemma MarkLinksSameTracks(w: World, r: nat, links: seq<Link>)
    requires r in w.releases
    ensures SameTracks(links, MarkLinks(w.releases[r], w.songs, links))
  {
  }

  /** Publishing touches nothing but the release and its songs, all of which end up published. */
  lemma MaterializeIsLifecycle(w: World, r: nat)
    requires r in w.releases && AlbumsExist(w)
    ensures var now := Materialize(w, r);
            && Lifecycle(w, now, r) && AlbumsExist(now) && StatusesAre(now, r, Published)
            && now.releases[r].status == w.releases[r].status && now.releases[r].history == w.releases[r].history
            && now.releases[r].album == TargetAlbum(w, r)
  {
    MaterializeIsPublish(w, r);
    BeforePublishIsLifecycle(w, r);
    hide Lifecycle, Materialize, PublishSongs, MarkLinks, BeforePublish, AlbumsExist, StatusesAre, TargetAlbum;
    var before := BeforePublish(w, r);
    MarkLinksSameTracks(w, r, before.releases[r].links);
    var links := if w.releases[r].kind == Single then before.releases[r].links else MarkLinks(w.releases[r], w.songs, before.releases[r].links);
    PublishIsLifecycle(w, before, r, TargetAlbum(w, r), links);
  }

  /** After publishing, the album of a release that is not a single holds exactly its tracklist, and
      every song's track number is its position; the song of a single is on no album. */
  lemma PublishedAlbumIsTheTracklist(w: World, r: nat, song: nat)
    requires AlbumsExist(w) && r in w.releases && song in w.songs
    ensures var now := Materialize(w, r);
            && (w.releases[r].kind != Single ==>
                now.releases[r].album.Some? && (now.songs[song].album == now.releases[r].album <==> Linked(now, r, song)))
            && (Linked(now, r, song) ==>
                 && now.songs[song].trackNumber == LinkOf(now.releases[r].links, song).value.position
                 && now.songs[song].isSingle == (w.releases[r].kind == Single)
                 && (w.releases[r].kind == Single ==> now.songs[song].album.None?))
  {
    var now := Materialize(w, r);
    MaterializeIsLifecycle(w, r);
    LifecycleLinked(w, now, r);
    var before, album := BeforePublish(w, r), TargetAlbum(w, r);
    MaterializeIsPublish(w, r);
    BeforePublishIsLifecycle(w, r);
    assert now.songs == PublishSongs(w.releases[r], w.songs, before.songs, album);
    hide Lifecycle, Materialize, BeforePublish, MarkLinks, SyncArtwork;
    if Linked(w, r, song) {
      SameTracksPosition(w.releases[r].links, now.releases[r].links, song) by {
        LifecycleTracks(w, now, r);
      }
    } else if album.Some? {
      LifecycleLeavesUnlinked(w, now, r, song);
      assert AlbumExists(w.songs[song].album, w.albums);
    }
  }

  lemma LifecycleTracks(w: World, now: World, r: nat)
    requires Lifecycle(w, now, r)
    ensures SameTracks(w.releases[r].links, now.releases[r].links)
  {
  }

  lemma LifecycleLeavesUnlinked(w: World, now: World, r: nat, song: nat)
    requires Lifecycle(w, now, r) && song in w.songs && !Linked(w, r, song)
    ensures now.songs[song] == w.songs[song]
  {
  }

  lemma {:induction false} SameTracksPosition(before: seq<Link>, after: seq<Link>, song: nat)
    requires SameTracks(before, after) && LinkOf(before, song).Some?
    ensures LinkOf(after, song).Some? && LinkOf(after, song).value.position == LinkOf(before, song).value.position
  {
    var last := |before| - 1;
    assert after[last].song == before[last].song && after[last].position == before[last].position;
    if before[last].song != song {
      SameTracksPosition(before[..last], after[..last], song);
    }
  }

  // Taking down.

  /** Taking down touches nothing but the release and its songs, which end up approved. */
  lemma TakeDownIsLifecycle(w: World, r: nat)
    requires r in w.releases && AlbumsExist(w)
    ensures var now := TakeDown(w, r);
            && Lifecycle(w, now, r) && AlbumsExist(now) && StatusesAre(now, r, SongApproved)
            && now.releases[r] == w.releases[r].(album := None)
  {
    var album, hidden := w.releases[r].album, WithStatus(w, r, SongApproved);
    var released := ClearAlbum(hidden, r);
    WithStatusIsLifecycle(w, r, SongApproved);
    ClearAlbumIsLifecycle(hidden, r);
    TakeDownStatuses(w, r);
    if album.Some? {
      StatusKeepsUnrelated(w, r, album.value);
    }
    hide Lifecycle, AlbumsExist, HasUnrelated, StatusesAre, WithStatus;
    LifecycleThen(w, hidden, released, r);
    if album.Some? {
      if HasUnrelated(w, r, album.value) {
        LeaveAlbumIsLifecycle(released, r, album.value);
        LifecycleThen(w, released, LeaveAlbum(released, r, album.value), r);
      } else {
        DropOwnAlbumIsLifecycle(released, r, album.value);
        LifecycleThen(w, released, DropAlbum(released, album.value), r);
      }
    }
  }

  lemma TakeDownStatuses(w: World, r: nat)
    requires r in w.releases
    ensures StatusesAre(TakeDown(w, r), r, SongApproved) && TakeDown(w, r).releases[r] == w.releases[r].(album := None)
  {
    hide Lifecycle, AlbumsExist, HasUnrelated, WithStatus;
    WithStatusIsLifecycle(w, r, SongApproved);
    WithStatusRows(w, r, SongApproved);
  }

  lemma WithStatusRows(w: World, r: nat, status: SongStatus)
    requires r in w.releases
    ensures WithStatus(w, r, status).releases == w.releases
  {
  }

  lemma ClearAlbumIsLifecycle(w: World, r: nat)
    requires r in w.releases
    ensures Lifecycle(w, ClearAlbum(w, r), r) && (AlbumsExist(w) ==> AlbumsExist(ClearAlbum(w, r)))
  {
  }

  lemma LeaveAlbumIsLifecycle(w: World, r: nat, album: nat)
    requires r in w.releases
    ensures Lifecycle(w, LeaveAlbum(w, r, album), r) && (AlbumsExist(w) ==> AlbumsExist(LeaveAlbum(w, r, album)))
  {
    var now := LeaveAlbum(w, r, album);
    assert forall s :: s in w.songs ==> now.songs[s].album == w.songs[s].album || now.songs[s].album.None?;
  }

  lemma StatusKeepsUnrelated(w: World, r: nat, album: nat)
    requires r in w.releases
    ensures HasUnrelated(ClearAlbum(WithStatus(w, r, SongApproved), r), r, album) <==> HasUnrelated(w, r, album)
  {
    var now := ClearAlbum(WithStatus(w, r, SongApproved), r);
    assert forall s :: s in w.songs ==> now.songs[s].album == w.songs[s].album;
  }

  /** Afterwards no song of the release is on the album it had. */
  lemma TakenDownAlbumIsEmptied(w: World, r: nat, song: nat)
    requires r in w.releases && song in w.songs && Linked(w, r, song)
    ensures var now := TakeDown(w, r);
            now.releases[r].album.None? && (w.releases[r].album.Some? ==> now.songs[song].album != w.releases[r].album)
  {
  }

  /** Neither publishing nor taking down changes a song that is on no track of the release, or
      deletes the album it is on. */
  lemma OthersAreLeftAlone(w: World, r: nat, song: nat)
    requires r in w.releases && AlbumsExist(w)
    requires song in w.songs && !Linked(w, r, song)
    ensures Materialize(w, r).songs[song] == w.songs[song] && TakeDown(w, r).songs[song] == w.songs[song]
    ensures w.songs[song].album.Some? ==>
              w.songs[song].album.value in Materialize(w, r).albums && w.songs[song].album.value in TakeDown(w, r).albums
  {
    MaterializeIsLifecycle(w, r);
    TakeDownIsLifecycle(w, r);
    hide Materialize, TakeDown;
    LifecycleLeavesUnlinked(w, Materialize(w, r), r, song);
    LifecycleLeavesUnlinked(w, TakeDown(w, r), r, song);
    assert AlbumExists(Materialize(w, r).songs[song].album, Materialize(w, r).albums);
    assert AlbumExists(TakeDown(w, r).songs[song].album, TakeDown(w, r).albums);
  }

  // Review and approval.

  lemma MarkForReviewIsLifecycle(w: World, r: nat)
    requires r in w.releases && AlbumsExist(w)
    ensures var now := MarkForReview(w, r);
            && Lifecycle(w, now, r) && AlbumsExist(now)
            && (NotShared(w) ==> StatusesAre(now, r, Pending))
            && now.releases[r].status == InReview
            && (Connected(w.releases[r].history, w.releases[r].status) ==>
                Connected(now.releases[r].history, now.releases[r].status))
  {
    var now := MarkForReview(w, r);
    assert forall s :: s in w.songs ==> now.songs[s].album == w.songs[s].album;
    if NotShared(w) {
      forall s | s in w.songs && Linked(w, r, s) ensures !SharedLive(w, r, s) {
        if SharedLive(w, r, s) {
          var q :| q in w.releases && q != r && w.releases[q].status == Live && LinkOf(w.releases[q].links, s).Some?;
          assert Linked(w, q, s);
        }
      }
    }
  }

  lemma PrepareIsLifecycle(w: World, r: nat, at: Option<nat>)
    requires r in w.releases && AlbumsExist(w)
    ensures var now := Prepare(w, r, at);
            && Lifecycle(w, now, r) && AlbumsExist(now) && StatusesAre(now, r, SongApproved)
            && now.releases[r].status == w.releases[r].status && now.releases[r].history == w.releases[r].history
  {
    var synced := SyncTracks(w, r);
    SyncArtworkIsLifecycle(w, r, 0);
    var approved := WithStatus(synced, r, SongApproved);
    WithStatusIsLifecycle(synced, r, SongApproved);
    SetScheduleIsLifecycle(approved, r, at);
    LifecycleThen(w, synced, approved, r);
    LifecycleThen(w, approved, Prepare(w, r, at), r);
    LifecycleLinked(approved, Prepare(w, r, at), r);
    hide SyncArtwork, Lifecycle, AlbumsExist;
  }

  /** A step whose songs are right for a status, followed by the move to it. */
  lemma ThenChangeStatus(w: World, mid: World, r: nat, to: Status)
    requires Lifecycle(w, mid, r) && AlbumsExist(mid) && StatusesAre(mid, r, Table(to))
    requires Connected(mid.releases[r].history, mid.releases[r].status)
    ensures var now := ChangeStatus(mid, r, to);
            && Lifecycle(w, now, r) && AlbumsExist(now) && now.releases[r].status == to
            && StatusesAre(now, r, Table(to)) && Connected(now.releases[r].history, to)
  {
    ChangeStatusIsLifecycle(mid, r, to);
    var now := ChangeStatus(mid, r, to);
    assert now.releases[r].status == to;
    hide Lifecycle, AlbumsExist, Connected, StatusesAre, ChangeStatus;
    LifecycleThen(w, mid, now, r);
  }
}
