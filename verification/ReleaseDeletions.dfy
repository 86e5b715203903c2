/** Removing tracks, deleting releases and songs, and creating releases keep the invariant. */
module ReleaseDeletions {
  import opened Options
  import opened Releases
  import opened ReleaseFrames
  import opened ReleaseSafety
  import opened ReleaseRequests
  import opened ReleaseTracklists

  // Pieces.

  lemma DropEmptyIsSound(w: World, r: nat, album: Option<nat>)
    requires Invariant(w)
    ensures Sound(w, DropIfEmpty(w, album), r)
    ensures DropIfEmpty(w, album).releases.Keys == w.releases.Keys
    ensures DropIfEmpty(w, album).songs == w.songs
    ensures r in w.releases ==> DropIfEmpty(w, album).releases[r] == w.releases[r].(album := DropIfEmpty(w, album).releases[r].album)
  {
    IdleIsSound(w, r);
    if album.Some? && AlbumIsEmpty(w, album.value) {
      var now := DropAlbum(w, album.value);
      forall s | s in w.songs ensures now.songs[s] == w.songs[s] {
        assert w.songs[s].album != Some(album.value);
      }
      assert now.songs == w.songs;
      EmptyAlbumGoes(w, now, r, album.value);
    }
  }

  lemma EmptyAlbumGoes(w: World, now: World, r: nat, album: nat)
    requires Invariant(w) && now == DropAlbum(w, album) && now.songs == w.songs && AlbumIsEmpty(w, album)
    ensures Sound(w, now, r)
  {
    hide LinkOf, Table, NotShared, AlbumsExist;
    DroppedRows(w, album);
    assert AlbumsExist(now) by {
      DroppedAlbums(w, album);
    }
    assert NotShared(now) by {
      DroppedNotShared(w, album);
    }
    forall q | q in now.releases ensures Fits(now, now.releases[q]) && StatusesAre(now, q, Table(now.releases[q].status)) {
      assert Fits(w, w.releases[q]) && StatusesAre(w, q, Table(w.releases[q].status));
    }
    hide DropAlbum, AlbumIsEmpty, Fits, StatusesAre;
  }

  lemma DroppedRows(w: World, album: nat)
    ensures var now := DropAlbum(w, album);
            now.releases.Keys == w.releases.Keys
            && forall q :: q in w.releases ==> Bystander(w.releases[q], now.releases[q])
  {
  }

  lemma DroppedAlbums(w: World, album: nat)
    requires AlbumsExist(w)
    ensures AlbumsExist(DropAlbum(w, album))
  {
  }

  lemma DroppedNotShared(w: World, album: nat)
    requires NotShared(w)
    ensures NotShared(DropAlbum(w, album))
  {
    hide LinkOf;
    forall q, s ensures Linked(DropAlbum(w, album), q, s) <==> Linked(w, q, s) {
    }
  }

  lemma EraseReleaseIsSound(w: World, r: nat)
    requires Invariant(w)
    ensures Sound(w, EraseRelease(w, r), r)
  {
    var now := EraseRelease(w, r);
    hide LinkOf, Table, Fits;
    forall q | q in now.releases ensures Fits(now, now.releases[q]) && StatusesAre(now, q, Table(now.releases[q].status)) {
      assert Fits(w, w.releases[q]) && StatusesAre(w, q, Table(w.releases[q].status));
      SameSongsFit(w, now, w.releases[q]);
    }
    forall q, s ensures Linked(now, q, s) ==> Linked(w, q, s) {
    }
  }

  lemma SameSongsFit(w: World, now: World, release: Release)
    requires now.songs == w.songs && Fits(w, release)
    ensures Fits(now, release)
  {
  }

  /** A release without an active track has no status to keep. */
  lemma TakenDownRowIsSound(w: World, r: nat)
    requires Invariant(w) && r in w.releases && NoActiveTrack(w.songs, w.releases[r].links)
    ensures Sound(w, TakeDownRow(w, r), r)
  {
    IdleIsSound(w, r);
    assert w.releases[r := w.releases[r]] == w.releases;
    if w.releases[r].status != TakenDown {
      forall s | s in w.songs && Linked(w, r, s) ensures w.songs[s].status == Deleted {
        LinkOfFound(w.releases[r].links, s);
      }
      assert StatusesAre(w, r, Table(TakenDown));
      StayMoves(w, r);
      hide Invariant, Moves, StatusesAre, Sound;
      MoveToIsSound(w, w, r, TakenDown);
    }
  }

  // The artist removes tracks.

  lemma ReleasedSongs(w: World, r: nat, gone: set<nat>)
    requires Invariant(w) && r in w.releases
    ensures var songs := Released(w, r, gone);
            && songs.Keys == w.songs.Keys
            && (forall s :: s in w.songs && (s !in gone || !Linked(w, r, s)) ==> songs[s] == w.songs[s])
            && (forall s :: s in w.songs ==> songs[s].album == w.songs[s].album || songs[s].album.None?)
  {
    hide Invariant, LinkedElsewhere;
  }

  lemma UnlinkedRowFits(w: World, r: nat, gone: set<nat>, links: seq<Link>)
    requires Invariant(w) && Rearranges(w, r, links)
    ensures var now := WithLinks(w.(songs := Released(w, r, gone)), r, links); Fits(now, now.releases[r])
  {
    hide Invariant, Connected, Linked;
    InvariantParts(w, r);
    forall i | 0 <= i < |links| ensures links[i].song in w.songs {
      LinkedMeansPresent(w, r, links[i].song);
    }
  }

  lemma UnlinkedAlbums(w: World, r: nat, gone: set<nat>, links: seq<Link>)
    requires Invariant(w) && r in w.releases
    ensures var now := WithLinks(w.(songs := Released(w, r, gone)), r, links); AlbumsExist(now)
  {
    hide Invariant, Released, Linked, LinkOf;
    InvariantParts(w, r);
    ReleasedSongs(w, r, gone);
    var now := WithLinks(w.(songs := Released(w, r, gone)), r, links);
    forall s | s in now.songs ensures AlbumExists(now.songs[s].album, now.albums) {
      assert AlbumExists(w.songs[s].album, w.albums);
    }
  }

  lemma UnlinkedLocal(w: World, r: nat, gone: set<nat>, links: seq<Link>)
    requires Invariant(w) && r in w.releases
    ensures var now := WithLinks(w.(songs := Released(w, r, gone)), r, links); Local(w, now, r)
  {
    hide Invariant, Released, Linked, LinkedElsewhere;
    ReleasedSongs(w, r, gone);
    forall s | s in w.songs && LinkedElsewhere(w, r, s) ensures Released(w, r, gone)[s] == w.songs[s] {
      NotOnBoth(w, r, s);
    }
  }

  lemma UnlinkedFits(w: World, r: nat, gone: set<nat>, links: seq<Link>)
    requires Invariant(w) && Rearranges(w, r, links)
    ensures var now := WithLinks(w.(songs := Released(w, r, gone)), r, links);
            && Fits(now, now.releases[r]) && AlbumsExist(now) && IdsBelow(now) && Local(w, now, r)
  {
    hide Invariant, Released, Fits, AlbumsExist, Local, LinkOf, Linked;
    UnlinkedRowFits(w, r, gone, links);
    UnlinkedAlbums(w, r, gone, links);
    UnlinkedLocal(w, r, gone, links);
    ReleasedSongs(w, r, gone);
    InvariantIds(w);
  }

  lemma UnlinkIsSound(w: World, r: nat, gone: set<nat>, links: seq<Link>)
    requires Invariant(w) && Rearranges(w, r, links)
    requires forall s :: LinkOf(links, s).Some? ==> s !in gone
    ensures Sound(w, WithLinks(w.(songs := Released(w, r, gone)), r, links), r)
  {
    var now := WithLinks(w.(songs := Released(w, r, gone)), r, links);
    UnlinkedFits(w, r, gone, links);
    RearrangedStaysLinked(w, r, links);
    ReleasedSongs(w, r, gone);
    InvariantParts(w, r);
    assert StatusesAre(now, r, Table(now.releases[r].status));
    hide Invariant, Local, AlbumsExist, IdsBelow, Fits, StatusesAre, Table, Rearranges, Released;
    RelinkOwnIsSound(w, now, r);
  }

  lemma LeftLinksRearrange(w: World, r: nat, gone: set<nat>)
    requires Invariant(w) && r in w.releases
    ensures Rearranges(w, r, LeftLinks(w.releases[r].links, gone))
    ensures forall s :: LinkOf(LeftLinks(w.releases[r].links, gone), s).Some? ==> s !in gone
  {
    var links := w.releases[r].links;
    InvariantParts(w, r);
    RenumberedRearranges(w, r, gone);
    hide Invariant, WellFormed, NotShared, AlbumsExist;
    WithoutKeeps(links, gone);
    forall i | 0 <= i < |links| ensures Linked(w, r, links[i].song) {
      LinkOfAt(links, i);
    }
  }

  lemma FinishIsSound(w: World, r: nat, deleteEmpty: bool)
    requires Invariant(w) && r in w.releases
    ensures Sound(w, FinishRemoval(w, r, deleteEmpty), r)
  {
    hide Invariant, Sound, TakeDownRow, Touch, EraseRelease;
    EraseReleaseIsSound(w, r);
    TouchIsSound(w, r);
    if NoActiveTrack(w.songs, w.releases[r].links) {
      TakenDownRowIsSound(w, r);
    }
  }

  lemma UnlinkStepIsSound(w: World, r: nat, gone: set<nat>)
    requires Invariant(w) && r in w.releases
    ensures Sound(w, Unlink(w, r, gone), r)
  {
    hide Invariant, Sound, Released, LeftLinks, Rearranges, LinkOf, WithLinks;
    LeftLinksRearrange(w, r, gone);
    UnlinkIsSound(w, r, gone, LeftLinks(w.releases[r].links, gone));
  }

  lemma RemovedIsSound(w: World, r: nat, gone: set<nat>, deleteEmpty: bool)
    requires Invariant(w) && r in w.releases
    ensures Sound(w, FinishRemoval(DropIfEmpty(Unlink(w, r, gone), w.releases[r].album), r, deleteEmpty), r)
  {
    hide *;
    var unlinked := Unlink(w, r, gone);
    var cleaned := DropIfEmpty(unlinked, w.releases[r].album);
    UnlinkStepIsSound(w, r, gone);
    SoundParts(w, unlinked, r);
    DropEmptyIsSound(unlinked, r, w.releases[r].album);
    SoundThen(w, unlinked, cleaned, r);
    SoundParts(w, cleaned, r);
    FinishIsSound(cleaned, r, deleteEmpty);
    SoundThen(w, cleaned, FinishRemoval(cleaned, r, deleteEmpty), r);
  }

  lemma RemoveIsSound(w: World, r: nat, gone: set<nat>, deleteEmpty: bool, v: Version)
    requires Invariant(w)
    ensures Sound(w, RemoveTracks(w, r, gone, deleteEmpty, v), r)
  {
    hide Invariant, Sound, Unlink, DropIfEmpty, Stuck, FinishRemoval, Without, Current;
    IdleIsSound(w, r);
    if r in w.releases {
      RemovedIsSound(w, r, gone, deleteEmpty);
    }
  }

  // Deleting a release.

  /** The songs outside `gone` stay; `gone` holds only songs no other release carries. */
  ghost predicate ErasesOwn(w: World, now: World, r: nat, gone: set<nat>) {
    && now.songs.Keys == w.songs.Keys - gone
    && (forall s :: s in gone ==> !LinkedElsewhere(w, r, s))
    && (forall s :: s in now.songs && !Linked(w, r, s) ==> now.songs[s] == w.songs[s])
    && (forall s :: s in now.songs ==> now.songs[s].album == w.songs[s].album || now.songs[s].album.None?)
    && now.albums == w.albums && now.nextSong == w.nextSong && now.nextAlbum == w.nextAlbum && now.nextRelease == w.nextRelease
  }

  lemma EraseIsLocal(w: World, now: World, r: nat, gone: set<nat>)
    requires Invariant(w) && r in w.releases && ErasesOwn(w, now, r, gone)
    requires now.releases == w.releases - {r} || (r in now.releases && now.releases == w.releases[r := now.releases[r]]
                                                 && Evolves(w.releases[r], now.releases[r]) && now.releases[r].album == w.releases[r].album)
    ensures Local(w, now, r) && AlbumsExist(now) && IdsBelow(now)
  {
    hide LinkOf, Invariant, Linked, LinkedElsewhere, AlbumsExist, Evolves;
    InvariantParts(w, r);
    InvariantIds(w);
    ErasedOthers(w, now, r, gone);
    ErasedAlbums(w, now, r, gone);
  }

  lemma ErasedOthers(w: World, now: World, r: nat, gone: set<nat>)
    requires Invariant(w) && ErasesOwn(w, now, r, gone)
    ensures forall s :: s in w.songs && LinkedElsewhere(w, r, s) ==> s in now.songs && now.songs[s] == w.songs[s]
  {
    hide Invariant, LinkedElsewhere, Linked;
    forall s | s in w.songs && LinkedElsewhere(w, r, s) ensures s in now.songs && now.songs[s] == w.songs[s] {
      NotOnBoth(w, r, s);
    }
  }

  lemma ErasedAlbums(w: World, now: World, r: nat, gone: set<nat>)
    requires AlbumsExist(w) && ErasesOwn(w, now, r, gone)
    requires now.releases.Keys <= w.releases.Keys
    requires forall q :: q in now.releases ==> now.releases[q].album == w.releases[q].album
    ensures AlbumsExist(now)
  {
    hide Linked, LinkedElsewhere;
    forall s | s in now.songs ensures AlbumExists(now.songs[s].album, now.albums) {
      assert AlbumExists(w.songs[s].album, w.albums);
    }
  }

  lemma ArtistErases(w: World, r: nat)
    requires Invariant(w) && r in w.releases
    ensures ErasesOwn(w, Detached(w, r), r, ErasedSongs(w, r))
    ensures forall s :: s in PreservedSongs(w, r) ==>
              s in DetachedSongs(w, r) && DetachedSongs(w, r)[s].status == Deleted && s !in ErasedSongs(w, r)
  {
  }

  lemma PreservedLinks(w: World, r: nat)
    requires Invariant(w) && r in w.releases
    ensures var links := Renumbered(Without(w.releases[r].links, Removable(w, r)));
            Rearranges(w, r, links) && forall s :: LinkOf(links, s).Some? ==> s in PreservedSongs(w, r)
  {
    RenumberedRearranges(w, r, Removable(w, r));
    var links := Renumbered(Without(w.releases[r].links, Removable(w, r)));
    RearrangedStaysLinked(w, r, links);
    hide Renumbered, Without, PreservedSongs, Rearranges;
    forall s | LinkOf(links, s).Some? ensures s in PreservedSongs(w, r) {
      LinkedMeansPresent(w, r, s);
    }
  }

  lemma PreservedSongIsDeleted(w: World, r: nat, s: nat)
    requires Invariant(w) && r in w.releases && s in PreservedSongs(w, r)
    ensures Linked(w, r, s) && s in Detached(w, r).songs && Detached(w, r).songs[s].status == Deleted
  {
    ArtistErases(w, r);
    hide DetachedSongs, ErasedSongs, Invariant, LinkedElsewhere, MustPreserve;
  }

  lemma PreservedStatuses(w: World, r: nat)
    requires Invariant(w) && r in w.releases
    ensures var links := Renumbered(Without(w.releases[r].links, Removable(w, r)));
            var now := WithLinks(Detached(w, r), r, links);
            && NoActiveTrack(now.songs, links)
            && (forall s :: Linked(now, r, s) ==> Linked(w, r, s) && s in now.songs && now.songs[s].status == Deleted)
  {
    var links := Renumbered(Without(w.releases[r].links, Removable(w, r)));
    PreservedLinks(w, r);
    hide Renumbered, Without, PreservedSongs, Detached, Invariant, LinkOf, Removable;
    forall i | 0 <= i < |links| ensures LinkOf(links, links[i].song).Some? {
      LinkOfAt(links, i);
    }
    forall s: nat | LinkOf(links, s).Some?
      ensures Linked(w, r, s) && s in Detached(w, r).songs && Detached(w, r).songs[s].status == Deleted
    {
      PreservedSongIsDeleted(w, r, s);
    }
  }

  lemma PreservedLocal(w: World, r: nat, links: seq<Link>)
    requires Invariant(w) && r in w.releases
    ensures var now := WithLinks(Detached(w, r), r, links); Local(w, now, r) && AlbumsExist(now) && IdsBelow(now)
  {
    ArtistErases(w, r);
    hide DetachedSongs, ErasedSongs, PreservedSongs, Invariant, LinkedElsewhere, Linked;
    var now := WithLinks(Detached(w, r), r, links);
    assert ErasesOwn(w, now, r, ErasedSongs(w, r));
    EraseIsLocal(w, now, r, ErasedSongs(w, r));
  }

  lemma PreservedIsSound(w: World, r: nat)
    requires Invariant(w) && r in w.releases
    ensures var links := Renumbered(Without(w.releases[r].links, Removable(w, r)));
            var now := WithLinks(Detached(w, r), r, links);
            Sound(w, now, r) && NoActiveTrack(now.songs, links)
  {
    var links := Renumbered(Without(w.releases[r].links, Removable(w, r)));
    var now := WithLinks(Detached(w, r), r, links);
    PreservedLinks(w, r);
    PreservedStatuses(w, r);
    PreservedLocal(w, r, links);
    assert Connected(w.releases[r].history, w.releases[r].status) by { InvariantParts(w, r); }
    hide Renumbered, Without, Removable, Detached, Invariant, Table, Local, AlbumsExist, IdsBelow, Linked, Connected;
    DetachedRows(w, r);
    assert Fits(now, now.releases[r]);
    assert StatusesAre(now, r, Table(now.releases[r].status));
    RelinkOwnIsSound(w, now, r);
  }

  lemma ErasedIsSound(w: World, now: World, r: nat, gone: set<nat>, album: Option<nat>)
    requires Invariant(w) && r in w.releases && ErasesOwn(w, now, r, gone) && now.releases == w.releases - {r}
    ensures Sound(w, DropIfEmpty(now, album), r)
  {
    EraseIsLocal(w, now, r, gone);
    hide Invariant, Local, AlbumsExist, IdsBelow, ErasesOwn, LinkedElsewhere, DropIfEmpty, Sound, LinkOf, Fits, StatusesAre;
    RelinkIsSound(w, now, r);
    SoundParts(w, now, r);
    DropEmptyIsSound(now, r, album);
    ErasedThen(w, now, DropIfEmpty(now, album), r);
  }

  lemma ErasedThen(w: World, mid: World, now: World, r: nat)
    requires Sound(w, mid, r) && Sound(mid, now, r) && r !in mid.releases && r !in now.releases
    ensures Sound(w, now, r)
  {
    hide Invariant;
    forall s | LinkedElsewhere(w, r, s) ensures LinkedElsewhere(mid, r, s) {
      var q :| q in w.releases && q != r && LinkOf(w.releases[q].links, s).Some?;
      assert Bystander(w.releases[q], mid.releases[q]);
    }
  }

  lemma KeptIsSound(w: World, r: nat)
    requires Invariant(w) && r in w.releases
    ensures Sound(w, TakeDownRow(WithLinks(Detached(w, r), r, Renumbered(Without(w.releases[r].links, Removable(w, r)))), r), r)
  {
    hide Invariant, Sound, Detached, TakeDownRow, NoActiveTrack, Without, Renumbered, Removable;
    DetachedRows(w, r);
    PreservedIsSound(w, r);
    var links := Renumbered(Without(w.releases[r].links, Removable(w, r)));
    var kept := WithLinks(Detached(w, r), r, links);
    SoundParts(w, kept, r);
    TakenDownRowIsSound(kept, r);
    SoundThen(w, kept, TakeDownRow(kept, r), r);
  }

  lemma GoneIsSound(w: World, r: nat)
    requires Invariant(w) && r in w.releases
    ensures Sound(w, DropIfEmpty(EraseRelease(Detached(w, r), r), w.releases[r].album), r)
  {
    hide Invariant, Sound, Detached, DropIfEmpty, EraseRelease, ErasesOwn;
    DetachedRows(w, r);
    ArtistErases(w, r);
    EraseRowOwn(w, Detached(w, r), r);
    ErasedIsSound(w, EraseRelease(Detached(w, r), r), r, ErasedSongs(w, r), w.releases[r].album);
  }

  lemma DetachedRows(w: World, r: nat)
    requires r in w.releases
    ensures Detached(w, r).releases == w.releases
  {
  }

  lemma ArtistDeleteIsSound(w: World, r: nat, v: Version)
    requires Invariant(w)
    ensures Sound(w, ArtistDelete(w, r, v), r)
  {
    hide Invariant, Sound, Detached, DropIfEmpty, TakeDownRow, Stuck, EraseRelease, WithLinks, Without, Renumbered, Removable, Current;
    IdleIsSound(w, r);
    if r in w.releases {
      DetachedRows(w, r);
      KeptIsSound(w, r);
      GoneIsSound(w, r);
    }
  }

  lemma EraseRowOwn(w: World, now: World, r: nat)
    requires r in w.releases && now.releases == w.releases && ErasesOwn(w, now, r, ErasedSongs(w, r))
    ensures ErasesOwn(w, EraseRelease(now, r), r, ErasedSongs(w, r)) && EraseRelease(now, r).releases == w.releases - {r}
  {
  }

  lemma AdminDeleteIsSound(w: World, r: nat)
    requires Invariant(w)
    ensures Sound(w, AdminDelete(w, r), r)
  {
    IdleIsSound(w, r);
    if r in w.releases {
      var gone := set s | s in w.songs && LinkOf(w.releases[r].links, s).Some? && !LinkedElsewhere(w, r, s);
      var now := EraseRelease(EraseSongs(w, gone), r);
      assert ErasesOwn(w, now, r, gone);
      hide Invariant, Sound, DropIfEmpty, LinkOf, LinkedElsewhere, ErasesOwn;
      ErasedIsSound(w, now, r, gone, w.releases[r].album);
    }
  }
}
