/** Which requests put a release into the catalogue and which take it out. */
module ReleaseListing {
  import opened Options
  import opened Releases
  import opened ReleaseFrames
  import opened ReleaseLifecycle
  import opened ReleaseSync
  import opened ReleaseSafety
  import opened ReleaseRequests
  import opened ReleaseOutcomes
  import opened ReleaseRevival

  /** The release is in the catalogue: a single as songs without an album, any other as an album that
      holds exactly its tracks, each published under its position. */
  ghost predicate Listed(w: World, r: nat) {
    && r in w.releases && w.releases[r].published
    && (if w.releases[r].kind == Single then w.releases[r].album.None?
        else w.releases[r].album.Some? && forall s :: s in w.songs ==> (w.songs[s].album == w.releases[r].album <==> Linked(w, r, s)))
    && forall s :: s in w.songs && Linked(w, r, s) ==> ListedSong(w.releases[r], w.songs[s], LinkOf(w.releases[r].links, s).value)
  }

  predicate ListedSong(release: Release, song: Song, link: Link) {
    && song.status == Published && song.trackNumber == link.position && song.isSingle == (release.kind == Single)
    && (release.kind == Single ==> song.album.None?)
  }

  /** It is out of the catalogue: no album, and none of its songs on the one it had. */
  ghost predicate Withdrawn(w: World, now: World, r: nat)
    requires r in w.releases
  {
    && r in now.releases && now.releases[r].album.None?
    && forall s :: s in now.songs && Linked(w, r, s) ==>
         && now.songs[s].status in {Deleted, SongApproved, SongDraft}
         && (w.releases[r].album.Some? ==> now.songs[s].album != w.releases[r].album)
  }

  // The two functions.

  lemma MaterializeLists(w: World, r: nat, to: Status)
    requires AlbumsExist(w) && r in w.releases
    ensures Listed(Materialize(w, r), r) && Listed(ChangeStatus(Materialize(w, r), r, to), r)
  {
    hide Materialize, Lifecycle, AlbumsExist, LinkOf, TargetAlbum, ListedSong;
    var now := Materialize(w, r);
    MaterializeIsLifecycle(w, r);
    MaterializeRow(w, r);
    MaterializedAlbum(w, r);
    LifecycleLinked(w, now, r);
    LifecycleKeys(w, now, r);
    forall s | s in now.songs
      ensures now.releases[r].kind != Single ==> (now.songs[s].album == now.releases[r].album <==> Linked(now, r, s))
      ensures Linked(now, r, s) ==> ListedSong(now.releases[r], now.songs[s], LinkOf(now.releases[r].links, s).value)
    {
      MaterializedSong(w, r, s);
    }
    ListedInAnyStatus(now, r, to);
  }

  lemma MaterializedSong(w: World, r: nat, song: nat)
    requires AlbumsExist(w) && r in w.releases && song in w.songs
    ensures var now := Materialize(w, r);
            && r in now.releases && song in now.songs
            && (w.releases[r].kind != Single ==> (now.songs[song].album == now.releases[r].album <==> Linked(now, r, song)))
            && (Linked(now, r, song) ==> ListedSong(now.releases[r], now.songs[song], LinkOf(now.releases[r].links, song).value))
  {
    hide Materialize, Lifecycle, AlbumsExist, LinkOf, TargetAlbum;
    var now := Materialize(w, r);
    MaterializeIsLifecycle(w, r);
    LifecycleKeys(w, now, r);
    MaterializeRow(w, r);
    PublishedAlbumIsTheTracklist(w, r, song);
    if Linked(now, r, song) {
      assert StatusesAre(now, r, Published);
      MaterializeStatuses(w, r);
      LifecycleLinked(w, now, r);
    }
  }

  lemma ListedInAnyStatus(w: World, r: nat, to: Status)
    requires Listed(w, r)
    ensures Listed(ChangeStatus(w, r, to), r)
  {
    hide LinkOf;
  }

  lemma LifecycleKeys(w: World, now: World, r: nat)
    requires Lifecycle(w, now, r)
    ensures now.songs.Keys == w.songs.Keys
  {
  }

  lemma MaterializedAlbum(w: World, r: nat)
    requires AlbumsExist(w) && r in w.releases
    ensures w.releases[r].kind == Single <==> Materialize(w, r).releases[r].album.None?
  {
    MaterializeWrites(w, r);
  }

  lemma TakeDownWithdraws(w: World, r: nat, status: SongStatus, at: Option<nat>, to: Status)
    requires AlbumsExist(w) && r in w.releases && status in {SongApproved, SongDraft}
    ensures Withdrawn(w, ChangeStatus(TakeDown(w, r), r, to), r)
    ensures Withdrawn(w, ChangeStatus(SetSchedule(WithStatus(TakeDown(w, r), r, status), r, at), r, to), r)
    ensures Withdrawn(w, WithStatus(TakeDown(w, r), r, status), r)
  {
    hide TakeDown, WithStatus, Lifecycle, LinkOf, AlbumsExist, Withdrawn;
    var now := TakeDown(w, r);
    TakeDownIsWithdrawn(w, r);
    TakeDownIsLifecycle(w, r);
    RestatedIsWithdrawn(w, now, r, status);
    RowKeepsWithdrawn(w, now, r, at, to);
    RowKeepsWithdrawn(w, WithStatus(now, r, status), r, at, to);
  }

  lemma TakeDownIsWithdrawn(w: World, r: nat)
    requires AlbumsExist(w) && r in w.releases
    ensures Withdrawn(w, TakeDown(w, r), r)
  {
    hide TakeDown, Lifecycle, LinkOf, AlbumsExist;
    var now := TakeDown(w, r);
    TakeDownIsLifecycle(w, r);
    LifecycleLinked(w, now, r);
    LifecycleKeys(w, now, r);
    forall s | s in w.songs && Linked(w, r, s) && w.releases[r].album.Some? ensures now.songs[s].album != w.releases[r].album {
      TakenDownAlbumIsEmptied(w, r, s);
    }
  }

  lemma RestatedIsWithdrawn(w: World, now: World, r: nat, status: SongStatus)
    requires r in w.releases && Withdrawn(w, now, r) && status in {SongApproved, SongDraft}
    ensures Withdrawn(w, WithStatus(now, r, status), r)
  {
    hide LinkOf;
  }

  lemma RowKeepsWithdrawn(w: World, now: World, r: nat, at: Option<nat>, to: Status)
    requires r in w.releases && Withdrawn(w, now, r)
    ensures Withdrawn(w, ChangeStatus(now, r, to), r) && Withdrawn(w, ChangeStatus(SetSchedule(now, r, at), r, to), r)
  {
    hide LinkOf;
  }

  // The requests.

  /** A release that an action publishes is in the catalogue afterwards, and one that is taken down is not. */
  lemma ActChangesTheListing(w: World, r: nat, action: Action, barred: bool, otherwise: bool, v: Version)
    requires Invariant(w) && r in w.releases && Granted(w, r, action, barred, otherwise, v)
    ensures var now := Act(w, r, action, barred, otherwise, v);
            && (action.DoPublish? || (action.DoApprove? && w.releases[r].published) ==> Listed(now, r))
            && (action.DoTakeDown? ==> Withdrawn(w, now, r))
  {
    hide Invariant, WithStatus, TakeDown, SyncArtwork, Materialize, Prepare, Valid, Unrestorable, Current, Listed, Withdrawn;
    InvariantParts(w, r);
    SyncRow(w, r);
    var synced := SyncTracks(w, r);
    MaterializeLists(synced, r, Live);
    TakeDownWithdraws(w, r, SongApproved, None, TakenDown);
  }

  /** So is one that the admin site makes live, and a live one that it makes a draft or takes down is not. */
  lemma SetFromAdminChangesTheListing(w: World, r: nat, target: Status, otherwise: bool, dated: Option<nat>, now: nat)
    requires Invariant(w) && r in w.releases && Settable(w, r, target, otherwise, dated, now)
    ensures var after := SetFromAdmin(w, r, target, otherwise, dated, now);
            && (target == Live || (target == Approved && w.releases[r].published) ==> Listed(after, r))
            && (w.releases[r].status == Live && target in {Draft, TakenDown} ==> Withdrawn(w, after, r))
  {
    hide Invariant, WithStatus, TakeDown, SyncArtwork, Materialize, Prepare, Valid, MarkForReview, Listed, Withdrawn;
    InvariantParts(w, r);
    SyncRow(w, r);
    var synced := SyncTracks(w, r);
    MaterializeLists(synced, r, Live);
    TakeDownWithdraws(synced, r, SongDraft, None, Draft);
    TakeDownWithdraws(synced, r, SongApproved, None, TakenDown);
    SyncedWithdraws(w, SetFromAdmin(w, r, target, otherwise, dated, now), r);
  }

  lemma SyncedWithdraws(w: World, now: World, r: nat)
    requires AlbumsExist(w) && r in w.releases
    ensures Withdrawn(SyncTracks(w, r), now, r) ==> Withdrawn(w, now, r)
  {
    SyncRow(w, r);
    SyncArtworkIsLifecycle(w, r, 0);
    LifecycleLinked(w, SyncTracks(w, r), r);
    hide SyncArtwork, LinkOf;
  }

  /** The publishing job lists what is due. */
  lemma PublishDueLists(w: World, r: nat, now: nat)
    requires AlbumsExist(w) && Due(w, r, now)
    ensures Listed(PublishDue(w, r, now), r)
  {
    hide Materialize, Listed;
    MaterializeLists(w, r, Live);
  }

  /** Synchronizing puts a live release back into the catalogue, and takes one that is down out of it, whatever the
      rows were before. */
  lemma SynchronizeRestoresTheListing(w: World, r: nat)
    requires AlbumsExist(w) && r in w.releases
    ensures w.releases[r].status == Live ==> Listed(Synchronize(w, r), r)
    ensures w.releases[r].status == TakenDown ==> Withdrawn(w, Synchronize(w, r), r)
  {
    hide WithStatus, TakeDown, SyncArtwork, Materialize, Listed, Withdrawn;
    SyncRow(w, r);
    var synced := SyncTracks(w, r);
    MaterializeLists(synced, r, Live);
    TakeDownWithdraws(synced, r, SongApproved, None, TakenDown);
    WithoutAlbumIsWithdrawn(synced, r);
    SyncedWithdraws(w, Synchronize(w, r), r);
  }

  lemma WithoutAlbumIsWithdrawn(w: World, r: nat)
    requires r in w.releases
    ensures w.releases[r].album.None? ==> Withdrawn(w, WithStatus(w, r, SongApproved), r)
  {
  }

  // Submitting.

  /** A granted submission marks every active song as pending, and as a single exactly for a single. */
  lemma SubmitMarksTheSongs(w: World, r: nat, otherwise: bool, v: Version, song: nat)
    requires r in w.releases && w.releases[r].status == Draft && Current(w.releases[r], v) && Valid(SyncTracks(w, r), r, otherwise)
    requires song in w.songs && AlbumsExist(w)
    ensures var now := Submit(w, r, otherwise, v);
            && song in now.songs
            && now.songs[song] ==
                 if !Linked(w, r, song) || w.songs[song].status == Deleted then SyncTracks(w, r).songs[song]
                 else SyncTracks(w, r).songs[song].(status := Pending, isSingle := w.releases[r].kind == Single)
  {
    SyncRow(w, r);
    SyncKeepsStatuses(w, r);
    SyncKeepsLinks(w, r, song);
    hide SyncArtwork, Valid, LinkOf, Current;
  }
}
