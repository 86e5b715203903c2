/** Whether a deleted recording stays deleted. The routine that synchronizes a release says that it
    preserves deleted songs; for a live release it publishes them, and so does the publishing job. */
module ReleaseRevival {
  import opened Options
  import opened Sequences
  import opened Releases
  import opened ReleaseFrames
  import opened ReleaseLifecycle
  import opened ReleaseRequests
  import opened ReleaseTracklists
  import opened ReleaseOutcomes
  import opened ReleaseRuns

  // What publishing does to statuses.

  /** Publishing makes every linked song published, deleted or not, and no other. */
  lemma MaterializeStatuses(w: World, r: nat)
    requires r in w.releases
    ensures Materialize(w, r).songs.Keys == w.songs.Keys
    ensures forall s :: s in w.songs ==>
              Materialize(w, r).songs[s].status == if LinkOf(w.releases[r].links, s).Some? then Published else w.songs[s].status
  {
    hide SyncArtwork, OwnAlbum, MarkLinks;
    SyncKeepsStatuses(w, r);
    if w.releases[r].kind == Single && OwnAlbum(w, r).Some? {
      DropKeepsStatuses(SyncTracks(w, r), OwnAlbum(w, r).value);
    }
  }

  lemma DropKeepsStatuses(w: World, album: nat)
    ensures DropAlbum(w, album).songs.Keys == w.songs.Keys
    ensures forall s :: s in w.songs ==> DropAlbum(w, album).songs[s].status == w.songs[s].status
  {
  }

  lemma StatusKeepsDeleted(w: World, r: nat, status: SongStatus, song: nat)
    requires r in w.releases && IsDeleted(w, song)
    ensures IsDeleted(WithStatus(w, r, status), song)
  {
  }

  lemma SyncKeepsDeleted(w: World, r: nat, previousCover: nat, song: nat)
    requires r in w.releases && IsDeleted(w, song)
    ensures IsDeleted(SyncArtwork(w, r, previousCover), song)
  {
  }

  lemma TakeDownKeepsDeleted(w: World, r: nat, song: nat)
    requires r in w.releases && IsDeleted(w, song)
    ensures IsDeleted(TakeDown(w, r), song)
  {
    hide HasUnrelated, LinkOf;
  }

  lemma ReviewKeepsDeleted(w: World, r: nat, song: nat)
    requires r in w.releases && IsDeleted(w, song)
    ensures IsDeleted(MarkForReview(w, r), song)
  {
    hide SharedLive, LinkOf;
  }

  lemma PrepareKeepsDeleted(w: World, r: nat, at: Option<nat>, song: nat)
    requires r in w.releases && IsDeleted(w, song)
    ensures IsDeleted(Prepare(w, r, at), song)
  {
    hide SyncArtwork, WithStatus;
    SyncKeepsDeleted(w, r, 0, song);
    StatusKeepsDeleted(SyncTracks(w, r), r, SongApproved, song);
  }

  // The two operations that publish without validating.

  /** The job's condition for one release. */
  predicate Due(w: World, r: nat, now: nat) {
    && r in w.releases && w.releases[r].status == Scheduled
    && w.releases[r].scheduledAt.Some? && w.releases[r].scheduledAt.value <= now
  }

  predicate IsLive(w: World, r: nat) {
    r in w.releases && w.releases[r].status == Live
  }

  lemma PublishDueOnDeleted(w: World, r: nat, now: nat, song: nat)
    requires IsDeleted(w, song)
    ensures IsDeleted(PublishDue(w, r, now), song) <==> !(Due(w, r, now) && Linked(w, r, song))
  {
    hide Materialize, LinkOf;
    if r in w.releases {
      MaterializeStatuses(w, r);
    }
  }

  lemma SynchronizeOnDeleted(w: World, r: nat, song: nat)
    requires IsDeleted(w, song)
    ensures IsDeleted(Resynchronize(w, r), song) <==> !(IsLive(w, r) && Linked(w, r, song))
  {
    hide Materialize, TakeDown, WithStatus, SyncArtwork;
    if r in w.releases {
      var synced := SyncTracks(w, r);
      SyncKeepsDeleted(w, r, 0, song);
      SyncKeepsLinks(w, r, song);
      MaterializeStatuses(synced, r);
      TakeDownKeepsDeleted(synced, r, song);
      StatusKeepsDeleted(synced, r, Table(w.releases[r].status), song);
      StatusKeepsDeleted(TakeDown(synced, r), r, SongApproved, song);
    }
  }

  lemma SyncKeepsLinks(w: World, r: nat, song: nat)
    requires r in w.releases
    ensures LinkOf(SyncTracks(w, r).releases[r].links, song).Some? <==> LinkOf(w.releases[r].links, song).Some?
  {
    SyncArtworkIsLifecycle(w, r, 0);
    SameTracksLinked(w.releases[r].links, SyncTracks(w, r).releases[r].links, song);
  }

  /** The publishing job keeps every deleted song deleted exactly when the release is not due or no
      track of it is deleted. */
  lemma PublishDueKeepsDeletedIff(w: World, r: nat, now: nat)
    ensures (forall s :: IsDeleted(w, s) ==> IsDeleted(PublishDue(w, r, now), s)) <==>
            !Due(w, r, now) || forall s :: IsDeleted(w, s) ==> !Linked(w, r, s)
  {
    hide PublishDue, IsDeleted, Linked, Due;
    forall s: nat | IsDeleted(w, s) ensures IsDeleted(PublishDue(w, r, now), s) <==> !(Due(w, r, now) && Linked(w, r, s)) {
      PublishDueOnDeleted(w, r, now, s);
    }
  }

  /** Synchronizing does exactly when the release is not live or no track of it is deleted. */
  lemma SynchronizeKeepsDeletedIff(w: World, r: nat)
    ensures (forall s :: IsDeleted(w, s) ==> IsDeleted(Resynchronize(w, r), s)) <==>
            !IsLive(w, r) || forall s :: IsDeleted(w, s) ==> !Linked(w, r, s)
  {
    hide Resynchronize, IsDeleted, Linked, IsLive;
    forall s: nat | IsDeleted(w, s) ensures IsDeleted(Resynchronize(w, r), s) <==> !(IsLive(w, r) && Linked(w, r, s)) {
      SynchronizeOnDeleted(w, r, s);
    }
  }

  // The operations that publish validate first, or never touch a deleted song.

  lemma ValidMeansUnlinked(w: World, r: nat, otherwise: bool, song: nat)
    requires r in w.releases && Valid(w, r, otherwise) && IsDeleted(w, song)
    ensures !Linked(w, r, song)
  {
    LinkOfFound(w.releases[r].links, song);
  }

  lemma PromoteKeepsDeleted(w: World, r: nat, action: Action, otherwise: bool, song: nat)
    requires r in w.releases && Valid(w, r, otherwise) && IsDeleted(w, song)
    requires action.DoApprove? || action.DoSchedule? || action.DoPublish?
    ensures IsDeleted(Promote(w, r, action), song)
  {
    hide SyncArtwork, Materialize, Prepare, Valid, LinkOf;
    ValidMeansUnlinked(w, r, otherwise, song);
    MaterializeStatuses(w, r);
    PrepareKeepsDeleted(w, r, None, song);
  }

  /** No moderation action revives a deleted song: the ones that publish validate first. */
  lemma ActKeepsDeleted(w: World, r: nat, action: Action, barred: bool, otherwise: bool, v: Version, song: nat)
    requires IsDeleted(w, song)
    ensures IsDeleted(Act(w, r, action, barred, otherwise, v), song)
  {
    hide SyncArtwork, TakeDown, WithStatus, Valid, Blocked, LinkOf, Promote, Current, Allowed;
    if r in w.releases {
      var synced := SyncTracks(w, r);
      SyncKeepsDeleted(w, r, 0, song);
      StatusKeepsDeleted(w, r, SongRejected, song);
      StatusKeepsDeleted(w, r, SongDraft, song);
      StatusKeepsDeleted(w, r, Pending, song);
      TakeDownKeepsDeleted(w, r, song);
      if Valid(synced, r, otherwise) && (action.DoApprove? || action.DoSchedule? || action.DoPublish?) {
        PromoteKeepsDeleted(synced, r, action, otherwise, song);
      }
    }
  }

  lemma AppliedKeepsDeleted(w: World, r: nat, target: Status, otherwise: bool, dated: Option<nat>, now: nat, song: nat)
    requires r in w.releases && IsDeleted(w, song)
    requires target in {Approved, Scheduled, Live} ==> Valid(w, r, otherwise)
    ensures var applied := AppliedFromAdmin(w, r, target, dated, now); applied.Some? ==> IsDeleted(applied.value, song)
  {
    hide SyncArtwork, TakeDown, WithStatus, Valid, LinkOf, Materialize, Prepare, MarkForReview;
    TakeDownKeepsDeleted(w, r, song);
    StatusKeepsDeleted(w, r, SongDraft, song);
    StatusKeepsDeleted(TakeDown(w, r), r, SongDraft, song);
    StatusKeepsDeleted(w, r, Pending, song);
    StatusKeepsDeleted(w, r, SongRejected, song);
    StatusKeepsDeleted(w, r, SongApproved, song);
    ReviewKeepsDeleted(w, r, song);
    PrepareKeepsDeleted(w, r, None, song);
    PrepareKeepsDeleted(w, r, dated, song);
    if target in {Approved, Scheduled, Live} {
      ValidMeansUnlinked(w, r, otherwise, song);
      MaterializeStatuses(w, r);
    }
  }

  lemma SetFromAdminKeepsDeleted(w: World, r: nat, target: Status, otherwise: bool, dated: Option<nat>, now: nat, song: nat)
    requires IsDeleted(w, song)
    ensures IsDeleted(SetFromAdmin(w, r, target, otherwise, dated, now), song)
  {
    hide SyncArtwork, Valid, AppliedFromAdmin, IsDeleted;
    if r in w.releases {
      SyncKeepsDeleted(w, r, 0, song);
      if target in {Approved, Scheduled, Live} ==> Valid(SyncTracks(w, r), r, otherwise) {
        AppliedKeepsDeleted(SyncTracks(w, r), r, target, otherwise, dated, now, song);
      }
    }
  }

  lemma SubmitKeepsDeleted(w: World, r: nat, otherwise: bool, v: Version, song: nat)
    requires IsDeleted(w, song)
    ensures IsDeleted(Submit(w, r, otherwise, v), song)
  {
    hide SyncArtwork, Valid, LinkOf;
    if r in w.releases {
      SyncKeepsDeleted(w, r, 0, song);
    }
  }

  // Editing.

  lemma PendingKeepsDeleted(w: World, r: nat, statuses: set<Status>, song: nat)
    requires r in w.releases && IsDeleted(w, song)
    ensures IsDeleted(PendingIf(w, r, statuses), song)
  {
    hide WithStatus;
    StatusKeepsDeleted(w, r, Pending, song);
  }

  lemma PaintedKeepsDeleted(w: World, r: nat, release: Release, previousCover: nat, statuses: set<Status>, song: nat)
    requires r in w.releases && IsDeleted(w, song)
    ensures var painted := SyncArtwork(w.(releases := w.releases[r := release]), r, previousCover);
            IsDeleted(painted, song) && IsDeleted(PendingIf(painted, r, statuses), song)
  {
    hide SyncArtwork, PendingIf;
    SyncKeepsDeleted(w.(releases := w.releases[r := release]), r, previousCover, song);
    PendingKeepsDeleted(SyncArtwork(w.(releases := w.releases[r := release]), r, previousCover), r, statuses, song);
  }

  lemma PatchesKeepDeleted(w: World, r: nat, content: bool, kind: Option<Kind>, marks: map<nat, bool>, v: Version, song: nat)
    requires IsDeleted(w, song)
    ensures IsDeleted(ArtistPatch(w, r, kind, marks, v), song)
    ensures IsDeleted(AdminPatch(w, r, content, kind, marks, v), song)
  {
    hide SyncArtwork, PendingIf, Edited, IsDeleted;
    if r in w.releases {
      PaintedKeepsDeleted(w, r, Edited(w.releases[r], kind, marks, None), 0, {InReview}, song);
      PaintedKeepsDeleted(w, r, Edited(w.releases[r], kind, marks, None), 0, {InReview, ChangesRequested}, song);
      PaintedKeepsDeleted(w, r, Edited(w.releases[r], None, map[], None), 0, {InReview, ChangesRequested}, song);
    }
  }

  lemma ArtworkKeepsDeleted(w: World, r: nat, url: nat, confirmed: bool, admin: bool, v: Version, song: nat)
    requires IsDeleted(w, song)
    ensures IsDeleted(Artwork(w, r, url, confirmed, admin, v), song)
  {
    hide SyncArtwork, PendingIf, Edited, MarkForReview, IsDeleted;
    if r in w.releases {
      ReviewKeepsDeleted(w, r, song);
      var reviewed := if w.releases[r].status in {Draft, InReview} then w else MarkForReview(w, r);
      PaintedKeepsDeleted(reviewed, r, Edited(reviewed.releases[r], None, map[], Some(url)), reviewed.releases[r].cover, {InReview}, song);
    }
  }

  // Tracklists and deletions.

  lemma {:induction false} AddAllKeepsDeleted(w: World, r: nat, songs: seq<nat>, song: nat)
    requires r in w.releases && IsDeleted(w, song) && song < w.nextSong
    ensures IsDeleted(AddAll(w, r, songs), song) && w.nextSong <= AddAll(w, r, songs).nextSong
  {
    hide LinkedElsewhere;
    if songs != [] {
      AddAllKeepsDeleted(w, r, songs[..|songs| - 1], song);
    }
  }

  lemma AddsKeepDeleted(w: World, r: nat, ids: seq<nat>, admin: bool, v: Version, song: nat)
    requires IsDeleted(w, song) && song < w.nextSong
    ensures IsDeleted(Add(w, r, ids, admin, v), song) && IsDeleted(Upload(w, r, v), song)
  {
    hide SyncArtwork, AddAll, Candidates, LinkOf, ActiveCount;
    if r in w.releases {
      var chosen := Candidates(w.releases[r].links, Dedupe(ids));
      AddAllKeepsDeleted(w, r, chosen, song);
      SyncKeepsDeleted(AddAll(w, r, chosen), r, 0, song);
      SyncKeepsDeleted(UploadOne(w, r), r, 0, song);
    }
  }

  lemma ReorderKeepsDeleted(w: World, r: nat, ids: seq<nat>, admin: bool, v: Version, song: nat)
    requires IsDeleted(w, song)
    ensures IsDeleted(Reorder(w, r, ids, admin, v), song)
  {
    hide SyncArtwork, LinkOf, TrackPositions.Collides, PositionsIn;
    var order := Dedupe(ids);
    if r in w.releases && forall k :: 0 <= k < |order| ==> LinkOf(w.releases[r].links, order[k]).Some? {
      SyncKeepsDeleted(WithLinks(w, r, Ordered(w.releases[r].links, order)), r, 0, song);
    }
  }

  lemma DropIfEmptyKeepsDeleted(w: World, album: Option<nat>, song: nat)
    ensures IsDeleted(DropIfEmpty(w, album), song) <==> IsDeleted(w, song)
  {
  }

  lemma RemovalsKeepDeleted(w: World, r: nat, gone: set<nat>, deleteEmpty: bool, v: Version, song: nat)
    requires IsDeleted(w, song)
    ensures IsDeleted(RemoveTracks(w, r, gone, deleteEmpty, v), song) && IsDeleted(AdminRemoveTracks(w, r, gone, v), song)
  {
    hide Stuck, LinkOf, DropIfEmpty, NoActiveTrack, Released, LeftLinks, Renumbered, Without;
    if r in w.releases {
      ReleasedStatuses(w, r, gone);
      DropIfEmptyKeepsDeleted(Unlink(w, r, gone), w.releases[r].album, song);
    }
  }

  lemma ReleaseDeletionsKeepDeleted(w: World, r: nat, v: Version, song: nat)
    requires IsDeleted(w, song)
    ensures IsDeleted(ArtistDelete(w, r, v), song)
    ensures song in AdminDelete(w, r).songs ==> IsDeleted(AdminDelete(w, r), song)
  {
    hide Stuck, LinkOf, DropIfEmpty, Renumbered, Without, LinkedElsewhere, Detached;
    if r in w.releases {
      DetachedKeepsDeleted(w, r, song);
      DropIfEmptyKeepsDeleted(EraseRelease(Detached(w, r), r), w.releases[r].album, song);
      var gone := set s | s in w.songs && LinkOf(w.releases[r].links, s).Some? && !LinkedElsewhere(w, r, s);
      var erased := EraseRelease(EraseSongs(w, gone), r);
      DropIfEmptyKeepsDeleted(erased, w.releases[r].album, song);
      DropKeepsSongs(erased, w.releases[r].album, song);
    }
  }

  lemma DetachedKeepsDeleted(w: World, r: nat, song: nat)
    requires r in w.releases && IsDeleted(w, song)
    ensures IsDeleted(Detached(w, r), song)
  {
  }

  lemma DeleteSongKeepsDeleted(w: World, deleted: nat, hard: bool, song: nat)
    requires IsDeleted(w, song) && song in DeleteSong(w, deleted, hard).songs
    ensures IsDeleted(DeleteSong(w, deleted, hard), song)
  {
    hide Stuck, LinkOf, TakenDownIfEmpty, Renumbered, Without;
  }

  lemma CloneKeepsDeleted(w: World, r: nat, song: nat)
    requires IsDeleted(w, song) && song < w.nextSong
    ensures IsDeleted(Clone(w, r), song)
  {
    if r in w.releases {
      CopiesAreDrafts(w.songs, w.releases[r].links, w.nextSong);
      hide Copies;
    }
  }

  // Every event.

  /** The events that make a deleted song something else: the publishing job on a due release, a
      synchronization of a live one, and a change of the row while no tracklist has it. */
  predicate Revives(w: World, e: Event, song: nat) {
    match e
    case PublishDueEvent(r, now) => Due(w, r, now) && Linked(w, r, song)
    case SynchronizeEvent(r) => IsLive(w, r) && Linked(w, r, song)
    case EditUnlinkedEvent(id, row) =>
      && id == song && row.status != Deleted && (row.album.Some? ==> row.album.value in w.albums)
      && forall q :: q in w.releases ==> LinkOf(w.releases[q].links, song).None?
    case _ => false
  }

  /** A deleted song that an event does not erase stays deleted exactly unless the event is one of
      those three; its id must be one that was issued. */
  lemma DeletedStaysDeletedIff(w: World, e: Event, song: nat)
    requires IsDeleted(w, song) && song < w.nextSong && song in Step(w, e).songs
    ensures IsDeleted(Step(w, e), song) <==> !Revives(w, e, song)
  {
    hide Add, Upload, Reorder, RemoveTracks, AdminRemoveTracks, ArtistPatch, AdminPatch, ReopenForEdit, Artwork, Validate,
      Submit, Act, SetFromAdmin, Resynchronize, PublishDue, ArtistDelete, AdminDelete, Create, Clone, DeleteSong, EditUnlinked,
      NewAlbum, Due, IsLive, Linked, IsDeleted, LinkOf;
    match e
    case CreateEvent(artist, kind) => CataloguingKeepsDeleted(w, artist, kind, song);
    case CloneEvent(r) => CloneKeepsDeleted(w, r, song);
    case AddEvent(r, ids, admin, v) => AddsKeepDeleted(w, r, ids, admin, v, song);
    case UploadEvent(r, v) => AddsKeepDeleted(w, r, [], false, v, song);
    case ReorderEvent(r, ids, admin, v) => ReorderKeepsDeleted(w, r, ids, admin, v, song);
    case RemoveEvent(r, songs, deleteEmpty, v) => RemovalsKeepDeleted(w, r, songs, deleteEmpty, v, song);
    case AdminRemoveEvent(r, songs, v) => RemovalsKeepDeleted(w, r, songs, false, v, song);
    case ArtistPatchEvent(r, kind, marks, v) => PatchesKeepDeleted(w, r, false, kind, marks, v, song);
    case AdminPatchEvent(r, content, kind, marks, v) => PatchesKeepDeleted(w, r, content, kind, marks, v, song);
    case ReopenForEditEvent(r, confirmed, v) => ReopeningKeepsDeleted(w, r, confirmed, v, song);
    case ArtworkEvent(r, url, confirmed, admin, v) => ArtworkKeepsDeleted(w, r, url, confirmed, admin, v, song);
    case ValidateEvent(r, v) => ReopeningKeepsDeleted(w, r, true, v, song);
    case SubmitEvent(r, otherwise, v) => SubmitKeepsDeleted(w, r, otherwise, v, song);
    case ActEvent(r, action, barred, otherwise, v) => ActKeepsDeleted(w, r, action, barred, otherwise, v, song);
    case SetFromAdminEvent(r, target, otherwise, dated, now) =>
      SetFromAdminKeepsDeleted(w, r, target, otherwise, dated, now, song);
    case SynchronizeEvent(r) => SynchronizeOnDeleted(w, r, song);
    case PublishDueEvent(r, now) => PublishDueOnDeleted(w, r, now, song);
    case ArtistDeleteEvent(r, v) => ReleaseDeletionsKeepDeleted(w, r, v, song);
    case AdminDeleteEvent(r) => ReleaseDeletionsKeepDeleted(w, r, Unstated, song);
    case DeleteSongEvent(deleted, hard) => DeleteSongKeepsDeleted(w, deleted, hard, song);
    case EditUnlinkedEvent(id, row) => EditOnDeleted(w, id, row, song);
    case NewAlbumEvent => CataloguingKeepsDeleted(w, 0, EP, song);
  }

  lemma CataloguingKeepsDeleted(w: World, artist: nat, kind: Kind, song: nat)
    requires IsDeleted(w, song)
    ensures IsDeleted(Create(w, artist, kind), song) && IsDeleted(NewAlbum(w), song)
  {
  }

  lemma EditOnDeleted(w: World, id: nat, row: Song, song: nat)
    requires IsDeleted(w, song)
    ensures IsDeleted(EditUnlinked(w, id, row), song) <==> !Revives(w, EditUnlinkedEvent(id, row), song)
  {
    hide LinkOf;
  }

  lemma ReopeningKeepsDeleted(w: World, r: nat, confirmed: bool, v: Version, song: nat)
    requires IsDeleted(w, song)
    ensures IsDeleted(ReopenForEdit(w, r, confirmed, v), song) && IsDeleted(Validate(w, r, v), song)
  {
    hide MarkForReview, SyncArtwork;
    if r in w.releases {
      ReviewKeepsDeleted(w, r, song);
      SyncKeepsDeleted(w, r, 0, song);
    }
  }

  // Runs that reach the two failures.

  lemma ReachableStep(w: World, e: Event)
    requires Reachable(w)
    ensures Reachable(Step(w, e))
  {
    hide Step;
    var events :| w == Run(EMPTY, events);
    var more := events + [e];
    assert more[..|more| - 1] == events;
    assert Run(EMPTY, more) == Step(w, e);
  }

  lemma StartIsReachable()
    ensures Reachable(EMPTY)
  {
    assert Run(EMPTY, []) == EMPTY;
  }

  const COVER: nat := 9

  /** An EP of two uploads whose artwork was set before it was scheduled for time 5. */
  function Upcoming(): World {
    var song := Song(0, SongApproved, None, false, 1, COVER, false);
    World(map[0 := song, 1 := song.(trackNumber := 2)], {},
          map[0 := Release(0, EP, Scheduled, [Link(0, None, 1, true), Link(1, None, 2, true)], None, COVER, 5, false, Some(5),
                           [Row(None, Draft), Row(Some(Draft), Scheduled)])], 2, 0, 1)
  }

  function Uploaded(status: SongStatus, position: nat, cover: nat): Song {
    Song(0, status, None, false, position, cover, false)
  }

  /** The EP as a draft. */
  function Drafted(links: seq<Link>, cover: nat, version: nat): Release {
    Release(0, EP, Draft, links, None, cover, version, false, None, [Row(None, Draft)])
  }

  lemma FirstUpload()
    ensures Upload(Create(EMPTY, 0, EP), 0, Unstated) ==
              World(map[0 := Uploaded(SongDraft, 1, 0)], {}, map[0 := Drafted([Link(0, None, 1, false)], 0, 2)], 1, 0, 1)
  {
    var w := Create(EMPTY, 0, EP);
    assert w == World(map[], {}, map[0 := Drafted([], 0, 1)], 0, 0, 1);
    assert [] + [Link(0, None, 1, false)] == [Link(0, None, 1, false)];
    assert UploadOne(w, 0).releases == map[0 := Drafted([Link(0, None, 1, false)], 0, 1)];
    assert Touch(UploadOne(w, 0), 0).releases == map[0 := Drafted([Link(0, None, 1, false)], 0, 2)];
  }

  lemma SecondUpload()
    ensures var w := World(map[0 := Uploaded(SongDraft, 1, 0)], {}, map[0 := Drafted([Link(0, None, 1, false)], 0, 2)], 1, 0, 1);
            Upload(w, 0, Unstated) ==
              World(map[0 := Uploaded(SongDraft, 1, 0), 1 := Uploaded(SongDraft, 2, 0)], {},
                    map[0 := Drafted([Link(0, None, 1, false), Link(1, None, 2, false)], 0, 3)], 2, 0, 1)
  {
    var w := World(map[0 := Uploaded(SongDraft, 1, 0)], {}, map[0 := Drafted([Link(0, None, 1, false)], 0, 2)], 1, 0, 1);
    var links := [Link(0, None, 1, false), Link(1, None, 2, false)];
    OneTrack(w);
    hide ActiveCount;
    assert [Link(0, None, 1, false)] + [Link(1, None, 2, false)] == links;
    assert UploadOne(w, 0).releases == map[0 := Drafted(links, 0, 2)];
    assert Touch(UploadOne(w, 0), 0).releases == map[0 := Drafted(links, 0, 3)];
  }

  lemma OneTrack(w: World)
    requires 0 in w.releases && |w.releases[0].links| == 1
    ensures ActiveCount(w, w.releases[0].links) <= 1
  {
    assert ActiveCount(w, w.releases[0].links[..0]) == 0;
  }

  lemma TwoLinks(a: Link, b: Link)
    ensures forall s :: LinkOf([a, b], s) == if s == b.song then Some(b) else if s == a.song then Some(a) else None
  {
    forall s: nat ensures LinkOf([a, b], s) == if s == b.song then Some(b) else if s == a.song then Some(a) else None {
      LinkOfAppended([], a, s);
      LinkOfAppended([a], b, s);
      assert [] + [a] == [a] && [a] + [b] == [a, b];
    }
  }

  lemma ArtworkSet()
    ensures var links := [Link(0, None, 1, false), Link(1, None, 2, false)];
            var w := World(map[0 := Uploaded(SongDraft, 1, 0), 1 := Uploaded(SongDraft, 2, 0)], {}, map[0 := Drafted(links, 0, 3)], 2, 0, 1);
            Artwork(w, 0, COVER, false, true, Unstated) ==
              World(map[0 := Uploaded(SongDraft, 1, COVER), 1 := Uploaded(SongDraft, 2, COVER)], {},
                    map[0 := Drafted([Link(0, None, 1, true), Link(1, None, 2, true)], COVER, 4)], 2, 0, 1)
  {
    var links := [Link(0, None, 1, false), Link(1, None, 2, false)];
    TwoLinks(links[0], links[1]);
    assert Marked(links, map[]) == links;
    var w := World(map[0 := Uploaded(SongDraft, 1, 0), 1 := Uploaded(SongDraft, 2, 0)], {}, map[0 := Drafted(links, 0, 3)], 2, 0, 1);
    var edited := Drafted(links, COVER, 4);
    hide LinkOf;
    assert InheritingLinks(w.songs, edited, 0) == [Link(0, None, 1, true), Link(1, None, 2, true)];
    assert InheritingSongs(w.songs, edited, 0) == map[0 := Uploaded(SongDraft, 1, COVER), 1 := Uploaded(SongDraft, 2, COVER)];
  }

  lemma ScheduledForFive()
    ensures var links := [Link(0, None, 1, true), Link(1, None, 2, true)];
            var w := World(map[0 := Uploaded(SongDraft, 1, COVER), 1 := Uploaded(SongDraft, 2, COVER)], {},
                           map[0 := Drafted(links, COVER, 4)], 2, 0, 1);
            Act(w, 0, DoSchedule(Some(5), None, 1), false, true, Unstated) == Upcoming()
  {
    var links := [Link(0, None, 1, true), Link(1, None, 2, true)];
    var w := World(map[0 := Uploaded(SongDraft, 1, COVER), 1 := Uploaded(SongDraft, 2, COVER)], {},
                   map[0 := Drafted(links, COVER, 4)], 2, 0, 1);
    TwoLinks(links[0], links[1]);
    SettledPair(w, links);
    assert Valid(w, 0, true);
    hide LinkOf, SyncArtwork, Valid;
    assert WithStatus(w, 0, SongApproved).songs == Upcoming().songs;
    var prepared := Prepare(w, 0, None);
    assert prepared.releases == map[0 := Drafted(links, COVER, 4)];
    var dated := SetSchedule(prepared, 0, Some(5));
    assert dated.releases == map[0 := Drafted(links, COVER, 4).(scheduledAt := Some(5))];
    assert [Row(None, Draft)] + [Row(Some(Draft), Scheduled)] == [Row(None, Draft), Row(Some(Draft), Scheduled)];
    assert ChangeStatus(dated, 0, Scheduled).releases == Upcoming().releases;
  }

  lemma SettledPair(w: World, links: seq<Link>)
    requires 0 in w.releases && w.releases[0].links == links == [Link(0, None, 1, true), Link(1, None, 2, true)]
    requires 0 in w.songs && 1 in w.songs && w.songs[0].cover == w.songs[1].cover == w.releases[0].cover
    ensures SyncTracks(w, 0) == w
  {
    TwoLinks(links[0], links[1]);
    var release := w.releases[0];
    hide LinkOf;
    assert InheritingSongs(w.songs, release, 0) == w.songs;
    assert InheritingLinks(w.songs, release, 0) == links;
    assert release.(links := links) == release;
  }

  lemma UpcomingIsReachable()
    ensures Reachable(Upcoming())
  {
    hide Create, Upload, Artwork, Act, Upcoming, Uploaded, Drafted, Reachable;
    StartIsReachable();
    FirstUpload();
    SecondUpload();
    ArtworkSet();
    ScheduledForFive();
    var created := Step(EMPTY, CreateEvent(0, EP));
    ReachableStep(EMPTY, CreateEvent(0, EP));
    var first := Step(created, UploadEvent(0, Unstated));
    ReachableStep(created, UploadEvent(0, Unstated));
    var second := Step(first, UploadEvent(0, Unstated));
    ReachableStep(first, UploadEvent(0, Unstated));
    var painted := Step(second, ArtworkEvent(0, COVER, false, true, Unstated));
    ReachableStep(second, ArtworkEvent(0, COVER, false, true, Unstated));
    ReachableStep(painted, ActEvent(0, DoSchedule(Some(5), None, 1), false, true, Unstated));
  }

  /** A track is deleted after its EP was scheduled: the job publishes it when the time comes. */
  lemma PublishDueRevivesDeleted()
    ensures exists w, r, now, song :: Reachable(w) && IsDeleted(w, song) && !IsDeleted(PublishDue(w, r, now), song)
  {
    hide Upcoming, DeleteSong, PublishDue;
    var w := Upcoming();
    UpcomingIsReachable();
    UpcomingTracks();
    StaysActive(w);
    ReachableStep(w, DeleteSongEvent(1, false));
    var deleted := DeleteSong(w, 1, false);
    assert Due(deleted, 0, 5) && Linked(deleted, 0, 1);
    PublishDueOnDeleted(deleted, 0, 5, 1);
  }

  lemma UpcomingTracks()
    ensures var w := Upcoming();
            && Due(w, 0, 5) && 0 in w.songs && 1 in w.songs && w.songs[0].status != Deleted && Linked(w, 0, 1)
            && |w.releases[0].links| == 2 && w.releases[0].links[0].song == 0
  {
    TwoLinks(Upcoming().releases[0].links[0], Upcoming().releases[0].links[1]);
  }

  /** With one track deleted the EP still has an active one, so nothing takes it down. */
  lemma StaysActive(w: World)
    requires 0 in w.releases && 0 in w.songs && w.songs[0].status != Deleted && 1 in w.songs
    requires |w.releases[0].links| == 2 && w.releases[0].links[0].song == 0
    ensures DeleteSong(w, 1, false).releases.Keys == w.releases.Keys
    ensures DeleteSong(w, 1, false).releases[0] == w.releases[0]
    ensures IsDeleted(DeleteSong(w, 1, false), 1)
  {
    hide LinkOf;
    var songs := w.songs[1 := w.songs[1].(status := Deleted)];
    assert songs[0].status != Deleted;
    assert !NoActiveTrack(songs, w.releases[0].links);
  }

  /** A track is deleted while its EP is live: synchronizing the release publishes it again, although
      the routine promises to preserve deleted songs. */
  lemma SynchronizeRevivesDeleted()
    ensures exists w, r, song :: Reachable(w) && IsDeleted(w, song) && !IsDeleted(Resynchronize(w, r), song)
  {
    hide Upcoming, Resynchronize, DeleteSong, PublishDue;
    var w := Upcoming();
    UpcomingIsReachable();
    LiveTracks(w);
    ReachableStep(w, PublishDueEvent(0, 5));
    var live := PublishDue(w, 0, 5);
    StaysActive(live);
    ReachableStep(live, DeleteSongEvent(1, false));
    var deleted := DeleteSong(live, 1, false);
    assert IsLive(deleted, 0) && Linked(deleted, 0, 1);
    SynchronizeOnDeleted(deleted, 0, 1);
  }

  lemma LiveTracks(w: World)
    requires w == Upcoming()
    ensures var live := PublishDue(w, 0, 5);
            && 0 in live.releases && live.releases[0].status == Live && 0 in live.songs && 1 in live.songs
            && live.songs[0].status == Published && Linked(live, 0, 1)
            && |live.releases[0].links| == 2 && live.releases[0].links[0].song == 0
  {
    hide Materialize, LinkOf;
    TwoLinks(w.releases[0].links[0], w.releases[0].links[1]);
    assert AlbumsExist(w);
    MaterializeStatuses(w, 0);
    MaterializeIsLifecycle(w, 0);
    SameTracksLinked(w.releases[0].links, Materialize(w, 0).releases[0].links, 1);
  }
}
