/** Recordings a request is not about: on no track of its release and not named in it. */
module ReleaseFootprints {
  import opened Options
  import opened Sequences
  import opened Releases
  import opened ReleaseFrames
  import opened ReleaseLifecycle
  import opened ReleaseRequests
  import opened ReleaseTracklists
  import opened ReleaseEffects
  import opened ReleaseRuns
  import TrackPositions

  ghost predicate Outside(w: World, r: nat, song: nat) {
    r in w.releases && LinkOf(w.releases[r].links, song).None?
  }

  ghost predicate SameRow(w: World, now: World, song: nat) {
    (song in now.songs <==> song in w.songs) && (song in w.songs ==> now.songs[song] == w.songs[song])
  }

  /** The step spares a song that is no track of `r`, which it does not become either. */
  ghost predicate Spares(w: World, now: World, r: nat, song: nat) {
    SameRow(w, now, song) && Outside(now, r, song)
  }

  // The primitives.

  lemma LifecycleSpares(w: World, now: World, r: nat, song: nat)
    requires Lifecycle(w, now, r) && Outside(w, r, song)
    ensures Spares(w, now, r, song)
  {
    LifecycleLinked(w, now, r);
    assert !Linked(w, r, song) && !Linked(now, r, song);
  }

  lemma SyncSpares(w: World, r: nat, previousCover: nat, song: nat)
    requires Outside(w, r, song)
    ensures Spares(w, SyncArtwork(w, r, previousCover), r, song)
  {
    hide SyncArtwork, Lifecycle;
    SyncArtworkIsLifecycle(w, r, previousCover);
    LifecycleSpares(w, SyncArtwork(w, r, previousCover), r, song);
  }

  lemma StatusSpares(w: World, r: nat, status: SongStatus, song: nat)
    requires Outside(w, r, song)
    ensures Spares(w, WithStatus(w, r, status), r, song)
  {
  }

  /** Steps that write nothing but the release's own row, and not its tracks. */
  lemma RowSpares(w: World, r: nat, to: Status, at: Option<nat>, song: nat)
    requires Outside(w, r, song)
    ensures Spares(w, ChangeStatus(w, r, to), r, song) && Spares(w, SetSchedule(w, r, at), r, song) && Spares(w, Touch(w, r), r, song)
    ensures Spares(w, TakeDownRow(w, r), r, song)
  {
  }

  lemma DropAlbumSpares(w: World, r: nat, album: nat, song: nat)
    requires Outside(w, r, song) && (song in w.songs ==> w.songs[song].album != Some(album))
    ensures Spares(w, DropAlbum(w, album), r, song)
  {
  }

  lemma TakeDownSpares(w: World, r: nat, song: nat)
    requires Outside(w, r, song)
    ensures Spares(w, TakeDown(w, r), r, song)
  {
    hide WithStatus;
    var album, released := w.releases[r].album, ClearAlbum(WithStatus(w, r, SongApproved), r);
    StatusSpares(w, r, SongApproved, song);
    assert Spares(w, released, r, song);
    if album.Some? && !HasUnrelated(w, r, album.value) {
      DropAlbumSpares(released, r, album.value, song);
    }
  }

  lemma MaterializeSpares(w: World, r: nat, song: nat)
    requires Outside(w, r, song)
    ensures Spares(w, Materialize(w, r), r, song)
  {
    hide SyncArtwork, OwnAlbum;
    var own, synced := OwnAlbum(w, r), SyncTracks(w, r);
    SyncSpares(w, r, 0, song);
    if w.releases[r].kind == Single && own.Some? {
      OwnAlbumIsExclusive(w, r, song);
      DropAlbumSpares(synced, r, own.value, song);
    }
    MarkedOutside(w, r, synced.releases[r].links, song);
  }

  lemma OwnAlbumIsExclusive(w: World, r: nat, song: nat)
    requires Outside(w, r, song) && OwnAlbum(w, r).Some?
    ensures song in w.songs ==> w.songs[song].album != OwnAlbum(w, r)
  {
  }

  lemma MarkedOutside(w: World, r: nat, links: seq<Link>, song: nat)
    requires r in w.releases && LinkOf(links, song).None?
    ensures LinkOf(MarkLinks(w.releases[r], w.songs, links), song).None?
  {
    MarkLinksSameTracks(w, r, links);
    SameTracksLinked(links, MarkLinks(w.releases[r], w.songs, links), song);
  }

  lemma ReviewSpares(w: World, r: nat, song: nat)
    requires Outside(w, r, song)
    ensures Spares(w, MarkForReview(w, r), r, song)
  {
    hide SharedLive;
  }

  lemma PrepareSpares(w: World, r: nat, at: Option<nat>, song: nat)
    requires Outside(w, r, song)
    ensures Spares(w, Prepare(w, r, at), r, song)
  {
    hide SyncArtwork, WithStatus, LinkOf;
    SyncSpares(w, r, 0, song);
    StatusSpares(SyncTracks(w, r), r, SongApproved, song);
    RowSpares(WithStatus(SyncTracks(w, r), r, SongApproved), r, Draft, at, song);
  }

  // The lifecycle requests.

  lemma PublishSpares(w: World, r: nat, song: nat)
    requires Outside(w, r, song)
    ensures Spares(w, ChangeStatus(Materialize(w, r), r, Live), r, song)
  {
    hide Materialize, ChangeStatus, LinkOf;
    MaterializeSpares(w, r, song);
    RowSpares(Materialize(w, r), r, Live, None, song);
  }

  lemma ApproveSpares(w: World, r: nat, song: nat)
    requires Outside(w, r, song)
    ensures Spares(w, Approve(w, r), r, song)
  {
    hide Materialize, Prepare, ChangeStatus, LinkOf;
    PublishSpares(w, r, song);
    PrepareSpares(w, r, None, song);
    RowSpares(Prepare(w, r, None), r, Approved, None, song);
  }

  lemma RestatusSpares(w: World, r: nat, status: SongStatus, to: Status, song: nat)
    requires Outside(w, r, song)
    ensures Spares(w, ChangeStatus(WithStatus(w, r, status), r, to), r, song)
    ensures Spares(w, ChangeStatus(SetSchedule(WithStatus(w, r, status), r, None), r, to), r, song)
  {
    hide WithStatus, ChangeStatus, SetSchedule, LinkOf;
    var mid := WithStatus(w, r, status);
    StatusSpares(w, r, status, song);
    RowSpares(mid, r, to, None, song);
    RowSpares(SetSchedule(mid, r, None), r, to, None, song);
  }

  lemma ScheduleSpares(w: World, r: nat, at: Option<nat>, song: nat)
    requires Outside(w, r, song)
    ensures Spares(w, ChangeStatus(SetSchedule(Prepare(w, r, None), r, at), r, Scheduled), r, song)
    ensures Spares(w, ChangeStatus(Prepare(w, r, at), r, Scheduled), r, song)
  {
    hide Prepare, ChangeStatus, SetSchedule, LinkOf;
    PrepareSpares(w, r, None, song);
    PrepareSpares(w, r, at, song);
    RowSpares(Prepare(w, r, at), r, Scheduled, None, song);
    RowSpares(Prepare(w, r, None), r, Scheduled, at, song);
    RowSpares(SetSchedule(Prepare(w, r, None), r, at), r, Scheduled, None, song);
  }

  lemma TakenDownSpares(w: World, r: nat, to: Status, song: nat)
    requires Outside(w, r, song)
    ensures Spares(w, ChangeStatus(TakeDown(w, r), r, to), r, song)
    ensures Spares(w, ChangeStatus(SetSchedule(WithStatus(TakeDown(w, r), r, SongDraft), r, None), r, to), r, song)
  {
    hide TakeDown, WithStatus, ChangeStatus, SetSchedule, LinkOf;
    TakeDownSpares(w, r, song);
    RowSpares(TakeDown(w, r), r, to, None, song);
    RestatusSpares(TakeDown(w, r), r, SongDraft, to, song);
  }

  lemma PromoteSpares(w: World, r: nat, action: Action, song: nat)
    requires Outside(w, r, song) && (action.DoApprove? || action.DoSchedule? || action.DoPublish?)
    ensures SameRow(w, Promote(w, r, action), song)
  {
    hide Materialize, Prepare, Approve, ChangeStatus, SetSchedule, LinkOf;
    match action
    case DoApprove => ApproveSpares(w, r, song);
    case DoPublish => PublishSpares(w, r, song);
    case DoSchedule(requested, dated, _) => ScheduleSpares(w, r, if requested.Some? then requested else dated, song);
  }

  lemma ActSpares(w: World, r: nat, action: Action, barred: bool, otherwise: bool, v: Version, song: nat)
    requires Outside(w, r, song)
    ensures SameRow(w, Act(w, r, action, barred, otherwise, v), song)
  {
    hide WithStatus, TakeDown, SyncArtwork, ChangeStatus, SetSchedule, Promote, Valid, Blocked, Current, Allowed, LinkOf;
    RowSpares(w, r, ChangesRequested, None, song);
    RestatusSpares(w, r, SongRejected, Rejected, song);
    RestatusSpares(w, r, SongDraft, Draft, song);
    RestatusSpares(w, r, Pending, InReview, song);
    TakenDownSpares(w, r, TakenDown, song);
    SyncSpares(w, r, 0, song);
    if action.DoApprove? || action.DoSchedule? || action.DoPublish? {
      PromoteSpares(SyncTracks(w, r), r, action, song);
    }
  }

  lemma SetFromAdminSpares(w: World, r: nat, target: Status, otherwise: bool, dated: Option<nat>, now: nat, song: nat)
    requires Outside(w, r, song)
    ensures SameRow(w, SetFromAdmin(w, r, target, otherwise, dated, now), song)
  {
    hide WithStatus, TakeDown, SyncArtwork, Materialize, Prepare, Approve, ChangeStatus, SetSchedule, MarkForReview, Valid, LinkOf;
    var synced := SyncTracks(w, r);
    SyncSpares(w, r, 0, song);
    RestatusSpares(synced, r, SongRejected, Rejected, song);
    RestatusSpares(synced, r, Pending, ChangesRequested, song);
    RestatusSpares(synced, r, SongDraft, Draft, song);
    RestatusSpares(synced, r, SongApproved, TakenDown, song);
    TakenDownSpares(synced, r, TakenDown, song);
    TakenDownSpares(synced, r, Draft, song);
    ApproveSpares(synced, r, song);
    PublishSpares(synced, r, song);
    ReviewSpares(synced, r, song);
    ScheduleSpares(synced, r, dated, song);
  }

  lemma SubmitSpares(w: World, r: nat, otherwise: bool, v: Version, song: nat)
    requires Outside(w, r, song)
    ensures SameRow(w, Submit(w, r, otherwise, v), song)
  {
    hide SyncArtwork, Valid, Current;
    SyncSpares(w, r, 0, song);
  }

  lemma SynchronizeSpares(w: World, r: nat, song: nat)
    requires Outside(w, r, song)
    ensures SameRow(w, Synchronize(w, r), song)
  {
    hide SyncArtwork, Materialize, TakeDown, WithStatus, LinkOf;
    var synced := SyncTracks(w, r);
    SyncSpares(w, r, 0, song);
    MaterializeSpares(synced, r, song);
    TakeDownSpares(synced, r, song);
    StatusSpares(TakeDown(synced, r), r, SongApproved, song);
    StatusSpares(synced, r, Table(w.releases[r].status), song);
  }

  // Editing.

  lemma EditSpares(w: World, r: nat, edited: Release, previousCover: nat, statuses: set<Status>, song: nat)
    requires Outside(w, r, song) && SameTracks(w.releases[r].links, edited.links)
    ensures var painted := SyncArtwork(w.(releases := w.releases[r := edited]), r, previousCover);
            Spares(w, painted, r, song) && Spares(w, PendingIf(painted, r, statuses), r, song)
  {
    hide SyncArtwork, WithStatus, SameTracks, LinkOf;
    SameTracksLinked(w.releases[r].links, edited.links, song);
    var mid := w.(releases := w.releases[r := edited]);
    SyncSpares(mid, r, previousCover, song);
    StatusSpares(SyncArtwork(mid, r, previousCover), r, Pending, song);
  }

  lemma EditKeepsTracks(release: Release, kind: Option<Kind>, marks: map<nat, bool>, cover: Option<nat>)
    ensures SameTracks(release.links, Edited(release, kind, marks, cover).links)
  {
  }

  lemma PatchesSpare(w: World, r: nat, content: bool, kind: Option<Kind>, marks: map<nat, bool>, v: Version, song: nat)
    requires Outside(w, r, song)
    ensures SameRow(w, ArtistPatch(w, r, kind, marks, v), song) && SameRow(w, AdminPatch(w, r, content, kind, marks, v), song)
  {
    hide SyncArtwork, PendingIf, Edited, LinkOf;
    var release := w.releases[r];
    EditKeepsTracks(release, kind, marks, None);
    EditKeepsTracks(release, None, map[], None);
    EditSpares(w, r, Edited(release, kind, marks, None), 0, {InReview}, song);
    EditSpares(w, r, Edited(release, kind, marks, None), 0, {InReview, ChangesRequested}, song);
    EditSpares(w, r, Edited(release, None, map[], None), 0, {InReview, ChangesRequested}, song);
  }

  lemma ArtworkSpares(w: World, r: nat, url: nat, confirmed: bool, admin: bool, v: Version, song: nat)
    requires Outside(w, r, song)
    ensures SameRow(w, Artwork(w, r, url, confirmed, admin, v), song)
  {
    hide MarkForReview, SyncArtwork, PendingIf, Edited, LinkOf;
    ReviewSpares(w, r, song);
    var reviewed := if w.releases[r].status in {Draft, InReview} then w else MarkForReview(w, r);
    EditKeepsTracks(reviewed.releases[r], None, map[], Some(url));
    EditSpares(reviewed, r, Edited(reviewed.releases[r], None, map[], Some(url)), reviewed.releases[r].cover, {InReview}, song);
  }

  // Tracklists.

  lemma {:induction false} AddAllSpares(w: World, r: nat, songs: seq<nat>, song: nat)
    requires Outside(w, r, song) && song !in songs && song < w.nextSong
    ensures Spares(w, AddAll(w, r, songs), r, song) && w.nextSong <= AddAll(w, r, songs).nextSong
  {
    if songs != [] {
      var front, last := songs[..|songs| - 1], songs[|songs| - 1];
      AddAllSpares(w, r, front, song);
      AddOneSpares(AddAll(w, r, front), r, last, song);
      AddOneOutside(AddAll(w, r, front), r, last, song);
      hide AddOne, LinkOf;
    }
  }

  lemma AddOneOutside(w: World, r: nat, added: nat, song: nat)
    requires Outside(w, r, song) && song != added && song < w.nextSong
    ensures Outside(AddOne(w, r, added), r, song) && w.nextSong <= AddOne(w, r, added).nextSong
  {
    if Linked(AddOne(w, r, added), r, song) {
      AddOneLinks(w, r, added, song);
    }
  }

  lemma {:induction false} CandidatesAreRequested(links: seq<Link>, ids: seq<nat>)
    ensures forall x :: x in Candidates(links, ids) ==> x in ids
  {
    if ids != [] {
      CandidatesAreRequested(links, ids[..|ids| - 1]);
      assert forall x :: x in ids[..|ids| - 1] ==> x in ids;
    }
  }

  lemma AddSpares(w: World, r: nat, ids: seq<nat>, admin: bool, v: Version, song: nat)
    requires Outside(w, r, song) && song !in ids && song < w.nextSong
    ensures SameRow(w, Add(w, r, ids, admin, v), song)
  {
    hide AddAll, SyncArtwork, Candidates, Touch, Current, LinkOf;
    var chosen := Candidates(w.releases[r].links, Dedupe(ids));
    CandidatesAreRequested(w.releases[r].links, Dedupe(ids));
    AddAllSpares(w, r, chosen, song);
    SyncTouchSpares(AddAll(w, r, chosen), r, song);
  }

  lemma SyncTouchSpares(w: World, r: nat, song: nat)
    requires Outside(w, r, song)
    ensures Spares(w, Touch(SyncTracks(w, r), r), r, song)
  {
    hide SyncArtwork, Touch, LinkOf;
    SyncSpares(w, r, 0, song);
    RowSpares(SyncTracks(w, r), r, Draft, None, song);
  }

  lemma UploadSpares(w: World, r: nat, v: Version, song: nat)
    requires Outside(w, r, song) && song < w.nextSong
    ensures SameRow(w, Upload(w, r, v), song)
  {
    hide ActiveCount, SyncArtwork, Touch, LinkOf, Current;
    var links := w.releases[r].links;
    LinkOfAppended(links, Link(w.nextSong, None, |links| + 1, false), song);
    assert Spares(w, UploadOne(w, r), r, song);
    SyncTouchSpares(UploadOne(w, r), r, song);
  }

  lemma ReorderSpares(w: World, r: nat, ids: seq<nat>, admin: bool, v: Version, song: nat)
    requires Outside(w, r, song)
    ensures SameRow(w, Reorder(w, r, ids, admin, v), song)
  {
    var links, order := w.releases[r].links, Dedupe(ids);
    if forall k :: 0 <= k < |order| ==> LinkOf(links, order[k]).Some? {
      OrderedOutside(w, r, order, song);
      hide SyncArtwork, Touch, LinkOf, TrackPositions.Collides, PositionsIn, Ordered;
      SyncTouchSpares(WithLinks(w, r, Ordered(links, order)), r, song);
    }
  }

  lemma OrderedOutside(w: World, r: nat, order: seq<nat>, song: nat)
    requires Outside(w, r, song) && Distinct(order)
    requires forall k :: 0 <= k < |order| ==> LinkOf(w.releases[r].links, order[k]).Some?
    ensures LinkOf(Ordered(w.releases[r].links, order), song).None?
  {
    OrderedRearranges(w, r, order);
    RearrangedStaysLinked(w, r, Ordered(w.releases[r].links, order));
    assert !Linked(w, r, song);
  }

  lemma RemovalsSpare(w: World, r: nat, gone: set<nat>, deleteEmpty: bool, v: Version, song: nat)
    requires Outside(w, r, song)
    ensures SameRow(w, RemoveTracks(w, r, gone, deleteEmpty, v), song) && SameRow(w, AdminRemoveTracks(w, r, gone, v), song)
  {
    hide Stuck, LinkOf, NoActiveTrack, Without, Renumbered, LeftLinks, LinkedElsewhere, DropIfEmpty, Current;
    DropIfEmptySongs(Unlink(w, r, gone), w.releases[r].album);
    AdminRemoveKeepsSongs(w, r, gone, v);
  }

  // Deletions.

  lemma DeletionsSpare(w: World, r: nat, v: Version, song: nat)
    requires Outside(w, r, song)
    ensures SameRow(w, ArtistDelete(w, r, v), song) && SameRow(w, AdminDelete(w, r), song)
  {
    hide Stuck, DropIfEmpty, Renumbered, Without, LinkedElsewhere, Removable, Current;
    hide Detached;
    DetachedSpares(w, r, song);
    DropIfEmptySongs(EraseRelease(Detached(w, r), r), w.releases[r].album);
    var gone := set s | s in w.songs && LinkOf(w.releases[r].links, s).Some? && !LinkedElsewhere(w, r, s);
    DropIfEmptySongs(EraseRelease(EraseSongs(w, gone), r), w.releases[r].album);
  }

  lemma DetachedSpares(w: World, r: nat, song: nat)
    requires Outside(w, r, song)
    ensures SameRow(w, Detached(w, r), song)
  {
    hide LinkedElsewhere, MustPreserve;
  }

  lemma DeleteSongSpares(w: World, deleted: nat, hard: bool, song: nat)
    requires song != deleted
    ensures SameRow(w, DeleteSong(w, deleted, hard), song)
  {
    hide Stuck, LinkOf, TakenDownIfEmpty, Renumbered, Without;
  }

  lemma CloneSpares(w: World, source: nat, song: nat)
    requires song < w.nextSong
    ensures SameRow(w, Clone(w, source), song)
  {
    if source in w.releases {
      CopiesAreDrafts(w.songs, w.releases[source].links, w.nextSong);
      hide Copies;
    }
  }

  // Every event.

  /** The songs a request names besides the tracks of its release. */
  predicate Names(e: Event, song: nat) {
    match e
    case AddEvent(_, ids, _, _) => song in ids
    case DeleteSongEvent(s, _) => s == song
    case EditUnlinkedEvent(s, _) => s == song
    case _ => false
  }

  /** A request changes no recording but the tracks of its release and those it names: every other one,
      on a tracklist or not, stays exactly as it was. */
  lemma OutsidersStay(w: World, e: Event, song: nat)
    requires song in w.songs && song < w.nextSong && !Names(e, song)
    requires Subject(e).Some? ==> !Linked(w, Subject(e).value, song)
    ensures song in Step(w, e).songs && Step(w, e).songs[song] == w.songs[song]
  {
    hide Add, Upload, Reorder, RemoveTracks, AdminRemoveTracks, ArtistPatch, AdminPatch, Artwork, Submit, Act, SetFromAdmin,
      ArtistDelete, AdminDelete, Create, Clone, DeleteSong, EditUnlinked, NewAlbum, LinkOf, MarkForReview, Materialize, SyncArtwork,
      Synchronize, ChangeStatus, Current;
    if Subject(e).Some? && Subject(e).value !in w.releases {
      UnknownReleaseChangesNothing(w, e);
    } else {
      assert Subject(e).Some? ==> Outside(w, Subject(e).value, song);
      match e
      case CreateEvent(artist, kind) => CataloguingSpares(w, artist, kind, 0, w.songs[song], song);
      case CloneEvent(r) => CloneSpares(w, r, song);
      case AddEvent(r, ids, admin, v) => AddSpares(w, r, ids, admin, v, song);
      case UploadEvent(r, v) => UploadSpares(w, r, v, song);
      case ReorderEvent(r, ids, admin, v) => ReorderSpares(w, r, ids, admin, v, song);
      case RemoveEvent(r, songs, deleteEmpty, v) => RemovalsSpare(w, r, songs, deleteEmpty, v, song);
      case AdminRemoveEvent(r, songs, v) => RemovalsSpare(w, r, songs, false, v, song);
      case ArtistPatchEvent(r, kind, marks, v) => PatchesSpare(w, r, false, kind, marks, v, song);
      case AdminPatchEvent(r, content, kind, marks, v) => PatchesSpare(w, r, content, kind, marks, v, song);
      case ReopenForEditEvent(r, _, _) => ReviewSpares(w, r, song);
      case ArtworkEvent(r, url, confirmed, admin, v) => ArtworkSpares(w, r, url, confirmed, admin, v, song);
      case ValidateEvent(r, _) => SyncSpares(w, r, 0, song);
      case SubmitEvent(r, otherwise, v) => SubmitSpares(w, r, otherwise, v, song);
      case ActEvent(r, action, barred, otherwise, v) => ActSpares(w, r, action, barred, otherwise, v, song);
      case SetFromAdminEvent(r, target, otherwise, dated, now) => SetFromAdminSpares(w, r, target, otherwise, dated, now, song);
      case SynchronizeEvent(r) => SynchronizeSpares(w, r, song);
      case PublishDueEvent(r, _) => PublishSpares(w, r, song);
      case ArtistDeleteEvent(r, v) => DeletionsSpare(w, r, v, song);
      case AdminDeleteEvent(r) => DeletionsSpare(w, r, Unstated, song);
      case DeleteSongEvent(deleted, hard) => DeleteSongSpares(w, deleted, hard, song);
      case EditUnlinkedEvent(id, row) => CataloguingSpares(w, 0, EP, id, row, song);
      case NewAlbumEvent => CataloguingSpares(w, 0, EP, song + 1, w.songs[song], song);
    }
  }

  lemma CataloguingSpares(w: World, artist: nat, kind: Kind, id: nat, row: Song, song: nat)
    ensures SameRow(w, Create(w, artist, kind), song) && SameRow(w, NewAlbum(w), song)
    ensures id != song ==> SameRow(w, EditUnlinked(w, id, row), song)
  {
    hide LinkOf;
  }

  lemma UnknownReleaseChangesNothing(w: World, e: Event)
    requires Subject(e).Some? && Subject(e).value !in w.releases
    ensures Step(w, e) == w
  {
  }
}
