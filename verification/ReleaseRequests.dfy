/** The requests and jobs that act on releases, each one transaction. A refused request leaves what
    was already written before the refusal, which is nothing or the synchronized artwork. */
module ReleaseRequests {
  import opened Options
  import opened Sequences
  import opened Releases
  import opened TrackPositions

  /** The `lock_version` a client sends. */
  datatype Version = Unstated | Stated(n: int) | BadVersion

  predicate Current(release: Release, v: Version) {
    v.Unstated? || v == Stated(release.lockVersion)
  }

  predicate SizeFits(kind: Kind, n: nat) {
    n <= 100 && match kind
      case Single => n == 1
      case EP => 2 <= n <= 7
      case _ => n >= 2
  }

  /** The verdict of `validation_payload`, with everything it checks beyond these as `otherwise`. */
  predicate Valid(w: World, r: nat, otherwise: bool)
    requires r in w.releases
  {
    var release := w.releases[r];
    && otherwise && release.cover != 0 && SizeFits(release.kind, |release.links|)
    && forall i :: 0 <= i < |release.links| ==> !IsDeleted(w, release.links[i].song)
  }

  // Creating.

  /** Both create views start the history with a row that has no from-status. */
  function Create(w: World, artist: nat, kind: Kind): World {
    w.(releases := w.releases[w.nextRelease :=
         Release(artist, kind, Draft, [], None, 0, 1, false, None, [Row(None, Draft)])],
       nextRelease := w.nextRelease + 1)
  }

  /** `duplicate_song`: a draft off every album. */
  function Duplicate(songs: map<nat, Song>, song: nat): Song {
    if song in songs then songs[song].(status := SongDraft, album := None, isSingle := false, accounting := false)
    else Song(0, SongDraft, None, false, 0, 0, false)
  }

  /** One copy per track, with consecutive ids. */
  function Copies(songs: map<nat, Song>, links: seq<Link>, first: nat): map<nat, Song> {
    if links == [] then map[]
    else Copies(songs, links[..|links| - 1], first)[first + |links| - 1 := Duplicate(songs, links[|links| - 1].song)]
  }

  function CopiedLinks(links: seq<Link>, first: nat): seq<Link> {
    seq(|links|, i requires 0 <= i < |links| => Link(first + i, Some(links[i].song), links[i].position, links[i].inherits))
  }

  /** `create_revision`: a draft of copies; no history row is written. */
  function Clone(w: World, r: nat): World {
    if r !in w.releases then w
    else
      var source := w.releases[r];
      var n := |source.links|;
      w.(songs := w.songs + Copies(w.songs, source.links, w.nextSong),
         releases := w.releases[w.nextRelease :=
           Release(source.artist, source.kind, Draft,
                   CopiedLinks(source.links, w.nextSong),
                   None, source.cover, 1, false, None, [])],
         nextSong := w.nextSong + n,
         nextRelease := w.nextRelease + 1)
  }

  // Adding tracks.

  /** `ensure_editable_song` uses the song itself only when this holds. */
  predicate Editable(w: World, r: nat, song: nat) {
    song in w.songs && w.songs[song].status == SongDraft && w.songs[song].album.None? && !LinkedElsewhere(w, r, song)
  }

  /** A song row is written and linked as the last track. */
  function Append(w: World, r: nat, id: nat, song: Song, source: Option<nat>, nextSong: nat): (now: World)
    requires r in w.releases
    ensures r in now.releases
  {
    var release := w.releases[r];
    w.(songs := w.songs[id := song],
       nextSong := nextSong,
       releases := w.releases[r := release.(links := release.links + [Link(id, source, |release.links| + 1, false)])])
  }

  /** One new track at the end: the song or a copy, made pending when the release is in review. */
  function AddOne(w: World, r: nat, song: nat): (now: World)
    requires r in w.releases
    ensures r in now.releases
  {
    var own := Editable(w, r, song);
    var added := if own then w.songs[song] else Duplicate(w.songs, song);
    Append(w, r, if own then song else w.nextSong,
           if w.releases[r].status == InReview then added.(status := Pending) else added,
           if own then None else Some(song),
           if own then w.nextSong else w.nextSong + 1)
  }

  function AddAll(w: World, r: nat, songs: seq<nat>): (now: World)
    requires r in w.releases
    ensures r in now.releases
  {
    if songs == [] then w
    else AddOne(AddAll(w, r, songs[..|songs| - 1]), r, songs[|songs| - 1])
  }

  function Candidates(links: seq<Link>, ids: seq<nat>): seq<nat> {
    if ids == [] then []
    else
      var last := ids[|ids| - 1];
      Candidates(links, ids[..|ids| - 1]) +
      if LinkOf(links, last).Some? || (exists i :: 0 <= i < |links| && links[i].source == Some(last)) then [] else [last]
  }

  /** The admin view also limits singles and EPs. */
  predicate WithinLimit(kind: Kind, n: nat, admin: bool) {
    n <= 100 && (admin ==> (kind == Single ==> n <= 1) && (kind == EP ==> n <= 7))
  }

  function Add(w: World, r: nat, ids: seq<nat>, admin: bool, v: Version): World {
    if r !in w.releases || !Current(w.releases[r], v) then w
    else
      var release := w.releases[r];
      var unique := Dedupe(ids);
      var chosen := Candidates(release.links, unique);
      if release.status != Draft && (admin || release.status != InReview) then w
      else if unique == [] then w
      else if exists i :: 0 <= i < |unique| &&
                (unique[i] !in w.songs || w.songs[unique[i]].artist != release.artist || IsDeleted(w, unique[i])) then w
      else if !WithinLimit(release.kind, |release.links| + |chosen|, admin) then w
      else if chosen == [] then w
      else Touch(SyncTracks(AddAll(w, r, chosen), r), r)
  }

  function ActiveCount(w: World, links: seq<Link>): nat {
    if links == [] then 0
    else ActiveCount(w, links[..|links| - 1]) + if IsDeleted(w, links[|links| - 1].song) then 0 else 1
  }

  /** A new recording added to a draft. */
  function UploadOne(w: World, r: nat): (now: World)
    requires r in w.releases
    ensures r in now.releases
  {
    var release := w.releases[r];
    Append(w, r, w.nextSong, Song(release.artist, SongDraft, None, false, |release.links| + 1, 0, false), None, w.nextSong + 1)
  }

  function Upload(w: World, r: nat, v: Version): World {
    if r !in w.releases || w.releases[r].status != Draft || !Current(w.releases[r], v) then w
    else
      var release := w.releases[r];
      var active := ActiveCount(w, release.links);
      if (release.kind == Single && active >= 1) || (release.kind == EP && active >= 7) || active >= 100 then w
      else Touch(SyncTracks(UploadOne(w, r), r), r)
  }

  // Ordering and removing tracks.

  function SongsIn(links: seq<Link>): seq<nat> {
    seq(|links|, i requires 0 <= i < |links| => links[i].song)
  }

  function PositionsIn(links: seq<Link>): Positions {
    map s | s in (set i | 0 <= i < |links| :: links[i].song) :: if LinkOf(links, s).Some? then LinkOf(links, s).value.position else 0
  }

  /** The links in the requested order. */
  function Ordered(links: seq<Link>, order: seq<nat>): seq<Link>
    requires forall k :: 0 <= k < |order| ==> LinkOf(links, order[k]).Some?
  {
    seq(|order|, k requires 0 <= k < |order| => LinkOf(links, order[k]).value.(position := k + 1))
  }

  function WithLinks(w: World, r: nat, links: seq<Link>): (now: World)
    requires r in w.releases
    ensures r in now.releases
  {
    w.(releases := w.releases[r := w.releases[r].(links := links)])
  }

  ghost function Reorder(w: World, r: nat, ids: seq<nat>, admin: bool, v: Version): World {
    if r !in w.releases || !Current(w.releases[r], v) then w
    else
      var release, order := w.releases[r], Dedupe(ids);
      if release.status != Draft && (admin || release.status != InReview) then w
      else if |order| != |release.links| || (exists k :: 0 <= k < |order| && LinkOf(release.links, order[k]).None?) then w
      else if Collides(PositionsIn(release.links), order, ARTIST_OFFSET, false) then w
      else Touch(SyncTracks(WithLinks(w, r, Ordered(release.links, order)), r), r)
  }

  function Without(links: seq<Link>, gone: set<nat>): seq<Link> {
    if links == [] then []
    else
      var last := links[|links| - 1];
      Without(links[..|links| - 1], gone) + if last.song in gone then [] else [last]
  }

  function Renumbered(links: seq<Link>): seq<Link> {
    seq(|links|, i requires 0 <= i < |links| => links[i].(position := i + 1))
  }

  /** The renumbering loop would be refused by the database. */
  ghost predicate Stuck(links: seq<Link>, offset: nat) {
    Collides(PositionsIn(links), SongsIn(links), offset, true)
  }

  function SetTakenDown(release: Release): Release {
    if release.status == TakenDown then release else Recorded(release, TakenDown)
  }

  /** The removed songs leave the release's album, and in a draft become drafts if nothing links them. */
  function Released(w: World, r: nat, gone: set<nat>): map<nat, Song>
    requires r in w.releases
  {
    var release := w.releases[r];
    map s | s in w.songs ::
      if s !in gone || LinkOf(release.links, s).None? then w.songs[s]
      else
        var song := if release.album.Some? && w.songs[s].album == release.album then w.songs[s].(album := None, isSingle := true)
                    else w.songs[s];
        if release.status == Draft && song.status != Deleted && !LinkedElsewhere(w, r, s) then song.(status := SongDraft) else song
  }

  predicate AlbumIsEmpty(w: World, album: nat) {
    forall s :: s in w.songs ==> w.songs[s].album != Some(album)
  }

  function DropIfEmpty(w: World, album: Option<nat>): (now: World)
    ensures now.releases.Keys == w.releases.Keys
  {
    if album.Some? && AlbumIsEmpty(w, album.value) then DropAlbum(w, album.value) else w
  }

  function EraseRelease(w: World, r: nat): World {
    w.(releases := w.releases - {r})
  }

  /** The tracklist after a removal: renumbered when something was removed. */
  function LeftLinks(links: seq<Link>, gone: set<nat>): seq<Link> {
    var left := Without(links, gone);
    if |left| < |links| then Renumbered(left) else left
  }

  function TakeDownRow(w: World, r: nat): World
    requires r in w.releases
  {
    w.(releases := w.releases[r := SetTakenDown(w.releases[r])])
  }

  /** What a removal does about a release without active tracks. */
  function FinishRemoval(w: World, r: nat, deleteEmpty: bool): World
    requires r in w.releases
  {
    var release := w.releases[r];
    var empty := NoActiveTrack(w.songs, release.links);
    if empty && deleteEmpty && release.status == Draft && release.kind == FullAlbum then EraseRelease(w, r)
    else if empty && release.status != Draft then TakeDownRow(w, r)
    else Touch(w, r)
  }

  function Unlink(w: World, r: nat, gone: set<nat>): (now: World)
    requires r in w.releases
    ensures r in now.releases
  {
    WithLinks(w.(songs := Released(w, r, gone)), r, LeftLinks(w.releases[r].links, gone))
  }

  /** The removal endpoint of the artist. */
  ghost function RemoveTracks(w: World, r: nat, gone: set<nat>, deleteEmpty: bool, v: Version): World {
    if r !in w.releases || gone == {} || !Current(w.releases[r], v) then w
    else
      var left := Without(w.releases[r].links, gone);
      if |left| < |w.releases[r].links| && Stuck(left, ARTIST_OFFSET) then w
      else FinishRemoval(DropIfEmpty(Unlink(w, r, gone), w.releases[r].album), r, deleteEmpty)
  }

  /** The removal endpoint of the admin: drafts only, and the songs are left as they are. */
  ghost function AdminRemoveTracks(w: World, r: nat, gone: set<nat>, v: Version): World {
    if r !in w.releases || gone == {} || w.releases[r].status != Draft || !Current(w.releases[r], v) then w
    else
      var left := Without(w.releases[r].links, gone);
      if |left| == |w.releases[r].links| || Stuck(left, ARTIST_OFFSET) then w
      else Touch(WithLinks(w, r, Renumbered(left)), r)
  }

  // Editing.

  function Marked(links: seq<Link>, marks: map<nat, bool>): seq<Link> {
    seq(|links|, i requires 0 <= i < |links| =>
      if links[i].song in marks then links[i].(inherits := marks[links[i].song]) else links[i])
  }

  function Edited(release: Release, kind: Option<Kind>, marks: map<nat, bool>, cover: Option<nat>): Release {
    release.(kind := kind.GetOr(release.kind), links := Marked(release.links, marks), cover := cover.GetOr(release.cover),
             lockVersion := release.lockVersion + 1)
  }

  function PendingIf(w: World, r: nat, statuses: set<Status>): (now: World)
    requires r in w.releases
    ensures r in now.releases
  {
    if w.releases[r].status in statuses then WithStatus(w, r, Pending) else w
  }

  /** The artist's patch; `reopen_for_edit` is a request of its own. */
  function ArtistPatch(w: World, r: nat, kind: Option<Kind>, marks: map<nat, bool>, v: Version): World {
    if r !in w.releases || !Current(w.releases[r], v) || w.releases[r].status !in {Draft, InReview} then w
    else PendingIf(SyncTracks(w.(releases := w.releases[r := Edited(w.releases[r], kind, marks, None)]), r), r, {InReview})
  }

  /** The admin's patch; notes alone may be edited in any status. */
  function AdminPatch(w: World, r: nat, content: bool, kind: Option<Kind>, marks: map<nat, bool>, v: Version): World {
    if r !in w.releases || !Current(w.releases[r], v) then w
    else if content && w.releases[r].status !in {Draft, InReview, ChangesRequested, Approved} then w
    else
      var edited := if content then Edited(w.releases[r], kind, marks, None) else Edited(w.releases[r], None, map[], None);
      PendingIf(SyncTracks(w.(releases := w.releases[r := edited]), r), r, {InReview, ChangesRequested})
  }

  function ReopenForEdit(w: World, r: nat, confirmed: bool, v: Version): World {
    if r !in w.releases || !Current(w.releases[r], v) || w.releases[r].status in {Draft, InReview} || !confirmed then w
    else MarkForReview(w, r)
  }

  /** New artwork; only the artist may change it after review has started, which restarts review. */
  function Artwork(w: World, r: nat, url: nat, confirmed: bool, admin: bool, v: Version): World {
    if r !in w.releases || url == 0 || !Current(w.releases[r], v) then w
    else if admin && w.releases[r].status != Draft then w
    else if w.releases[r].status !in {Draft, InReview} && !confirmed then w
    else
      var reviewed := if w.releases[r].status in {Draft, InReview} then w else MarkForReview(w, r);
      var previous := reviewed.releases[r].cover;
      var painted := SyncArtwork(reviewed.(releases := reviewed.releases[r := Edited(reviewed.releases[r], None, map[], Some(url))]), r, previous);
      if admin then painted else PendingIf(painted, r, {InReview})
  }

  // Moving through the lifecycle.

  function SubmitSongs(w: World, r: nat): (now: World)
    requires r in w.releases
    ensures r in now.releases
  {
    w.(songs := map s | s in w.songs ::
         if LinkOf(w.releases[r].links, s).Some? && w.songs[s].status != Deleted
         then w.songs[s].(status := Pending, isSingle := w.releases[r].kind == Single) else w.songs[s])
  }

  /** A submission that fails validation has already synchronized the artwork. */
  function Submit(w: World, r: nat, otherwise: bool, v: Version): World {
    if r !in w.releases || w.releases[r].status != Draft || !Current(w.releases[r], v) then w
    else
      var synced := SyncTracks(w, r);
      if !Valid(synced, r, otherwise) then synced else ChangeStatus(SubmitSongs(synced, r), r, InReview)
  }

  datatype Action =
    | DoRequestChanges
    | DoReject
    | DoApprove
    | DoSchedule(requested: Option<nat>, dated: Option<nat>, now: nat)
    | DoPublish
    | DoTakeDown
    | DoReopen
    | DoReturn

  function Allowed(action: Action): set<Status> {
    match action
    case DoRequestChanges => {InReview}
    case DoReject => {InReview, ChangesRequested}
    case DoApprove => {InReview}
    case DoSchedule(_, _, _) => {Draft, InReview, Approved}
    case DoPublish => {Draft, InReview, Approved, Scheduled, TakenDown}
    case DoTakeDown => {Live}
    case DoReopen => {ChangesRequested, Rejected, TakenDown}
    case DoReturn => {ChangesRequested, Rejected, Approved}
  }

  /** Nothing to restore: no track, or a deleted one. */
  predicate Unrestorable(w: World, r: nat)
    requires r in w.releases
  {
    w.releases[r].links == [] || exists i :: 0 <= i < |w.releases[r].links| && IsDeleted(w, w.releases[r].links[i].song)
  }

  /** `barred` is what the removal notes add: the artist or an admin deletion took the release down. */
  predicate Blocked(w: World, r: nat, action: Action, barred: bool)
    requires r in w.releases
  {
    || (barred && (action.DoPublish? || action.DoSchedule? || action.DoReopen? || action.DoReturn?))
    || (w.releases[r].status == TakenDown && (action.DoPublish? || action.DoReopen?) && Unrestorable(w, r))
    || (action.DoSchedule? && action.requested.Some? && action.requested.value <= action.now)
  }

  /** `AdminReleaseActionView.post`. */
  function Act(w: World, r: nat, action: Action, barred: bool, otherwise: bool, v: Version): World {
    if r !in w.releases || !Current(w.releases[r], v) || w.releases[r].status !in Allowed(action) then w
    else if Blocked(w, r, action, barred) then w
    else
      match action
      case DoRequestChanges => ChangeStatus(w, r, ChangesRequested)
      case DoReject => ChangeStatus(WithStatus(w, r, SongRejected), r, Rejected)
      case DoTakeDown => ChangeStatus(TakeDown(w, r), r, TakenDown)
      case DoReopen => ChangeStatus(SetSchedule(WithStatus(w, r, SongDraft), r, None), r, Draft)
      case DoReturn => ChangeStatus(WithStatus(w, r, Pending), r, InReview)
      case _ =>
        var synced := SyncTracks(w, r);
        if !Valid(synced, r, otherwise) then synced else Promote(synced, r, action)
  }

  /** Approving, scheduling or publishing a valid release. */
  function Promote(w: World, r: nat, action: Action): World
    requires r in w.releases && (action.DoApprove? || action.DoSchedule? || action.DoPublish?)
  {
    match action
    case DoApprove => Approve(w, r)
    case DoPublish => ChangeStatus(Materialize(w, r), r, Live)
    case DoSchedule(requested, dated, now) =>
      var at := if requested.Some? then requested else dated;
      if at.None? || at.value <= now then w
      else ChangeStatus(SetSchedule(Prepare(w, r, None), r, at), r, Scheduled)
  }

  /** The branches of `set_release_status_from_admin`; nothing when the schedule is not in the future. */
  function AppliedFromAdmin(w: World, r: nat, target: Status, dated: Option<nat>, now: nat): Option<World>
    requires r in w.releases
  {
    match target
    case Draft =>
      var hidden := if w.releases[r].status == Live then TakeDown(w, r) else w;
      Some(ChangeStatus(SetSchedule(WithStatus(hidden, r, SongDraft), r, None), r, Draft))
    case InReview => Some(MarkForReview(w, r))
    case ChangesRequested => Some(ChangeStatus(WithStatus(w, r, Pending), r, ChangesRequested))
    case Rejected => Some(ChangeStatus(WithStatus(w, r, SongRejected), r, Rejected))
    case Approved => Some(Approve(w, r))
    case Scheduled =>
      if dated.None? || dated.value <= now then None else Some(ChangeStatus(Prepare(w, r, dated), r, Scheduled))
    case Live => Some(ChangeStatus(Materialize(w, r), r, Live))
    case TakenDown =>
      if w.releases[r].status == Live then Some(ChangeStatus(TakeDown(w, r), r, TakenDown))
      else Some(ChangeStatus(WithStatus(w, r, SongApproved), r, TakenDown))
  }

  /** `set_release_status_from_admin`; an error rolls the transaction back. */
  function SetFromAdmin(w: World, r: nat, target: Status, otherwise: bool, dated: Option<nat>, now: nat): World {
    if r !in w.releases then w
    else
      var synced := SyncTracks(w, r);
      if target in {Approved, Scheduled, Live} && !Valid(synced, r, otherwise) then w
      else AppliedFromAdmin(synced, r, target, dated, now).GetOr(w)
  }

  function Resynchronize(w: World, r: nat): World {
    if r in w.releases then Synchronize(w, r) else w
  }

  /** One release of `publish_due_releases`. */
  function PublishDue(w: World, r: nat, now: nat): World {
    if r !in w.releases || w.releases[r].status != Scheduled then w
    else if w.releases[r].scheduledAt.None? || w.releases[r].scheduledAt.value > now then w
    else ChangeStatus(Materialize(w, r), r, Live)
  }

  // Deleting.

  /** What the artist may not erase for good. */
  predicate MustPreserve(w: World, release: Release, song: nat) {
    song in w.songs && (release.status != Draft || w.songs[song].status in {Published, Deleted} || w.songs[song].accounting)
  }

  function PreservedSongs(w: World, r: nat): set<nat>
    requires r in w.releases
  {
    set s | s in w.songs && LinkOf(w.releases[r].links, s).Some? && !LinkedElsewhere(w, r, s) && MustPreserve(w, w.releases[r], s)
  }

  /** The songs that go with the release. */
  function ErasedSongs(w: World, r: nat): set<nat>
    requires r in w.releases
  {
    set s | s in w.songs && LinkOf(w.releases[r].links, s).Some? && !LinkedElsewhere(w, r, s) && !MustPreserve(w, w.releases[r], s)
  }

  /** Source references to erased rows stay behind here: ids are not reused, so they match nothing. */
  function EraseSongs(w: World, gone: set<nat>): World {
    w.(songs := w.songs - gone)
  }

  /** Shared songs leave the release's album; preserved ones are marked deleted. */
  function DetachedSongs(w: World, r: nat): map<nat, Song>
    requires r in w.releases
  {
    var release := w.releases[r];
    map s | s in w.songs ::
      if s in PreservedSongs(w, r) then w.songs[s].(status := Deleted)
      else if LinkOf(release.links, s).Some? && LinkedElsewhere(w, r, s) && release.album.Some? && w.songs[s].album == release.album
      then w.songs[s].(album := None, isSingle := true)
      else w.songs[s]
  }

  /** The tracks that do not stay. */
  function Removable(w: World, r: nat): set<nat>
    requires r in w.releases
  {
    set s | s in w.songs && LinkOf(w.releases[r].links, s).Some? && s !in PreservedSongs(w, r)
  }

  /** The song rows after an artist's delete. */
  function Detached(w: World, r: nat): World
    requires r in w.releases
  {
    EraseSongs(w.(songs := DetachedSongs(w, r)), ErasedSongs(w, r))
  }

  /** The artist's delete: the release is taken down while it holds preserved recordings. */
  ghost function ArtistDelete(w: World, r: nat, v: Version): World {
    if r !in w.releases || !Current(w.releases[r], v) then w
    else
      var left := Without(w.releases[r].links, Removable(w, r));
      if left == [] then DropIfEmpty(EraseRelease(Detached(w, r), r), w.releases[r].album)
      else if Stuck(left, ARTIST_OFFSET) then w
      else TakeDownRow(WithLinks(Detached(w, r), r, Renumbered(left)), r)
  }

  /** The admin's delete: the release and every recording it does not share. */
  function AdminDelete(w: World, r: nat): World {
    if r !in w.releases then w
    else
      var gone := set s | s in w.songs && LinkOf(w.releases[r].links, s).Some? && !LinkedElsewhere(w, r, s);
      DropIfEmpty(EraseRelease(EraseSongs(w, gone), r), w.releases[r].album)
  }

  /** `_take_down_empty_admin_releases` on one release. */
  function TakenDownIfEmpty(songs: map<nat, Song>, release: Release): Release {
    if !NoActiveTrack(songs, release.links) || release.status in {Draft, TakenDown} then release
    else Recorded(release, TakenDown)
  }

  /** The admin's song delete, soft or hard, with what it does to the releases that carried the song. */
  ghost function DeleteSong(w: World, song: nat, hard: bool): World {
    if song !in w.songs then w
    else if !hard then
      var songs := w.songs[song := w.songs[song].(status := Deleted)];
      w.(songs := songs,
         releases := map q | q in w.releases ::
           if LinkOf(w.releases[q].links, song).Some? then TakenDownIfEmpty(songs, w.releases[q]) else w.releases[q])
    else if exists q :: q in w.releases && LinkOf(w.releases[q].links, song).Some?
                        && Stuck(Without(w.releases[q].links, {song}), ADMIN_OFFSET) then w
    else
      EraseSongs(w.(releases := map q | q in w.releases ::
        if LinkOf(w.releases[q].links, song).Some?
        then TakenDownIfEmpty(w.songs, w.releases[q].(links := Renumbered(Without(w.releases[q].links, {song}))))
        else w.releases[q]), {song})
  }

  // The rest of the catalogue.

  /** A recording on no tracklist is created or changed by some other part of the system; it may be
      put on any album, also on one a release published. */
  function EditUnlinked(w: World, id: nat, song: Song): World {
    if (id !in w.songs && id != w.nextSong) || (exists q :: q in w.releases && LinkOf(w.releases[q].links, id).Some?) then w
    else if song.album.Some? && song.album.value !in w.albums then w
    else w.(songs := w.songs[id := song], nextSong := if id == w.nextSong then id + 1 else w.nextSong)
  }

  function NewAlbum(w: World): World {
    w.(albums := w.albums + {w.nextAlbum}, nextAlbum := w.nextAlbum + 1)
  }

  datatype Event =
    | CreateEvent(artist: nat, kind: Kind)
    | CloneEvent(release: nat)
    | AddEvent(release: nat, ids: seq<nat>, admin: bool, version: Version)
    | UploadEvent(release: nat, version: Version)
    | ReorderEvent(release: nat, ids: seq<nat>, admin: bool, version: Version)
    | RemoveEvent(release: nat, songs: set<nat>, deleteEmpty: bool, version: Version)
    | AdminRemoveEvent(release: nat, songs: set<nat>, version: Version)
    | ArtistPatchEvent(release: nat, newKind: Option<Kind>, marks: map<nat, bool>, version: Version)
    | AdminPatchEvent(release: nat, content: bool, newKind: Option<Kind>, marks: map<nat, bool>, version: Version)
    | ReopenForEditEvent(release: nat, confirmed: bool, version: Version)
    | ArtworkEvent(release: nat, url: nat, confirmed: bool, admin: bool, version: Version)
    | ValidateEvent(release: nat, version: Version)
    | SubmitEvent(release: nat, otherwise: bool, version: Version)
    | ActEvent(release: nat, action: Action, barred: bool, otherwise: bool, version: Version)
    | SetFromAdminEvent(release: nat, target: Status, otherwise: bool, dated: Option<nat>, now: nat)
    | SynchronizeEvent(release: nat)
    | PublishDueEvent(release: nat, now: nat)
    | ArtistDeleteEvent(release: nat, version: Version)
    | AdminDeleteEvent(release: nat)
    | DeleteSongEvent(song: nat, hard: bool)
    | EditUnlinkedEvent(song: nat, row: Song)
    | NewAlbumEvent

  function Validate(w: World, r: nat, v: Version): World {
    if r !in w.releases || !Current(w.releases[r], v) then w else SyncTracks(w, r)
  }

  ghost function Step(w: World, e: Event): World {
    match e
    case CreateEvent(artist, kind) => Create(w, artist, kind)
    case CloneEvent(r) => Clone(w, r)
    case AddEvent(r, ids, admin, v) => Add(w, r, ids, admin, v)
    case UploadEvent(r, v) => Upload(w, r, v)
    case ReorderEvent(r, ids, admin, v) => Reorder(w, r, ids, admin, v)
    case RemoveEvent(r, songs, deleteEmpty, v) => RemoveTracks(w, r, songs, deleteEmpty, v)
    case AdminRemoveEvent(r, songs, v) => AdminRemoveTracks(w, r, songs, v)
    case ArtistPatchEvent(r, kind, marks, v) => ArtistPatch(w, r, kind, marks, v)
    case AdminPatchEvent(r, content, kind, marks, v) => AdminPatch(w, r, content, kind, marks, v)
    case ReopenForEditEvent(r, confirmed, v) => ReopenForEdit(w, r, confirmed, v)
    case ArtworkEvent(r, url, confirmed, admin, v) => Artwork(w, r, url, confirmed, admin, v)
    case ValidateEvent(r, v) => Validate(w, r, v)
    case SubmitEvent(r, otherwise, v) => Submit(w, r, otherwise, v)
    case ActEvent(r, action, barred, otherwise, v) => Act(w, r, action, barred, otherwise, v)
    case SetFromAdminEvent(r, target, otherwise, dated, now) => SetFromAdmin(w, r, target, otherwise, dated, now)
    case SynchronizeEvent(r) => Resynchronize(w, r)
    case PublishDueEvent(r, now) => PublishDue(w, r, now)
    case ArtistDeleteEvent(r, v) => ArtistDelete(w, r, v)
    case AdminDeleteEvent(r) => AdminDelete(w, r)
    case DeleteSongEvent(s, hard) => DeleteSong(w, s, hard)
    case EditUnlinkedEvent(s, row) => EditUnlinked(w, s, row)
    case NewAlbumEvent => NewAlbum(w)
  }
}
