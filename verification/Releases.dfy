/** Release workspaces, their tracklists, and the songs and albums they publish. */
module Releases {
  import opened Options

  datatype SongStatus = SongDraft | Pending | SongApproved | SongRejected | Published | Deleted

  datatype Status = Draft | InReview | ChangesRequested | Approved | Scheduled | Live | Rejected | TakenDown

  datatype Kind = Single | EP | FullAlbum | Compilation

  /** A recording; cover 0 means it has none, `accounting` that it has been played. */
  datatype Song = Song(artist: nat, status: SongStatus, album: Option<nat>, isSingle: bool, trackNumber: nat,
                       cover: nat, accounting: bool)

  /** A track of a release; `inherits` is the stored mark that its cover came from the release. */
  datatype Link = Link(song: nat, source: Option<nat>, position: nat, inherits: bool)

  /** A status history row; the first row of a created release has no from-status. */
  datatype Row = Row(from: Option<Status>, to: Status)

  /** Links are kept in position order; `published` says that it has been live before. */
  datatype Release = Release(artist: nat, kind: Kind, status: Status, links: seq<Link>, album: Option<nat>, cover: nat,
                             lockVersion: nat, published: bool, scheduledAt: Option<nat>, history: seq<Row>)

  datatype World = World(songs: map<nat, Song>, albums: set<nat>, releases: map<nat, Release>,
                         nextSong: nat, nextAlbum: nat, nextRelease: nat)

  // Tracks.

  /** The link of a song, if the song is on the tracklist. */
  function LinkOf(links: seq<Link>, song: nat): Option<Link> {
    if links == [] then None
    else if links[|links| - 1].song == song then Some(links[|links| - 1])
    else LinkOf(links[..|links| - 1], song)
  }

  predicate Linked(w: World, r: nat, song: nat) {
    r in w.releases && LinkOf(w.releases[r].links, song).Some?
  }

  predicate LinkedElsewhere(w: World, r: nat, song: nat) {
    exists q :: q in w.releases && q != r && LinkOf(w.releases[q].links, song).Some?
  }

  predicate IsDeleted(w: World, song: nat) {
    song in w.songs && w.songs[song].status == Deleted
  }

  /** The tracklist has no song that is not deleted. */
  predicate NoActiveTrack(songs: map<nat, Song>, links: seq<Link>) {
    forall i :: 0 <= i < |links| ==> links[i].song in songs && songs[links[i].song].status == Deleted
  }

  // Statuses.

  /** The song status that goes with each release status. */
  function Table(status: Status): SongStatus {
    match status
    case Live => Published
    case Approved | Scheduled | TakenDown => SongApproved
    case InReview | ChangesRequested => Pending
    case Rejected => SongRejected
    case Draft => SongDraft
  }

  /** Every linked song that is not deleted gets the status. */
  function WithStatus(w: World, r: nat, status: SongStatus): (now: World)
    requires r in w.releases
    ensures r in now.releases
  {
    w.(songs := map s | s in w.songs ::
         if LinkOf(w.releases[r].links, s).Some? && w.songs[s].status != Deleted then w.songs[s].(status := status)
         else w.songs[s])
  }

  function Recorded(release: Release, to: Status): Release {
    release.(status := to, lockVersion := release.lockVersion + 1, history := release.history + [Row(Some(release.status), to)])
  }

  function ChangeStatus(w: World, r: nat, to: Status): (now: World)
    requires r in w.releases
    ensures r in now.releases
  {
    w.(releases := w.releases[r := Recorded(w.releases[r], to)])
  }

  function Touch(w: World, r: nat): (now: World)
    requires r in w.releases
    ensures r in now.releases
  {
    w.(releases := w.releases[r := w.releases[r].(lockVersion := w.releases[r].lockVersion + 1)])
  }

  // Artwork.

  predicate Inherits(release: Release, link: Link, song: Song, previousCover: nat) {
    || release.kind == Single
    || link.inherits
    || song.cover == 0
    || (previousCover != 0 && song.cover == previousCover)
  }

  function InheritingLinks(songs: map<nat, Song>, release: Release, previousCover: nat): (links: seq<Link>)
    ensures |links| == |release.links|
  {
    seq(|release.links|, i requires 0 <= i < |release.links| =>
      var link := release.links[i];
      if link.song in songs && Inherits(release, link, songs[link.song], previousCover) then link.(inherits := true) else link)
  }

  function InheritingSongs(songs: map<nat, Song>, release: Release, previousCover: nat): map<nat, Song> {
    map s | s in songs ::
      var link := LinkOf(release.links, s);
      if link.Some? && Inherits(release, link.value, songs[s], previousCover) then songs[s].(cover := release.cover) else songs[s]
  }

  /** `sync_release_artwork`. */
  function SyncArtwork(w: World, r: nat, previousCover: nat): (now: World)
    requires r in w.releases
    ensures r in now.releases
  {
    var release := w.releases[r];
    if release.cover == 0 then w
    else w.(songs := InheritingSongs(w.songs, release, previousCover),
            releases := w.releases[r := release.(links := InheritingLinks(w.songs, release, previousCover))])
  }

  /** `sync_release_tracks`, as far as artwork goes. */
  function SyncTracks(w: World, r: nat): (now: World)
    requires r in w.releases
    ensures r in now.releases
  {
    SyncArtwork(w, r, 0)
  }

  // Albums.

  /** The album holds a song that is not on this tracklist. */
  predicate HasUnrelated(w: World, r: nat, album: nat)
    requires r in w.releases
  {
    exists s :: s in w.songs && w.songs[s].album == Some(album) && LinkOf(w.releases[r].links, s).None?
  }

  function Unlisted(album: Option<nat>, gone: nat): Option<nat> {
    if album == Some(gone) then None else album
  }

  /** Deleting an album row clears every reference to it. */
  function DropAlbum(w: World, album: nat): World {
    w.(albums := w.albums - {album},
       songs := map s | s in w.songs :: w.songs[s].(album := Unlisted(w.songs[s].album, album)),
       releases := map q | q in w.releases :: w.releases[q].(album := Unlisted(w.releases[q].album, album)))
  }

  /** A linked song as published; cover and mark are computed from the rows read before the artwork
      was synchronized. */
  function PublishedSong(stale: Release, link: Link, staleSong: Song, song: Song, album: Option<nat>): Song {
    song.(album := album, isSingle := stale.kind == Single, trackNumber := link.position, status := Published,
          cover := if stale.cover != 0 && (stale.kind == Single || staleSong.cover == 0 || link.inherits) then stale.cover
                   else staleSong.cover)
  }

  function PublishSongs(release: Release, rows: map<nat, Song>, songs: map<nat, Song>, album: Option<nat>): map<nat, Song> {
    map s | s in songs ::
      var link := LinkOf(release.links, s);
      if link.Some? && s in rows then PublishedSong(release, link.value, rows[s], songs[s], album) else songs[s]
  }

  /** The album a release keeps: its own, unless an unrelated song was put on it. */
  function OwnAlbum(w: World, r: nat): Option<nat>
    requires r in w.releases
  {
    var album := w.releases[r].album;
    if album.Some? && !HasUnrelated(w, r, album.value) then album else None
  }

  /** The marks a non-single sets again while it publishes, judged by the rows read before. */
  function MarkLinks(release: Release, rows: map<nat, Song>, links: seq<Link>): (marked: seq<Link>)
    ensures |marked| == |links|
  {
    seq(|links|, i requires 0 <= i < |links| =>
      var link := LinkOf(release.links, links[i].song);
      if release.cover != 0 && link.Some? && links[i].song in rows && (rows[links[i].song].cover == 0 || link.value.inherits)
      then links[i].(inherits := true) else links[i])
  }

  /** `materialize_release` when it publishes. */
  function Materialize(w: World, r: nat): (now: World)
    requires r in w.releases
    ensures r in now.releases
  {
    var own := OwnAlbum(w, r);
    var synced := SyncTracks(w, r);
    if w.releases[r].kind == Single then
      var dropped := if own.Some? then DropAlbum(synced, own.value) else synced;
      dropped.(songs := PublishSongs(w.releases[r], w.songs, dropped.songs, None),
               releases := dropped.releases[r := dropped.releases[r].(album := None, published := true)])
    else
      var album := own.GetOr(w.nextAlbum);
      synced.(songs := PublishSongs(w.releases[r], w.songs, synced.songs, Some(album)),
              albums := synced.albums + {album},
              nextAlbum := if own.Some? then w.nextAlbum else w.nextAlbum + 1,
              releases := synced.releases[r := synced.releases[r].(
                album := Some(album), published := true, links := MarkLinks(w.releases[r], w.songs, synced.releases[r].links))])
  }

  function ClearAlbum(w: World, r: nat): (now: World)
    requires r in w.releases
    ensures r in now.releases
  {
    w.(releases := w.releases[r := w.releases[r].(album := None)])
  }

  /** The songs of the release leave an album that others are on. */
  function LeaveAlbum(w: World, r: nat, album: nat): (now: World)
    requires r in w.releases
    ensures r in now.releases
  {
    w.(songs := map s | s in w.songs ::
         if LinkOf(w.releases[r].links, s).Some? && w.songs[s].album == Some(album)
         then w.songs[s].(album := None, isSingle := false) else w.songs[s])
  }

  /** `take_down_release`. */
  function TakeDown(w: World, r: nat): (now: World)
    requires r in w.releases
    ensures r in now.releases
  {
    var album, released := w.releases[r].album, ClearAlbum(WithStatus(w, r, SongApproved), r);
    if album.None? then released
    else if HasUnrelated(w, r, album.value) then LeaveAlbum(released, r, album.value)
    else DropAlbum(released, album.value)
  }

  // Review.

  /** A published recording that another live release also carries keeps its status. */
  predicate SharedLive(w: World, r: nat, song: nat) {
    && song in w.songs && w.songs[song].status == Published
    && exists q :: q in w.releases && q != r && w.releases[q].status == Live && LinkOf(w.releases[q].links, song).Some?
  }

  /** `mark_release_for_review` with all tracks. */
  function MarkForReview(w: World, r: nat): (now: World)
    requires r in w.releases
    ensures r in now.releases
  {
    var marked := w.(
      songs := map s | s in w.songs ::
        if LinkOf(w.releases[r].links, s).Some? && w.songs[s].status != Deleted && !SharedLive(w, r, s)
        then w.songs[s].(status := Pending) else w.songs[s],
      releases := w.releases[r := w.releases[r].(scheduledAt := None)]);
    if w.releases[r].status != InReview then ChangeStatus(marked, r, InReview) else Touch(marked, r)
  }

  function SetSchedule(w: World, r: nat, at: Option<nat>): (now: World)
    requires r in w.releases
    ensures r in now.releases
  {
    w.(releases := w.releases[r := w.releases[r].(scheduledAt := at)])
  }

  /** `prepare_release`. */
  function Prepare(w: World, r: nat, at: Option<nat>): (now: World)
    requires r in w.releases
    ensures r in now.releases
  {
    SetSchedule(WithStatus(SyncTracks(w, r), r, SongApproved), r, at)
  }

  /** `approve_release`: a release that was live before goes live again. */
  function Approve(w: World, r: nat): (now: World)
    requires r in w.releases
    ensures r in now.releases
  {
    if w.releases[r].published then ChangeStatus(Materialize(w, r), r, Live)
    else ChangeStatus(Prepare(w, r, None), r, Approved)
  }

  /** `synchronize_release_state`. */
  function Synchronize(w: World, r: nat): (now: World)
    requires r in w.releases
    ensures r in now.releases
  {
    var synced := SyncTracks(w, r);
    match w.releases[r].status
    case Live => Materialize(synced, r)
    case TakenDown =>
      WithStatus(if synced.releases[r].album.Some? then TakeDown(synced, r) else synced, r, SongApproved)
    case status => WithStatus(synced, r, Table(status))
  }
}
