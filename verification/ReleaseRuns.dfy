/** What holds along every run of requests and jobs. */
module ReleaseRuns {
  import opened Options
  import opened Releases
  import opened ReleaseFrames
  import opened ReleaseSafety
  import opened ReleaseRequests
  import opened ReleaseTracklists
  import opened ReleaseDeletions

  // Songs on no tracklist.

  ghost predicate OnNoTracklist(w: World, song: nat) {
    forall q :: q in w.releases ==> LinkOf(w.releases[q].links, song).None?
  }

  lemma UnlinkedChangeIsSound(w: World, now: World, id: nat, r: nat)
    requires Invariant(w) && OnNoTracklist(w, id)
    requires now.releases == w.releases && now.nextRelease == w.nextRelease
    requires forall s :: s != id ==> (s in now.songs <==> s in w.songs) && (s in w.songs ==> now.songs[s] == w.songs[s])
    requires AlbumsExist(now) && (forall s :: s in now.songs ==> s < now.nextSong)
    ensures Sound(w, now, r)
  {
    hide Table, AlbumsExist, NotShared;
    forall q | q in now.releases ensures Fits(now, now.releases[q]) && StatusesAre(now, q, Table(now.releases[q].status)) {
      assert Fits(w, w.releases[q]) && StatusesAre(w, q, Table(w.releases[q].status));
      var links := w.releases[q].links;
      forall i | 0 <= i < |links| ensures links[i].song in now.songs {
        LinkOfFound(links, links[i].song);
      }
    }
    NotSharedStays(w, now);
    forall s | LinkedElsewhere(w, r, s) ensures s != id {
    }
    ElsewhereStays(w, r);
  }

  lemma NotSharedStays(w: World, now: World)
    requires NotShared(w) && now.releases == w.releases
    ensures NotShared(now)
  {
    forall q, s ensures Linked(now, q, s) <==> Linked(w, q, s) {
    }
  }

  lemma ElsewhereStays(w: World, r: nat)
    requires Invariant(w)
    ensures forall s :: LinkedElsewhere(w, r, s) ==> s in w.songs
  {
    forall s: nat | LinkedElsewhere(w, r, s) ensures s in w.songs {
      ElsewhereMeansPresent(w, r, s);
    }
  }

  lemma EditUnlinkedIsSound(w: World, id: nat, song: Song, r: nat)
    requires Invariant(w)
    ensures Sound(w, EditUnlinked(w, id, song), r)
  {
    IdleIsSound(w, r);
    var now := EditUnlinked(w, id, song);
    if now != w {
      hide LinkOf, Fits, NotShared, TableHolds;
      assert OnNoTracklist(w, id);
      assert AlbumsExist(now) by {
        assert AlbumsExist(w);
      }
      UnlinkedChangeIsSound(w, now, id, r);
    }
  }

  lemma EraseUnlinkedIsSound(w: World, id: nat, r: nat)
    requires Invariant(w) && OnNoTracklist(w, id)
    ensures Sound(w, EraseSongs(w, {id}), r)
  {
    var now := EraseSongs(w, {id});
    hide LinkOf, Fits, NotShared, TableHolds;
    assert AlbumsExist(now) by {
      assert AlbumsExist(w);
    }
    UnlinkedChangeIsSound(w, now, id, r);
  }

  lemma NewAlbumIsSound(w: World, r: nat)
    requires Invariant(w)
    ensures Sound(w, NewAlbum(w), r)
  {
    var now := NewAlbum(w);
    assert AlbumsExist(now) by {
      assert AlbumsExist(w);
      hide LinkOf, Fits, NotShared, TableHolds;
    }
    hide LinkOf, AlbumsExist;
    assert OnNoTracklist(w, w.nextSong) by {
      forall q | q in w.releases ensures LinkOf(w.releases[q].links, w.nextSong).None? {
        if Linked(w, q, w.nextSong) {
          LinkedMeansPresent(w, q, w.nextSong);
        }
      }
    }
    UnlinkedChangeIsSound(w, now, w.nextSong, r);
  }

  // New releases.

  lemma NewReleaseIsSound(w: World, now: World, release: Release, r: nat)
    requires Invariant(w)
    requires now.releases == w.releases[w.nextRelease := release] && now.nextRelease == w.nextRelease + 1
    requires forall s :: s in w.songs ==> s in now.songs && now.songs[s] == w.songs[s]
    requires AlbumsExist(now) && (forall s :: s in now.songs ==> s < now.nextSong)
    requires Fits(now, release) && StatusesAre(now, w.nextRelease, Table(release.status))
    requires forall i :: 0 <= i < |release.links| ==> release.links[i].song !in w.songs
    ensures Sound(w, now, r)
  {
    hide Table, AlbumsExist;
    forall q | q in w.releases ensures Fits(now, now.releases[q]) && StatusesAre(now, q, Table(now.releases[q].status)) {
      assert Fits(w, w.releases[q]) && StatusesAre(w, q, Table(w.releases[q].status));
      forall s | s in now.songs && Linked(now, q, s)
        ensures now.songs[s].status == Deleted || now.songs[s].status == Table(now.releases[q].status)
      {
        assert Linked(w, q, s);
        LinkedMeansPresent(w, q, s);
      }
    }
    forall p, q, s | Linked(now, p, s) && Linked(now, q, s) ensures p == q {
      NewSongsAreOwn(w, now, release, p, q, s);
    }
    ElsewhereStays(w, r);
  }

  lemma NewSongsAreOwn(w: World, now: World, release: Release, p: nat, q: nat, s: nat)
    requires Invariant(w) && now.releases == w.releases[w.nextRelease := release]
    requires forall i :: 0 <= i < |release.links| ==> release.links[i].song !in w.songs
    requires Linked(now, p, s) && Linked(now, q, s)
    ensures p == q
  {
    LinkOfFound(release.links, s);
    if p != w.nextRelease {
      assert Linked(w, p, s);
      LinkedMeansPresent(w, p, s);
    }
    if q != w.nextRelease {
      assert Linked(w, q, s);
      LinkedMeansPresent(w, q, s);
    }
  }

  lemma CreateIsSound(w: World, artist: nat, kind: Kind, r: nat)
    requires Invariant(w)
    ensures Sound(w, Create(w, artist, kind), r)
  {
    var now := Create(w, artist, kind);
    assert AlbumsExist(now) by {
      assert AlbumsExist(w);
      hide LinkOf, Fits, NotShared, TableHolds;
    }
    hide Invariant, AlbumsExist, Table;
    assert forall s :: s in w.songs ==> s < w.nextSong by { SongIdsBelow(w); }
    NewReleaseIsSound(w, now, now.releases[w.nextRelease], r);
  }

  lemma SongIdsBelow(w: World)
    requires Invariant(w)
    ensures forall s :: s in w.songs ==> s < w.nextSong
  {
  }

  lemma {:induction false} CopiesAreDrafts(songs: map<nat, Song>, links: seq<Link>, first: nat)
    ensures forall s: nat :: s in Copies(songs, links, first) <==> first <= s < first + |links|
    ensures forall s: nat :: s in Copies(songs, links, first) ==>
              Copies(songs, links, first)[s].status == SongDraft && Copies(songs, links, first)[s].album.None?
  {
    if links != [] {
      var front := links[..|links| - 1];
      CopiesAreDrafts(songs, front, first);
      assert Copies(songs, links, first) == Copies(songs, front, first)[first + |links| - 1 := Duplicate(songs, links[|links| - 1].song)];
    }
  }

  lemma CopiedLinksFit(w: World, source: nat)
    requires Invariant(w) && source in w.releases
    ensures var now := Clone(w, source); var release := now.releases[w.nextRelease];
            && Fits(now, release)
            && forall i :: 0 <= i < |release.links| ==> w.nextSong <= release.links[i].song < now.nextSong
  {
    var now := Clone(w, source);
    var links, release := w.releases[source].links, now.releases[w.nextRelease];
    CopiesAreDrafts(w.songs, links, w.nextSong);
    assert Fits(w, w.releases[source]);
    hide Invariant, Copies, LinkOf;
  }

  lemma CloneSongs(w: World, source: nat)
    requires Invariant(w) && source in w.releases
    ensures var now := Clone(w, source);
            && (forall s :: s in w.songs ==> s in now.songs && now.songs[s] == w.songs[s])
            && (forall s :: s in now.songs ==> s < now.nextSong)
            && (forall s :: s in now.songs && w.nextSong <= s ==> now.songs[s].status == SongDraft && now.songs[s].album.None?)
  {
    CopiesAreDrafts(w.songs, w.releases[source].links, w.nextSong);
    SongIdsBelow(w);
    hide Invariant, Copies, LinkOf;
  }

  lemma CloneAlbums(w: World, source: nat)
    requires Invariant(w) && source in w.releases
    ensures AlbumsExist(Clone(w, source))
  {
    CloneSongs(w, source);
    SongIdsBelow(w);
    var now := Clone(w, source);
    assert AlbumsExist(w);
    hide Invariant, Copies, LinkOf;
    forall s | s in now.songs ensures AlbumExists(now.songs[s].album, now.albums) {
      assert s in w.songs || w.nextSong <= s by {
        CopiesAreDrafts(w.songs, w.releases[source].links, w.nextSong);
      }
    }
  }

  lemma CloneIsSound(w: World, source: nat, r: nat)
    requires Invariant(w)
    ensures Sound(w, Clone(w, source), r)
  {
    IdleIsSound(w, r);
    if source in w.releases {
      var now := Clone(w, source);
      var release := now.releases[w.nextRelease];
      CopiedLinksFit(w, source);
      CloneSongs(w, source);
      CloneAlbums(w, source);
      SongIdsBelow(w);
      assert now.releases == w.releases[w.nextRelease := release] && now.nextRelease == w.nextRelease + 1;
      hide Invariant, AlbumsExist, Clone, Fits;
      forall s | s in now.songs && Linked(now, w.nextRelease, s) ensures now.songs[s].status == SongDraft {
        LinkOfFound(release.links, s);
      }
      NewReleaseIsSound(w, now, release, r);
    }
  }

  // An admin deletes a song.

  lemma TakenDownIfEmptyIsSound(w: World, r: nat)
    requires Invariant(w) && r in w.releases
    ensures Sound(w, w.(releases := w.releases[r := TakenDownIfEmpty(w.songs, w.releases[r])]), r)
  {
    var now := w.(releases := w.releases[r := TakenDownIfEmpty(w.songs, w.releases[r])]);
    IdleIsSound(w, r);
    assert w.releases[r := w.releases[r]] == w.releases;
    if now != w {
      TakenDownRowIsSound(w, r);
    }
  }

  lemma SoftDeleteIsSound(w: World, r: nat, song: nat)
    requires Invariant(w) && Linked(w, r, song) && song in w.songs
    ensures Sound(w, w.(songs := w.songs[song := w.songs[song].(status := Deleted)]), r)
  {
    var now := w.(songs := w.songs[song := w.songs[song].(status := Deleted)]);
    InvariantParts(w, r);
    hide Invariant, WellFormed, NotShared, Table, LinkOf;
    assert Lifecycle(w, now, r);
    assert AlbumsExist(now);
    LifecycleLinked(w, now, r);
    assert StatusesAre(now, r, Table(now.releases[r].status));
    hide Lifecycle, AlbumsExist, Connected, StatusesAre;
    MovesIsSound(w, now, r);
  }

  lemma OnlyOwnerLinks(w: World, r: nat, song: nat)
    requires Invariant(w) && Linked(w, r, song)
    ensures forall q :: q in w.releases && q != r ==> LinkOf(w.releases[q].links, song).None?
  {
    forall q | q in w.releases && q != r ensures LinkOf(w.releases[q].links, song).None? {
      assert LinkOf(w.releases[q].links, song).Some? ==> Linked(w, q, song);
    }
  }

  function EmptiedRow(w: World, r: nat): (now: World)
    requires r in w.releases
    ensures r in now.releases
  {
    w.(releases := w.releases[r := TakenDownIfEmpty(w.songs, w.releases[r])])
  }

  lemma SoftDeleteTouchesOwner(w: World, r: nat, song: nat)
    requires Invariant(w) && song in w.songs && Linked(w, r, song)
    ensures DeleteSong(w, song, false) == EmptiedRow(w.(songs := w.songs[song := w.songs[song].(status := Deleted)]), r)
  {
    OnlyOwnerLinks(w, r, song);
    hide Invariant, TakenDownIfEmpty, LinkOf, Stuck;
    var mid := w.(songs := w.songs[song := w.songs[song].(status := Deleted)]);
    assert DeleteSong(w, song, false).releases == EmptiedRow(mid, r).releases;
  }

  lemma SoftDeleteSongIsSound(w: World, r: nat, song: nat)
    requires Invariant(w) && song in w.songs && Linked(w, r, song)
    ensures Sound(w, DeleteSong(w, song, false), r)
  {
    var mid := w.(songs := w.songs[song := w.songs[song].(status := Deleted)]);
    SoftDeleteIsSound(w, r, song);
    SoftDeleteTouchesOwner(w, r, song);
    hide Invariant, TakenDownIfEmpty, Sound, LinkOf, NoActiveTrack, DeleteSong;
    SoundParts(w, mid, r);
    TakenDownIfEmptyIsSound(mid, r);
    SoundThen(w, mid, EmptiedRow(mid, r), r);
  }

  /** The owner's tracklist without the song, taken down when nothing active is left. */
  function Shortened(w: World, r: nat, song: nat): (now: World)
    requires r in w.releases
    ensures r in now.releases
  {
    EmptiedRow(WithLinks(w, r, Renumbered(Without(w.releases[r].links, {song}))), r)
  }

  lemma HardDeleteTouchesOwner(w: World, r: nat, song: nat)
    requires Invariant(w) && song in w.songs && Linked(w, r, song)
    ensures DeleteSong(w, song, true) == w || DeleteSong(w, song, true) == EraseSongs(Shortened(w, r, song), {song})
  {
    OnlyOwnerLinks(w, r, song);
    hide Invariant, TakenDownIfEmpty, LinkOf, Stuck, Renumbered, Without;
    if DeleteSong(w, song, true) != w {
      assert DeleteSong(w, song, true).releases == Shortened(w, r, song).releases;
    }
  }

  lemma ShortenedDropsSong(w: World, r: nat, song: nat)
    requires Invariant(w) && Linked(w, r, song)
    ensures OnNoTracklist(Shortened(w, r, song), song)
  {
    OnlyOwnerLinks(w, r, song);
    RenumberedRearranges(w, r, {song});
    hide Invariant, LinkOf, Renumbered, Without, Rearranges;
  }

  lemma HardDeleteSongIsSound(w: World, r: nat, song: nat)
    requires Invariant(w) && song in w.songs && Linked(w, r, song)
    ensures Sound(w, DeleteSong(w, song, true), r)
  {
    var links := Renumbered(Without(w.releases[r].links, {song}));
    RenumberedRearranges(w, r, {song});
    ShortenedDropsSong(w, r, song);
    HardDeleteTouchesOwner(w, r, song);
    hide Invariant, TakenDownIfEmpty, Sound, LinkOf, Without, Renumbered, Rearranges, OnNoTracklist, DeleteSong, WithLinks, EraseSongs;
    RearrangeIsSound(w, r, links);
    var mid := WithLinks(w, r, links);
    SoundParts(w, mid, r);
    TakenDownIfEmptyIsSound(mid, r);
    IdleIsSound(w, r);
    SoundThen(w, mid, EmptiedRow(mid, r), r);
    SoundParts(w, EmptiedRow(mid, r), r);
    EraseUnlinkedIsSound(EmptiedRow(mid, r), song, r);
    SoundThen(w, EmptiedRow(mid, r), EraseSongs(EmptiedRow(mid, r), {song}), r);
  }

  lemma DeleteSongIsSound(w: World, song: nat, hard: bool) returns (r: nat)
    requires Invariant(w)
    ensures Sound(w, DeleteSong(w, song, hard), r)
  {
    r := 0;
    IdleIsSound(w, r);
    if song in w.songs {
      if q :| Linked(w, q, song) {
        r := q;
        if hard {
          HardDeleteSongIsSound(w, r, song);
        } else {
          SoftDeleteSongIsSound(w, r, song);
        }
      } else {
        UnlinkedDeleteIsSound(w, song, hard, r);
      }
    }
  }

  lemma UnlinkedDeleteIsSound(w: World, song: nat, hard: bool, r: nat)
    requires Invariant(w) && song in w.songs && forall q :: !Linked(w, q, song)
    ensures Sound(w, DeleteSong(w, song, hard), r)
  {
    var now := DeleteSong(w, song, hard);
    assert OnNoTracklist(w, song) by {
      forall q | q in w.releases ensures LinkOf(w.releases[q].links, song).None? {
        assert !Linked(w, q, song);
      }
    }
    hide Stuck, TakenDownIfEmpty, NoActiveTrack, Without, Renumbered;
    assert now.releases == w.releases;
    assert AlbumsExist(now) by {
      assert AlbumsExist(w);
      hide LinkOf, Fits, NotShared, TableHolds;
    }
    assert forall s :: s in now.songs ==> s < now.nextSong by {
      hide LinkOf, Fits, NotShared, TableHolds, AlbumsExist;
    }
    hide LinkOf, Invariant, AlbumsExist;
    UnlinkedChangeIsSound(w, now, song, r);
  }

  // Steps.

  /** The release a request is about. */
  function Subject(e: Event): Option<nat> {
    if e.CreateEvent? || e.CloneEvent? || e.DeleteSongEvent? || e.EditUnlinkedEvent? || e.NewAlbumEvent? then None
    else Some(e.release)
  }

  lemma LifecycleStepIsSound(w: World, e: Event)
    requires Invariant(w) && Subject(e).Some?
    ensures Sound(w, Step(w, e), Subject(e).value)
  {
    hide Invariant, Sound, Add, Upload, Reorder, RemoveTracks, AdminRemoveTracks, ArtistPatch, AdminPatch, ReopenForEdit,
      Artwork, Validate, Submit, Act, SetFromAdmin, Resynchronize, PublishDue, ArtistDelete, AdminDelete;
    match e
    case AddEvent(r, ids, admin, v) => AddIsSound(w, r, ids, admin, v);
    case UploadEvent(r, v) => UploadIsSound(w, r, v);
    case ReorderEvent(r, ids, admin, v) => ReorderIsSound(w, r, ids, admin, v);
    case RemoveEvent(r, songs, deleteEmpty, v) => RemoveIsSound(w, r, songs, deleteEmpty, v);
    case AdminRemoveEvent(r, songs, v) => AdminRemoveIsSound(w, r, songs, v);
    case ArtistPatchEvent(r, kind, marks, v) => ArtistPatchIsSound(w, r, kind, marks, v);
    case AdminPatchEvent(r, content, kind, marks, v) => AdminPatchIsSound(w, r, content, kind, marks, v);
    case ReopenForEditEvent(r, confirmed, v) => ReopenForEditIsSound(w, r, confirmed, v);
    case ArtworkEvent(r, url, confirmed, admin, v) => ArtworkIsSound(w, r, url, confirmed, admin, v);
    case ValidateEvent(r, v) => ValidateIsSound(w, r, v);
    case SubmitEvent(r, otherwise, v) => SubmitIsSound(w, r, otherwise, v);
    case ActEvent(r, action, barred, otherwise, v) => ActIsSound(w, r, action, barred, otherwise, v);
    case SetFromAdminEvent(r, target, otherwise, dated, now) => SetFromAdminIsSound(w, r, target, otherwise, dated, now);
    case SynchronizeEvent(r) => SynchronizeIsSound(w, r);
    case PublishDueEvent(r, now) => PublishDueIsSound(w, r, now);
    case ArtistDeleteEvent(r, v) => ArtistDeleteIsSound(w, r, v);
    case AdminDeleteEvent(r) => AdminDeleteIsSound(w, r);
    case _ =>
  }

  lemma StepIsSound(w: World, e: Event) returns (r: nat)
    requires Invariant(w)
    ensures Sound(w, Step(w, e), r)
  {
    hide Invariant, Sound, Create, Clone, DeleteSong, EditUnlinked, NewAlbum;
    r := 0;
    match e
    case CreateEvent(artist, kind) => CreateIsSound(w, artist, kind, r);
    case CloneEvent(source) => CloneIsSound(w, source, r);
    case DeleteSongEvent(s, hard) => r := DeleteSongIsSound(w, s, hard);
    case EditUnlinkedEvent(s, row) => EditUnlinkedIsSound(w, s, row, r);
    case NewAlbumEvent => NewAlbumIsSound(w, r);
    case _ =>
      r := Subject(e).value;
      LifecycleStepIsSound(w, e);
  }

  /** A request about one release leaves the songs of every other release exactly as they are. */
  lemma OtherReleasesKeepTheirSongs(w: World, e: Event, q: nat, song: nat)
    requires Invariant(w) && Subject(e).Some? && Subject(e).value != q && Linked(w, q, song)
    ensures var now := Step(w, e); song in w.songs && song in now.songs && now.songs[song] == w.songs[song]
    ensures q in Step(w, e).releases && Bystander(w.releases[q], Step(w, e).releases[q])
  {
    LifecycleStepIsSound(w, e);
    LinkedMeansPresent(w, q, song);
    assert LinkedElsewhere(w, Subject(e).value, song);
    hide Step, Invariant, LinkOf;
  }

  // Runs.

  const EMPTY: World := World(map[], {}, map[], 0, 0, 0)

  ghost function Run(w: World, events: seq<Event>): World {
    if events == [] then w else Step(Run(w, events[..|events| - 1]), events[|events| - 1])
  }

  lemma EmptyHolds()
    ensures Invariant(EMPTY)
  {
  }

  lemma {:induction false} RunKeepsInvariant(w: World, events: seq<Event>)
    requires Invariant(w)
    ensures Invariant(Run(w, events))
  {
    if events != [] {
      RunKeepsInvariant(w, events[..|events| - 1]);
      hide Invariant, Step;
      var mid := Run(w, events[..|events| - 1]);
      var r := StepIsSound(mid, events[|events| - 1]);
      SoundParts(mid, Run(w, events), r);
    }
  }

  /** Some run of requests and jobs leads from one world to the other. */
  ghost predicate Follows(w: World, now: World) {
    exists events :: now == Run(w, events)
  }

  ghost predicate Reachable(w: World) {
    Follows(EMPTY, w)
  }

  lemma ReachableHolds(w: World)
    requires Reachable(w)
    ensures Invariant(w)
  {
    hide Invariant, Step;
    EmptyHolds();
    var events :| w == Run(EMPTY, events);
    RunKeepsInvariant(EMPTY, events);
  }

  /** Along every run each track of a release is an existing song that is deleted or has exactly the
      status the release's status calls for, and its position is its place in the tracklist. */
  lemma TracksFollowTheTable(w: World, r: nat, i: nat)
    requires Reachable(w) && r in w.releases && i < |w.releases[r].links|
    ensures var link := w.releases[r].links[i];
            && link.song in w.songs
            && w.songs[link.song].status in {Deleted, Table(w.releases[r].status)}
            && link.position == i + 1
  {
    hide Run, Table, Follows;
    ReachableHolds(w);
    InvariantParts(w, r);
    assert Fits(w, w.releases[r]);
    LinkOfAt(w.releases[r].links, i);
  }

  /** Along every run no song is two tracks, of one release or of two. */
  lemma NoSongIsSharedOrRepeated(w: World, q: nat, i: nat, r: nat, j: nat)
    requires Reachable(w) && q in w.releases && i < |w.releases[q].links| && r in w.releases && j < |w.releases[r].links|
    requires w.releases[q].links[i].song == w.releases[r].links[j].song
    ensures q == r && i == j
  {
    hide Run, Follows;
    ReachableHolds(w);
    InvariantParts(w, q);
    InvariantParts(w, r);
    LinkOfAt(w.releases[q].links, i);
    LinkOfAt(w.releases[r].links, j);
    assert Linked(w, q, w.releases[q].links[i].song) && Linked(w, r, w.releases[q].links[i].song);
    assert i < j || j < i || i == j;
  }

  /** Along every run the status history of a release is a path from draft to its current status. */
  lemma HistoryIsAPath(w: World, r: nat)
    requires Reachable(w) && r in w.releases
    ensures Connected(w.releases[r].history, w.releases[r].status)
  {
    hide Run, Follows;
    ReachableHolds(w);
    InvariantParts(w, r);
  }

  lemma SoundEvolves(w: World, now: World, r: nat, q: nat)
    requires Sound(w, now, r) && q in w.releases && q in now.releases
    ensures Evolves(w.releases[q], now.releases[q])
  {
    hide Invariant;
  }

  lemma SoundNeverRevives(w: World, now: World, r: nat, q: nat)
    requires Sound(w, now, r) && q < w.nextRelease && q in now.releases
    ensures q in w.releases && w.nextRelease <= now.nextRelease
  {
    hide Invariant;
  }

  lemma SoundCounts(w: World, now: World, r: nat)
    requires Sound(w, now, r)
    ensures w.nextRelease <= now.nextRelease
  {
    hide Invariant;
  }

  lemma {:induction false} RunEvolves(w: World, events: seq<Event>, q: nat)
    requires Invariant(w) && q in w.releases
    ensures w.nextRelease <= Run(w, events).nextRelease
    ensures q in Run(w, events).releases ==> Evolves(w.releases[q], Run(w, events).releases[q])
  {
    if events != [] {
      var mid, now := Run(w, events[..|events| - 1]), Run(w, events);
      RunEvolves(w, events[..|events| - 1], q);
      RunKeepsInvariant(w, events[..|events| - 1]);
      var r := StepIsSound(mid, events[|events| - 1]);
      assert q < w.nextRelease;
      hide Step, Invariant, Run, Evolves;
      SoundCounts(mid, now, r);
      if q in now.releases {
        SoundNeverRevives(mid, now, r, q);
        SoundEvolves(mid, now, r, q);
        EvolvesThen(w.releases[q], mid.releases[q], now.releases[q]);
      }
    }
  }

  lemma EvolvesThen(a: Release, b: Release, c: Release)
    requires Evolves(a, b) && Evolves(b, c)
    ensures Evolves(a, c)
  {
  }

  /** A release never goes back: later its version is at least as high, its history longer, and a
      client whose version is still accepted has seen the current status. */
  lemma AcceptedVersionKnowsTheStatus(w: World, now: World, r: nat)
    requires Reachable(w) && Follows(w, now) && r in w.releases && r in now.releases
    ensures var seen, current := w.releases[r], now.releases[r];
            && seen.lockVersion <= current.lockVersion
            && seen.history <= current.history
            && (Current(current, Stated(seen.lockVersion)) ==> seen.status == current.status)
  {
    hide Invariant, Step;
    ReachableHolds(w);
    var later :| now == Run(w, later);
    RunEvolves(w, later, r);
  }
}
