/** The release tables updated in place, one method per service function, with the loops of the
    service; every method is tied to the function the invariants are proved about. */
module ReleaseCatalog {
  import opened Options
  import opened Releases
  import opened ReleaseFrames
  import opened ReleaseRequests
  import opened TrackPositions

  // Loops over a tracklist, one track further.

  function First(release: Release, i: nat): Release
    requires i <= |release.links|
  {
    release.(links := release.links[..i])
  }

  lemma LinkOfStep(links: seq<Link>, i: nat, s: nat)
    requires i < |links|
    ensures LinkOf(links[..i + 1], s) == if links[i].song == s then Some(links[i]) else LinkOf(links[..i], s)
  {
    assert links[..i + 1][..i] == links[..i];
  }

  /** A song is not on the tracklist before its own track. */
  lemma NotBefore(links: seq<Link>, i: nat)
    requires DistinctSongs(links) && i < |links|
    ensures LinkOf(links[..i], links[i].song).None?
  {
    LinkOfFound(links[..i], links[i].song);
  }

  /** The songs exist and none is listed twice. */
  ghost predicate Listed(w: World, r: nat) {
    && r in w.releases && DistinctSongs(w.releases[r].links)
    && forall i :: 0 <= i < |w.releases[r].links| ==> w.releases[r].links[i].song in w.songs
  }

  lemma InheritStep(rows: map<nat, Song>, release: Release, previousCover: nat, i: nat)
    requires DistinctSongs(release.links) && i < |release.links| && release.links[i].song in rows
    ensures var songs, link := InheritingSongs(rows, First(release, i), previousCover), release.links[i];
            && songs[link.song] == rows[link.song]
            && InheritingSongs(rows, First(release, i + 1), previousCover) ==
                 songs[link.song := if Inherits(release, link, rows[link.song], previousCover)
                                    then rows[link.song].(cover := release.cover) else rows[link.song]]
  {
    NotBefore(release.links, i);
    forall s | s in rows
      ensures LinkOf(release.links[..i + 1], s) == if release.links[i].song == s then Some(release.links[i]) else LinkOf(release.links[..i], s)
    {
      LinkOfStep(release.links, i, s);
    }
  }

  lemma InheritAt(rows: map<nat, Song>, release: Release, previousCover: nat, i: nat)
    requires i < |release.links| && release.links[i].song in rows
    ensures InheritingLinks(rows, release, previousCover)[i] ==
              if Inherits(release, release.links[i], rows[release.links[i].song], previousCover)
              then release.links[i].(inherits := true) else release.links[i]
  {
  }

  lemma PublishStep(rows: map<nat, Song>, songs: map<nat, Song>, release: Release, album: Option<nat>, i: nat)
    requires DistinctSongs(release.links) && i < |release.links|
    requires release.links[i].song in rows && release.links[i].song in songs
    ensures var now, link := PublishSongs(First(release, i), rows, songs, album), release.links[i];
            && now[link.song] == songs[link.song]
            && PublishSongs(First(release, i + 1), rows, songs, album) ==
                 now[link.song := PublishedSong(release, link, rows[link.song], songs[link.song], album)]
  {
    NotBefore(release.links, i);
    forall s | s in songs
      ensures LinkOf(release.links[..i + 1], s) == if release.links[i].song == s then Some(release.links[i]) else LinkOf(release.links[..i], s)
    {
      LinkOfStep(release.links, i, s);
    }
  }

  /** The status rewrite of the loops that go track by track. */
  function Restatused(songs: map<nat, Song>, links: seq<Link>, kept: set<nat>, status: SongStatus): map<nat, Song> {
    map s | s in songs ::
      if LinkOf(links, s).Some? && songs[s].status != Deleted && s !in kept then songs[s].(status := status) else songs[s]
  }

  lemma RestatusStep(songs: map<nat, Song>, links: seq<Link>, kept: set<nat>, status: SongStatus, i: nat)
    requires DistinctSongs(links) && i < |links| && links[i].song in songs
    ensures var now, s := Restatused(songs, links[..i], kept, status), links[i].song;
            && now[s] == songs[s]
            && Restatused(songs, links[..i + 1], kept, status) ==
                 if songs[s].status == Deleted || s in kept then now else now[s := songs[s].(status := status)]
  {
    NotBefore(links, i);
    forall s | s in songs ensures LinkOf(links[..i + 1], s) == if links[i].song == s then Some(links[i]) else LinkOf(links[..i], s) {
      LinkOfStep(links, i, s);
    }
  }

  class Catalog {
    var songs: map<nat, Song>
    var albums: set<nat>
    var releases: map<nat, Release>
    var nextSong: nat
    var nextAlbum: nat
    var nextRelease: nat

    function View(): World
      reads this
    {
      World(songs, albums, releases, nextSong, nextAlbum, nextRelease)
    }

    constructor (w: World)
      ensures View() == w
    {
      songs, albums, releases := w.songs, w.albums, w.releases;
      nextSong, nextAlbum, nextRelease := w.nextSong, w.nextAlbum, w.nextRelease;
    }

    method ChangeStatus(r: nat, to: Status)
      requires r in releases
      modifies this`releases
      ensures View() == Releases.ChangeStatus(old(View()), r, to)
    {
      var release := releases[r];
      var previous := release.status;
      release := release.(status := to);
      release := release.(lockVersion := release.lockVersion + 1);
      releases := releases[r := release.(history := release.history + [Row(Some(previous), to)])];
    }

    method SyncArtwork(r: nat, previousCover: nat)
      requires Listed(View(), r)
      modifies this`songs, this`releases
      ensures View() == Releases.SyncArtwork(old(View()), r, previousCover)
    {
      var release, rows := releases[r], songs;
      if release.cover == 0 {
        return;
      }
      var links := release.links;
      hide InheritingSongs, InheritingLinks;
      NothingInherited(rows, release, previousCover);
      for i := 0 to |release.links|
        invariant releases == old(releases)
        invariant songs == InheritingSongs(rows, First(release, i), previousCover) && songs.Keys == rows.Keys
        invariant |links| == |release.links|
        invariant forall k :: 0 <= k < i ==> links[k] == InheritingLinks(rows, release, previousCover)[k]
        invariant forall k :: i <= k < |links| ==> links[k] == release.links[k]
      {
        InheritStep(rows, release, previousCover, i);
        InheritAt(rows, release, previousCover, i);
        var link := release.links[i];
        if Inherits(release, link, rows[link.song], previousCover) {
          if songs[link.song].cover != release.cover {
            songs := songs[link.song := songs[link.song].(cover := release.cover)];
          }
          if !link.inherits {
            links := links[i := link.(inherits := true)];
          }
        }
      }
      AllTracks(release);
      assert links == InheritingLinks(rows, release, previousCover);
      releases := releases[r := release.(links := links)];
    }

    /** The bulk update that skips deleted songs. */
    method SetStatuses(r: nat, status: SongStatus)
      requires r in releases
      modifies this`songs
      ensures View() == Releases.WithStatus(old(View()), r, status)
    {
      songs := Releases.WithStatus(View(), r, status).songs;
    }

    method Prepare(r: nat, at: Option<nat>)
      requires Listed(View(), r)
      modifies this`songs, this`releases
      ensures View() == Releases.Prepare(old(View()), r, at)
    {
      ghost var synced := SyncTracks(View(), r);
      SyncArtwork(r, 0);
      SyncKeepsListed(old(View()), r);
      var links, rows := releases[r].links, songs;
      ghost var stored := releases;
      hide Restatused;
      NothingRestatused(rows, links, {}, SongApproved);
      for i := 0 to |links|
        invariant releases == stored
        invariant songs == Restatused(rows, links[..i], {}, SongApproved) && songs.Keys == rows.Keys
      {
        RestatusStep(rows, links, {}, SongApproved, i);
        var s := links[i].song;
        if songs[s].status != Deleted {
          songs := songs[s := songs[s].(status := SongApproved)];
        }
      }
      assert links[..|links|] == links;
      RestatusedIsWithStatus(synced, r, SongApproved);
      releases := releases[r := releases[r].(scheduledAt := at)];
    }

    /** Deleting an album row. */
    method DropAlbum(album: nat)
      modifies this`songs, this`albums, this`releases
      ensures View() == Releases.DropAlbum(old(View()), album)
    {
      albums := albums - {album};
      songs := map s | s in songs :: songs[s].(album := Unlisted(songs[s].album, album));
      releases := map q | q in releases :: releases[q].(album := Unlisted(releases[q].album, album));
    }

    /** The publishing loop of a single, with the rows read before the artwork was synchronized. */
    method PublishSingle(release: Release, rows: map<nat, Song>)
      requires DistinctSongs(release.links) && release.kind == Single
      requires forall i :: 0 <= i < |release.links| ==> release.links[i].song in rows && release.links[i].song in songs
      modifies this`songs
      ensures songs == PublishSongs(release, rows, old(songs), None)
    {
      var before := songs;
      hide PublishSongs;
      NothingPublished(rows, before, release, None);
      for i := 0 to |release.links|
        invariant songs == PublishSongs(First(release, i), rows, before, None) && songs.Keys == before.Keys
      {
        PublishStep(rows, before, release, None, i);
        var link := release.links[i];
        var song := songs[link.song].(album := None, isSingle := true, trackNumber := link.position, status := Published);
        song := song.(cover := if release.cover != 0 then release.cover else rows[link.song].cover);
        songs := songs[link.song := song];
      }
      AllTracks(release);
    }

    /** The publishing loop of every other release, which also sets the inheritance marks again. */
    method PublishCollection(release: Release, rows: map<nat, Song>, album: nat, stored: seq<Link>) returns (links: seq<Link>)
      requires DistinctSongs(release.links) && release.kind != Single && |stored| == |release.links|
      requires forall i :: 0 <= i < |release.links| ==>
        release.links[i].song in rows && release.links[i].song in songs && stored[i].song == release.links[i].song
      modifies this`songs
      ensures songs == PublishSongs(release, rows, old(songs), Some(album))
      ensures links == MarkLinks(release, rows, stored)
    {
      var before := songs;
      links := stored;
      hide PublishSongs, MarkLinks;
      NothingPublished(rows, before, release, Some(album));
      for i := 0 to |release.links|
        invariant songs == PublishSongs(First(release, i), rows, before, Some(album)) && songs.Keys == before.Keys
        invariant |links| == |stored|
        invariant forall k :: 0 <= k < i ==> links[k] == MarkLinks(release, rows, stored)[k]
        invariant forall k :: i <= k < |stored| ==> links[k] == stored[k]
      {
        PublishStep(rows, before, release, Some(album), i);
        MarkAt(release, rows, stored, i);
        var link := release.links[i];
        var song := songs[link.song].(album := Some(album), isSingle := false, trackNumber := link.position, status := Published,
                                      cover := rows[link.song].cover);
        if release.cover != 0 && (rows[link.song].cover == 0 || link.inherits) {
          song := song.(cover := release.cover);
          links := links[i := links[i].(inherits := true)];
        }
        songs := songs[link.song := song];
      }
      AllTracks(release);
    }

    /** `materialize_release` when it publishes. */
    method Materialize(r: nat)
      requires Listed(View(), r)
      modifies this`songs, this`albums, this`releases, this`nextAlbum
      ensures View() == Releases.Materialize(old(View()), r)
    {
      hide Releases.SyncArtwork, PublishSongs, MarkLinks;
      var release, rows := releases[r], songs;
      var own := OwnAlbum(View(), r);
      SyncArtwork(r, 0);
      SyncKeepsListed(old(View()), r);
      var album: Option<nat> := None;
      if release.kind == Single {
        if own.Some? {
          DropAlbum(own.value);
        }
      } else if own.Some? {
        album := own;
        albums := albums + {own.value};
      } else {
        album := Some(nextAlbum);
        albums := albums + {nextAlbum};
        nextAlbum := nextAlbum + 1;
      }
      var links := releases[r].links;
      if release.kind == Single {
        PublishSingle(release, rows);
      } else {
        links := PublishCollection(release, rows, album.value, links);
      }
      releases := releases[r := releases[r].(album := album, published := true, links := links)];
    }

    /** `take_down_release`. */
    method TakeDown(r: nat)
      requires r in releases
      modifies this`songs, this`albums, this`releases
      ensures View() == Releases.TakeDown(old(View()), r)
    {
      SetStatuses(r, SongApproved);
      var album := releases[r].album;
      StatusKeepsAlbums(old(View()), r);
      var shared := album.Some? && HasUnrelated(View(), r, album.value);
      releases := releases[r := releases[r].(album := None)];
      if album.Some? {
        if shared {
          songs := Releases.LeaveAlbum(View(), r, album.value).songs;
        } else {
          DropAlbum(album.value);
        }
      }
    }

    /** `mark_release_for_review` with all tracks. */
    method MarkForReview(r: nat)
      requires Listed(View(), r)
      modifies this`songs, this`releases
      ensures View() == Releases.MarkForReview(old(View()), r)
    {
      var links, rows := releases[r].links, songs;
      ghost var w := View();
      ghost var kept := set s | s in rows && SharedLive(w, r, s);
      hide Restatused;
      NothingRestatused(rows, links, kept, Pending);
      for i := 0 to |links|
        invariant releases == old(releases)
        invariant songs == Restatused(rows, links[..i], kept, Pending) && songs.Keys == rows.Keys
      {
        RestatusStep(rows, links, kept, Pending, i);
        var s := links[i].song;
        if songs[s].status == Deleted {
          continue;
        }
        var sharedLive := songs[s].status == Published
          && exists q :: q in releases && q != r && releases[q].status == Live && LinkOf(releases[q].links, s).Some?;
        assert sharedLive <==> SharedLive(w, r, s);
        if !sharedLive {
          songs := songs[s := songs[s].(status := Pending)];
        }
      }
      assert links[..|links|] == links;
      RestatusedIsReview(w, r, kept);
      releases := releases[r := releases[r].(scheduledAt := None)];
      if releases[r].status != InReview {
        ChangeStatus(r, InReview);
      } else {
        releases := releases[r := releases[r].(lockVersion := releases[r].lockVersion + 1)];
      }
    }

    /** `approve_release`. */
    method Approve(r: nat)
      requires Listed(View(), r)
      modifies this
      ensures View() == Releases.Approve(old(View()), r)
    {
      hide Releases.Materialize, Releases.Prepare, Releases.ChangeStatus;
      if releases[r].published {
        Materialize(r);
        ChangeStatus(r, Live);
      } else {
        Prepare(r, None);
        ChangeStatus(r, Approved);
      }
    }

    /** `synchronize_release_state`. */
    method Synchronize(r: nat)
      requires Listed(View(), r)
      modifies this
      ensures View() == Releases.Synchronize(old(View()), r)
    {
      hide Releases.Materialize, Releases.TakeDown, Releases.WithStatus, Releases.SyncArtwork;
      SyncArtwork(r, 0);
      SyncKeepsListed(old(View()), r);
      SyncKeepsStatus(old(View()), r);
      match releases[r].status {
        case Live => Materialize(r);
        case Approved | Scheduled => SetStatuses(r, SongApproved);
        case InReview | ChangesRequested => SetStatuses(r, Pending);
        case Rejected => SetStatuses(r, SongRejected);
        case Draft => SetStatuses(r, SongDraft);
        case TakenDown =>
          if releases[r].album.Some? {
            TakeDown(r);
          }
          SetStatuses(r, SongApproved);
      }
    }

    /** `_renumber_release_links` on the stored links; a refused write leaves them as they were. */
    method Renumber(r: nat) returns (ok: bool)
      requires r in releases && DistinctSongs(releases[r].links)
      modifies this`releases
      ensures ok <==> !Stuck(old(releases)[r].links, ARTIST_OFFSET)
      ensures View() == if ok then WithLinks(old(View()), r, Renumbered(old(releases)[r].links)) else old(View())
    {
      var links := releases[r].links;
      StoredOrder(links);
      var rows := new Rows(PositionsIn(links));
      ok := rows.Renumber(SongsIn(links), ARTIST_OFFSET);
      if ok {
        var positions := rows.positions;
        var numbered := seq(|links|, i requires 0 <= i < |links| =>
          links[i].(position := if links[i].song in positions then positions[links[i].song] else 0));
        NumberedRows(links, positions);
        releases := releases[r := releases[r].(links := numbered)];
      }
    }

    /** `ensure_editable_song`, the new link, and the status a release in review gives it. */
    method AddTrack(r: nat, song: nat)
      requires r in releases
      modifies this`songs, this`releases, this`nextSong
      ensures View() == AddOne(old(View()), r, song)
    {
      ghost var was := View();
      var editable, source: Option<nat> := song, None;
      if !Editable(View(), r, song) {
        editable, source := nextSong, Some(song);
        songs := songs[nextSong := Duplicate(songs, song)];
        nextSong := nextSong + 1;
      }
      var release := releases[r];
      releases := releases[r := release.(links := release.links + [Link(editable, source, |release.links| + 1, false)])];
      if release.status == InReview {
        songs := songs[editable := songs[editable].(status := Pending)];
      } else {
        assert songs == AddOne(was, r, song).songs;
      }
    }

    method AddTracks(r: nat, chosen: seq<nat>)
      requires r in releases
      modifies this`songs, this`releases, this`nextSong
      ensures View() == AddAll(old(View()), r, chosen)
    {
      ghost var was := View();
      for i := 0 to |chosen|
        invariant r in releases && View() == AddAll(was, r, chosen[..i])
      {
        assert chosen[..i + 1][..i] == chosen[..i];
        AddTrack(r, chosen[i]);
      }
      assert chosen[..|chosen|] == chosen;
    }

    /** `create_revision`: one copy and one link per track. */
    method Clone(source: nat)
      requires source in releases && source < nextRelease && forall s :: s in songs ==> s < nextSong
      requires forall i :: 0 <= i < |releases[source].links| ==> releases[source].links[i].song in songs
      modifies this`songs, this`releases, this`nextSong, this`nextRelease
      ensures View() == ReleaseRequests.Clone(old(View()), source)
    {
      var release, first, rows := releases[source], nextSong, songs;
      var links: seq<Link> := [];
      hide Copies, CopiedLinks;
      NothingCopied(rows, release.links, first);
      for i := 0 to |release.links|
        invariant releases == old(releases) && nextRelease == old(nextRelease)
        invariant nextSong == first + i && songs == rows + Copies(rows, release.links[..i], first)
        invariant links == CopiedLinks(release.links[..i], first)
      {
        var link := release.links[i];
        CopyStep(rows, release.links, first, i);
        songs := songs[nextSong := Duplicate(rows, link.song)];
        links := links + [Link(nextSong, Some(link.song), link.position, link.inherits)];
        nextSong := nextSong + 1;
      }
      assert release.links[..|release.links|] == release.links;
      releases := releases[nextRelease := Release(release.artist, release.kind, Draft, links, None, release.cover, 1, false, None, [])];
      nextRelease := nextRelease + 1;
    }
  }

  // What the loops start and end with.

  lemma NothingInherited(rows: map<nat, Song>, release: Release, previousCover: nat)
    ensures InheritingSongs(rows, First(release, 0), previousCover) == rows
  {
  }

  lemma NothingPublished(rows: map<nat, Song>, songs: map<nat, Song>, release: Release, album: Option<nat>)
    ensures PublishSongs(First(release, 0), rows, songs, album) == songs
  {
  }

  lemma NothingCopied(rows: map<nat, Song>, links: seq<Link>, first: nat)
    ensures rows + Copies(rows, links[..0], first) == rows && CopiedLinks(links[..0], first) == []
  {
  }

  lemma CopyStep(rows: map<nat, Song>, links: seq<Link>, first: nat, i: nat)
    requires i < |links|
    ensures rows + Copies(rows, links[..i + 1], first) ==
              (rows + Copies(rows, links[..i], first))[first + i := Duplicate(rows, links[i].song)]
    ensures CopiedLinks(links[..i + 1], first) ==
              CopiedLinks(links[..i], first) + [Link(first + i, Some(links[i].song), links[i].position, links[i].inherits)]
  {
    assert links[..i + 1][..i] == links[..i];
  }

  lemma NothingRestatused(songs: map<nat, Song>, links: seq<Link>, kept: set<nat>, status: SongStatus)
    ensures Restatused(songs, links[..0], kept, status) == songs
  {
  }

  lemma MarkAt(release: Release, rows: map<nat, Song>, stored: seq<Link>, i: nat)
    requires DistinctSongs(release.links) && |stored| == |release.links| && i < |stored| && stored[i].song == release.links[i].song
    ensures |MarkLinks(release, rows, stored)| == |stored|
    ensures MarkLinks(release, rows, stored)[i] ==
              if release.cover != 0 && stored[i].song in rows && (rows[stored[i].song].cover == 0 || release.links[i].inherits)
              then stored[i].(inherits := true) else stored[i]
  {
    LinkOfAt(release.links, i);
  }

  lemma AllTracks(release: Release)
    ensures First(release, |release.links|) == release
  {
    assert release.links[..|release.links|] == release.links;
  }

  lemma RestatusedIsWithStatus(w: World, r: nat, status: SongStatus)
    requires r in w.releases
    ensures Restatused(w.songs, w.releases[r].links, {}, status) == WithStatus(w, r, status).songs
  {
  }

  lemma RestatusedIsReview(w: World, r: nat, kept: set<nat>)
    requires r in w.releases && kept == set s | s in w.songs && SharedLive(w, r, s)
    ensures MarkForReview(w, r).songs == Restatused(w.songs, w.releases[r].links, kept, Pending)
  {
  }

  lemma SyncKeepsListed(w: World, r: nat)
    requires Listed(w, r)
    ensures Listed(SyncTracks(w, r), r)
    ensures var before, after := w.releases[r].links, SyncTracks(w, r).releases[r].links;
            |after| == |before| && forall i :: 0 <= i < |before| ==> after[i].song == before[i].song
    ensures SyncTracks(w, r).songs.Keys == w.songs.Keys
  {
  }

  lemma SyncKeepsStatus(w: World, r: nat)
    requires r in w.releases
    ensures SyncTracks(w, r).releases[r].status == w.releases[r].status
  {
  }

  lemma StatusKeepsAlbums(w: World, r: nat)
    requires r in w.releases
    ensures forall album :: HasUnrelated(WithStatus(w, r, SongApproved), r, album) <==> HasUnrelated(w, r, album)
  {
    var now := WithStatus(w, r, SongApproved);
    assert forall s :: s in w.songs ==> now.songs[s].album == w.songs[s].album;
  }

  lemma StoredOrder(links: seq<Link>)
    requires DistinctSongs(links)
    ensures IsOrder(SongsIn(links), PositionsIn(links))
  {
    forall s | s in PositionsIn(links) ensures s in SongsIn(links) {
      var i :| 0 <= i < |links| && links[i].song == s;
      assert SongsIn(links)[i] == s;
    }
  }

  lemma NumberedRows(links: seq<Link>, positions: Positions)
    requires TrackPositions.Numbered(positions, SongsIn(links)) && positions.Keys == PositionsIn(links).Keys
    ensures seq(|links|, i requires 0 <= i < |links| =>
              links[i].(position := if links[i].song in positions then positions[links[i].song] else 0)) == Renumbered(links)
  {
    forall i: nat | i < |links| ensures links[i].song in positions && positions[links[i].song] == i + 1 {
      assert Held(positions, SongsIn(links), i) == i + 1;
    }
  }
}
