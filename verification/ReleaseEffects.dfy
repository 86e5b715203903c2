/** What publishing, taking down, adding, editing and deleting write, row by row. */
module ReleaseEffects {
  import opened Options
  import opened Sequences
  import opened Releases
  import opened ReleaseFrames
  import opened ReleaseLifecycle
  import opened ReleaseSafety
  import opened ReleaseRequests
  import opened ReleaseTracklists
  import opened ReleaseOutcomes
  import opened ReleaseRuns
  import opened ReleaseRevival
  import TrackPositions

  // Albums.

  /** Every song on the album is a track of the release. */
  ghost predicate Exclusive(w: World, r: nat, album: nat) {
    forall s :: s in w.songs && w.songs[s].album == Some(album) ==> Linked(w, r, s)
  }

  lemma ExclusiveIff(w: World, r: nat, album: nat)
    requires r in w.releases
    ensures Exclusive(w, r, album) <==> !HasUnrelated(w, r, album)
  {
  }

  /** Publishing keeps an album that holds nothing but the release, gives any other release that is not
      a single a new one, and deletes only the album of a single, if it holds nothing else. */
  lemma PublishedAlbum(w: World, r: nat)
    requires AlbumsExist(w) && r in w.releases
    ensures var now, release := Materialize(w, r), w.releases[r];
            var own := release.album.Some? && Exclusive(w, r, release.album.value);
            && now.releases[r].album == (if release.kind == Single then None else if own then release.album else Some(w.nextAlbum))
            && now.releases[r].published
            && forall a :: a in w.albums ==> (a in now.albums <==> !(release.kind == Single && own && release.album == Some(a)))
  {
    var release := w.releases[r];
    if release.album.Some? {
      ExclusiveIff(w, r, release.album.value);
    }
    SyncArtworkIsLifecycle(w, r, 0);
    hide SyncArtwork, PublishSongs, MarkLinks, HasUnrelated, Lifecycle;
  }

  /** Taking down empties the release's album: it is deleted exactly when nothing else is on it, and no
      other album is touched. */
  lemma TakenDownAlbum(w: World, r: nat)
    requires r in w.releases
    ensures var now, album := TakeDown(w, r), w.releases[r].album;
            && now.releases[r].album.None?
            && forall a :: a in now.albums <==> a in w.albums && !(album == Some(a) && Exclusive(w, r, a))
  {
    var album := w.releases[r].album;
    if album.Some? {
      ExclusiveIff(w, r, album.value);
    }
    TakeDownRowKept(w, r);
    hide HasUnrelated;
  }

  // Songs.

  /** The release's cover is written to the song. */
  predicate TakesCover(release: Release, link: Link, song: Song) {
    release.cover != 0 && (release.kind == Single || link.inherits || song.cover == 0)
  }

  /** A published track: on the album, at its position, published, with the cover it inherits or its
      own; artist and plays stay. */
  lemma PublishedSongRow(w: World, r: nat, i: nat)
    requires r in w.releases && i < |w.releases[r].links| && w.releases[r].links[i].song in w.songs
    requires DistinctSongs(w.releases[r].links)
    ensures var now, release, link := Materialize(w, r), w.releases[r], w.releases[r].links[i];
            var was := w.songs[link.song];
            && link.song in now.songs
            && now.songs[link.song] ==
                 Song(was.artist, Published, now.releases[r].album, release.kind == Single, link.position,
                      if TakesCover(release, link, was) then release.cover else was.cover, was.accounting)
  {
    hide LinkOf, OwnAlbum, MarkLinks, BeforePublish;
    var link := w.releases[r].links[i];
    LinkOfAt(w.releases[r].links, i);
    MaterializeIsPublish(w, r);
    BeforePublishSong(w, r, link.song);
  }

  lemma BeforePublishSong(w: World, r: nat, song: nat)
    requires r in w.releases && song in w.songs
    ensures var before := BeforePublish(w, r).songs;
            song in before && before[song].artist == w.songs[song].artist && before[song].accounting == w.songs[song].accounting
  {
    hide LinkOf, OwnAlbum;
  }

  /** Its mark says afterwards that the cover came from the release, if it did. */
  lemma PublishedLinkRow(w: World, r: nat, i: nat)
    requires r in w.releases && i < |w.releases[r].links| && w.releases[r].links[i].song in w.songs
    requires DistinctSongs(w.releases[r].links)
    ensures var links, link := Materialize(w, r).releases[r].links, w.releases[r].links[i];
            && |links| == |w.releases[r].links|
            && links[i] == link.(inherits := link.inherits || TakesCover(w.releases[r], link, w.songs[link.song]))
  {
    hide LinkOf, OwnAlbum, PublishSongs, InheritingSongs;
    LinkOfAt(w.releases[r].links, i);
  }

  /** A track that is taken down: approved unless deleted, and off the release's album. */
  lemma TakenDownSongRow(w: World, r: nat, song: nat)
    requires r in w.releases && song in w.songs && Linked(w, r, song)
    ensures var was, album := w.songs[song], w.releases[r].album;
            var off := album.Some? && was.album == album;
            && song in TakeDown(w, r).songs
            && TakeDown(w, r).songs[song] ==
                 was.(status := if was.status == Deleted then Deleted else SongApproved,
                      album := if off then None else was.album,
                      isSingle := was.isSingle && !(off && !Exclusive(w, r, album.value)))
  {
    var album := w.releases[r].album;
    if album.Some? {
      ExclusiveIff(w, r, album.value);
    }
    hide LinkOf;
  }

  // The publishing job.

  /** A release that is due goes live with every one of its songs published; no other changes at all. */
  lemma PublishDueGoesLive(w: World, r: nat, now: nat)
    requires Invariant(w)
    ensures var after := PublishDue(w, r, now);
            if !Due(w, r, now) then after == w
            else
              && r in after.releases && after.releases[r].status == Live && after.releases[r].published
              && after.releases[r].lockVersion == w.releases[r].lockVersion + 1
              && after.releases[r].scheduledAt == w.releases[r].scheduledAt
              && (forall s :: Linked(w, r, s) ==> s in after.songs && after.songs[s].status == Published)
              && (w.releases[r].kind != Single ==>
                  forall s :: s in after.songs ==> (after.songs[s].album == after.releases[r].album <==> Linked(w, r, s)))
  {
    if Due(w, r, now) {
      InvariantParts(w, r);
      MaterializeRow(w, r);
      MaterializeStatuses(w, r);
      MaterializeIsLifecycle(w, r);
      LifecycleLinked(w, Materialize(w, r), r);
      hide Materialize, LinkOf, Lifecycle, Invariant, WellFormed, AlbumsExist, StatusesAre, TargetAlbum;
      forall s | Linked(w, r, s) ensures s in w.songs {
        LinkedMeansPresent(w, r, s);
      }
      forall s | s in w.songs && w.releases[r].kind != Single
        ensures Materialize(w, r).songs[s].album == Materialize(w, r).releases[r].album <==> Linked(w, r, s)
      {
        PublishedAlbumIsTheTracklist(w, r, s);
      }
    }
  }

  // Deleting.

  /** The admin's delete erases the release and exactly the songs no other release carries; whatever else
      was on its album keeps it, and without that the album goes too. Nothing else changes, except
      that other releases lose a reference to the deleted album. */
  lemma AdminDeleteErases(w: World, r: nat)
    requires Invariant(w) && r in w.releases
    ensures var now, album := AdminDelete(w, r), w.releases[r].album;
            && now.releases.Keys == w.releases.Keys - {r}
            && (forall q :: q in now.releases ==> Bystander(w.releases[q], now.releases[q]))
            && (forall s :: s in now.songs <==> s in w.songs && !Linked(w, r, s))
            && (forall s :: s in now.songs ==> now.songs[s] == w.songs[s])
            && (forall a :: a in now.albums <==> a in w.albums && !(album == Some(a) && Exclusive(w, r, a)))
  {
    var gone := set s | s in w.songs && LinkOf(w.releases[r].links, s).Some? && !LinkedElsewhere(w, r, s);
    forall s | s in w.songs ensures s in gone <==> Linked(w, r, s) {
      if LinkedElsewhere(w, r, s) {
        NotOnBoth(w, r, s);
      }
    }
    var erased, album := EraseRelease(EraseSongs(w, gone), r), w.releases[r].album;
    hide Invariant, LinkedElsewhere, Linked;
    assert forall s :: s in erased.songs <==> s in w.songs && !Linked(w, r, s);
    assert forall s :: s in erased.songs ==> erased.songs[s] == w.songs[s];
    if album.Some? && !Exclusive(w, r, album.value) {
      var s :| s in w.songs && w.songs[s].album == album && !Linked(w, r, s);
      assert erased.songs[s].album == album;
    }
    DropIfEmptySongs(erased, album);
    DropIfEmptyRows(erased, album);
    hide DropIfEmpty, AlbumIsEmpty;
  }

  lemma DropIfEmptySongs(w: World, album: Option<nat>)
    ensures DropIfEmpty(w, album).songs == w.songs
  {
    if album.Some? && AlbumIsEmpty(w, album.value) {
      forall s | s in w.songs ensures DropAlbum(w, album.value).songs[s] == w.songs[s] {
        assert w.songs[s].album != Some(album.value);
      }
    }
  }

  lemma DropIfEmptyRows(w: World, album: Option<nat>)
    ensures var now := DropIfEmpty(w, album);
            && now.releases.Keys == w.releases.Keys && (forall q :: q in w.releases ==> Bystander(w.releases[q], now.releases[q]))
            && now.albums == w.albums - (if album.Some? && AlbumIsEmpty(w, album.value) then {album.value} else {})
  {
    assert w.albums - {} == w.albums;
    hide AlbumIsEmpty;
  }

  /** The artist's delete ends the release exactly when none of its songs has to be kept; then its album
      goes too if nothing is left on it. Otherwise the release is down with the songs that are kept. */
  lemma ArtistDeleteEndsTheRelease(w: World, r: nat, v: Version)
    requires Invariant(w) && r in w.releases && Current(w.releases[r], v)
    requires !Stuck(Without(w.releases[r].links, Removable(w, r)), TrackPositions.ARTIST_OFFSET)
    ensures var now, release := ArtistDelete(w, r, v), w.releases[r];
            var ends := forall s :: s in w.songs && Linked(w, r, s) ==> Erasable(release, w.songs[s]);
            && (r !in now.releases <==> ends)
            && (forall q :: q in w.releases && q != r ==> q in now.releases && Bystander(w.releases[q], now.releases[q]))
            && (forall a :: a in now.albums <==> a in w.albums && !(ends && release.album == Some(a) && Exclusive(w, r, a)))
            && (forall s :: s in now.songs <==> s in w.songs && !(Linked(w, r, s) && Erasable(release, w.songs[s])))
  {
    hide Stuck, Without, Renumbered, LinkOf, DropIfEmpty, Removable, Detached, Current, Invariant;
    DetachedSongRows(w, r);
    var left := Without(w.releases[r].links, Removable(w, r));
    LeftIffPreserved(w, r);
    var erased, album := EraseRelease(Detached(w, r), r), w.releases[r].album;
    DropIfEmptySongs(erased, album);
    DropIfEmptyRows(erased, album);
    if left == [] {
      ErasedAlbumIsEmptyIff(w, r);
    }
  }

  /** A recording of a draft that was never played, published or deleted. */
  predicate Erasable(release: Release, song: Song) {
    release.status == Draft && song.status !in {Published, Deleted} && !song.accounting
  }

  lemma DetachedSongRows(w: World, r: nat)
    requires Invariant(w) && r in w.releases
    ensures var now := Detached(w, r);
            && now.releases == w.releases && now.albums == w.albums
            && (forall s :: s in now.songs <==> s in w.songs && !(Linked(w, r, s) && Erasable(w.releases[r], w.songs[s])))
            && (forall s :: s in now.songs ==> now.songs[s].album == w.songs[s].album)
  {
    forall s | s in w.songs && Linked(w, r, s) ensures !LinkedElsewhere(w, r, s) {
      if LinkedElsewhere(w, r, s) {
        NotOnBoth(w, r, s);
      }
    }
    hide Invariant, LinkedElsewhere, LinkOf;
  }

  lemma LeftIffPreserved(w: World, r: nat)
    requires Invariant(w) && r in w.releases
    ensures Without(w.releases[r].links, Removable(w, r)) == [] <==>
            forall s :: s in w.songs && Linked(w, r, s) ==> Erasable(w.releases[r], w.songs[s])
  {
    var links := w.releases[r].links;
    var left := Without(links, Removable(w, r));
    InvariantParts(w, r);
    WithoutKeeps(links, Removable(w, r));
    forall s | s in w.songs && Linked(w, r, s) ensures s in Removable(w, r) <==> Erasable(w.releases[r], w.songs[s]) {
      if LinkedElsewhere(w, r, s) {
        NotOnBoth(w, r, s);
      }
    }
    hide Invariant, LinkedElsewhere, LinkOf, Without, Removable;
    if left != [] {
      LinkOfFound(left, left[0].song);
      LinkedMeansPresent(w, r, left[0].song);
    } else {
      NothingLeft(left);
    }
  }

  lemma ErasedAlbumIsEmptyIff(w: World, r: nat)
    requires Invariant(w) && r in w.releases
    requires forall s :: s in w.songs && Linked(w, r, s) ==> Erasable(w.releases[r], w.songs[s])
    ensures forall a :: AlbumIsEmpty(EraseRelease(Detached(w, r), r), a) <==> Exclusive(w, r, a)
  {
    DetachedSongRows(w, r);
    hide Detached, Invariant, Linked, Erasable;
    var erased := EraseRelease(Detached(w, r), r);
    assert forall s :: s in erased.songs <==> s in w.songs && !Linked(w, r, s);
    forall a: nat ensures AlbumIsEmpty(erased, a) <==> Exclusive(w, r, a) {
      if !Exclusive(w, r, a) {
        var s :| s in w.songs && w.songs[s].album == Some(a) && !Linked(w, r, s);
        assert erased.songs[s].album == Some(a);
      }
    }
  }

  /** A soft song delete marks that song alone, and takes down exactly the releases that lose their last
      active track with it, unless they are drafts or down already. */
  lemma SoftDeleteMarksOne(w: World, song: nat)
    requires Invariant(w) && song in w.songs
    ensures var now := DeleteSong(w, song, false);
            && now.songs == w.songs[song := w.songs[song].(status := Deleted)] && now.albums == w.albums
            && now.releases.Keys == w.releases.Keys
            && forall q :: q in w.releases ==>
                 now.releases[q] ==
                   if Linked(w, q, song) && LosesLastTrack(w, w.releases[q], song) && w.releases[q].status !in {Draft, TakenDown}
                   then Recorded(w.releases[q], TakenDown) else w.releases[q]
  {
    hide LinkOf, Stuck, Without, Renumbered;
    var songs := w.songs[song := w.songs[song].(status := Deleted)];
    forall q | q in w.releases
      ensures NoActiveTrack(songs, w.releases[q].links) <==> LosesLastTrack(w, w.releases[q], song)
    {
      assert Fits(w, w.releases[q]);
    }
    hide Invariant, NoActiveTrack, LosesLastTrack;
  }

  /** A hard one erases that song and no other row of a song or album. */
  lemma HardDeleteErasesOne(w: World, song: nat)
    ensures var now := DeleteSong(w, song, true);
            && now.albums == w.albums
            && (now == w || (song !in now.songs && forall s :: s != song ==> (s in now.songs <==> s in w.songs)))
            && forall s :: s in now.songs ==> s in w.songs && now.songs[s] == w.songs[s]
  {
    hide LinkOf, Stuck, Without, Renumbered, TakenDownIfEmpty;
  }

  // Creating, adding and uploading.

  /** A created release is a draft of its kind without tracks, and nothing else changes. */
  lemma CreateAddsADraft(w: World, artist: nat, kind: Kind)
    requires Invariant(w)
    ensures var now, id := Create(w, artist, kind), w.nextRelease;
            && id !in w.releases && now.releases.Keys == w.releases.Keys + {id} && now.songs == w.songs && now.albums == w.albums
            && (forall q :: q in w.releases ==> now.releases[q] == w.releases[q])
            && var release := now.releases[id];
               release.artist == artist && release.kind == kind && release.status == Draft && release.links == [] && release.cover == 0
               && Current(release, Stated(1)) && release.history == [Row(None, Draft)]
  {
    hide LinkOf, TableHolds, NotShared;
  }


  /** The row of an added track: a draft, or pending in review, off every album; a copy has the artwork
      of its original but no plays, and is no single. */
  ghost predicate AddedRow(w: World, r: nat, song: nat, row: Song)
    requires r in w.releases && song in w.songs
  {
    var original := w.songs[song];
    && row.status == (if w.releases[r].status == InReview then Pending else SongDraft)
    && row.artist == original.artist && row.album.None? && row.trackNumber == original.trackNumber && row.cover == original.cover
    && (if Editable(w, r, song) then row.isSingle == original.isSingle && row.accounting == original.accounting
        else !row.isSingle && !row.accounting)
  }

  lemma {:induction false} AddWritesTheRows(w: World, r: nat, songs: seq<nat>, k: nat)
    requires r in w.releases && Distinct(songs) && k < |songs|
    requires forall i :: 0 <= i < |songs| ==> songs[i] < w.nextSong && songs[i] in w.songs
    ensures var now := AddAll(w, r, songs);
            |now.releases[r].links| == |w.releases[r].links| + |songs| && now.releases[r].status == w.releases[r].status
    ensures var now := AddAll(w, r, songs); var id := now.releases[r].links[|w.releases[r].links| + k].song;
            && id in now.songs && AddedRow(w, r, songs[k], now.songs[id])
            && (id == songs[k] || (w.nextSong <= id < now.nextSong && songs[k] in now.songs && now.songs[songs[k]] == w.songs[songs[k]]))
  {
    var front, last := songs[..|songs| - 1], songs[|songs| - 1];
    var mid := AddAll(w, r, front);
    AddedLength(w, r, front);
    AddedStatus(w, r, front);
    if k < |front| {
      AddWritesTheRows(w, r, front, k);
      assert last != songs[k];
      var id := mid.releases[r].links[|w.releases[r].links| + k].song;
      hide Editable, AddedRow;
      AddOneSpares(mid, r, last, id);
      AddOneSpares(mid, r, last, songs[k]);
    } else {
      AddKeepsEditable(w, r, front, last);
      hide LinkedElsewhere;
    }
  }

  lemma AddOneSpares(w: World, r: nat, added: nat, song: nat)
    requires r in w.releases && song != added && song < w.nextSong
    ensures var now := AddOne(w, r, added);
            (song in now.songs <==> song in w.songs) && (song in w.songs ==> now.songs[song] == w.songs[song])
  {
    hide Editable;
  }

  lemma {:induction false} AddedStatus(w: World, r: nat, songs: seq<nat>)
    requires r in w.releases
    ensures AddAll(w, r, songs).releases[r] == w.releases[r].(links := AddAll(w, r, songs).releases[r].links)
  {
    hide Editable;
    if songs != [] {
      AddedStatus(w, r, songs[..|songs| - 1]);
    }
  }

  /** An upload is refused outside a draft, for another version, or when the active tracks are as many as
      the kind allows. Otherwise a new draft recording without album becomes the last track, with the
      release's artwork if there is any, and the version rises. */
  lemma UploadAppendsOne(w: World, r: nat, v: Version)
    requires Invariant(w) && r in w.releases
    ensures var now, release, id := Upload(w, r, v), w.releases[r], w.nextSong;
            var active := ActiveCount(w, release.links);
            var full := active >= match release.kind case Single => 1 case EP => 7 case _ => 100;
            if release.status != Draft || !Current(release, v) || full then now == w
            else
              && r in now.releases && |now.releases[r].links| == |release.links| + 1
              && SongsIn(now.releases[r].links) == SongsIn(release.links) + [id] && id !in w.songs && id in now.songs
              && now.songs[id] == Song(release.artist, SongDraft, None, false, |release.links| + 1, release.cover, false)
              && now.releases[r] == release.(links := now.releases[r].links, lockVersion := release.lockVersion + 1)
  {
    hide Invariant, ActiveCount, LinkOf;
    InvariantIds(w);
    NextSongIsUnlinked(w, r);
    LinkOfAppended(w.releases[r].links, Link(w.nextSong, None, |w.releases[r].links| + 1, false), w.nextSong);
    var one := UploadOne(w, r);
    assert SongsIn(one.releases[r].links) == SongsIn(w.releases[r].links) + [w.nextSong];
    SyncSongs(one, r);
    assert LinkOf(one.releases[r].links, w.nextSong).Some?;
  }

  // Editing.

  /** A patched release: its kind and marks as asked for, its version one higher, its artwork passed on
      to the tracks that take it; nothing else about the row changes. */
  ghost predicate Patched(w: World, now: World, r: nat, kind: Option<Kind>, marks: map<nat, bool>)
    requires r in w.releases
  {
    var release := w.releases[r];
    && r in now.releases
    && now.releases[r] == release.(kind := kind.GetOr(release.kind), links := now.releases[r].links, lockVersion := release.lockVersion + 1)
    && |now.releases[r].links| == |release.links|
    && now.songs.Keys == w.songs.Keys
    && forall i :: 0 <= i < |release.links| && release.links[i].song in w.songs ==>
         var link, was := release.links[i], w.songs[release.links[i].song];
         var wanted := if link.song in marks then link.(inherits := marks[link.song]) else link;
         var takes := TakesCover(release.(kind := kind.GetOr(release.kind)), wanted, was);
         && now.releases[r].links[i] == wanted.(inherits := wanted.inherits || takes)
         && now.songs[link.song] == was.(cover := if takes then release.cover else was.cover, status := now.songs[link.song].status)
  }

  lemma EditedIsPatched(w: World, r: nat, kind: Option<Kind>, marks: map<nat, bool>)
    requires r in w.releases && DistinctSongs(w.releases[r].links)
    ensures Patched(w, SyncTracks(w.(releases := w.releases[r := Edited(w.releases[r], kind, marks, None)]), r), r, kind, marks)
  {
    var edited := w.(releases := w.releases[r := Edited(w.releases[r], kind, marks, None)]);
    var links := edited.releases[r].links;
    hide LinkOf;
    forall i | 0 <= i < |links| ensures LinkOf(links, links[i].song) == Some(links[i]) {
      LinkOfAt(links, i);
    }
  }

  lemma PendingIsPatched(w: World, now: World, r: nat, kind: Option<Kind>, marks: map<nat, bool>, statuses: set<Status>)
    requires r in w.releases && Patched(w, now, r, kind, marks)
    ensures Patched(w, PendingIf(now, r, statuses), r, kind, marks)
  {
    hide LinkOf, TakesCover;
  }

  /** The artist may patch a draft or a release in review with the current version, and not otherwise. */
  lemma ArtistPatchApplies(w: World, r: nat, kind: Option<Kind>, marks: map<nat, bool>, v: Version)
    requires Invariant(w) && r in w.releases
    ensures var now := ArtistPatch(w, r, kind, marks, v);
            if Current(w.releases[r], v) && w.releases[r].status in {Draft, InReview} then Patched(w, now, r, kind, marks)
            else now == w
  {
    InvariantParts(w, r);
    EditedIsPatched(w, r, kind, marks);
    var painted := SyncTracks(w.(releases := w.releases[r := Edited(w.releases[r], kind, marks, None)]), r);
    PendingIsPatched(w, painted, r, kind, marks, {InReview});
    hide Invariant, Patched, SyncArtwork, PendingIf, Edited;
  }

  /** The admin may patch the content until the release is scheduled; notes alone raise the version in
      any status. */
  lemma AdminPatchApplies(w: World, r: nat, content: bool, kind: Option<Kind>, marks: map<nat, bool>, v: Version)
    requires Invariant(w) && r in w.releases
    ensures var now := AdminPatch(w, r, content, kind, marks, v);
            if Current(w.releases[r], v) && (content ==> w.releases[r].status in {Draft, InReview, ChangesRequested, Approved})
            then Patched(w, now, r, if content then kind else None, if content then marks else map[])
            else now == w
  {
    InvariantParts(w, r);
    var k, m := if content then kind else None, if content then marks else map[];
    EditedIsPatched(w, r, k, m);
    var painted := SyncTracks(w.(releases := w.releases[r := Edited(w.releases[r], k, m, None)]), r);
    PendingIsPatched(w, painted, r, k, m, {InReview, ChangesRequested});
    hide Invariant, Patched, SyncArtwork, PendingIf, Edited;
  }

  /** Reopening for an edit needs a confirmation and a release past review; then it is in review again,
      without a schedule, with its songs pending. */
  lemma ReopenForEditRestartsReview(w: World, r: nat, confirmed: bool, v: Version)
    requires Invariant(w) && r in w.releases
    ensures var now := ReopenForEdit(w, r, confirmed, v);
            if !Current(w.releases[r], v) || w.releases[r].status in {Draft, InReview} || !confirmed then now == w
            else
              && r in now.releases && now.releases[r].status == InReview && now.releases[r].scheduledAt.None?
              && now.releases[r].lockVersion == w.releases[r].lockVersion + 1
              && now.releases[r].links == w.releases[r].links && StatusesAre(now, r, Pending)
  {
    InvariantParts(w, r);
    MarkForReviewIsLifecycle(w, r);
    hide Invariant, Lifecycle, StatusesAre, WellFormed, SharedLive, LinkOf;
  }

  /** Artwork is refused without a file, for another version, to an admin outside a draft, and without
      confirmation once review is over; otherwise it is the release's cover, and a release past
      review is in review again. */
  lemma ArtworkAppliesIff(w: World, r: nat, url: nat, confirmed: bool, admin: bool, v: Version)
    requires Invariant(w) && r in w.releases
    ensures var now, status := Artwork(w, r, url, confirmed, admin, v), w.releases[r].status;
            if url == 0 || !Current(w.releases[r], v) || (admin && status != Draft) || (status !in {Draft, InReview} && !confirmed)
            then now == w
            else
              && r in now.releases && now.releases[r].cover == url && now.releases[r].kind == w.releases[r].kind
              && now.releases[r].status == (if status == Draft then Draft else InReview)
              && now.releases[r].lockVersion > w.releases[r].lockVersion
              && SongsIn(now.releases[r].links) == SongsIn(w.releases[r].links)
  {
    var reviewed := if w.releases[r].status in {Draft, InReview} then w else MarkForReview(w, r);
    ReviewedRow(w, r);
    hide MarkForReview;
    var edited := reviewed.(releases := reviewed.releases[r := Edited(reviewed.releases[r], None, map[], Some(url))]);
    PaintedRow(edited, r, reviewed.releases[r].cover);
    assert SongsIn(edited.releases[r].links) == SongsIn(w.releases[r].links);
    hide Invariant, SyncArtwork, PendingIf, SongsIn;
  }

  lemma ReviewedRow(w: World, r: nat)
    requires r in w.releases
    ensures var now := MarkForReview(w, r).releases[r];
            && now.status == InReview && now.links == w.releases[r].links && now.kind == w.releases[r].kind
            && now.lockVersion == w.releases[r].lockVersion + 1
  {
    hide SharedLive, LinkOf;
  }

  lemma PaintedRow(w: World, r: nat, previousCover: nat)
    requires r in w.releases
    ensures var painted := SyncArtwork(w, r, previousCover);
            && painted.releases[r] == w.releases[r].(links := painted.releases[r].links)
            && SongsIn(painted.releases[r].links) == SongsIn(w.releases[r].links)
            && PendingIf(painted, r, {InReview}).releases == painted.releases
  {
    hide LinkOf;
  }

  /** The admin's removal changes no song, and raises the version. */
  lemma AdminRemoveKeepsSongs(w: World, r: nat, gone: set<nat>, v: Version)
    requires r in w.releases
    ensures var now := AdminRemoveTracks(w, r, gone, v);
            && now.songs == w.songs && now.albums == w.albums
            && (now == w || (w.releases[r].status == Draft && Current(w.releases[r], v) &&
                now.releases == w.releases[r := w.releases[r].(links := now.releases[r].links, lockVersion := w.releases[r].lockVersion + 1)]))
  {
    hide Stuck, Without, Renumbered, LinkOf;
  }

  // Versions.

  /** The requests that edit a release's own data, all of which say which version they are about. */
  predicate Edits(e: Event) {
    e.AddEvent? || e.UploadEvent? || e.ReorderEvent? || e.RemoveEvent? || e.AdminRemoveEvent? || e.ArtistPatchEvent?
    || e.AdminPatchEvent? || e.ReopenForEditEvent? || e.ArtworkEvent?
  }

  predicate Versioned(e: Event) {
    Edits(e) || e.ValidateEvent? || e.SubmitEvent? || e.ActEvent? || e.ArtistDeleteEvent?
  }

  /** A client with another version changes nothing, whatever it asks for. */
  lemma StaleVersionChangesNothing(w: World, e: Event)
    requires Versioned(e) && e.release in w.releases && !Current(w.releases[e.release], e.version)
    ensures Step(w, e) == w
  {
    hide Current, LinkOf;
  }

  /** Where a tracklist may be edited: in a draft, by the artist also in review. Removals by the artist
      are allowed in every status. */
  lemma LockedTracklistStays(w: World, e: Event)
    requires e.AddEvent? || e.UploadEvent? || e.ReorderEvent? || e.AdminRemoveEvent?
    requires e.release in w.releases
    requires var status := w.releases[e.release].status;
             status != Draft && (e.UploadEvent? || e.AdminRemoveEvent? || e.admin || status != InReview)
    ensures Step(w, e) == w
  {
    hide LinkOf, Current;
  }

  /** An edit that changes anything raises the version, so that every other client has to look again,
      with one exception: a removal that leaves a release that is down already without active tracks. */
  lemma EditsRaiseTheVersion(w: World, e: Event)
    requires Invariant(w) && Edits(e) && e.release in w.releases && e.release in Step(w, e).releases && Step(w, e) != w
    ensures w.releases[e.release].lockVersion < Step(w, e).releases[e.release].lockVersion <==>
            !(e.RemoveEvent? && w.releases[e.release].status == TakenDown && !KeepsActiveTrack(w, w.releases[e.release], e.songs))
  {
    hide Invariant, Current, LinkOf, AddAll, SyncArtwork, Candidates, ActiveCount, Stuck, Without, Renumbered, Ordered,
      WithStatus, SharedLive, DropIfEmpty, NoActiveTrack, KeepsActiveTrack, Released, LeftLinks, Unlink, PositionsIn, TrackPositions.Collides,
      Artwork, ArtistPatch, AdminPatch, ReopenForEdit, Patched, StatusesAre, Reorder, Add, Upload, RemoveTracks, AdminRemoveTracks;
    match e
    case AddEvent(r, ids, admin, v) => AddRaises(w, r, ids, admin, v);
    case UploadEvent(r, v) => UploadAppendsOne(w, r, v);
    case ReorderEvent(r, ids, admin, v) => ReorderRaises(w, r, ids, admin, v);
    case RemoveEvent(r, songs, deleteEmpty, v) => RemovalRaises(w, r, songs, deleteEmpty, v);
    case AdminRemoveEvent(r, songs, v) => AdminRemoveKeepsSongs(w, r, songs, v);
    case ArtistPatchEvent(r, kind, marks, v) => PatchRaises(w, r, false, kind, marks, v);
    case AdminPatchEvent(r, content, kind, marks, v) => PatchRaises(w, r, content, kind, marks, v);
    case ReopenForEditEvent(r, confirmed, v) => ReopenForEditRestartsReview(w, r, confirmed, v);
    case ArtworkEvent(r, url, confirmed, admin, v) => ArtworkAppliesIff(w, r, url, confirmed, admin, v);
    case _ =>
  }

  /** An EP with one upload that an admin took down. */
  function DownEp(): World {
    World(map[0 := Uploaded(SongApproved, 1, 0)], {},
          map[0 := Recorded(Drafted([Link(0, None, 1, false)], 0, 2), TakenDown)], 1, 0, 1)
  }

  lemma DownEpIsReachable()
    ensures Reachable(DownEp())
  {
    hide Reachable, Upload, Create;
    var w := World(map[0 := Uploaded(SongDraft, 1, 0)], {}, map[0 := Drafted([Link(0, None, 1, false)], 0, 2)], 1, 0, 1);
    StartIsReachable();
    FirstUpload();
    ReachableStep(EMPTY, CreateEvent(0, EP));
    ReachableStep(Create(EMPTY, 0, EP), UploadEvent(0, Unstated));
    ReachableStep(w, SetFromAdminEvent(0, TakenDown, true, None, 0));
    OneLink(Link(0, None, 1, false));
    hide LinkOf;
    assert SyncTracks(w, 0) == w;
    assert WithStatus(w, 0, SongApproved).songs == DownEp().songs;
    assert Step(w, SetFromAdminEvent(0, TakenDown, true, None, 0)).releases == DownEp().releases;
  }

  lemma OneLink(link: Link)
    ensures forall s :: LinkOf([link], s) == if s == link.song then Some(link) else None
  {
    forall s: nat ensures LinkOf([link], s) == if s == link.song then Some(link) else None {
      LinkOfAppended([], link, s);
      assert [] + [link] == [link];
    }
  }

  /** That exception in a reachable state: an EP that an admin took down loses its only track, and the
      version a client has seen before is accepted afterwards. */
  lemma EmptyingKeepsTheVersion()
    ensures exists w: World, e :: Reachable(w) && Edits(e) && e.release in w.releases && e.release in Step(w, e).releases
              && Step(w, e) != w && Step(w, e).releases[e.release].lockVersion == w.releases[e.release].lockVersion
  {
    hide Reachable, RemoveTracks, Invariant, Stuck, Without;
    var w, e := DownEp(), RemoveEvent(0, {0}, false, Unstated);
    DownEpIsReachable();
    ReachableHolds(w);
    RemovalIsNeverStuck(w, 0, {0}, TrackPositions.ARTIST_OFFSET);
    OneLink(Link(0, None, 1, false));
    hide LinkOf;
    assert Linked(w, 0, 0);
    RemovalTakesExactlyTheRequested(w, 0, {0}, false, Unstated, 0);
    RemovalRaises(w, 0, {0}, false, Unstated);
    assert !KeepsActiveTrack(w, w.releases[0], {0});
    assert Step(w, e) == RemoveTracks(w, 0, {0}, false, Unstated);
  }

  lemma PatchRaises(w: World, r: nat, content: bool, kind: Option<Kind>, marks: map<nat, bool>, v: Version)
    requires Invariant(w) && r in w.releases
    ensures var now := ArtistPatch(w, r, kind, marks, v);
            now != w ==> r in now.releases && now.releases[r].lockVersion == w.releases[r].lockVersion + 1
    ensures var now := AdminPatch(w, r, content, kind, marks, v);
            now != w ==> r in now.releases && now.releases[r].lockVersion == w.releases[r].lockVersion + 1
  {
    ArtistPatchApplies(w, r, kind, marks, v);
    AdminPatchApplies(w, r, content, kind, marks, v);
    hide ArtistPatch, AdminPatch, Invariant, TakesCover;
  }

  lemma SyncTouchRaises(w: World, r: nat)
    requires r in w.releases
    ensures var now := Touch(SyncTracks(w, r), r);
            now.releases[r] == w.releases[r].(links := now.releases[r].links, lockVersion := w.releases[r].lockVersion + 1)
            && SongsIn(now.releases[r].links) == SongsIn(w.releases[r].links)
  {
    hide LinkOf;
  }

  lemma AddRaises(w: World, r: nat, ids: seq<nat>, admin: bool, v: Version)
    requires r in w.releases
    ensures var now := Add(w, r, ids, admin, v);
            now != w ==> r in now.releases && now.releases[r].lockVersion == w.releases[r].lockVersion + 1
  {
    hide AddAll, SyncArtwork, Candidates, Touch, LinkOf;
    var chosen := Candidates(w.releases[r].links, Dedupe(ids));
    AddedStatus(w, r, chosen);
    SyncTouchRaises(AddAll(w, r, chosen), r);
  }

  lemma ReorderRaises(w: World, r: nat, ids: seq<nat>, admin: bool, v: Version)
    requires r in w.releases
    ensures var now := Reorder(w, r, ids, admin, v);
            now != w ==> r in now.releases && now.releases[r].lockVersion == w.releases[r].lockVersion + 1
  {
    hide SyncArtwork, LinkOf, TrackPositions.Collides, PositionsIn, Ordered, Touch;
    var links, order := w.releases[r].links, Dedupe(ids);
    if forall k :: 0 <= k < |order| ==> LinkOf(links, order[k]).Some? {
      SyncTouchRaises(WithLinks(w, r, Ordered(links, order)), r);
    }
  }

  lemma RemovalRaises(w: World, r: nat, gone: set<nat>, deleteEmpty: bool, v: Version)
    requires Invariant(w) && r in w.releases
    ensures var now, release := RemoveTracks(w, r, gone, deleteEmpty, v), w.releases[r];
            now != w && r in now.releases ==>
              now.releases[r].lockVersion ==
                release.lockVersion + if release.status == TakenDown && !KeepsActiveTrack(w, release, gone) then 0 else 1
  {
    hide Invariant, Stuck, NoActiveTrack, KeepsActiveTrack, Unlink, DropIfEmpty, Without;
    UnlinkedRow(w, r, gone);
    DropIfEmptyKeeps(Unlink(w, r, gone), r, w.releases[r].album);
  }

  /** The artist's removal, when the database accepts the new positions, deletes the release's album
      exactly when nothing is left on it, and no other. */
  lemma RemovalDropsEmptyAlbum(w: World, r: nat, gone: set<nat>, deleteEmpty: bool, v: Version)
    requires Invariant(w) && r in w.releases && gone != {} && Current(w.releases[r], v)
    requires !Stuck(Without(w.releases[r].links, gone), TrackPositions.ARTIST_OFFSET)
    ensures var now, album := RemoveTracks(w, r, gone, deleteEmpty, v), w.releases[r].album;
            forall a :: a in now.albums <==>
              a in w.albums && !(album == Some(a) && forall s :: s in w.songs && w.songs[s].album == album ==> Linked(w, r, s) && s in gone)
  {
    hide *;
    RemovalAlbums(w, r, gone, deleteEmpty, v);
    if w.releases[r].album.Some? {
      UnlinkedAlbumIsEmptyIff(w, r, gone, w.releases[r].album.value);
    }
  }

  lemma RemovalAlbums(w: World, r: nat, gone: set<nat>, deleteEmpty: bool, v: Version)
    requires r in w.releases && gone != {} && Current(w.releases[r], v)
    requires !Stuck(Without(w.releases[r].links, gone), TrackPositions.ARTIST_OFFSET)
    ensures var album := w.releases[r].album;
            RemoveTracks(w, r, gone, deleteEmpty, v).albums ==
              w.albums - (if album.Some? && AlbumIsEmpty(Unlink(w, r, gone), album.value) then {album.value} else {})
  {
    hide Stuck, NoActiveTrack, DropIfEmpty, Without, Released, LeftLinks, AlbumIsEmpty;
    DropIfEmptyRows(Unlink(w, r, gone), w.releases[r].album);
  }

  lemma UnlinkedAlbumIsEmptyIff(w: World, r: nat, gone: set<nat>, album: nat)
    requires r in w.releases && w.releases[r].album == Some(album)
    ensures AlbumIsEmpty(Unlink(w, r, gone), album) <==>
            forall s :: s in w.songs && w.songs[s].album == w.releases[r].album ==> Linked(w, r, s) && s in gone
  {
    hide Released, LeftLinks, Linked;
    ReleasedStatuses(w, r, gone);
    assert Unlink(w, r, gone).songs == Released(w, r, gone);
    forall s | s in w.songs ensures s in Released(w, r, gone) && (Released(w, r, gone)[s].album == Some(album) <==>
        w.songs[s].album == Some(album) && !(Linked(w, r, s) && s in gone))
    {
      ReleasedAlbum(w, r, gone, s);
    }
  }

  lemma ReleasedAlbum(w: World, r: nat, gone: set<nat>, song: nat)
    requires r in w.releases && song in w.songs
    ensures var songs, album := Released(w, r, gone), w.releases[r].album;
            && song in songs
            && (songs[song].album == album <==> w.songs[song].album == album && (album.Some? ==> !(Linked(w, r, song) && song in gone)))
  {
    hide LinkedElsewhere, LinkOf;
  }

  /** An addition needs a draft, or for the artist a release in review, songs of the release's artist that
      are not deleted, and room for those that are not on the tracklist yet, themselves or as a copy. */
  predicate MayAdd(w: World, r: nat, ids: seq<nat>, chosen: seq<nat>, admin: bool, v: Version)
    requires r in w.releases
  {
    var release := w.releases[r];
    && Current(release, v) && (release.status == Draft || (!admin && release.status == InReview))
    && (forall id :: id in ids ==> id in w.songs && w.songs[id].artist == release.artist && w.songs[id].status != Deleted)
    && |release.links| + |chosen| <= (if admin && release.kind == Single then 1 else if admin && release.kind == EP then 7 else 100)
    && chosen != []
  }

  lemma AddIsGuarded(w: World, r: nat, ids: seq<nat>, admin: bool, v: Version)
    requires r in w.releases
    ensures var chosen := Candidates(w.releases[r].links, Dedupe(ids));
            Add(w, r, ids, admin, v) == if MayAdd(w, r, ids, chosen, admin, v) then Touch(SyncTracks(AddAll(w, r, chosen), r), r) else w
  {
    hide AddAll, SyncArtwork, Touch, LinkOf, Current;
    var unique := Dedupe(ids);
    assert forall i :: 0 <= i < |unique| ==> unique[i] in ids;
  }

  ghost predicate GivenBefore(ids: seq<nat>, x: nat, y: nat) {
    exists a, b :: 0 <= a < b < |ids| && ids[a] == x && ids[b] == y
  }

  /** The candidates are the requested songs that are new to the tracklist, in the order they were given. */
  lemma {:induction false} CandidatesMean(links: seq<Link>, ids: seq<nat>)
    requires Distinct(ids)
    ensures forall x :: x in Candidates(links, ids) <==>
              x in ids && LinkOf(links, x).None? && forall i :: 0 <= i < |links| ==> links[i].source != Some(x)
    ensures forall i, j :: 0 <= i < j < |Candidates(links, ids)| ==> GivenBefore(ids, Candidates(links, ids)[i], Candidates(links, ids)[j])
  {
    if ids != [] {
      var front, last := ids[..|ids| - 1], ids[|ids| - 1];
      assert ids == front + [last];
      CandidatesMean(links, front);
      hide LinkOf;
      var before, after := Candidates(links, front), Candidates(links, ids);
      forall i, j | 0 <= i < j < |after|
        ensures GivenBefore(ids, after[i], after[j])
      {
        if j < |before| {
          assert GivenBefore(front, before[i], before[j]);
          var a, b :| 0 <= a < b < |front| && front[a] == before[i] && front[b] == before[j];
          assert ids[a] == after[i] && ids[b] == after[j];
        } else {
          assert before[i] in front;
          var a :| 0 <= a < |front| && front[a] == before[i];
          assert ids[a] == after[i] && ids[|front|] == after[j];
        }
      }
    }
  }

  /** What a request to add songs makes of the release: nothing unless it may; otherwise one more track for
      every candidate, behind the tracks there were, and a higher version. */
  lemma AddAppliesIff(w: World, r: nat, ids: seq<nat>, admin: bool, v: Version)
    requires Invariant(w) && r in w.releases
    ensures var now, release, chosen := Add(w, r, ids, admin, v), w.releases[r], Candidates(w.releases[r].links, Dedupe(ids));
            if !MayAdd(w, r, ids, chosen, admin, v) then now == w
            else
              && r in now.releases && |now.releases[r].links| == |release.links| + |chosen|
              && now.releases[r] == release.(links := now.releases[r].links, lockVersion := release.lockVersion + 1)
              && SongsIn(release.links) <= SongsIn(now.releases[r].links)
              && forall k :: 0 <= k < |chosen| ==>
                   NewTrack(w, r, chosen[k], now.releases[r].links[|release.links| + k], |release.links| + k + 1)
  {
    var links, chosen := w.releases[r].links, Candidates(w.releases[r].links, Dedupe(ids));
    AddIsGuarded(w, r, ids, admin, v);
    if MayAdd(w, r, ids, chosen, admin, v) {
      CandidatesAreNew(links, Dedupe(ids));
      InvariantIds(w);
      forall i | 0 <= i < |chosen| ensures chosen[i] < w.nextSong {
        assert chosen[i] in Dedupe(ids) && chosen[i] in ids;
      }
      AddedTracks(w, r, chosen);
    }
    hide *;
  }

  lemma AddedTracks(w: World, r: nat, chosen: seq<nat>)
    requires r in w.releases && Distinct(chosen) && forall i :: 0 <= i < |chosen| ==> chosen[i] < w.nextSong
    ensures var now, release := Touch(SyncTracks(AddAll(w, r, chosen), r), r), w.releases[r];
            && |now.releases[r].links| == |release.links| + |chosen|
            && now.releases[r] == release.(links := now.releases[r].links, lockVersion := release.lockVersion + 1)
            && SongsIn(release.links) <= SongsIn(now.releases[r].links)
            && forall k :: 0 <= k < |chosen| ==>
                 NewTrack(w, r, chosen[k], now.releases[r].links[|release.links| + k], |release.links| + k + 1)
  {
    hide AddAll, SyncArtwork, Touch, LinkOf, Editable;
    var links, added := w.releases[r].links, AddAll(w, r, chosen);
    var now := Touch(SyncTracks(added, r), r);
    AddedStatus(w, r, chosen);
    AddedLength(w, r, chosen);
    SyncTouchTracks(added, r);
    assert forall i :: 0 <= i < |links| ==> added.releases[r].links[i] == links[i];
    forall k | 0 <= k < |chosen| ensures NewTrack(w, r, chosen[k], now.releases[r].links[|links| + k], |links| + k + 1) {
      AddAppendsInOrder(w, r, chosen, k);
    }
  }

  /** The new link, except for the mark it may have taken with the artwork. */
  ghost predicate NewTrack(w: World, r: nat, song: nat, link: Link, position: nat) {
    && link.position == position
    && if Editable(w, r, song) then link.song == song && link.source.None?
       else link.source == Some(song) && w.nextSong <= link.song
  }

  lemma SyncTouchTracks(w: World, r: nat)
    requires r in w.releases
    ensures var now := Touch(SyncTracks(w, r), r);
            now.releases[r] == w.releases[r].(links := now.releases[r].links, lockVersion := w.releases[r].lockVersion + 1)
            && |now.releases[r].links| == |w.releases[r].links|
            && forall i :: 0 <= i < |w.releases[r].links| ==>
                 now.releases[r].links[i] == w.releases[r].links[i].(inherits := now.releases[r].links[i].inherits)
  {
    hide LinkOf;
  }
}
