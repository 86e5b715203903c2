/** Requests that create, change or delete tracklists keep the invariant too. */
module ReleaseTracklists {
  import opened Options
  import opened Sequences
  import opened Releases
  import opened ReleaseFrames
  import opened ReleaseSafety
  import opened ReleaseRequests
  import TrackPositions

  // Changing one tracklist.

  /** The songs of the changed tracklist were on no other one. */
  ghost predicate TakesOwn(w: World, now: World, r: nat) {
    forall s :: Linked(now, r, s) ==> !LinkedElsewhere(w, r, s)
  }

  ghost predicate IdsBelow(w: World) {
    (forall s :: s in w.songs ==> s < w.nextSong) && (forall q :: q in w.releases ==> q < w.nextRelease)
  }

  lemma InvariantIds(w: World)
    requires Invariant(w)
    ensures IdsBelow(w)
  {
  }

  lemma RelinkIsSound(w: World, now: World, r: nat)
    requires Invariant(w) && Local(w, now, r) && now.releases.Keys <= w.releases.Keys
    requires AlbumsExist(now) && IdsBelow(now) && TakesOwn(w, now, r)
    requires r in now.releases ==> Fits(now, now.releases[r]) && StatusesAre(now, r, Table(now.releases[r].status))
    ensures Sound(w, now, r)
  {
    hide AlbumsExist, Table;
    forall q | q in now.releases && q != r
      ensures Fits(now, now.releases[q]) && StatusesAre(now, q, Table(now.releases[q].status))
    {
      OtherStaysFit(w, now, r, q);
    }
    forall p, q, s | Linked(now, p, s) && Linked(now, q, s) ensures p == q {
      if p != q {
        OnlyOneOwner(w, now, r, p, q, s);
      }
    }
  }

  lemma OtherStaysFit(w: World, now: World, r: nat, q: nat)
    requires Invariant(w) && Local(w, now, r) && now.releases.Keys <= w.releases.Keys
    requires q in now.releases && q != r
    ensures Fits(now, now.releases[q]) && StatusesAre(now, q, Table(now.releases[q].status))
  {
    assert Fits(w, w.releases[q]) && StatusesAre(w, q, Table(w.releases[q].status));
    var links := w.releases[q].links;
    hide Invariant, Table, Connected;
    assert Bystander(w.releases[q], now.releases[q]);
    forall i | 0 <= i < |links| ensures links[i].song in now.songs {
      LinkOfFound(links, links[i].song);
      assert LinkedElsewhere(w, r, links[i].song);
    }
    forall s | s in now.songs && Linked(now, q, s)
      ensures now.songs[s].status == Deleted || now.songs[s].status == Table(now.releases[q].status)
    {
      LinkOfFound(links, s);
      assert Linked(w, q, s) && LinkedElsewhere(w, r, s);
    }
  }

  lemma OnlyOneOwner(w: World, now: World, r: nat, p: nat, q: nat, s: nat)
    requires Invariant(w) && Local(w, now, r) && now.releases.Keys <= w.releases.Keys && TakesOwn(w, now, r)
    requires p != q && Linked(now, p, s)
    ensures !Linked(now, q, s)
  {
    if Linked(now, q, s) {
      assert p != r ==> Linked(w, p, s);
      assert q != r ==> Linked(w, q, s);
      assert p == r ==> LinkedElsewhere(w, r, s);
      assert q == r ==> LinkedElsewhere(w, r, s);
      assert false;
    }
  }

  lemma LinkedMeansPresent(w: World, r: nat, s: nat)
    requires Invariant(w) && Linked(w, r, s)
    ensures s in w.songs && s < w.nextSong
  {
    LinkOfFound(w.releases[r].links, s);
    assert Fits(w, w.releases[r]);
  }

  lemma ElsewhereMeansPresent(w: World, r: nat, s: nat)
    requires Invariant(w) && LinkedElsewhere(w, r, s)
    ensures s in w.songs && s < w.nextSong
  {
    var q :| q in w.releases && q != r && LinkOf(w.releases[q].links, s).Some?;
    LinkedMeansPresent(w, q, s);
  }

  lemma LinkOfAppended(links: seq<Link>, link: Link, s: nat)
    ensures LinkOf(links + [link], s) == if link.song == s then Some(link) else LinkOf(links, s)
  {
    assert (links + [link])[..|links|] == links;
  }

  ghost predicate MayAppend(w: World, r: nat, id: nat, song: Song, nextSong: nat) {
    && r in w.releases && !Linked(w, r, id) && !LinkedElsewhere(w, r, id)
    && w.nextSong <= nextSong && id < nextSong
    && AlbumExists(song.album, w.albums) && song.status == Table(w.releases[r].status)
  }

  lemma AppendLinks(w: World, r: nat, id: nat, song: Song, source: Option<nat>, nextSong: nat, s: nat)
    requires r in w.releases
    ensures Linked(Append(w, r, id, song, source, nextSong), r, s) <==> s == id || Linked(w, r, s)
  {
    var links := w.releases[r].links;
    LinkOfAppended(links, Link(id, source, |links| + 1, false), s);
  }

  lemma AppendFits(w: World, r: nat, id: nat, song: Song, source: Option<nat>, nextSong: nat)
    requires Invariant(w) && MayAppend(w, r, id, song, nextSong)
    ensures var now := Append(w, r, id, song, source, nextSong); Fits(now, now.releases[r])
  {
    assert Fits(w, w.releases[r]);
    LinkOfFound(w.releases[r].links, id);
    hide Invariant, Connected, LinkOf;
  }

  lemma AppendStatuses(w: World, r: nat, id: nat, song: Song, source: Option<nat>, nextSong: nat)
    requires Invariant(w) && MayAppend(w, r, id, song, nextSong)
    ensures var now := Append(w, r, id, song, source, nextSong);
            StatusesAre(now, r, Table(now.releases[r].status)) && TakesOwn(w, now, r)
  {
    var now := Append(w, r, id, song, source, nextSong);
    InvariantParts(w, r);
    hide Invariant, Table, LinkOf, WellFormed;
    forall s | Linked(now, r, s)
      ensures !LinkedElsewhere(w, r, s)
      ensures s in now.songs ==> now.songs[s].status == Deleted || now.songs[s].status == Table(now.releases[r].status)
    {
      AppendLinks(w, r, id, song, source, nextSong, s);
      if s != id && LinkedElsewhere(w, r, s) {
        NotOnBoth(w, r, s);
      }
    }
  }

  lemma AppendAlbums(w: World, r: nat, id: nat, song: Song, source: Option<nat>, nextSong: nat)
    requires AlbumsExist(w) && MayAppend(w, r, id, song, nextSong)
    ensures AlbumsExist(Append(w, r, id, song, source, nextSong))
  {
    hide LinkOf, Linked, LinkedElsewhere;
  }

  lemma AppendLocal(w: World, r: nat, id: nat, song: Song, source: Option<nat>, nextSong: nat)
    requires Invariant(w) && MayAppend(w, r, id, song, nextSong)
    ensures var now := Append(w, r, id, song, source, nextSong); Local(w, now, r) && AlbumsExist(now) && IdsBelow(now)
  {
    hide LinkOf, Invariant, AlbumsExist, Linked, LinkedElsewhere, Table, AlbumExists;
    InvariantParts(w, r);
    InvariantIds(w);
    AppendAlbums(w, r, id, song, source, nextSong);
  }

  /** A new last track: a song that is on no tracklist, with the status the release calls for. */
  lemma AppendIsSound(w: World, r: nat, id: nat, song: Song, source: Option<nat>, nextSong: nat)
    requires Invariant(w) && MayAppend(w, r, id, song, nextSong)
    ensures Sound(w, Append(w, r, id, song, source, nextSong), r)
  {
    AppendFits(w, r, id, song, source, nextSong);
    AppendStatuses(w, r, id, song, source, nextSong);
    AppendLocal(w, r, id, song, source, nextSong);
    hide Invariant, Sound, Local, AlbumsExist, Fits, IdsBelow, StatusesAre, TakesOwn;
    RelinkIsSound(w, Append(w, r, id, song, source, nextSong), r);
  }

  lemma NextSongIsUnlinked(w: World, r: nat)
    requires Invariant(w)
    ensures !Linked(w, r, w.nextSong) && !LinkedElsewhere(w, r, w.nextSong)
  {
    if Linked(w, r, w.nextSong) {
      LinkedMeansPresent(w, r, w.nextSong);
    }
    if LinkedElsewhere(w, r, w.nextSong) {
      ElsewhereMeansPresent(w, r, w.nextSong);
    }
  }

  lemma AddOneIsSound(w: World, r: nat, song: nat)
    requires Invariant(w) && r in w.releases && w.releases[r].status in {Draft, InReview}
    requires !Linked(w, r, song)
    ensures Sound(w, AddOne(w, r, song), r)
  {
    hide Invariant, Sound, LinkOf, Linked, LinkedElsewhere, Append;
    NextSongIsUnlinked(w, r);
    AddedAlbumExists(w, r, song);
    var pending := w.releases[r].status == InReview;
    if Editable(w, r, song) {
      var added := w.songs[song];
      AppendIsSound(w, r, song, if pending then added.(status := Pending) else added, None, w.nextSong);
    } else {
      var added := Duplicate(w.songs, song);
      AppendIsSound(w, r, w.nextSong, if pending then added.(status := Pending) else added, Some(song), w.nextSong + 1);
    }
  }

  lemma AddedAlbumExists(w: World, r: nat, song: nat)
    requires Invariant(w)
    ensures Editable(w, r, song) ==> song < w.nextSong && AlbumExists(w.songs[song].album, w.albums)
    ensures AlbumExists(Duplicate(w.songs, song).album, w.albums)
  {
  }

  lemma {:induction false} AddAllIsSound(w: World, r: nat, songs: seq<nat>)
    requires Invariant(w) && r in w.releases && w.releases[r].status in {Draft, InReview}
    requires Distinct(songs)
    requires forall i :: 0 <= i < |songs| ==> !Linked(w, r, songs[i]) && songs[i] < w.nextSong
    ensures var now := AddAll(w, r, songs);
            && Sound(w, now, r) && now.releases[r].status == w.releases[r].status && w.nextSong <= now.nextSong
            && forall s: nat :: Linked(now, r, s) && s < w.nextSong ==> Linked(w, r, s) || s in songs
  {
    if songs == [] {
      IdleIsSound(w, r);
    } else {
      var front, last := songs[..|songs| - 1], songs[|songs| - 1];
      AddAllIsSound(w, r, front);
      var mid := AddAll(w, r, front);
      assert !Linked(w, r, last) && last !in front;
      SoundParts(w, mid, r);
      AddOneIsSound(mid, r, last);
      var now := AddOne(mid, r, last);
      hide Invariant, Sound, AddOne, Linked;
      SoundThen(w, mid, now, r);
      AddOneRow(mid, r, last);
      forall s: nat | Linked(now, r, s) && s < w.nextSong ensures Linked(w, r, s) || s in songs {
        AddOneLinks(mid, r, last, s);
        assert s in front ==> s in songs;
      }
    }
  }

  lemma AddOneLinks(w: World, r: nat, song: nat, s: nat)
    requires r in w.releases && Linked(AddOne(w, r, song), r, s)
    ensures Linked(w, r, s) || s == song || s == w.nextSong
  {
    var own := Editable(w, r, song);
    var added := if own then w.songs[song] else Duplicate(w.songs, song);
    AppendLinks(w, r, if own then song else w.nextSong,
                if w.releases[r].status == InReview then added.(status := Pending) else added,
                if own then None else Some(song), if own then w.nextSong else w.nextSong + 1, s);
  }

  lemma AddOneRow(w: World, r: nat, song: nat)
    requires r in w.releases
    ensures AddOne(w, r, song).releases[r].status == w.releases[r].status && w.nextSong <= AddOne(w, r, song).nextSong
  {
  }

  lemma {:induction false} CandidatesAreNew(links: seq<Link>, ids: seq<nat>)
    requires Distinct(ids)
    ensures Distinct(Candidates(links, ids))
    ensures forall i :: 0 <= i < |Candidates(links, ids)| ==> Candidates(links, ids)[i] in ids && LinkOf(links, Candidates(links, ids)[i]).None?
  {
    if ids != [] {
      var front, last := ids[..|ids| - 1], ids[|ids| - 1];
      CandidatesAreNew(links, front);
      assert last !in front;
      DistinctStep(Candidates(links, front), last);
      assert forall x :: x in front ==> x in ids;
    }
  }

  lemma SyncTouchIsSound(w: World, mid: World, r: nat)
    requires Sound(w, mid, r) && r in mid.releases
    ensures Sound(w, Touch(SyncTracks(mid, r), r), r)
  {
    SoundParts(w, mid, r);
    SyncIsSound(mid, r);
    var synced := SyncTracks(mid, r);
    SoundParts(mid, synced, r);
    TouchIsSound(synced, r);
    hide Invariant, Sound, SyncArtwork, Touch;
    SoundThen(w, mid, synced, r);
    SoundThen(w, synced, Touch(synced, r), r);
  }

  lemma TouchIsSound(w: World, r: nat)
    requires Invariant(w) && r in w.releases
    ensures Sound(w, Touch(w, r), r)
  {
    InvariantParts(w, r);
    TouchIsLifecycle(w, r);
    var now := Touch(w, r);
    LifecycleLinked(w, now, r);
    assert StatusesAre(now, r, Table(now.releases[r].status));
    hide Invariant, Lifecycle, AlbumsExist, Connected;
    MovesIsSound(w, now, r);
  }

  lemma AddIsSound(w: World, r: nat, ids: seq<nat>, admin: bool, v: Version)
    requires Invariant(w)
    ensures Sound(w, Add(w, r, ids, admin, v), r)
  {
    IdleIsSound(w, r);
    if r in w.releases && Add(w, r, ids, admin, v) != w {
      var release, unique := w.releases[r], Dedupe(ids);
      var chosen := Candidates(release.links, unique);
      CandidatesAreNew(release.links, unique);
      forall i | 0 <= i < |chosen| ensures !Linked(w, r, chosen[i]) && chosen[i] < w.nextSong {
        var k :| 0 <= k < |unique| && unique[k] == chosen[i];
        assert unique[k] in w.songs;
      }
      hide Invariant, Sound, AddAll, SyncArtwork, Touch, Candidates, LinkOf;
      AddAllIsSound(w, r, chosen);
      SyncTouchIsSound(w, AddAll(w, r, chosen), r);
    }
  }

  lemma UploadOneIsSound(w: World, r: nat)
    requires Invariant(w) && r in w.releases && w.releases[r].status == Draft
    ensures Sound(w, UploadOne(w, r), r)
  {
    hide Invariant, Sound, LinkOf, Linked, LinkedElsewhere, Append;
    NextSongIsUnlinked(w, r);
    var song := Song(w.releases[r].artist, SongDraft, None, false, |w.releases[r].links| + 1, 0, false);
    AppendIsSound(w, r, w.nextSong, song, None, w.nextSong + 1);
  }

  lemma UploadIsSound(w: World, r: nat, v: Version)
    requires Invariant(w)
    ensures Sound(w, Upload(w, r, v), r)
  {
    hide Invariant, Sound, UploadOne, SyncArtwork, Touch, ActiveCount;
    IdleIsSound(w, r);
    if r in w.releases && w.releases[r].status == Draft {
      UploadOneIsSound(w, r);
      SyncTouchIsSound(w, UploadOne(w, r), r);
    }
  }

  // Reordering and removing.

  lemma RelinkOwnIsSound(w: World, now: World, r: nat)
    requires Invariant(w) && r in w.releases && r in now.releases && Local(w, now, r) && now.releases.Keys <= w.releases.Keys
    requires AlbumsExist(now) && IdsBelow(now)
    requires forall s :: Linked(now, r, s) ==> Linked(w, r, s)
    requires Fits(now, now.releases[r]) && StatusesAre(now, r, Table(now.releases[r].status))
    ensures Sound(w, now, r)
  {
    hide Invariant, Local, AlbumsExist, IdsBelow, Fits, StatusesAre, LinkedElsewhere, Linked;
    forall s | Linked(now, r, s) ensures !LinkedElsewhere(w, r, s) {
      if LinkedElsewhere(w, r, s) {
        NotOnBoth(w, r, s);
      }
    }
    RelinkIsSound(w, now, r);
  }

  /** New links whose songs were all on the tracklist, in places 1..n. */
  ghost predicate Rearranges(w: World, r: nat, links: seq<Link>) {
    && r in w.releases && DistinctSongs(links) && Numbered(links)
    && forall i :: 0 <= i < |links| ==> Linked(w, r, links[i].song)
  }

  lemma RearrangedStaysLinked(w: World, r: nat, links: seq<Link>)
    requires Rearranges(w, r, links)
    ensures forall s :: LinkOf(links, s).Some? ==> Linked(w, r, s)
  {
    forall s | LinkOf(links, s).Some? ensures Linked(w, r, s) {
      LinkOfFound(links, s);
    }
  }

  lemma RearrangedFits(w: World, r: nat, links: seq<Link>)
    requires Invariant(w) && Rearranges(w, r, links)
    ensures var now := WithLinks(w, r, links);
            && Fits(now, now.releases[r]) && AlbumsExist(now) && IdsBelow(now) && Local(w, now, r)
  {
    assert Fits(w, w.releases[r]);
    hide LinkOf, TableHolds, NotShared;
    forall i | 0 <= i < |links| ensures links[i].song in w.songs {
      LinkedMeansPresent(w, r, links[i].song);
    }
  }

  lemma RearrangeIsSound(w: World, r: nat, links: seq<Link>)
    requires Invariant(w) && Rearranges(w, r, links)
    ensures Sound(w, WithLinks(w, r, links), r)
  {
    var now := WithLinks(w, r, links);
    RearrangedFits(w, r, links);
    RearrangedStaysLinked(w, r, links);
    InvariantParts(w, r);
    assert StatusesAre(now, r, Table(now.releases[r].status));
    hide Invariant, Local, AlbumsExist, IdsBelow, Fits, StatusesAre, Table, Rearranges;
    RelinkOwnIsSound(w, now, r);
  }

  lemma OrderedRearranges(w: World, r: nat, order: seq<nat>)
    requires r in w.releases && Distinct(order)
    requires forall k :: 0 <= k < |order| ==> LinkOf(w.releases[r].links, order[k]).Some?
    ensures Rearranges(w, r, Ordered(w.releases[r].links, order))
  {
    var links, ordered := w.releases[r].links, Ordered(w.releases[r].links, order);
    forall k | 0 <= k < |order| ensures ordered[k].song == order[k] && ordered[k].position == k + 1 {
      LinkOfFound(links, order[k]);
    }
  }

  lemma ReorderIsSound(w: World, r: nat, ids: seq<nat>, admin: bool, v: Version)
    requires Invariant(w)
    ensures Sound(w, Reorder(w, r, ids, admin, v), r)
  {
    hide Invariant, Sound, SyncArtwork, Touch, TrackPositions.Collides, LinkOf, WithLinks, PositionsIn;
    IdleIsSound(w, r);
    var order := Dedupe(ids);
    if r in w.releases && forall k :: 0 <= k < |order| ==> LinkOf(w.releases[r].links, order[k]).Some? {
      var ordered := Ordered(w.releases[r].links, order);
      OrderedRearranges(w, r, order);
      RearrangeIsSound(w, r, ordered);
      SyncTouchIsSound(w, WithLinks(w, r, ordered), r);
    }
  }

  lemma {:induction false} WithoutKeeps(links: seq<Link>, gone: set<nat>)
    requires DistinctSongs(links)
    ensures |Without(links, gone)| <= |links|
    ensures |Without(links, gone)| == |links| ==> Without(links, gone) == links
    ensures DistinctSongs(Without(links, gone))
    ensures forall s :: LinkOf(Without(links, gone), s).Some? <==> LinkOf(links, s).Some? && s !in gone
    ensures forall i :: 0 <= i < |Without(links, gone)| ==> LinkOf(links, Without(links, gone)[i].song).Some?
  {
    if links != [] {
      var front, last := links[..|links| - 1], links[|links| - 1];
      WithoutKeeps(front, gone);
      var left := Without(front, gone);
      LinkOfFound(front, last.song);
      forall s ensures LinkOf(left + [last], s) == if last.song == s then Some(last) else LinkOf(left, s) {
        LinkOfAppended(left, last, s);
      }
      assert left + [] == left;
    }
  }

  lemma RenumberedLinks(links: seq<Link>)
    requires DistinctSongs(links)
    ensures DistinctSongs(Renumbered(links)) && Numbered(Renumbered(links))
    ensures forall s :: LinkOf(Renumbered(links), s).Some? <==> LinkOf(links, s).Some?
  {
    hide LinkOf;
    forall s ensures LinkOf(Renumbered(links), s).Some? <==> LinkOf(links, s).Some? {
      SameSongsLinked(links, Renumbered(links), s);
    }
  }

  lemma RenumberedRearranges(w: World, r: nat, gone: set<nat>)
    requires Invariant(w) && r in w.releases
    ensures Rearranges(w, r, Renumbered(Without(w.releases[r].links, gone)))
    ensures forall s :: LinkOf(Renumbered(Without(w.releases[r].links, gone)), s).Some? ==> s !in gone
  {
    hide Invariant, WellFormed, NotShared, AlbumsExist, LinkOf, Without, Renumbered, DistinctSongs, Numbered;
    var links := w.releases[r].links;
    InvariantParts(w, r);
    WithoutKeeps(links, gone);
    var numbered := Renumbered(Without(links, gone));
    RenumberedLinks(Without(links, gone));
    forall i | 0 <= i < |numbered| ensures Linked(w, r, numbered[i].song) {
      LinkOfFound(numbered, numbered[i].song);
    }
  }

  lemma {:induction false} SameSongsLinked(before: seq<Link>, after: seq<Link>, song: nat)
    requires |before| == |after| && forall i :: 0 <= i < |before| ==> before[i].song == after[i].song
    ensures LinkOf(before, song).Some? <==> LinkOf(after, song).Some?
  {
    LinkOfFound(before, song);
    LinkOfFound(after, song);
  }

  lemma AdminRemoveIsSound(w: World, r: nat, gone: set<nat>, v: Version)
    requires Invariant(w)
    ensures Sound(w, AdminRemoveTracks(w, r, gone, v), r)
  {
    hide Invariant, Sound, Stuck, Touch, WithLinks, Renumbered, Without;
    IdleIsSound(w, r);
    if r in w.releases {
      var links := Renumbered(Without(w.releases[r].links, gone));
      RenumberedRearranges(w, r, gone);
      RearrangeIsSound(w, r, links);
      var now := WithLinks(w, r, links);
      SoundParts(w, now, r);
      TouchIsSound(now, r);
      SoundThen(w, now, Touch(now, r), r);
    }
  }
}
