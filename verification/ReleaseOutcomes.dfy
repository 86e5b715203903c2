/** What single requests achieve, stated without their bodies. */
module ReleaseOutcomes {
  import opened Options
  import opened Sequences
  import opened Releases
  import opened ReleaseFrames
  import opened ReleaseLifecycle
  import opened ReleaseSafety
  import opened ReleaseRequests
  import opened ReleaseTracklists
  import TrackPositions

  // Tracklists.

  lemma PositionsAreSmall(links: seq<Link>)
    requires DistinctSongs(links) && Numbered(links)
    ensures forall s :: s in PositionsIn(links) ==> PositionsIn(links)[s] <= |links|
  {
    forall s | s in PositionsIn(links) ensures PositionsIn(links)[s] <= |links| {
      var i :| 0 <= i < |links| && links[i].song == s;
      LinkOfAt(links, i);
    }
  }

  /** An accepted reorder leaves exactly the requested order; it can only be refused by the database,
      and never for a release of up to 1000 tracks. */
  lemma ReorderGivesTheRequestedOrder(w: World, r: nat, ids: seq<nat>, admin: bool, v: Version)
    requires Invariant(w) && r in w.releases && Current(w.releases[r], v)
    requires w.releases[r].status == Draft || (!admin && w.releases[r].status == InReview)
    requires var order := Dedupe(ids);
             |order| == |w.releases[r].links| && forall k :: 0 <= k < |order| ==> LinkOf(w.releases[r].links, order[k]).Some?
    ensures var now, order := Reorder(w, r, ids, admin, v), Dedupe(ids);
            && r in now.releases
            && (now == w || SongsIn(now.releases[r].links) == order)
            && (|order| <= 1000 ==> SongsIn(now.releases[r].links) == order)
  {
    var links, order := w.releases[r].links, Dedupe(ids);
    InvariantParts(w, r);
    PositionsAreSmall(links);
    if |order| <= 1000 {
      TrackPositions.SmallPositionsNeverCollide(PositionsIn(links), order, TrackPositions.ARTIST_OFFSET, false);
    }
    OrderedSongs(links, order);
    var relinked := WithLinks(w, r, Ordered(links, order));
    SyncSongs(relinked, r);
    hide SyncArtwork, Invariant, TrackPositions.Collides, PositionsIn, LinkOf, Ordered, WellFormed;
  }

  lemma OrderedSongs(links: seq<Link>, order: seq<nat>)
    requires forall k :: 0 <= k < |order| ==> LinkOf(links, order[k]).Some?
    ensures SongsIn(Ordered(links, order)) == order
  {
    forall k | 0 <= k < |order| ensures Ordered(links, order)[k].song == order[k] {
      LinkOfFound(links, order[k]);
    }
  }

  lemma SyncSongs(w: World, r: nat)
    requires r in w.releases
    ensures SongsIn(SyncTracks(w, r).releases[r].links) == SongsIn(w.releases[r].links)
  {
  }

  lemma {:induction false} WithoutKeepsOrder(links: seq<Link>, gone: set<nat>, i: nat, j: nat)
    requires DistinctSongs(links) && Numbered(links)
    requires i < j < |Without(links, gone)|
    ensures Without(links, gone)[i] in links && Without(links, gone)[j] in links
    ensures Without(links, gone)[i].position < Without(links, gone)[j].position
  {
    var front, last := links[..|links| - 1], links[|links| - 1];
    assert links == front + [last];
    var left := Without(front, gone);
    if j < |left| {
      WithoutKeepsOrder(front, gone, i, j);
    } else {
      WithoutIsPart(front, gone, i);
    }
  }

  lemma {:induction false} WithoutIsPart(links: seq<Link>, gone: set<nat>, i: nat)
    requires i < |Without(links, gone)|
    ensures exists k :: 0 <= k < |links| && links[k] == Without(links, gone)[i]
  {
    var front := links[..|links| - 1];
    if i < |Without(front, gone)| {
      WithoutIsPart(front, gone, i);
      var k :| 0 <= k < |front| && front[k] == Without(front, gone)[i];
      assert links[k] == Without(links, gone)[i];
    } else {
      assert links[|links| - 1] == Without(links, gone)[i];
    }
  }

  function PlaceOf(links: seq<Link>, song: nat): nat {
    if LinkOf(links, song).Some? then LinkOf(links, song).value.position else 0
  }

  /** Only songs that were there, in the order they had. */
  ghost predicate InOrder(before: seq<Link>, after: seq<Link>) {
    && (forall i :: 0 <= i < |after| ==> LinkOf(before, after[i].song).Some?)
    && forall i, j :: 0 <= i < j < |after| ==> PlaceOf(before, after[i].song) < PlaceOf(before, after[j].song)
  }

  lemma RenumberedInOrder(links: seq<Link>, gone: set<nat>)
    requires DistinctSongs(links) && Numbered(links)
    ensures InOrder(links, links) && InOrder(links, Renumbered(Without(links, gone)))
  {
    hide LinkOf, Without;
    var left := Without(links, gone);
    WithoutKeeps(links, gone);
    forall i | 0 <= i < |links| ensures LinkOf(links, links[i].song) == Some(links[i]) {
      LinkOfAt(links, i);
    }
    forall i | 0 <= i < |left| ensures LinkOf(links, left[i].song) == Some(left[i]) {
      WithoutIsPart(links, gone, i);
    }
    forall i, j | 0 <= i < j < |left| ensures left[i].position < left[j].position {
      WithoutKeepsOrder(links, gone, i, j);
    }
  }

  /** Whichever editor removes tracks, the tracklist that is left has only earlier tracks, in the
      order they had; the admin's has exactly those not removed, unless nothing was written. */
  lemma RemovalKeepsOrder(w: World, r: nat, gone: set<nat>, deleteEmpty: bool, v: Version)
    requires Invariant(w) && r in w.releases
    ensures var now := RemoveTracks(w, r, gone, deleteEmpty, v);
            r in now.releases ==> InOrder(w.releases[r].links, now.releases[r].links)
    ensures var now := AdminRemoveTracks(w, r, gone, v);
            && r in now.releases && InOrder(w.releases[r].links, now.releases[r].links)
            && (now == w || forall s :: Linked(now, r, s) <==> Linked(w, r, s) && s !in gone)
  {
    hide Invariant, Stuck, LinkOf, NoActiveTrack, DropIfEmpty, Without, Renumbered, InOrder, Released;
    var links := w.releases[r].links;
    InvariantParts(w, r);
    RenumberedInOrder(links, gone);
    WithoutKeeps(links, gone);
    RenumberedLinks(Without(links, gone));
    DropIfEmptyKeeps(Unlink(w, r, gone), r, w.releases[r].album);
  }

  /** Removals from a release with no more tracks than the loop's offset are never refused by the
      database: 1000 for the artist and for drafts, 100000 for a song delete. */
  lemma RemovalIsNeverStuck(w: World, r: nat, gone: set<nat>, offset: nat)
    requires Invariant(w) && r in w.releases && |w.releases[r].links| <= offset
    ensures !Stuck(Without(w.releases[r].links, gone), offset)
  {
    var links := w.releases[r].links;
    var left := Without(links, gone);
    InvariantParts(w, r);
    WithoutKeeps(links, gone);
    forall s | s in PositionsIn(left) ensures PositionsIn(left)[s] <= offset {
      var i :| 0 <= i < |left| && left[i].song == s;
      LinkOfAt(left, i);
      WithoutIsPart(links, gone, i);
    }
    TrackPositions.SmallPositionsNeverCollide(PositionsIn(left), SongsIn(left), offset, true);
  }

  /** The link that adding `song` creates. */
  ghost predicate AddsTrack(w: World, r: nat, song: nat, link: Link, position: nat) {
    && link.position == position && !link.inherits
    && if Editable(w, r, song) then link.song == song && link.source.None?
       else link.source == Some(song) && w.nextSong <= link.song
  }

  /** Adding keeps the tracks there were and appends one per requested song, in order: the song
      itself when it is an album-less draft on no other tracklist, otherwise a new copy. */
  lemma {:induction false} AddAppendsInOrder(w: World, r: nat, songs: seq<nat>, k: nat)
    requires r in w.releases && Distinct(songs) && k < |songs|
    requires forall i :: 0 <= i < |songs| ==> songs[i] < w.nextSong
    ensures var before, after := w.releases[r].links, AddAll(w, r, songs).releases[r].links;
            && |after| == |before| + |songs| && before <= after
            && AddsTrack(w, r, songs[k], after[|before| + k], |before| + k + 1)
  {
    var front, last := songs[..|songs| - 1], songs[|songs| - 1];
    var mid := AddAll(w, r, front);
    AddedLength(w, r, front);
    if k < |front| {
      AddAppendsInOrder(w, r, front, k);
    } else {
      AddKeepsEditable(w, r, front, last);
    }
    hide Editable;
  }

  lemma {:induction false} AddedLength(w: World, r: nat, songs: seq<nat>)
    requires r in w.releases
    ensures var before, after := w.releases[r].links, AddAll(w, r, songs).releases[r].links;
            |after| == |before| + |songs| && before <= after && w.nextSong <= AddAll(w, r, songs).nextSong
  {
    hide Editable;
    if songs != [] {
      AddedLength(w, r, songs[..|songs| - 1]);
    }
  }

  lemma {:induction false} AddKeepsEditable(w: World, r: nat, songs: seq<nat>, song: nat)
    requires r in w.releases && song !in songs && song < w.nextSong
    ensures var now := AddAll(w, r, songs);
            && (song in now.songs <==> song in w.songs) && (song in w.songs ==> now.songs[song] == w.songs[song])
            && now.releases.Keys == w.releases.Keys
            && (forall q :: q in w.releases && q != r ==> now.releases[q] == w.releases[q])
            && (Editable(now, r, song) <==> Editable(w, r, song))
  {
    if songs != [] {
      var front, last := songs[..|songs| - 1], songs[|songs| - 1];
      AddKeepsEditable(w, r, front, song);
      AddedLength(w, r, front);
      assert last in songs;
      AddOneKeeps(AddAll(w, r, front), r, last, song);
    }
  }

  lemma AddOneKeeps(w: World, r: nat, added: nat, song: nat)
    requires r in w.releases && song != added && song < w.nextSong
    ensures var now := AddOne(w, r, added);
            && (song in now.songs <==> song in w.songs) && (song in w.songs ==> now.songs[song] == w.songs[song])
            && now.releases.Keys == w.releases.Keys
            && (forall q :: q in w.releases && q != r ==> now.releases[q] == w.releases[q])
            && (LinkedElsewhere(now, r, song) <==> LinkedElsewhere(w, r, song))
  {
    hide Editable, LinkOf;
  }

  /** A clone is a draft whose tracks are new album-less drafts, each remembering the song it copies. */
  lemma CloneCopiesEveryTrack(w: World, source: nat, i: nat)
    requires Invariant(w) && source in w.releases && i < |w.releases[source].links|
    ensures var now := Clone(w, source); var copy, original := now.releases[w.nextRelease], w.releases[source].links[i];
            && w.nextRelease !in w.releases && copy.status == Draft && copy.history == [] && |copy.links| == |w.releases[source].links|
            && copy.links[i].inherits == w.releases[source].links[i].inherits
            && copy.links[i].source == Some(original.song) && copy.links[i].position == original.position
            && copy.links[i].song !in w.songs && copy.links[i].song in now.songs
            && now.songs[copy.links[i].song] ==
                 w.songs[original.song].(status := SongDraft, album := None, isSingle := false, accounting := false)
  {
    InvariantIds(w);
    FitsOf(w, source);
    hide Invariant;
    CopyAt(w.songs, w.releases[source].links, w.nextSong, i);
  }

  /** The clone's row; everything else about the releases and albums is as it was. */
  lemma CloneAddsOneRelease(w: World, source: nat)
    requires source in w.releases
    ensures var now, release := Clone(w, source), w.releases[source]; var copy := now.releases[w.nextRelease];
            && now.releases == w.releases[w.nextRelease := copy] && now.albums == w.albums
            && copy == Release(release.artist, release.kind, Draft, copy.links, None, release.cover, 1, false, None, [])
            && |copy.links| == |release.links|
  {
    hide Copies, CopiedLinks, LinkOf;
    assert |CopiedLinks(w.releases[source].links, w.nextSong)| == |w.releases[source].links| by {
      CopiedLength(w.releases[source].links, w.nextSong);
    }
  }

  lemma CopiedLength(links: seq<Link>, first: nat)
    ensures |CopiedLinks(links, first)| == |links|
  {
  }

  lemma {:induction false} CopyAt(songs: map<nat, Song>, links: seq<Link>, first: nat, i: nat)
    requires i < |links|
    ensures first + i in Copies(songs, links, first)
    ensures Copies(songs, links, first)[first + i] == Duplicate(songs, links[i].song)
  {
    if i < |links| - 1 {
      CopyAt(songs, links[..|links| - 1], first, i);
    }
  }

  // Moderation.

  function Target(action: Action): Status {
    match action
    case DoRequestChanges => ChangesRequested
    case DoReject => Rejected
    case DoApprove => Approved
    case DoSchedule(_, _, _) => Scheduled
    case DoPublish => Live
    case DoTakeDown => TakenDown
    case DoReopen => Draft
    case DoReturn => InReview
  }

  /** What an action needs: the client's version, a status it may start from, no block, and for the
      three that promote a release, validity and a time in the future. */
  predicate Granted(w: World, r: nat, action: Action, barred: bool, otherwise: bool, v: Version)
    requires r in w.releases
  {
    && Current(w.releases[r], v) && w.releases[r].status in Allowed(action) && !Blocked(w, r, action, barred)
    && (action.DoApprove? || action.DoSchedule? || action.DoPublish? ==> Valid(SyncTracks(w, r), r, otherwise))
    && (action.DoSchedule? && action.requested.None? ==> action.dated.Some? && action.dated.value > action.now)
  }

  /** The same songs with the same statuses. */
  ghost predicate SameStatuses(w: World, now: World) {
    now.songs.Keys == w.songs.Keys && forall s :: s in w.songs ==> now.songs[s].status == w.songs[s].status
  }

  /** An action that is granted takes the release to its target, except that approving one that was
      live before makes it live again; one that is not granted changes neither its status nor any
      song's status, and the version rises exactly when it is granted. Scheduling stores the requested
      time, or the release's own when none was requested. */
  lemma ActReachesItsTarget(w: World, r: nat, action: Action, barred: bool, otherwise: bool, v: Version)
    requires Invariant(w) && r in w.releases
    ensures var now := Act(w, r, action, barred, otherwise, v);
            && r in now.releases
            && now.releases[r].status ==
                 (if !Granted(w, r, action, barred, otherwise, v) then w.releases[r].status
                  else if action.DoApprove? && w.releases[r].published then Live
                  else Target(action))
            && now.releases[r].lockVersion == w.releases[r].lockVersion + (if Granted(w, r, action, barred, otherwise, v) then 1 else 0)
            && (!Granted(w, r, action, barred, otherwise, v) ==> SameStatuses(w, now))
            && now.releases[r].scheduledAt ==
                 (if !Granted(w, r, action, barred, otherwise, v) then w.releases[r].scheduledAt
                  else if action.DoSchedule? then (if action.requested.Some? then action.requested else action.dated)
                  else if action.DoReopen? || (action.DoApprove? && !w.releases[r].published) then None
                  else w.releases[r].scheduledAt)
  {
    hide Invariant, WithStatus, TakeDown, SyncArtwork, Materialize, Prepare, Valid, Unrestorable, Current, Allowed, Promote;
    InvariantParts(w, r);
    SyncRow(w, r);
    RowAfterStatus(w, r);
    TakeDownRowKept(w, r);
    SyncKeepsStatuses(w, r);
    if action.DoApprove? || action.DoSchedule? || action.DoPublish? {
      PromoteReachesItsTarget(SyncTracks(w, r), r, action);
    }
  }

  lemma PromoteReachesItsTarget(w: World, r: nat, action: Action)
    requires r in w.releases && AlbumsExist(w) && (action.DoApprove? || action.DoSchedule? || action.DoPublish?)
    ensures var now := Promote(w, r, action);
            var late := action.DoSchedule? && (if action.requested.Some? then action.requested.value <= action.now
                                               else action.dated.None? || action.dated.value <= action.now);
            && r in now.releases
            && now.releases[r].status ==
                 (if late then w.releases[r].status else if action.DoApprove? && w.releases[r].published then Live else Target(action))
            && now.releases[r].lockVersion == w.releases[r].lockVersion + (if late then 0 else 1)
            && (late ==> now == w)
            && now.releases[r].scheduledAt ==
                 (if late then w.releases[r].scheduledAt
                  else if action.DoSchedule? then (if action.requested.Some? then action.requested else action.dated)
                  else if action.DoApprove? && !w.releases[r].published then None
                  else w.releases[r].scheduledAt)
  {
    hide Materialize, Prepare;
    MaterializeRow(w, r);
    PrepareRow(w, r, None);
  }

  lemma SyncRow(w: World, r: nat)
    requires r in w.releases && AlbumsExist(w)
    ensures var now := SyncTracks(w, r);
            && AlbumsExist(now) && now.releases[r] == w.releases[r].(links := now.releases[r].links)
  {
    SyncArtworkIsLifecycle(w, r, 0);
  }

  lemma RowAfterStatus(w: World, r: nat)
    requires r in w.releases
    ensures forall status :: WithStatus(w, r, status).releases == w.releases
  {
  }

  lemma TakeDownRowKept(w: World, r: nat)
    requires r in w.releases
    ensures TakeDown(w, r).releases[r] == w.releases[r].(album := None)
  {
    TakeDownStatuses(w, r);
  }

  lemma MaterializeRow(w: World, r: nat)
    requires r in w.releases
    ensures var now := Materialize(w, r).releases[r];
            now == w.releases[r].(album := now.album, published := true, links := now.links)
  {
    SyncArtworkIsLifecycle(w, r, 0);
    hide SyncArtwork, PublishSongs, MarkLinks, OwnAlbum;
  }

  lemma PrepareRow(w: World, r: nat, at: Option<nat>)
    requires r in w.releases && AlbumsExist(w)
    ensures var now := Prepare(w, r, at).releases[r];
            now == w.releases[r].(links := now.links, scheduledAt := at)
  {
    SyncRow(w, r);
    RowAfterStatus(SyncTracks(w, r), r);
    hide SyncArtwork, WithStatus;
  }

  /** Setting a status from the admin site: the promotions need a valid release, and scheduling a date
      in the future. */
  predicate Settable(w: World, r: nat, target: Status, otherwise: bool, dated: Option<nat>, now: nat)
    requires r in w.releases
  {
    && (target in {Approved, Scheduled, Live} ==> Valid(SyncTracks(w, r), r, otherwise))
    && (target == Scheduled ==> dated.Some? && dated.value > now)
  }

  /** Where it is allowed the release reaches the chosen status, except that approving one that was live
      before makes it live again, its version rises, and its songs that are not deleted get the status
      of the table; otherwise nothing at all changes. The stored time is the future date of a
      scheduled release, and none for one that goes back to its artist or to review. */
  lemma SetFromAdminReachesItsTarget(w: World, r: nat, target: Status, otherwise: bool, dated: Option<nat>, now: nat)
    requires Invariant(w) && r in w.releases
    ensures var after := SetFromAdmin(w, r, target, otherwise, dated, now);
            if !Settable(w, r, target, otherwise, dated, now) then after == w
            else
              var again := target == Approved && w.releases[r].published;
              var status := if again then Live else target;
              && r in after.releases
              && after.releases[r].status == status
              && after.releases[r].lockVersion == w.releases[r].lockVersion + 1
              && after.releases[r].scheduledAt ==
                   (match status
                    case Draft | InReview | Approved => None
                    case Scheduled => dated
                    case _ => w.releases[r].scheduledAt)
              && StatusesAre(after, r, Table(status))
  {
    hide Invariant, SyncArtwork, Valid, StatusesAre, Table, AppliedFromAdmin;
    InvariantParts(w, r);
    SyncRow(w, r);
    AppliedRow(SyncTracks(w, r), r, target, dated, now);
    SetFromAdminIsSound(w, r, target, otherwise, dated, now);
    SoundKeepsInvariant(w, SetFromAdmin(w, r, target, otherwise, dated, now), r);
    if Settable(w, r, target, otherwise, dated, now) {
      StatusesOf(SetFromAdmin(w, r, target, otherwise, dated, now), r);
    }
  }

  lemma SoundKeepsInvariant(w: World, now: World, r: nat)
    requires Sound(w, now, r)
    ensures Invariant(now)
  {
  }

  /** The row after the branch of the chosen status. */
  lemma AppliedRow(w: World, r: nat, target: Status, dated: Option<nat>, now: nat)
    requires r in w.releases && AlbumsExist(w)
    ensures var applied := AppliedFromAdmin(w, r, target, dated, now);
            var status := if target == Approved && w.releases[r].published then Live else target;
            && (applied.None? <==> target == Scheduled && (dated.None? || dated.value <= now))
            && (applied.Some? ==>
                && r in applied.value.releases
                && applied.value.releases[r].status == status
                && applied.value.releases[r].lockVersion == w.releases[r].lockVersion + 1
                && applied.value.releases[r].scheduledAt ==
                     (match status
                      case Draft | InReview | Approved => None
                      case Scheduled => dated
                      case _ => w.releases[r].scheduledAt))
  {
    hide AlbumsExist, WithStatus, TakeDown, Materialize, Prepare, SharedLive;
    RowAfterStatus(w, r);
    TakeDownRowKept(w, r);
    RowAfterStatus(TakeDown(w, r), r);
    MaterializeRow(w, r);
    PrepareRow(w, r, None);
    PrepareRow(w, r, dated);
  }

  lemma StatusesOf(w: World, r: nat)
    requires Invariant(w) && r in w.releases
    ensures StatusesAre(w, r, Table(w.releases[r].status))
  {
  }

  /** A draft goes to review exactly when the client is current and the synchronized release is valid. */
  lemma SubmitReachesReview(w: World, r: nat, otherwise: bool, v: Version)
    requires Invariant(w) && r in w.releases
    ensures var now := Submit(w, r, otherwise, v);
            var granted := w.releases[r].status == Draft && Current(w.releases[r], v) && Valid(SyncTracks(w, r), r, otherwise);
            && r in now.releases
            && now.releases[r].status == (if granted then InReview else w.releases[r].status)
            && now.releases[r].lockVersion == w.releases[r].lockVersion + (if granted then 1 else 0)
  {
    hide Invariant, SyncArtwork, Valid, Current;
    InvariantParts(w, r);
    SyncRow(w, r);
  }

  // Artwork.

  /** New artwork reaches the track of a single and every track that inherits, has no cover, or still
      shows the previous artwork; a track with a cover of its own keeps it. */
  lemma ArtworkSparesOwnCovers(w: World, r: nat, url: nat, confirmed: bool, admin: bool, v: Version, song: nat)
    requires Invariant(w) && Linked(w, r, song) && song in w.songs && url != 0
    requires Artwork(w, r, url, confirmed, admin, v) != w
    ensures var now := Artwork(w, r, url, confirmed, admin, v);
            var release, link := w.releases[r], LinkOf(w.releases[r].links, song).value;
            && r in now.releases && song in now.songs && now.releases[r].cover == url
            && now.songs[song].cover ==
                 if release.kind == Single || link.inherits || w.songs[song].cover in {0, release.cover} then url else w.songs[song].cover
  {
    hide Invariant, LinkOf, WithStatus, SharedLive;
    var reviewed := if w.releases[r].status in {Draft, InReview} then w else MarkForReview(w, r);
    var edited := reviewed.(releases := reviewed.releases[r := Edited(reviewed.releases[r], None, map[], Some(url))]);
    assert edited.releases[r].links == w.releases[r].links;
    RowAfterStatus(SyncArtwork(edited, r, reviewed.releases[r].cover), r);
    CoversAfterStatus(SyncArtwork(edited, r, reviewed.releases[r].cover), r);
  }

  lemma CoversAfterStatus(w: World, r: nat)
    requires r in w.releases
    ensures WithStatus(w, r, Pending).songs.Keys == w.songs.Keys
    ensures forall s :: s in w.songs ==> WithStatus(w, r, Pending).songs[s].cover == w.songs[s].cover
  {
  }

  // Removing.

  /** An active track stays. */
  ghost predicate KeepsActiveTrack(w: World, release: Release, gone: set<nat>) {
    exists i :: 0 <= i < |release.links| && release.links[i].song !in gone && !IsDeleted(w, release.links[i].song)
  }

  lemma UnlinkedRow(w: World, r: nat, gone: set<nat>)
    requires Invariant(w) && r in w.releases
    ensures var now := Unlink(w, r, gone);
            && now.releases[r] == w.releases[r].(links := now.releases[r].links)
            && (forall s :: LinkOf(now.releases[r].links, s).Some? <==> LinkOf(w.releases[r].links, s).Some? && s !in gone)
            && (NoActiveTrack(now.songs, now.releases[r].links) <==> !KeepsActiveTrack(w, w.releases[r], gone))
  {
    hide Invariant, Without, Renumbered, Released, LinkOf, WellFormed;
    InvariantParts(w, r);
    FitsOf(w, r);
    var links := w.releases[r].links;
    WithoutKeeps(links, gone);
    RenumberedLinks(Without(links, gone));
    ReleasedStatuses(w, r, gone);
    var now := Unlink(w, r, gone);
    var left := now.releases[r].links;
    if NoActiveTrack(now.songs, left) {
      forall i | 0 <= i < |links| && links[i].song !in gone ensures IsDeleted(w, links[i].song) {
        LinkOfFound(links, links[i].song);
        LinkOfFound(left, links[i].song);
      }
    } else {
      var i :| 0 <= i < |left| && !(left[i].song in now.songs && now.songs[left[i].song].status == Deleted);
      LinkOfFound(left, left[i].song);
      LinkOfFound(links, left[i].song);
      var k :| 0 <= k < |links| && links[k].song == left[i].song;
      assert links[k].song !in gone && !IsDeleted(w, links[k].song);
    }
  }

  lemma ReleasedStatuses(w: World, r: nat, gone: set<nat>)
    requires r in w.releases
    ensures var songs := Released(w, r, gone);
            && songs.Keys == w.songs.Keys
            && (forall s :: s in w.songs ==> (songs[s].status == Deleted <==> w.songs[s].status == Deleted))
  {
    hide LinkOf, LinkedElsewhere;
  }

  lemma ReleasedSong(w: World, r: nat, gone: set<nat>, song: nat)
    requires Invariant(w) && Linked(w, r, song) && song in w.songs
    ensures var songs, album := Released(w, r, gone), w.releases[r].album;
            && song in songs
            && (song !in gone ==> songs[song] == w.songs[song])
            && (song in gone ==>
                && var was, off := w.songs[song], album.Some? && w.songs[song].album == album;
                   songs[song] == was.(album := if off then None else was.album, isSingle := was.isSingle || off,
                                       status := if w.releases[r].status == Draft && was.status != Deleted then SongDraft else was.status))
  {
    if LinkedElsewhere(w, r, song) {
      NotOnBoth(w, r, song);
    }
  }

  lemma DropIfEmptyKeeps(w: World, r: nat, album: Option<nat>)
    requires r in w.releases
    ensures var now := DropIfEmpty(w, album);
            && now.songs == w.songs
            && now.releases[r] == w.releases[r].(album := now.releases[r].album)
  {
    if album.Some? && AlbumIsEmpty(w, album.value) {
      forall s | s in w.songs ensures DropAlbum(w, album.value).songs[s] == w.songs[s] {
        assert w.songs[s].album != Some(album.value);
      }
      assert DropAlbum(w, album.value).songs == w.songs;
    }
  }

  /** The artist's removal, when the database accepts the new positions: removed songs leave the tracklist and
      the release's album, as singles, and become drafts if the release is one; the others stay as they are. The
      release goes only if it is an empty draft album and that was asked for, and is taken down only
      if nothing active is left outside a draft. */
  lemma RemovalTakesExactlyTheRequested(w: World, r: nat, gone: set<nat>, deleteEmpty: bool, v: Version, song: nat)
    requires Invariant(w) && gone != {} && Linked(w, r, song) && Current(w.releases[r], v)
    requires !Stuck(Without(w.releases[r].links, gone), TrackPositions.ARTIST_OFFSET)
    ensures song in w.songs
    ensures var now, release := RemoveTracks(w, r, gone, deleteEmpty, v), w.releases[r];
            var empty := !KeepsActiveTrack(w, release, gone);
            && song in now.songs
            && (song !in gone ==> now.songs[song] == w.songs[song])
            && (song in gone ==>
                && var was, off := w.songs[song], release.album.Some? && w.songs[song].album == release.album;
                   now.songs[song] == was.(album := if off then None else was.album, isSingle := was.isSingle || off,
                                           status := if release.status == Draft && was.status != Deleted then SongDraft else was.status))
            && (r in now.releases <==> !(empty && deleteEmpty && release.status == Draft && release.kind == FullAlbum))
            && (r in now.releases ==>
                && (Linked(now, r, song) <==> song !in gone)
                && now.releases[r].status == (if empty && release.status != Draft then TakenDown else release.status))
  {
    hide Invariant, Stuck, LinkOf, NoActiveTrack, KeepsActiveTrack, Unlink, DropIfEmpty, Without;
    LinkedMeansPresent(w, r, song);
    UnlinkedRow(w, r, gone);
    ReleasedSong(w, r, gone, song);
    UnlinkSongs(w, r, gone);
    DropIfEmptyKeeps(Unlink(w, r, gone), r, w.releases[r].album);
  }

  lemma UnlinkSongs(w: World, r: nat, gone: set<nat>)
    requires r in w.releases
    ensures Unlink(w, r, gone).songs == Released(w, r, gone)
  {
  }

  lemma SyncKeepsStatuses(w: World, r: nat)
    requires r in w.releases
    ensures SyncTracks(w, r).songs.Keys == w.songs.Keys
    ensures forall s :: s in w.songs ==> SyncTracks(w, r).songs[s].status == w.songs[s].status
  {
  }

  // Deleting.

  /** The artist can erase only unplayed, unpublished recordings of a draft; every other recording
      of the release stays, marked deleted, and keeps the release, taken down. */
  lemma ArtistDeleteErasesOnlyDrafts(w: World, r: nat, v: Version, song: nat)
    requires Invariant(w) && Linked(w, r, song) && Current(w.releases[r], v)
    requires !Stuck(Without(w.releases[r].links, Removable(w, r)), TrackPositions.ARTIST_OFFSET)
    ensures song in w.songs
    ensures var now := ArtistDelete(w, r, v);
            && (song !in now.songs <==>
                w.releases[r].status == Draft && !w.songs[song].accounting && w.songs[song].status !in {Published, Deleted})
            && (song in now.songs ==>
                now.songs[song].status == Deleted && r in now.releases && Linked(now, r, song) && now.releases[r].status == TakenDown)
  {
    hide Invariant, WellFormed, Stuck, DropIfEmpty, Detached, Without, Renumbered, LinkOf, Removable, MustPreserve, Fits, LinkedElsewhere;
    LinkedMeansPresent(w, r, song);
    InvariantParts(w, r);
    if LinkedElsewhere(w, r, song) {
      NotOnBoth(w, r, song);
    }
    var left := Without(w.releases[r].links, Removable(w, r));
    WithoutKeeps(w.releases[r].links, Removable(w, r));
    RenumberedLinks(left);
    DetachedRow(w, r, song);
    DropKeepsSongs(EraseRelease(Detached(w, r), r), w.releases[r].album, song);
    NothingLeft(left);
    PreservedMeans(w, r, song);
  }

  lemma PreservedMeans(w: World, r: nat, song: nat)
    requires r in w.releases && song in w.songs
    ensures MustPreserve(w, w.releases[r], song) <==>
            !(w.releases[r].status == Draft && !w.songs[song].accounting && w.songs[song].status !in {Published, Deleted})
  {
  }

  lemma DetachedRow(w: World, r: nat, song: nat)
    requires r in w.releases && Linked(w, r, song) && song in w.songs && !LinkedElsewhere(w, r, song)
    ensures var now := Detached(w, r);
            && now.releases == w.releases
            && (song in now.songs <==> MustPreserve(w, w.releases[r], song))
            && (song in now.songs ==> now.songs[song].status == Deleted)
            && (song in Removable(w, r) <==> !MustPreserve(w, w.releases[r], song))
  {
  }

  lemma DropKeepsSongs(w: World, album: Option<nat>, song: nat)
    ensures song in DropIfEmpty(w, album).songs <==> song in w.songs
  {
  }

  lemma NothingLeft(left: seq<Link>)
    ensures left == [] ==> forall s :: LinkOf(left, s).None?
  {
  }

  /** Without this song the release has no active track. */
  ghost predicate LosesLastTrack(w: World, release: Release, song: nat) {
    forall i :: 0 <= i < |release.links| ==> release.links[i].song == song || IsDeleted(w, release.links[i].song)
  }

  lemma EmptiedIffLast(w: World, release: Release, song: nat)
    requires Fits(w, release)
    ensures NoActiveTrack(w.songs, Renumbered(Without(release.links, {song}))) <==> LosesLastTrack(w, release, song)
  {
    hide Without, LinkOf;
    var links, left := release.links, Without(release.links, {song});
    WithoutKeeps(links, {song});
    if LosesLastTrack(w, release, song) {
      forall i | 0 <= i < |left| ensures IsDeleted(w, left[i].song) {
        LinkOfFound(left, left[i].song);
        LinkOfFound(links, left[i].song);
      }
    } else {
      var i :| 0 <= i < |links| && links[i].song != song && !IsDeleted(w, links[i].song);
      LinkOfFound(links, links[i].song);
      LinkOfFound(left, links[i].song);
      var k :| 0 <= k < |left| && left[k].song == links[i].song;
      assert Renumbered(left)[k].song == links[i].song;
    }
  }

  /** A hard delete removes the song, and no other, from every tracklist, whose order stays, and takes
      down exactly the releases that lose their last active track with it, unless they are drafts or down already. */
  lemma HardDeleteLeavesNoTrace(w: World, song: nat, q: nat)
    requires Invariant(w) && song in w.songs && q in w.releases
    requires forall r :: Linked(w, r, song) ==> |w.releases[r].links| <= TrackPositions.ADMIN_OFFSET
    ensures var now := DeleteSong(w, song, true);
            && song !in now.songs && q in now.releases && !Linked(now, q, song)
            && (forall s :: s != song ==> (Linked(now, q, s) <==> Linked(w, q, s)))
            && InOrder(w.releases[q].links, now.releases[q].links)
            && var release := w.releases[q];
               var down := Linked(w, q, song) && LosesLastTrack(w, release, song) && release.status !in {Draft, TakenDown};
               && now.releases[q].status == (if down then TakenDown else release.status)
               && now.releases[q].lockVersion == release.lockVersion + (if down then 1 else 0)
  {
    hide Invariant, Stuck, Renumbered, Without, NoActiveTrack, LosesLastTrack, LinkOf, Fits, InOrder;
    forall r | Linked(w, r, song) ensures !Stuck(Without(w.releases[r].links, {song}), TrackPositions.ADMIN_OFFSET) {
      RemovalIsNeverStuck(w, r, {song}, TrackPositions.ADMIN_OFFSET);
    }
    InvariantParts(w, q);
    FitsOf(w, q);
    EmptiedIffLast(w, w.releases[q], song);
    RenumberedInOrder(w.releases[q].links, {song});
    WithoutKeeps(w.releases[q].links, {song});
    RenumberedLinks(Without(w.releases[q].links, {song}));
  }

  lemma FitsOf(w: World, q: nat)
    requires Invariant(w) && q in w.releases
    ensures Fits(w, w.releases[q])
  {
  }
}
