/** Lifecycle requests keep the invariant and leave the other releases and their songs alone. */
module ReleaseSafety {
  import opened Options
  import opened Releases
  import opened ReleaseFrames
  import opened ReleaseLifecycle
  import opened ReleaseSync
  import opened ReleaseRequests

  /** What a request about release `r` may do: other releases lose at most a deleted album, songs on
      other tracklists stay as they are, ids are never reused, and `r` itself evolves. */
  ghost predicate Local(w: World, now: World, r: nat) {
    && (forall q :: q in w.releases && q != r ==> q in now.releases && Bystander(w.releases[q], now.releases[q]))
    && (forall q :: q in now.releases ==> q in w.releases || w.nextRelease <= q)
    && w.nextRelease <= now.nextRelease
    && (r in w.releases && r in now.releases ==> Evolves(w.releases[r], now.releases[r]))
    && (forall s :: s in w.songs && LinkedElsewhere(w, r, s) ==> s in now.songs && now.songs[s] == w.songs[s])
  }

  ghost predicate Sound(w: World, now: World, r: nat) {
    Local(w, now, r) && Invariant(now)
  }

  lemma IdleIsSound(w: World, r: nat)
    requires Invariant(w)
    ensures Sound(w, w, r)
  {
  }

  lemma SoundThen(w: World, mid: World, now: World, r: nat)
    requires Sound(w, mid, r) && Sound(mid, now, r) && r in mid.releases
    ensures Sound(w, now, r)
  {
    hide Invariant;
    forall s | LinkedElsewhere(w, r, s) ensures LinkedElsewhere(mid, r, s) {
      var q :| q in w.releases && q != r && LinkOf(w.releases[q].links, s).Some?;
      assert Bystander(w.releases[q], mid.releases[q]);
    }
  }

  /** A lifecycle step between consistent rows, before the song statuses are compared. */
  ghost predicate Moves(w: World, now: World, r: nat) {
    Lifecycle(w, now, r) && AlbumsExist(now) && Connected(now.releases[r].history, now.releases[r].status)
  }

  lemma MovesThen(w: World, mid: World, now: World, r: nat)
    requires Moves(w, mid, r) && Moves(mid, now, r)
    ensures Moves(w, now, r)
  {
    hide Lifecycle, AlbumsExist, Connected;
    LifecycleThen(w, mid, now, r);
  }

  lemma MovesIsSound(w: World, now: World, r: nat)
    requires Invariant(w) && Moves(w, now, r) && StatusesAre(now, r, Table(now.releases[r].status))
    ensures Sound(w, now, r)
  {
    LifecycleIsLocal(w, now, r);
    hide Lifecycle, WellFormed, TableHolds, AlbumsExist, Connected, StatusesAre, Local, Table;
    LifecycleKeepsWellFormed(w, now, r);
    LifecycleKeepsInvariant(w, now, r);
  }

  lemma LifecycleIsLocal(w: World, now: World, r: nat)
    requires Invariant(w) && Lifecycle(w, now, r)
    ensures Local(w, now, r)
  {
    hide Invariant, SameTracks, Evolves, Linked, LinkedElsewhere;
    forall s | s in w.songs && LinkedElsewhere(w, r, s) ensures now.songs[s] == w.songs[s] {
      NotOnBoth(w, r, s);
    }
  }

  lemma NotOnBoth(w: World, r: nat, s: nat)
    requires Invariant(w) && LinkedElsewhere(w, r, s)
    ensures !Linked(w, r, s)
  {
    var q :| q in w.releases && q != r && LinkOf(w.releases[q].links, s).Some?;
    assert Linked(w, q, s);
  }

  lemma InvariantParts(w: World, r: nat)
    requires Invariant(w) && r in w.releases
    ensures AlbumsExist(w) && NotShared(w) && WellFormed(w)
    ensures Connected(w.releases[r].history, w.releases[r].status)
    ensures StatusesAre(w, r, Table(w.releases[r].status))
    ensures DistinctSongs(w.releases[r].links) && Numbered(w.releases[r].links)
  {
    assert Fits(w, w.releases[r]);
  }

  // The steps requests are made of.

  lemma StatusMoves(w: World, r: nat, status: SongStatus)
    requires r in w.releases && AlbumsExist(w) && Connected(w.releases[r].history, w.releases[r].status)
    ensures Moves(w, WithStatus(w, r, status), r) && StatusesAre(WithStatus(w, r, status), r, status)
  {
    WithStatusIsLifecycle(w, r, status);
  }

  lemma ChangeMoves(w: World, mid: World, r: nat, to: Status)
    requires Moves(w, mid, r) && StatusesAre(mid, r, Table(to))
    ensures Moves(w, ChangeStatus(mid, r, to), r)
    ensures StatusesAre(ChangeStatus(mid, r, to), r, Table(to)) && ChangeStatus(mid, r, to).releases[r].status == to
  {
    ThenChangeStatus(w, mid, r, to);
  }

  lemma MoveToIsSound(w: World, mid: World, r: nat, to: Status)
    requires Invariant(w) && Moves(w, mid, r) && StatusesAre(mid, r, Table(to))
    ensures Sound(w, ChangeStatus(mid, r, to), r)
  {
    hide *;
    MovesParts(w, mid, r);
    ChangeMoves(w, mid, r, to);
    MovesIsSound(w, ChangeStatus(mid, r, to), r);
  }

  lemma StatusThenChange(w: World, mid: World, r: nat, to: Status)
    requires Moves(w, mid, r)
    ensures var now := ChangeStatus(WithStatus(mid, r, Table(to)), r, to);
            Moves(w, now, r) && StatusesAre(now, r, Table(to)) && now.releases[r].status == to
  {
    var hidden := WithStatus(mid, r, Table(to));
    StatusMoves(mid, r, Table(to)) by { MovesParts(w, mid, r); }
    MovesThen(w, mid, hidden, r);
    ChangeMoves(w, hidden, r, to);
  }

  lemma MovesParts(w: World, now: World, r: nat)
    requires Moves(w, now, r)
    ensures r in now.releases && AlbumsExist(now) && Connected(now.releases[r].history, now.releases[r].status)
  {
  }

  lemma StayMoves(w: World, r: nat)
    requires Invariant(w) && r in w.releases
    ensures Moves(w, w, r)
  {
    InvariantParts(w, r);
  }

  lemma ScheduleMoves(w: World, mid: World, r: nat, at: Option<nat>, status: SongStatus)
    requires Moves(w, mid, r) && StatusesAre(mid, r, status)
    ensures Moves(w, SetSchedule(mid, r, at), r) && StatusesAre(SetSchedule(mid, r, at), r, status)
  {
    var now := SetSchedule(mid, r, at);
    SetScheduleIsLifecycle(mid, r, at);
    LifecycleLinked(mid, now, r);
    assert Moves(mid, now, r);
    MovesThen(w, mid, now, r);
  }

  lemma SyncMoves(w: World, r: nat, previousCover: nat)
    requires r in w.releases && AlbumsExist(w) && Connected(w.releases[r].history, w.releases[r].status)
    ensures Moves(w, SyncArtwork(w, r, previousCover), r)
    ensures SyncArtwork(w, r, previousCover).releases[r].status == w.releases[r].status
    ensures forall status :: StatusesAre(w, r, status) ==> StatusesAre(SyncArtwork(w, r, previousCover), r, status)
  {
    SyncArtworkIsLifecycle(w, r, previousCover);
    LifecycleLinked(w, SyncArtwork(w, r, previousCover), r);
    hide SyncArtwork;
  }

  lemma SyncIsSound(w: World, r: nat)
    requires Invariant(w) && r in w.releases
    ensures Sound(w, SyncTracks(w, r), r) && r in SyncTracks(w, r).releases
    ensures SyncTracks(w, r).releases[r].status == w.releases[r].status
  {
    InvariantParts(w, r);
    SyncMoves(w, r, 0);
    hide SyncArtwork, Invariant;
    MovesIsSound(w, SyncTracks(w, r), r);
  }

  lemma PublishMoves(w: World, r: nat)
    requires Invariant(w) && r in w.releases
    ensures Moves(w, Materialize(w, r), r) && StatusesAre(Materialize(w, r), r, Published)
  {
    InvariantParts(w, r);
    MaterializeIsLifecycle(w, r);
    hide Materialize, Invariant, Lifecycle, AlbumsExist, StatusesAre, WellFormed, Connected;
  }

  lemma PublishIsSound(w: World, r: nat)
    requires Invariant(w) && r in w.releases
    ensures Sound(w, ChangeStatus(Materialize(w, r), r, Live), r)
  {
    hide Materialize, Invariant, Moves;
    PublishMoves(w, r);
    MoveToIsSound(w, Materialize(w, r), r, Live);
  }

  lemma PrepareMoves(w: World, r: nat, at: Option<nat>)
    requires Invariant(w) && r in w.releases
    ensures Moves(w, Prepare(w, r, at), r) && StatusesAre(Prepare(w, r, at), r, SongApproved)
  {
    InvariantParts(w, r);
    PrepareIsLifecycle(w, r, at);
  }

  lemma ApproveIsSound(w: World, r: nat)
    requires Invariant(w) && r in w.releases
    ensures Sound(w, Approve(w, r), r)
  {
    if w.releases[r].published {
      PublishIsSound(w, r);
    } else {
      PrepareMoves(w, r, None);
      hide Prepare, Invariant, Moves;
      MoveToIsSound(w, Prepare(w, r, None), r, Approved);
    }
  }

  lemma ScheduleIsSound(w: World, mid: World, r: nat, at: Option<nat>)
    requires Invariant(w) && Moves(w, mid, r) && StatusesAre(mid, r, SongApproved)
    ensures Sound(w, ChangeStatus(SetSchedule(mid, r, at), r, Scheduled), r)
  {
    assert Table(Scheduled) == SongApproved;
    hide *;
    MovesParts(w, mid, r);
    ScheduleMoves(w, mid, r, at, SongApproved);
    MoveToIsSound(w, SetSchedule(mid, r, at), r, Scheduled);
  }

  lemma TakeDownMoves(w: World, r: nat)
    requires Invariant(w) && r in w.releases
    ensures Moves(w, TakeDown(w, r), r) && StatusesAre(TakeDown(w, r), r, SongApproved)
  {
    InvariantParts(w, r);
    TakeDownIsLifecycle(w, r);
  }

  lemma ReviewIsSound(w: World, r: nat)
    requires Invariant(w) && r in w.releases
    ensures Sound(w, MarkForReview(w, r), r) && r in MarkForReview(w, r).releases
  {
    InvariantParts(w, r);
    MarkForReviewIsLifecycle(w, r);
    hide MarkForReview, Invariant;
    MovesIsSound(w, MarkForReview(w, r), r);
  }

  /** The songs get the status of the target, then the release moves to it. */
  lemma RestatusIsSound(w: World, mid: World, r: nat, to: Status)
    requires Invariant(w) && Moves(w, mid, r)
    ensures Sound(w, ChangeStatus(WithStatus(mid, r, Table(to)), r, to), r)
  {
    StatusThenChange(w, mid, r, to);
    hide Moves, Invariant, ChangeStatus, WithStatus;
    MovesIsSound(w, ChangeStatus(WithStatus(mid, r, Table(to)), r, to), r);
  }

  lemma ReopenIsSound(w: World, mid: World, r: nat)
    requires Invariant(w) && Moves(w, mid, r)
    ensures Sound(w, ChangeStatus(SetSchedule(WithStatus(mid, r, SongDraft), r, None), r, Draft), r)
  {
    var hidden := WithStatus(mid, r, SongDraft);
    MovesParts(w, mid, r);
    StatusMoves(mid, r, SongDraft);
    hide Moves, Invariant, ChangeStatus, WithStatus, SetSchedule;
    MovesThen(w, mid, hidden, r);
    ScheduleMoves(w, hidden, r, None, SongDraft);
    MoveToIsSound(w, SetSchedule(hidden, r, None), r, Draft);
  }

  // The lifecycle requests.

  lemma PromoteIsSound(w: World, r: nat, action: Action)
    requires Invariant(w) && r in w.releases && (action.DoApprove? || action.DoSchedule? || action.DoPublish?)
    ensures Sound(w, Promote(w, r, action), r)
  {
    hide Invariant, Sound, Materialize, Prepare, Approve, Moves, ChangeStatus, SetSchedule;
    match action
    case DoApprove => ApproveIsSound(w, r);
    case DoPublish => PublishIsSound(w, r);
    case DoSchedule(requested, dated, now) =>
      var at := if requested.Some? then requested else dated;
      if at.None? || at.value <= now {
        IdleIsSound(w, r);
      } else {
        PrepareMoves(w, r, None);
        ScheduleIsSound(w, Prepare(w, r, None), r, at);
      }
  }

  lemma ActIsSound(w: World, r: nat, action: Action, barred: bool, otherwise: bool, v: Version)
    requires Invariant(w)
    ensures Sound(w, Act(w, r, action, barred, otherwise, v), r)
  {
    hide Invariant, Sound, WithStatus, ChangeStatus, TakeDown, SyncArtwork, Promote, SetSchedule, Moves, Blocked, Valid;
    IdleIsSound(w, r);
    if r in w.releases && Current(w.releases[r], v) && w.releases[r].status in Allowed(action) && !Blocked(w, r, action, barred) {
      StayMoves(w, r);
      match action
      case DoRequestChanges =>
        InvariantParts(w, r);
        MoveToIsSound(w, w, r, ChangesRequested);
      case DoReject => RestatusIsSound(w, w, r, Rejected);
      case DoTakeDown =>
        TakeDownMoves(w, r);
        MoveToIsSound(w, TakeDown(w, r), r, TakenDown);
      case DoReopen => ReopenIsSound(w, w, r);
      case DoReturn => RestatusIsSound(w, w, r, InReview);
      case _ =>
        SyncIsSound(w, r);
        var synced := SyncTracks(w, r);
        if Valid(synced, r, otherwise) {
          SoundParts(w, synced, r);
          PromoteIsSound(synced, r, action);
          SoundThen(w, synced, Promote(synced, r, action), r);
        }
    }
  }

  lemma SoundParts(w: World, now: World, r: nat)
    requires Sound(w, now, r)
    ensures Invariant(now)
  {
  }

  lemma SetFromAdminIsSound(w: World, r: nat, target: Status, otherwise: bool, dated: Option<nat>, now: nat)
    requires Invariant(w)
    ensures Sound(w, SetFromAdmin(w, r, target, otherwise, dated, now), r)
  {
    hide Invariant, Sound, SyncArtwork, Valid, AppliedFromAdmin;
    IdleIsSound(w, r);
    if r in w.releases {
      SyncIsSound(w, r);
      var synced := SyncTracks(w, r);
      SoundParts(w, synced, r);
      AppliedIsSound(synced, r, target, dated, now);
      if AppliedFromAdmin(synced, r, target, dated, now).Some? {
        SoundThen(w, synced, AppliedFromAdmin(synced, r, target, dated, now).value, r);
      }
    }
  }

  lemma AppliedIsSound(w: World, r: nat, target: Status, dated: Option<nat>, now: nat)
    requires Invariant(w) && r in w.releases
    ensures AppliedFromAdmin(w, r, target, dated, now).Some? ==> Sound(w, AppliedFromAdmin(w, r, target, dated, now).value, r)
  {
    hide Invariant, Sound, WithStatus, ChangeStatus, TakeDown, Materialize, Prepare, Approve, MarkForReview, SetSchedule, Moves;
    StayMoves(w, r);
    TakeDownMoves(w, r);
    match target
    case Draft => ReopenIsSound(w, if w.releases[r].status == Live then TakeDown(w, r) else w, r);
    case InReview => ReviewIsSound(w, r);
    case ChangesRequested => RestatusIsSound(w, w, r, ChangesRequested);
    case Rejected => RestatusIsSound(w, w, r, Rejected);
    case Approved => ApproveIsSound(w, r);
    case Scheduled =>
      PrepareMoves(w, r, dated);
      MoveToIsSound(w, Prepare(w, r, dated), r, Scheduled);
    case Live => PublishIsSound(w, r);
    case TakenDown =>
      if w.releases[r].status == Live {
        MoveToIsSound(w, TakeDown(w, r), r, TakenDown);
      } else {
        RestatusIsSound(w, w, r, TakenDown);
      }
  }

  lemma SubmitIsSound(w: World, r: nat, otherwise: bool, v: Version)
    requires Invariant(w)
    ensures Sound(w, Submit(w, r, otherwise, v), r)
  {
    hide Invariant, Sound, SyncArtwork, Valid, SubmitSongs, ChangeStatus, Moves;
    IdleIsSound(w, r);
    if r in w.releases {
      SyncIsSound(w, r);
      var synced := SyncTracks(w, r);
      SoundParts(w, synced, r);
      SubmitSongsMoves(synced, r);
      MoveToIsSound(synced, SubmitSongs(synced, r), r, InReview);
      SoundThen(w, synced, ChangeStatus(SubmitSongs(synced, r), r, InReview), r);
    }
  }

  lemma SubmitSongsIsLifecycle(w: World, r: nat)
    requires r in w.releases
    ensures var now := SubmitSongs(w, r);
            && Lifecycle(w, now, r) && (AlbumsExist(w) ==> AlbumsExist(now))
            && StatusesAre(now, r, Pending) && now.releases == w.releases
  {
    var now := SubmitSongs(w, r);
    assert forall s :: s in w.songs ==> now.songs[s].album == w.songs[s].album;
  }

  lemma SubmitSongsMoves(w: World, r: nat)
    requires Invariant(w) && r in w.releases
    ensures Moves(w, SubmitSongs(w, r), r) && StatusesAre(SubmitSongs(w, r), r, Pending)
  {
    InvariantParts(w, r);
    hide Invariant, WellFormed, NotShared, Table, Connected, StatusesAre;
    SubmitSongsIsLifecycle(w, r);
  }

  lemma SynchronizeIsSound(w: World, r: nat)
    requires Invariant(w)
    ensures Sound(w, Resynchronize(w, r), r)
  {
    hide Invariant, Sound, Synchronize;
    IdleIsSound(w, r);
    if r in w.releases {
      InvariantParts(w, r);
      SynchronizeRepairs(w, r);
      WellFormedMoves(w, Synchronize(w, r), r);
      MovesIsSound(w, Synchronize(w, r), r);
    }
  }

  lemma WellFormedMoves(w: World, now: World, r: nat)
    requires Lifecycle(w, now, r) && WellFormed(now)
    ensures Moves(w, now, r)
  {
    assert Fits(now, now.releases[r]);
  }

  lemma PublishDueIsSound(w: World, r: nat, now: nat)
    requires Invariant(w)
    ensures Sound(w, PublishDue(w, r, now), r)
  {
    hide Invariant, Sound, Materialize, ChangeStatus;
    IdleIsSound(w, r);
    if r in w.releases {
      PublishIsSound(w, r);
    }
  }

  // Editing.

  lemma EditMoves(w: World, r: nat, kind: Option<Kind>, marks: map<nat, bool>, cover: Option<nat>)
    requires Invariant(w) && r in w.releases
    ensures var now := w.(releases := w.releases[r := Edited(w.releases[r], kind, marks, cover)]);
            && Moves(w, now, r) && StatusesAre(now, r, Table(now.releases[r].status))
            && now.releases[r].status == w.releases[r].status
  {
    InvariantParts(w, r);
    var now := w.(releases := w.releases[r := Edited(w.releases[r], kind, marks, cover)]);
    hide Invariant, WellFormed, NotShared, Table;
    EditIsLifecycle(w, r, Edited(w.releases[r], kind, marks, cover));
    LifecycleLinked(w, now, r);
    hide Lifecycle, Linked;
  }

  lemma EditIsLifecycle(w: World, r: nat, edited: Release)
    requires r in w.releases && SameTracks(w.releases[r].links, edited.links)
    requires Evolves(w.releases[r], edited) && edited.album == w.releases[r].album
    ensures var now := w.(releases := w.releases[r := edited]);
            Lifecycle(w, now, r) && (AlbumsExist(w) ==> AlbumsExist(now))
  {
    hide Linked, SameTracks, Evolves;
  }

  lemma PaintedIsSound(w: World, mid: World, r: nat, previousCover: nat, statuses: set<Status>)
    requires Invariant(w) && Moves(w, mid, r) && StatusesAre(mid, r, Table(mid.releases[r].status))
    requires statuses <= {InReview, ChangesRequested}
    ensures Sound(w, SyncArtwork(mid, r, previousCover), r)
    ensures Sound(w, PendingIf(SyncArtwork(mid, r, previousCover), r, statuses), r)
  {
    hide Invariant, Moves, SyncArtwork, WithStatus, StatusesAre, AlbumsExist, Connected;
    MovesParts(w, mid, r);
    var painted := SyncArtwork(mid, r, previousCover);
    SyncMoves(mid, r, previousCover);
    MovesThen(w, mid, painted, r);
    MovesParts(w, painted, r);
    StatusMoves(painted, r, Pending);
    MovesIsSound(w, painted, r);
    MovesThen(w, painted, WithStatus(painted, r, Pending), r);
    if painted.releases[r].status in statuses {
      StatusKeepsRow(painted, r);
      MovesIsSound(w, WithStatus(painted, r, Pending), r);
    }
  }

  lemma StatusKeepsRow(w: World, r: nat)
    requires r in w.releases
    ensures WithStatus(w, r, Pending).releases == w.releases
  {
  }

  lemma ArtistPatchIsSound(w: World, r: nat, kind: Option<Kind>, marks: map<nat, bool>, v: Version)
    requires Invariant(w)
    ensures Sound(w, ArtistPatch(w, r, kind, marks, v), r)
  {
    hide Invariant, Sound, SyncArtwork, PendingIf, Edited, Moves;
    IdleIsSound(w, r);
    if r in w.releases {
      EditMoves(w, r, kind, marks, None);
      PaintedIsSound(w, w.(releases := w.releases[r := Edited(w.releases[r], kind, marks, None)]), r, 0, {InReview});
    }
  }

  lemma AdminPatchIsSound(w: World, r: nat, content: bool, kind: Option<Kind>, marks: map<nat, bool>, v: Version)
    requires Invariant(w)
    ensures Sound(w, AdminPatch(w, r, content, kind, marks, v), r)
  {
    hide Invariant, Sound, SyncArtwork, PendingIf, Edited, Moves;
    IdleIsSound(w, r);
    if r in w.releases {
      var k, m := if content then kind else None, if content then marks else map[];
      EditMoves(w, r, k, m, None);
      PaintedIsSound(w, w.(releases := w.releases[r := Edited(w.releases[r], k, m, None)]), r, 0, {InReview, ChangesRequested});
    }
  }

  lemma ReopenForEditIsSound(w: World, r: nat, confirmed: bool, v: Version)
    requires Invariant(w)
    ensures Sound(w, ReopenForEdit(w, r, confirmed, v), r)
  {
    hide Invariant, Sound, MarkForReview;
    IdleIsSound(w, r);
    if r in w.releases {
      ReviewIsSound(w, r);
    }
  }

  lemma ArtworkIsSound(w: World, r: nat, url: nat, confirmed: bool, admin: bool, v: Version)
    requires Invariant(w)
    ensures Sound(w, Artwork(w, r, url, confirmed, admin, v), r)
  {
    hide Invariant, Sound, SyncArtwork, PendingIf, Edited, Moves, MarkForReview;
    IdleIsSound(w, r);
    if r in w.releases {
      var reviewed := if w.releases[r].status in {Draft, InReview} then w else MarkForReview(w, r);
      ReviewIsSound(w, r);
      SoundParts(w, reviewed, r);
      EditMoves(reviewed, r, None, map[], Some(url));
      var edited := reviewed.(releases := reviewed.releases[r := Edited(reviewed.releases[r], None, map[], Some(url))]);
      PaintedIsSound(reviewed, edited, r, reviewed.releases[r].cover, {InReview});
      SoundThen(w, reviewed, SyncArtwork(edited, r, reviewed.releases[r].cover), r);
      SoundThen(w, reviewed, PendingIf(SyncArtwork(edited, r, reviewed.releases[r].cover), r, {InReview}), r);
    }
  }

  lemma ValidateIsSound(w: World, r: nat, v: Version)
    requires Invariant(w)
    ensures Sound(w, Validate(w, r, v), r)
  {
    hide Invariant, Sound, SyncArtwork;
    IdleIsSound(w, r);
    if r in w.releases {
      SyncIsSound(w, r);
    }
  }
}
