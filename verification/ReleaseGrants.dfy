/** What a release must be before it moves on, said of the release itself and not of the checks. */
module ReleaseGrants {
  import opened Options
  import opened Releases
  import opened ReleaseFrames
  import opened ReleaseRequests
  import opened ReleaseSafety
  import opened ReleaseTracklists
  import opened ReleaseOutcomes
  import opened ReleaseRevival

  /** Artwork, as many tracks as its kind calls for, and none of them deleted. */
  ghost predicate Complete(w: World, r: nat)
    requires r in w.releases
  {
    var release, n := w.releases[r], |w.releases[r].links|;
    && release.cover != 0
    && (match release.kind
        case Single => n == 1
        case EP => 2 <= n <= 7
        case FullAlbum | Compilation => 2 <= n <= 100)
    && Restorable(w, r)
  }

  /** It has tracks, and none of them is deleted. */
  ghost predicate Restorable(w: World, r: nat)
    requires r in w.releases
  {
    w.releases[r].links != [] && forall s :: s in w.songs && Linked(w, r, s) ==> w.songs[s].status != Deleted
  }

  lemma RestorableIff(w: World, r: nat)
    requires r in w.releases
    ensures Restorable(w, r) <==> !Unrestorable(w, r)
  {
    var links := w.releases[r].links;
    if s :| s in w.songs && Linked(w, r, s) && w.songs[s].status == Deleted {
      LinkOfFound(links, s);
    }
    if i :| 0 <= i < |links| && IsDeleted(w, links[i].song) {
      LinkOfFound(links, links[i].song);
      assert Linked(w, r, links[i].song);
    }
    hide LinkOf;
  }

  /** Synchronizing the artwork first does not decide whether a release is valid. */
  lemma ValidIffComplete(w: World, r: nat, otherwise: bool)
    requires r in w.releases
    ensures Valid(SyncTracks(w, r), r, otherwise) <==> otherwise && Complete(w, r)
  {
    var synced := SyncTracks(w, r);
    SyncRowKept(w, r);
    SyncKeepsStatuses(w, r);
    RestorableIff(w, r);
    RestorableIff(synced, r);
    forall s ensures Linked(synced, r, s) <==> Linked(w, r, s) {
      SyncKeepsLinks(w, r, s);
    }
    hide SyncArtwork, LinkOf;
  }

  lemma SyncRowKept(w: World, r: nat)
    requires r in w.releases
    ensures var now := SyncTracks(w, r).releases[r];
            now == w.releases[r].(links := now.links) && |now.links| == |w.releases[r].links|
  {
    hide LinkOf;
  }

  /** Where moderation can lead from each status. */
  function Onward(status: Status): set<Status> {
    match status
    case Draft => {Scheduled, Live}
    case InReview => {ChangesRequested, Rejected, Approved, Scheduled, Live}
    case ChangesRequested => {Rejected, Draft, InReview}
    case Approved => {Scheduled, Live, InReview}
    case Scheduled => {Live}
    case Live => {TakenDown}
    case Rejected => {Draft, InReview}
    case TakenDown => {Live, Draft}
  }

  /** The time a scheduling action asks for, or the release's own date. */
  function PlannedFor(action: Action): Option<nat> {
    if !action.DoSchedule? then None else if action.requested.Some? then action.requested else action.dated
  }

  /** A moderation action is granted exactly when the client knows the version, the target is onward from
      the status, a release its artist deleted is not brought back, one that is down has all its tracks,
      one that is promoted is complete, and one that is scheduled is planned for the future. */
  lemma ActIsGrantedIff(w: World, r: nat, action: Action, barred: bool, otherwise: bool, v: Version)
    requires r in w.releases
    ensures var status, target := w.releases[r].status, Target(action);
            Granted(w, r, action, barred, otherwise, v) <==>
              && (v == Unstated || v == Stated(w.releases[r].lockVersion))
              && target in Onward(status)
              && (barred ==> target in {ChangesRequested, Rejected, Approved, TakenDown})
              && (status == TakenDown ==> Restorable(w, r))
              && (target in {Approved, Scheduled, Live} ==> otherwise && Complete(w, r))
              && (target == Scheduled ==> PlannedFor(action).Some? && PlannedFor(action).value > action.now)
  {
    ValidIffComplete(w, r, otherwise);
    RestorableIff(w, r);
    hide SyncArtwork, Valid, Complete, Restorable, Unrestorable, LinkOf;
  }

  /** So moderation never moves a release but along this graph. */
  lemma ActFollowsTheGraph(w: World, r: nat, action: Action, barred: bool, otherwise: bool, v: Version)
    requires Invariant(w) && r in w.releases
    ensures var now := Act(w, r, action, barred, otherwise, v);
            r in now.releases && (now.releases[r].status == w.releases[r].status || now.releases[r].status in Onward(w.releases[r].status))
  {
    hide Invariant, Act, Granted, Complete, Restorable;
    ActReachesItsTarget(w, r, action, barred, otherwise, v);
    ActIsGrantedIff(w, r, action, barred, otherwise, v);
  }

  /** A draft is submitted exactly by a client that knows the version, when it is complete. */
  lemma SubmitIsGrantedIff(w: World, r: nat, otherwise: bool, v: Version)
    requires Invariant(w) && r in w.releases && w.releases[r].status == Draft
    ensures var now := Submit(w, r, otherwise, v);
            && r in now.releases
            && (now.releases[r].status == InReview <==>
                (v == Unstated || v == Stated(w.releases[r].lockVersion)) && otherwise && Complete(w, r))
            && (now.releases[r].status != InReview ==> now.releases[r].status == Draft)
  {
    SubmitReachesReview(w, r, otherwise, v);
    ValidIffComplete(w, r, otherwise);
    hide Invariant, Submit, Valid, Complete;
  }

  /** The admin site needs completeness for a promotion and a future date for a schedule, and nothing else. */
  lemma SettableIff(w: World, r: nat, target: Status, otherwise: bool, dated: Option<nat>, now: nat)
    requires r in w.releases
    ensures Settable(w, r, target, otherwise, dated, now) <==>
              && (target in {Approved, Scheduled, Live} ==> otherwise && Complete(w, r))
              && (target == Scheduled ==> dated.Some? && dated.value > now)
  {
    ValidIffComplete(w, r, otherwise);
    hide Valid, Complete, SyncArtwork;
  }
}
