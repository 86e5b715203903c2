# SedaBox back end: a model of its stateful cores

This project models, in Dafny, the parts of the SedaBox music back end whose correctness depends on
more than one request: a Redis cache that must agree with PostgreSQL, a recommendation scheduler
that must be fair, the release lifecycle with its recordings and albums, the genre taxonomy, the
smart fill of playlists, device sessions with rotating refresh tokens, and one-time codes.

`dafny verify dfyconfig.toml` checks the whole project.

## How the model is built

Every subsystem has the same three layers.

* Values and pure functions say what one Redis script, one query or one committed transaction does.
* Classes hold the same state in fields and update it in place, with the loops of the original;
  each method's `ensures` ties the new state to the pure function (`View() == F(old(View()), ...)`).
* Lemmas about the pure functions state what the subsystem promises: along every run of events, in
  every interleaving, or for every input.

An exception inside a transaction is a step that changes nothing. A response returned before the end
of a transaction block still commits what was written before it: a release submission that fails
validation, for instance, has already synchronized the artwork.

### Play counts (`PlayCountState`, `PlayCountProtocol`, `PlayCountCache`)

PostgreSQL holds the plays; Redis holds a namespace, the last play id it saw and counts per
namespace and song. One event is one Lua script, one query, or one commit with the script it
triggers. Readers remember the moment they began. Commit and mirror are one step, or the mirror is
lost for ever; a deletion rotates the namespace in the same step; count keys expire at any time; any
Redis call of a reader may fail. The result is proved with deletions included, which is more than
the module's own comment asks for. What happens when a mirror arrives late, or a rotation is lost,
is stated exactly by two if-and-only-if lemmas: the first can count a play twice.

### Freshness (`FreshSelection`, `FreshFairness`, `FreshRotation`, `FreshScheduler`)

The recency list, the atomic script, the two-step fallback and the process-local counter. The
fairness results hold from any initial list and for any ranking per call. Two statements of the
code's documentation are only conditionally true, and the exact conditions are proved: a failing
script falls back to "the same" order only if repeated exposures do not reorder the candidates
(`FallbackAgreesIff`), and every candidate is eventually served only if window plus limit covers the
pool (`CoverageIff`); with the default window of 72 a larger pool starves its lowest ranks as long
as the ranking stays the same.

### Releases (`TrackPositions`, `Releases`, `ReleaseRequests`, `ReleaseFrames`, `ReleaseLifecycle`, `ReleaseSync`, `ReleaseSafety`, `ReleaseTracklists`, `ReleaseDeletions`, `ReleaseRuns`, `ReleaseOutcomes`, `ReleaseGrants`, `ReleaseEffects`, `ReleaseListing`, `ReleaseFootprints`, `ReleaseRevival`, `ReleaseCatalog`)

`Releases` has the service functions, `ReleaseRequests` the views and jobs as one step each,
`ReleaseCatalog` the same tables updated in place. `ReleaseRuns` proves, for every sequence of 22
kinds of request (both track editors, patches, artwork, review actions, scheduling, deletion of
songs and releases, synchronization, and changes to unlinked recordings by the rest of the system),
that songs follow the status table, that no recording is shared, that positions are 1..n, that the
history is a path and that versions identify statuses. `TrackPositions` models the unique constraint
on positions write by write: the loops that park rows above 1000 (artist) or 100000 (admin) fail in
exactly the stated case, never for positions up to the offset.

What single requests achieve is stated without their bodies: `ReleaseOutcomes` and `ReleaseGrants` say
when each is granted and where it leads, `ReleaseEffects` which rows it writes, `ReleaseListing` what is
in the catalogue afterwards, `ReleaseFootprints` that nothing else changes. One expectation is not met:
an artist who removes the last active track of a release that is already down changes its tracklist
without raising the version, so a client that saw the old one is still accepted
(`EditsRaiseTheVersion` says that this is the only such edit, `EmptyingKeepsTheVersion` reaches it).

The synchronizing routine says that it preserves deleted songs. For a live release it does not: it
publishes them, and so does the publishing job, which does not validate. `ReleaseRevival` reaches both
cases by runs, says exactly when each keeps deleted songs, and shows that no other request revives one
that is on a tracklist.

### Taxonomy (`IdLists`, `Taxonomy`, `TaxonomyStore`)

Deleting or merging a genre or sub-genre, with what each song, album and workspace lists afterwards, over the relational links of songs and albums and over the
id lists stored in release workspaces. The stored lists may hold numbers, numerals and junk.

### Smart fill (`SmartFill`)

The greedy selection under a per-artist cap, compared with every other admissible selection.

### Sessions and codes (`RefreshSessions`, `RefreshProtocol`, `SessionStore`, `OtpCodes`, `OtpStore`)

Logins, two-phase refreshes, logouts and revocations interleaved query by query; one-time codes with
a cached pointer that may hold anything. Tokens and hashes are fresh, injective values; time is a
clock that only moves forward.

## Model

| member | source | states |
|---|---|---|
| `PlayCountProtocol.ReturnedCountsWereTrue` | api/song_play_metrics.py:121-193 | In every interleaving of readers, mirrored plays, lost mirrors, deletions and key expiry, each count a call returns, hit or miss, was PostgreSQL's count at some moment between the call's first read and its return |
| `PlayCountProtocol.CoherentEntriesAreExact` | api/song_play_metrics.py:32-94 | In every reachable state in which PostgreSQL is not ahead of Redis's last id, every entry of the current namespace is the live count, and no key exists under a later namespace |
| `PlayCountProtocol.RunKeepsInvariant` | api/song_play_metrics.py:32-94 | Entries are exact at some moment since which PostgreSQL has been ahead, along every run |
| `PlayCountProtocol.StepKeepsInvariant` | api/song_play_metrics.py:121-260 | No single script, query or commit breaks that invariant, whoever else is running |
| `PlayCountProtocol.RecordKeepsEntries` | api/song_play_metrics.py:46-71 | A play mirrored with its commit keeps every entry trustworthy, whether consecutive or after a gap |
| `PlayCountProtocol.WarmKeepsEntries` | api/song_play_metrics.py:79-94 | A stale reader's conditional warm never stores a value that could later be returned wrongly |
| `PlayCountProtocol.TrustedIsExactSince` | api/song_play_metrics.py:161-170 | Why a hit may be returned: an entry that Redis has caught up with was exact at a moment since the reader began |
| `PlayCountProtocol.LoneCallFillsTheCache` | api/song_play_metrics.py:142-193 | After one undisturbed call every song it asked for has an entry in the current namespace, and Redis has caught up with PostgreSQL |
| `PlayCountProtocol.WarmCallNeedsNoCounting` | api/song_play_metrics.py:152-170 | When they have, the next call finds all its counts in Redis and has nothing left to count in PostgreSQL |
| `PlayCountCache.LateMirrorIsHarmlessIff` | api/song_play_metrics.py:58-69 | A mirror that arrives after its play was counted leaves the cache exact exactly when it opens a new namespace or its song has no entry there |
| `PlayCountCache.LateMirrorDoubleCounts` | api/song_play_metrics.py:62-66 | A concrete late mirror that counts a play twice |
| `PlayCountCache.LostRotationIsHarmlessIff` | api/song_play_metrics.py:246-260 | A deletion whose rotation is lost leaves the cache exact exactly when no deleted play's song has an entry |
| `PlayCountCache.MirroredPlayKeepsCacheWarm` | api/song_play_metrics.py:46-71 | A play mirrored in time leaves the cache exact, evicts nothing, and keeps the entries readable unless ids were skipped |
| `PlayCountCache.Cache.EnsureNamespace` | api/song_play_metrics.py:32-44 | The ensure script in place: the namespace moves on exactly when PostgreSQL is ahead |
| `PlayCountCache.Cache.RecordPlay` | api/song_play_metrics.py:46-71 | The record script in place |
| `PlayCountCache.Cache.RotateNamespace` | api/song_play_metrics.py:73-77 | The rotation in place |
| `PlayCountCache.Cache.StoreIfCoherent` | api/song_play_metrics.py:79-94 | The conditional warm in place: all values can be looked up afterwards or none was written, and no other entry changes |
| `PlayCountCache.Cache.SplitReply` | api/song_play_metrics.py:158-170 | Pairing the bulk reply: known counts are the values found, and missing is exactly the rest |
| `PlayCountCache.Cache.ReadCached` | api/song_play_metrics.py:121-170 | What Redis can answer is what PostgreSQL would, and nothing when one of its calls fails |
| `PlayCountCache.Cache.TrackedSongPlayCounts` | api/song_play_metrics.py:142-193 | Left alone, a call answers with PostgreSQL's count for exactly the distinct non-zero ids, whichever of its Redis calls fail, leaves the cache as trustworthy as before, loses no entry, and if none of its calls fails leaves every count it gave in the cache |
| `PlayCountState.CountAfterInsert` | api/song_play_metrics.py:106-118 | One more play row changes one song's count by one and no other |
| `FreshSelection.SelectionTakesOldest` | api/recommendation_runtime.py:191-225 | A selection has exactly the limit of different candidates, each of which precedes every candidate left out: unseen in rank order first, then oldest exposure first |
| `FreshSelection.SelectedIsFresh` | api/recommendation_runtime.py:197-220 | The slice in order, said without positions: unseen candidates in rank order, then those whose newest exposure (script) or oldest exposure (fallback) is longest ago |
| `FreshSelection.FreshSliceIsUnique` | api/recommendation_runtime.py:197-220 | That description leaves no choice of slice |
| `FreshSelection.SameSplit` | api/recommendation_runtime.py:159-164 | Script and fallback agree on which candidates are unseen and serve those first in rank order, whatever the recency list holds |
| `FreshSelection.FallbackAgreesIff` | api/recommendation_runtime.py:130-164 | The fallback picks the script's slice for every limit exactly when repeated exposures leave the age order of the candidates unchanged |
| `FreshSelection.FallbackRefinedByScript` | api/recommendation_runtime.py:191-256 | Without repetitions in the window the script is ordering followed by remembering: same slice, same resulting list |
| `FreshSelection.FallbackDiffersAfterRepetition` | api/recommendation_runtime.py:160-163 | A concrete list with a repetition on which they differ |
| `FreshFairness.ConsecutivePicksAreDisjoint` | api/recommendation_runtime.py:191-225 | Any `span` consecutive selections over one pool are pairwise disjoint when `span` slices fit the pool and `span - 1` fit the window, from any initial list and with any ranking per call |
| `FreshFairness.DisjointIff` | api/recommendation_runtime.py:181-225 | Any `span` consecutive selections are disjoint, for every initial list and every run, exactly when `span` slices fit the pool and `span - 1` fit the window |
| `FreshFairness.DefaultWindowKeepsSevenSlicesApart` | api/recommendation_runtime.py:181 | With the default window that holds for up to seven calls |
| `FreshFairness.PoolIsCovered` | api/recommendation_runtime.py:191-225 | Enough consecutive selections return every member of the pool when window plus limit reaches the pool size |
| `FreshFairness.CoverageIff` | api/recommendation_runtime.py:181-225 | They do so for every initial list and every run exactly when window plus limit reaches the pool size |
| `FreshFairness.StarvedUnderFixedRanking` | api/recommendation_runtime.py:181-225 | Otherwise everything ranked from place window plus limit on is passed over for ever under a fixed ranking |
| `FreshFairness.PicksComeFromTheTop` | api/recommendation_runtime.py:191-225 | No call ever returns a candidate below place window plus limit |
| `FreshRotation.FallbackIsFair` | api/recommendation_runtime.py:183-188 | After k calls of size l the counter fallback has returned every one of n candidates floor or ceiling of k*l/n times, although the counter is reduced modulo n on each call |
| `FreshRotation.SliceIsAWalk` | api/recommendation_runtime.py:187-188 | A rotated slice holds each place at most once, and exactly when the walk from the offset reaches it |
| `FreshRotation.VisitsAreEven` | api/recommendation_runtime.py:183-188 | Any stretch of that walk visits all places equally often, give or take one |
| `FreshRotation.RotatedAt` | api/recommendation_runtime.py:183-188 | The slice starts at the place the counter stands for, modulo the number of candidates, and goes round |
| `FreshScheduler.Unique` | api/recommendation_runtime.py:118-127 | The loop keeps the first occurrence of every value, in order |
| `FreshScheduler.Scope.SelectScript` | api/recommendation_runtime.py:191-225 | The script in place is one call of the traces the fairness results are about: candidates are aged by their newest exposure, the slice is pushed newest first and the list trimmed |
| `FreshScheduler.Scope.SplitRanking` | api/recommendation_runtime.py:201-211 | The loop splits the ranking into unseen in rank order and seen by age |
| `FreshScheduler.Scope.TakeInOrder` | api/recommendation_runtime.py:212-220 | The two taking loops give the first `limit` of unseen then seen |
| `FreshScheduler.Scope.RememberExposure` | api/recommendation_runtime.py:239-256 | Remembering pushes the distinct values, newest first, and trims |
| `FreshScheduler.Scope.Select` | api/recommendation_runtime.py:167-236 | The whole entry point: as many ids as asked for and available, none for a limit that is not positive, from the rotation without a client, by newest exposure from the script, by oldest exposure after an error; what is remembered in each case |
| `TrackPositions.Rows.Renumber` | api/release_views.py:203-213 | Renumbering succeeds exactly when no row is parked on a later row's position; then positions are 1..n in stored order, otherwise nothing changes |
| `TrackPositions.Rows.Reorder` | api/release_views.py:628-640 | Reordering succeeds exactly when no parked row meets a later one; then every song has its requested place |
| `TrackPositions.Rows.Write` | api/admin_views.py:517-529 | Both loops, for either offset, write by write under the unique constraint, with the rollback |
| `TrackPositions.Rows.Move` | api/models.py:1576-1579 | One update: refused exactly when another row has the position |
| `TrackPositions.ParkIsRefusedIff` | api/release_views.py:209-211 | A parking write is refused exactly when a later place still holds that position |
| `TrackPositions.SettleIsFree` | api/release_views.py:212-213 | The second loop never meets another row |
| `TrackPositions.SmallPositionsNeverCollide` | api/admin_views.py:517-529 | Positions up to the offset never collide |
| `TrackPositions.LargePositionCollides` | api/release_views.py:203-213 | Concrete positions on which the artist loop fails and the admin loop does not |
| `ReleaseRuns.TracksFollowTheTable` | api/release_service.py:1014-1029 | Along every run each track is an existing song that is deleted or has exactly the status the release's status calls for, at its place in 1..n |
| `ReleaseRuns.NoSongIsSharedOrRepeated` | api/release_service.py:617-622 | Along every run no song is two tracks, of one release or of two |
| `ReleaseRuns.HistoryIsAPath` | api/release_service.py:625-634 | Along every run the history rows connect, start from nothing or draft, and end in the current status; no rows means draft |
| `ReleaseRuns.AcceptedVersionKnowsTheStatus` | api/release_views.py:127-148 | Versions never fall, history only grows, and a client whose version is still accepted has seen the current status |
| `ReleaseRuns.OtherReleasesKeepTheirSongs` | api/release_service.py:854-921 | A request about one release leaves every song of every other release exactly as it is, and the other releases too, except that a deleted album is unlisted |
| `ReleaseRuns.RunKeepsInvariant` | api/release_service.py:625-1052 | The invariant behind these holds after every run from any state that has it |
| `ReleaseRuns.CreateIsSound` | api/release_views.py:1088-1126 | A created release starts consistent, with the row that has no from-status |
| `ReleaseRuns.CloneIsSound` | api/release_service.py:637-662 | A clone shares no song with anyone |
| `ReleaseRuns.EditUnlinkedIsSound` | api/models.py:609 | Recordings on no tracklist may change in any way, even onto a release's album |
| `ReleaseRuns.SoftDeleteSongIsSound` | api/admin_views.py:1664-1672 | A soft song delete keeps the invariant |
| `ReleaseRuns.HardDeleteSongIsSound` | api/admin_views.py:549-567 | A hard song delete keeps it, through removal, renumbering and the take-down of emptied releases |
| `ReleaseTracklists.AddIsSound` | api/release_views.py:641-672 | Adding tracks in either editor keeps the invariant |
| `ReleaseTracklists.UploadIsSound` | api/release_views.py:1435-1465 | Uploading a recording keeps it |
| `ReleaseTracklists.ReorderIsSound` | api/release_views.py:628-640 | Reordering keeps it |
| `ReleaseTracklists.AdminRemoveIsSound` | api/release_views.py:1359-1378 | The admin's removal keeps it |
| `ReleaseTracklists.RelinkIsSound` | api/models.py:1576-1579 | Changing one tracklist keeps it whenever its songs were on no other one |
| `ReleaseDeletions.RemoveIsSound` | api/release_views.py:681-758 | The artist's removal keeps it, with album clean-up, take-down or deletion of the emptied release |
| `ReleaseDeletions.ArtistDeleteIsSound` | api/release_views.py:519-606 | The artist's delete keeps it |
| `ReleaseDeletions.AdminDeleteIsSound` | api/release_views.py:1224-1296 | The admin's delete keeps it |
| `ReleaseDeletions.DropEmptyIsSound` | api/release_views.py:715-723 | Deleting an album without songs changes no song |
| `ReleaseSafety.ActIsSound` | api/release_views.py:1565-1714 | All eight moderation actions keep it, refused or not |
| `ReleaseSafety.SetFromAdminIsSound` | api/release_service.py:941-1001 | Setting any status from the admin site keeps it |
| `ReleaseSafety.SubmitIsSound` | api/release_views.py:924-958 | Submitting keeps it, also when validation refuses after the artwork was written |
| `ReleaseSafety.ApproveIsSound` | api/release_service.py:924-938 | Approving keeps it, whether it approves or republishes |
| `ReleaseSafety.PublishDueIsSound` | api/release_service.py:1033-1052 | The publishing job keeps it |
| `ReleaseSafety.ReviewIsSound` | api/release_service.py:877-921 | Returning a release to review keeps it; the exception for songs shared with a live release never applies |
| `ReleaseSafety.ArtistPatchIsSound` | api/release_views.py:428-515 | The artist's patch keeps it |
| `ReleaseSafety.AdminPatchIsSound` | api/release_views.py:1138-1221 | The admin's patch keeps it |
| `ReleaseSafety.ArtworkIsSound` | api/release_views.py:811-895 | New artwork keeps it, with the return to review it may cause |
| `ReleaseSafety.SynchronizeIsSound` | api/release_service.py:1004-1030 | Synchronizing keeps it |
| `ReleaseLifecycle.MaterializeIsLifecycle` | api/release_service.py:769-851 | Publishing touches nothing but the release and its songs, all of which end up published |
| `ReleaseLifecycle.TakeDownIsLifecycle` | api/release_service.py:854-874 | Taking down touches nothing but the release and its songs, which end up approved or stay deleted |
| `ReleaseLifecycle.OthersAreLeftAlone` | api/release_service.py:783-790 | Neither changes an unlinked song or deletes the album it is on |
| `ReleaseLifecycle.PublishedAlbumIsTheTracklist` | api/release_service.py:806-844 | After publishing a release that is not a single its album holds exactly its tracklist, track number is position, and the song of a single is on no album |
| `ReleaseLifecycle.TakenDownAlbumIsEmptied` | api/release_service.py:862-874 | After a take-down no song of the release is on the album it had |
| `ReleaseLifecycle.MarkForReviewIsLifecycle` | api/release_service.py:877-921 | Without shared songs every track that is not deleted becomes pending |
| `ReleaseSync.SynchronizeIsIdempotent` | api/release_service.py:1004-1030 | A second synchronization changes nothing at all, in every status: song statuses, albums, track numbers, release album, covers and inheritance marks. Shared songs, gaps in positions and broken histories are allowed; only the foreign keys and the unique track constraint are assumed |
| `ReleaseSync.SynchronizeRepairs` | api/release_service.py:1004-1030 | From any rows the database admits, one synchronization gives every song that is not deleted the status of the table, touches nothing of any other release, and keeps what was well-formed so |
| `ReleaseSync.SyncSettles` | api/release_service.py:678-710 | After the artwork loop every track that takes the release cover has it and carries the mark |
| `ReleaseSync.SettledSyncIsIdle` | api/release_service.py:678-710 | Running that loop again writes nothing |
| `ReleaseSync.MaterializeArtwork` | api/release_service.py:836-843 | The covers and marks publishing computes from rows read before the artwork loop agree with what the loop wrote |
| `ReleaseSync.PublishedIsFixed` | api/release_service.py:769-851 | Publishing what is already published changes nothing, also after a shared album was replaced |
| `ReleaseOutcomes.ReorderGivesTheRequestedOrder` | api/release_views.py:628-640 | An accepted reorder leaves exactly the requested order, always for releases of up to 1000 tracks |
| `ReleaseOutcomes.RemovalKeepsOrder` | api/release_views.py:696-711 | The tracklist that either editor's removal leaves has only earlier tracks, in the order they had; the admin's exactly those not removed |
| `ReleaseOutcomes.RemovalIsNeverStuck` | api/admin_views.py:517-529 | Removals from a release with no more tracks than the loop's offset (1000 or 100000) are never refused by the position constraint |
| `ReleaseOutcomes.AddAppendsInOrder` | api/release_views.py:654-672 | Adding keeps the old tracks and appends one per requested song, in order: the song itself when it is an album-less draft on no other tracklist, otherwise a new copy that remembers it |
| `ReleaseEffects.AddWritesTheRows` | api/release_service.py:617-622 | The song row of an added track: a draft, or pending in review, off every album; a copy keeps the artwork and loses plays and single mark |
| `ReleaseEffects.AddAppliesIff` | api/release_views.py:641-672 | An addition is accepted exactly in an editable release, for existing songs of its artist, with room for the new ones; then there is one more track for each, behind the old ones, and a higher version |
| `ReleaseEffects.UploadAppendsOne` | api/release_views.py:1386-1465 | When an upload is refused; otherwise a new draft recording is the last track, with the release's artwork |
| `ReleaseEffects.ArtistPatchApplies` | api/release_views.py:428-515 | The artist's patch applies exactly to a draft or a release in review: kind, marks and the artwork that follows from them |
| `ReleaseEffects.AdminPatchApplies` | api/release_views.py:1138-1221 | The admin's patch applies until the release is scheduled; notes alone raise the version in any status |
| `ReleaseEffects.StaleVersionChangesNothing` | api/release_views.py:127-148 | Whatever a client with another version asks for, nothing changes |
| `ReleaseEffects.LockedTracklistStays` | api/release_views.py:151-160 | Outside a draft, and for the artist outside review, tracklists are not edited |
| `ReleaseEffects.EditsRaiseTheVersion` | api/release_views.py:142-148 | An edit that changes anything raises the version, except exactly a removal that leaves a release that is down already without active tracks |
| `ReleaseEffects.EmptyingKeepsTheVersion` | api/release_views.py:185-187 | That exception in a reachable state |
| `ReleaseFootprints.OutsidersStay` | api/release_service.py:625-1052 | Over all 22 kinds of event: a recording that is no track of the request's release and not named in the request stays exactly as it was |
| `ReleaseOutcomes.CloneCopiesEveryTrack` | api/release_service.py:637-662 | A clone is a draft without history whose tracks are new album-less drafts in the same places |
| `ReleaseOutcomes.CloneAddsOneRelease` | api/release_service.py:637-662 | The clone has the source's artist, kind and artwork, starts at version 1, and is the only release that changes |
| `ReleaseOutcomes.ActReachesItsTarget` | api/release_views.py:1575-1710 | An action takes the release to its target exactly when version, transition table, blocks, validation and schedule all allow it; the version rises exactly then, the requested time is stored, and otherwise no song's status changes |
| `ReleaseOutcomes.SetFromAdminReachesItsTarget` | api/release_service.py:941-1001 | Setting a status from the admin site reaches it (or Live, when approving what was live before) exactly when a promotion finds the release valid and a schedule lies in the future; version, stored time and song statuses follow, and otherwise nothing at all changes |
| `ReleaseGrants.ActIsGrantedIff` | api/release_views.py:1575-1680 | When an action is granted, said of the release: known version, target onward in the moderation graph, not deleted by its artist, restorable when down, complete when promoted, future when scheduled |
| `ReleaseGrants.ActFollowsTheGraph` | api/release_views.py:1575-1584 | Moderation never moves a release but along that graph |
| `ReleaseGrants.ValidIffComplete` | api/release_service.py:228-265 | Synchronizing the artwork first does not decide whether a release has artwork, the tracks its kind calls for, and no deleted one |
| `ReleaseGrants.SubmitIsGrantedIff` | api/release_views.py:924-958 | A draft is submitted exactly by a client that knows the version, when it is complete |
| `ReleaseGrants.SettableIff` | api/release_service.py:955-993 | The admin site asks for completeness for a promotion and a future date for a schedule, and for nothing else |
| `ReleaseListing.ActChangesTheListing` | api/release_views.py:1655-1710 | A release an action publishes is in the catalogue afterwards (its album holds exactly its tracks, or its song is a single without album), one that is taken down is not |
| `ReleaseListing.SetFromAdminChangesTheListing` | api/release_service.py:965-1000 | So is one the admin site makes live, and a live one that it makes a draft or takes down is not |
| `ReleaseListing.PublishDueLists` | api/release_service.py:1033-1052 | The publishing job lists what is due |
| `ReleaseListing.SynchronizeRestoresTheListing` | api/release_service.py:1014-1029 | Synchronizing lists a live release again and withdraws one that is down, whatever the rows were |
| `ReleaseListing.SubmitMarksTheSongs` | api/release_views.py:924-958 | A granted submission marks every active song as pending, and as a single exactly for a single |
| `ReleaseEffects.PublishDueGoesLive` | api/release_service.py:1033-1052 | A release that is due goes live with every one of its songs published, and keeps its time; no other release changes at all |
| `ReleaseEffects.PublishedAlbum` | api/release_service.py:783-826 | Publishing keeps an album that holds nothing else, gives any other release that is not a single a new one, and deletes only a single's exclusive album |
| `ReleaseEffects.PublishedSongRow` | api/release_service.py:791-844 | The whole row of a published song: album, single mark, track number, status and cover |
| `ReleaseEffects.PublishedLinkRow` | api/release_service.py:836-843 | A track is marked as inheriting exactly when it was or took the release's cover |
| `ReleaseEffects.TakenDownAlbum` | api/release_service.py:862-874 | Taking down deletes the release's album exactly when nothing else is on it, and no other album |
| `ReleaseEffects.TakenDownSongRow` | api/release_service.py:858-874 | The whole row of a song that is taken down |
| `ReleaseEffects.ReopenForEditRestartsReview` | api/release_views.py:438-450 | Reopening for an edit needs a confirmation and a release past review; then it is in review again without a schedule, its songs pending |
| `ReleaseOutcomes.RemovalTakesExactlyTheRequested` | api/release_views.py:681-758 | The artist's removal: removed songs leave tracklist and album as singles and become drafts in a draft, the others stay as they are, and the release is erased or taken down exactly when it is empty and the case calls for it |
| `ReleaseEffects.RemovalDropsEmptyAlbum` | api/release_views.py:712-726 | It deletes the release's album exactly when nothing is left on it, and no other |
| `ReleaseEffects.AdminRemoveKeepsSongs` | api/release_views.py:1359-1378 | The admin's removal changes no song |
| `ReleaseOutcomes.SubmitReachesReview` | api/release_views.py:924-958 | A draft goes to review exactly when the client is current and the synchronized release is valid; the version rises exactly then |
| `ReleaseOutcomes.ArtworkSparesOwnCovers` | api/release_service.py:678-710 | New artwork reaches singles and the tracks that inherit, have no cover or show the previous artwork; a track's own cover stays |
| `ReleaseEffects.ArtworkAppliesIff` | api/release_views.py:811-895 | When artwork is refused; otherwise it is the release's cover, and a release past review is in review again |
| `ReleaseRevival.DeletedStaysDeletedIff` | api/release_service.py:1004-1052 | Over all 22 kinds of event: a deleted song that is not erased stays deleted exactly unless the event is the publishing job on its due release, a synchronization of its live release, or a change of its row while no tracklist has it |
| `ReleaseRevival.ActKeepsDeleted` | api/release_views.py:1655-1710 | No moderation action revives a deleted song |
| `ReleaseRevival.PublishDueKeepsDeletedIff` | api/release_service.py:1033-1052 | The publishing job keeps all deleted songs deleted exactly when the release is not due or none of its tracks is deleted |
| `ReleaseRevival.SynchronizeKeepsDeletedIff` | api/release_service.py:1004-1030 | Synchronizing does exactly when the release is not live or none of its tracks is deleted |
| `ReleaseRevival.PublishDueRevivesDeleted` | api/release_service.py:1033-1052 | A reachable state in which the job publishes a deleted track: an EP scheduled with two tracks, one deleted before its time |
| `ReleaseRevival.SynchronizeRevivesDeleted` | api/release_service.py:1004-1030 | A reachable state in which synchronizing does: the same EP, live, with one track deleted |
| `ReleaseOutcomes.ArtistDeleteErasesOnlyDrafts` | api/release_views.py:545-566 | A recording is erased exactly when the release is a draft and it was never played, published or deleted; any other stays, deleted, and keeps the release, taken down |
| `ReleaseEffects.ArtistDeleteEndsTheRelease` | api/release_views.py:545-600 | The artist's delete ends the release exactly when no song has to be kept; then its album goes too if nothing is left on it |
| `ReleaseEffects.AdminDeleteErases` | api/release_views.py:1224-1296 | The admin's delete erases the release and exactly its own songs, and its album exactly when nothing else is on it |
| `ReleaseEffects.SoftDeleteMarksOne` | api/admin_views.py:1664-1672 | A soft song delete marks that song alone and takes down exactly the active releases that lose their last active track |
| `ReleaseEffects.HardDeleteErasesOne` | api/admin_views.py:549-567 | A hard one erases that song and changes no other song or album |
| `ReleaseOutcomes.HardDeleteLeavesNoTrace` | api/admin_views.py:531-567 | A hard delete removes the song, and no other, from every tracklist, whose order stays, and takes down exactly the active releases that lose their last active track |
| `ReleaseCatalog.Catalog.ChangeStatus` | api/release_service.py:625-634 | Status, version and history row in place |
| `ReleaseCatalog.Catalog.SyncArtwork` | api/release_service.py:678-710 | The artwork loop in place |
| `ReleaseCatalog.Catalog.Prepare` | api/release_service.py:751-767 | Preparing in place, track by track |
| `ReleaseCatalog.Catalog.PublishSingle` | api/release_service.py:791-802 | The publishing loop of a single |
| `ReleaseCatalog.Catalog.PublishCollection` | api/release_service.py:828-844 | The publishing loop of every other release |
| `ReleaseCatalog.Catalog.Materialize` | api/release_service.py:769-851 | Publishing in place, with the album kept, created, replaced or deleted |
| `ReleaseCatalog.Catalog.TakeDown` | api/release_service.py:854-874 | Taking down in place |
| `ReleaseCatalog.Catalog.MarkForReview` | api/release_service.py:877-921 | The review loop in place |
| `ReleaseCatalog.Catalog.Approve` | api/release_service.py:924-938 | Approving in place |
| `ReleaseCatalog.Catalog.Synchronize` | api/release_service.py:1004-1030 | Synchronizing in place |
| `ReleaseCatalog.Catalog.Renumber` | api/release_views.py:203-213 | Renumbering the stored links through the constrained rows |
| `ReleaseCatalog.Catalog.AddTrack` | api/release_service.py:617-622 | Copy or reuse, link, and the status of a release in review |
| `ReleaseCatalog.Catalog.AddTracks` | api/release_views.py:660-672 | The adding loop |
| `ReleaseCatalog.Catalog.Clone` | api/release_service.py:637-662 | The copying loop |
| `IdLists.RewriteIdList` | api/admin_views.py:204-231 | The loop returns the first occurrences of the mapped and filtered list, and flags exactly an affected element or a dropped duplicate |
| `IdLists.FlagIffChanged` | api/admin_views.py:204-231 | With a replacement other than the source the flag is set exactly when the list, read as integers, changed |
| `IdLists.FlagIffStoredListChanged` | api/admin_views.py:204-231 | For a list of integers, exactly when the stored list changed |
| `IdLists.SelfReplacementFlagsUnchangedList` | api/admin_views.py:217-221 | Merging an id into itself flags an unchanged list |
| `IdLists.RewriteFieldIds` | api/admin_views.py:204-231 | Written back or not, the ids of a field are the mapped and filtered ones |
| `IdLists.NormalizeGenres` | api/admin_views.py:247-258 | The loop reads a genre list as distinct integers, first occurrences first; anything that is not a list counts as empty |
| `IdLists.WithGenreIds` | api/admin_views.py:259-262 | Adding a parent genre adds exactly that id |
| `Taxonomy.WorkspaceFollowsContent` | api/admin_views.py:234-312 | The ids a reported workspace lists after the rewrite are what the same deletion leaves of a song with those ids |
| `Taxonomy.DeleteCarriesOver` | api/admin_views.py:451-487 | For every song, album and workspace, in terms of what it listed before: a replacement is listed by whatever listed it, the source or a sub-genre of the source, a replacing sub-genre brings its parent genre, every other id is kept, and nothing else is gained; names and parents of the remaining rows too |
| `Taxonomy.DeleteKeepsHierarchy` | api/admin_views.py:408-487 | If whatever lists a sub-genre lists its parent genre, it still does after any deletion or merge, with re-parenting and cascade |
| `Taxonomy.DeleteKeepsIdsExisting` | api/admin_views.py:408-487 | No id dangles afterwards in a song, album, workspace or parent link |
| `Taxonomy.ImpactIffSomethingElseChanges` | api/admin_views.py:163-201 | The impact report is non-empty exactly when the deletion changes more than the item itself |
| `Taxonomy.ScanSufficesIff` | api/admin_views.py:116-160 | Rewriting the reported workspaces equals rewriting all of them exactly when no other workspace repeats an id (or, when sub-genres go too, stores -1) |
| `Taxonomy.RepeatedIdEscapesTheScan` | api/admin_views.py:116-160 | A workspace with a repeated id that only the full rewrite would touch |
| `TaxonomyStore.NothingIsLostUnconfirmed` | api/admin_views.py:437-449 | Nothing but the item is ever lost without its name typed and, without a replacement, the loss acknowledged |
| `TaxonomyStore.AcceptedIff` | api/admin_views.py:408-449 | A request goes through exactly when item and replacement exist, they differ, and it is harmless or confirmed |
| `TaxonomyStore.RefusalTells` | api/admin_views.py:408-449 | The reason given for a refusal holds, and none that is checked earlier does |
| `TaxonomyStore.AddInBatches` | api/admin_views.py:315-328 | The batched loop adds the link to exactly the given items |
| `TaxonomyStore.MoveLinks` | api/admin_views.py:455-475 | What lists the source or a child of it is linked to the replacement, and to the parent genre of a replacing sub-genre; no link is lost and no other gained |
| `TaxonomyStore.RewriteOne` | api/admin_views.py:242-304 | One workspace rewritten in place: it lists the replacement for the item, and has a new version exactly when its lists changed |
| `TaxonomyStore.Tables.ScanImpact` | api/admin_views.py:116-160 | The scan returns exactly the workspaces that list the item or one of its children |
| `TaxonomyStore.Tables.RewriteWorkspaces` | api/admin_views.py:234-312 | The rewriting loop and the number it reports |
| `TaxonomyStore.Tables.DeleteRow` | api/admin_views.py:486 | Deleting the row with its cascades: if every link and parent reference named an existing row they still do, and every item keeps exactly those of its links whose rows survive |
| `TaxonomyStore.Tables.Apply` | api/admin_views.py:451-486 | The merge steps in order carry the content over as `DeleteCarriesOver` says |
| `TaxonomyStore.Tables.Remove` | api/admin_views.py:408-499 | The whole request: each refusal, in order, changes nothing; otherwise the content is carried over or dropped, with the counts, and hierarchy and existing ids are kept |
| `SmartFill.IntList` | api/admin_views.py:571-586 | The loop keeps the first occurrence of every positive integer |
| `SmartFill.Select` | api/admin_views.py:2743-2759 | The selection loop with its per-artist counts and early exit |
| `SmartFill.Post` | api/admin_views.py:2716-2770 | The request: what is refused, the bounds on number and cap, what counts as held, how shortfall and final count add up to the length asked for, and that the offer stays within the caps and leaves no room unused |
| `SmartFill.FillSize` | api/admin_views.py:2752-2759 | The number selected is the smaller of the number needed and, over the artists, what each cap leaves of what is available |
| `SmartFill.FillIsWithinCap` | api/admin_views.py:2754-2755 | No artist gains a song beyond its cap; a cap of zero means none |
| `SmartFill.FillIsChosen` | api/admin_views.py:2752-2759 | The selection is a subsequence of the ranking |
| `SmartFill.FillIsLargest` | api/admin_views.py:2752-2759 | No selection from the ranking that respects the caps is longer |
| `SmartFill.FillDominates` | api/admin_views.py:2752-2759 | Nor has any such selection taken more from the first n candidates, for any n |
| `SmartFill.ShortfallMeansCapped` | api/admin_views.py:2761 | A shortfall leaves behind only songs whose artist is at its cap |
| `SmartFill.NoSongIsAddedTwice` | api/admin_views.py:2726-2742 | Appending and filling never select a song the playlist has |
| `SmartFill.HeldAreTheListed` | api/admin_views.py:2744-2751 | The counts held are those of the listed songs that are in the library, unless the playlist is replaced |
| `SmartFill.FillIsOffered` | api/admin_views.py:2726-2761 | The offer in the request's own terms: from the ranking, not listed yet, within the caps, nothing left out while there is room |
| `RefreshProtocol.ExchangedAtMostOnce` | api/auth_views.py:1188-1237 | However many requests present a refresh token, and however they interleave, it is exchanged at most once |
| `RefreshProtocol.ReachableTablesAreOneToOne` | api/auth_views.py:430-467 | In every reachable table a session takes at most one token and a token opens at most one session |
| `RefreshProtocol.DeadTokensStayDead` | api/auth_views.py:1188-1237 | A token that no session takes is never taken again |
| `RefreshProtocol.RevokedTokenNeverReturns` | api/auth_views.py:1276-1421 | A token whose session is revoked, by a logout, on its own, with the user's other sessions or with all of them, is refused for ever, even after its row is reused by a login |
| `RefreshProtocol.TokenDiesIffEnded` | api/auth_views.py:420-1421 | Over all 14 kinds of event, in any state: a live token dies exactly when the event removes its session as a duplicate of the device, reuses it for a login, exchanges it, revokes it or lets it expire |
| `RefreshProtocol.LoneRefreshSucceeds` | api/auth_views.py:1206-1237 | Without interference a live token is exchanged for one that is live in its place |
| `RefreshProtocol.RunKeepsInvariant` | api/auth_views.py:420-467 | Every stored token was minted for the row and user that store it, along every run |
| `RefreshSessions.LoginReplacesToken` | api/auth_views.py:430-467 | A login opens its row for the new token alone, even if the row was revoked |
| `RefreshSessions.LoginOpensOnly` | api/auth_views.py:430-467 | A login leaves every session of another user or device as it was, and the device with one |
| `RefreshSessions.LoginDecidesEveryToken` | api/auth_views.py:430-467 | So the live tokens afterwards are the new one and those held by other users and devices |
| `RefreshSessions.RotationExchangesTheToken` | api/auth_views.py:1209-1237 | A rotation kills the old token and makes its successor live |
| `RefreshSessions.RotationSparesOthers` | api/auth_views.py:1209-1237 | A rotation decides about no other token and changes no other session; the successor names the same user |
| `RefreshSessions.PurgeSparesLive` | api/runtime_maintenance.py:100-103 | The purge decides about no token: it takes exactly the rows that expired long enough ago |
| `RefreshSessions.RevocationKillsExactly` | api/auth_views.py:1403-1421 | Revoking sessions kills exactly the tokens they held: any other live token still is, and none becomes live |
| `RefreshSessions.ClaimCheckIsRedundant` | api/auth_views.py:1195-1204 | The session claim never refuses a row the hash matched |
| `SessionStore.Store.FindSession` | api/auth_views.py:1190-1202 | The scan finds a matching active session whenever there is one |
| `SessionStore.Store.NewestSession` | api/auth_views.py:431-441 | The device's newest session |
| `SessionStore.Store.PrepareSession` | api/auth_views.py:441-456 | A row is created, or its duplicates go; sessions of other users and devices stay |
| `SessionStore.Store.SaveLogin` | api/auth_views.py:458-467 | The new token is stored in the row, unless the row has gone |
| `SessionStore.Store.RotateToken` | api/auth_views.py:1209-1237 | The locked re-check and the rotation it guards |
| `SessionStore.Store.Revoke` | api/auth_views.py:1284-1289 | The revoking update: afterwards the live tokens are those that were live and that no revoked row held |
| `SessionStore.Store.Refresh` | api/auth_views.py:1188-1237 | Both phases together succeed exactly for a live token, leave its successor live in its place, and leave every other token and session as it was |
| `SessionStore.Store.Login` | api/auth_views.py:420-467 | A login's token names the user and is live, none the device's sessions held before is, and every session and token of another user or device is as it was |
| `OtpCodes.PointerIsTransparentIff` | api/auth_views.py:223-243 | Looking through the cached pointer is the table query for every pointer content exactly when no user and purpose has two live codes |
| `OtpCodes.LookupIsTheTableQuery` | api/auth_views.py:223-243 | Along every run, whatever the cache holds, the lookup answers as the table alone would |
| `OtpCodes.CodeIsBounded` | api/auth_views.py:246-270 | No code is compared more than three times or accepted more than once |
| `OtpCodes.SentCodeIsAcceptedIff` | api/auth_views.py:246-270 | Whatever happens in between for other users and purposes, to the cache and to the clock, a sent code is accepted exactly when fewer than three wrong guesses were made and it is not expired |
| `OtpCodes.IssueSparesOthers` | api/auth_views.py:381-397 | Issuing withdraws exactly the codes of its user and purpose; every other code and pointer stays |
| `OtpCodes.IssueAddsOne` | api/auth_views.py:385-414 | The new code can be found by its user and purpose alone, until it expires, exactly if it was sent |
| `OtpCodes.VerifyMeans` | api/auth_views.py:246-270 | What a verification answers in terms of the codes that can be found, and what it writes; every other row stays |
| `OtpCodes.NewestLive` | api/auth_views.py:235-237 | The table query finds the newest matching code, and finds one whenever there is one |
| `OtpCodes.RunKeepsOneUnconsumed` | api/auth_views.py:376-393 | Issuing keeps at most one open code per user and purpose |
| `OtpStore.Store.LatestValid` | api/auth_views.py:223-243 | The lookup in place; the cached pointer is set to what was found, or dropped, and other pointers stay |
| `OtpStore.Store.ConsumeCode` | api/auth_views.py:246-270 | The consuming transaction in place |
| `OtpStore.Store.CreateAndSend` | api/auth_views.py:376-417 | Issuing in place: the new row comes last and is withdrawn if undelivered, the codes and pointers of other users and purposes are as they were |

## Left out

- Late mirrors and lost rotations inside the interleaving model: the protocol is false with them, so they appear only in the two if-and-only-if lemmas and the counterexample.
- Expiry of the namespace and last-id keys, which have no expiry in the code; only count keys expire.
- A play attached to several songs at once: the play rows are modelled as a map from play to song.
- The time-based rotation of `fresh_order_ids` without a client (api/recommendation_runtime.py:147-151): it depends on the wall clock.
- Key expiry of the recency list between selections: the fairness results hold from any list, so they restart after it.
- Track and release metadata other than artwork, type and marks (titles, credits, genres of songs, release dates): `sync_release_tracks` is modelled as its artwork loop.
- `validation_payload` beyond tracklist size, deleted tracks and the cover: the rest is one boolean a request may set either way.
- The notes that tell artist and admin removals apart (api/release_service.py:379-434): a request may be barred or not; the conditions on tracks are modelled.
- Edits of a song's status through the admin song form and Django inlines, and the targeted form of `mark_release_for_review`.
- Artists, permissions and employees: a request names its release, and refusals for permission change nothing.
- `source_song` references are not cleared when the song they name is erased; ids are never reused, so a stale reference matches nothing.
- Moods and tags, which are the genre case without a hierarchy, and renaming of taxonomy items.
- Values that `int()` refuses with an overflow (an infinite float in stored JSON), and names with surrounding spaces in confirmations.
- The ranking of smart-fill candidates: the query is a parameter; only the exclusion of existing songs is modelled.
- The refusal to revoke one's own current session (api/auth_views.py:1319-1362): without it the model allows more runs, and the results hold for all of them.
- The maintenance job that deletes one-time codes a day after they expired (api/runtime_maintenance.py:98): an expired code cannot be found any more.
- Employee session versions and bans, which only refuse more refreshes.
- `consume_otp` with a limit other than the default three attempts, the verified flag it sets, and the send cooldown.
- Cryptography, HTTP, storage of media, SMS and clock readings other than their order.
