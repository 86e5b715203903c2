/** Rewriting track positions one row at a time under the unique (release, position) constraint. */
module TrackPositions {
  import opened Sequences

  /** The artist views park rows above 1000, the admin views above 100000. */
  const ARTIST_OFFSET: nat := 1000
  const ADMIN_OFFSET: nat := 100000

  /** The songs of a release with their stored positions. */
  type Positions = map<nat, nat>

  /** `order` names every song of the release exactly once. */
  ghost predicate IsOrder(order: seq<nat>, positions: Positions) {
    && Distinct(order)
    && (forall k :: 0 <= k < |order| ==> order[k] in positions)
    && (forall song :: song in positions ==> song in order)
  }

  /** The position of the song at place `k`. */
  function Held(positions: Positions, order: seq<nat>, k: nat): int {
    if k < |order| && order[k] in positions then positions[order[k]] else -1
  }

  /** Place `k` is parked; renumbering leaves a row that already has its number. */
  predicate Parks(positions: Positions, order: seq<nat>, k: nat, skipPlaced: bool) {
    !(skipPlaced && Held(positions, order, k) == k + 1)
  }

  /** A row parked for place `k` would land on the row of a later place. */
  ghost predicate Collides(positions: Positions, order: seq<nat>, offset: nat, skipPlaced: bool) {
    exists k: nat, m: nat :: k < m && Parks(positions, order, k, skipPlaced) && Held(positions, order, m) == offset + k + 1
  }

  ghost predicate Numbered(positions: Positions, order: seq<nat>) {
    forall k: nat :: k < |order| ==> Held(positions, order, k) == k + 1
  }

  /** The rows after the first `i` places were parked. */
  ghost predicate Parked(positions: Positions, was: Positions, order: seq<nat>, i: nat, offset: nat, skipPlaced: bool) {
    && positions.Keys == was.Keys
    && forall k: nat :: k < |order| ==>
        if k < i && Parks(was, order, k, skipPlaced) then Held(positions, order, k) == offset + k + 1
        else Held(positions, order, k) == Held(was, order, k)
  }

  /** The rows after the first `i` places were settled. */
  ghost predicate Settled(positions: Positions, order: seq<nat>, i: nat, offset: nat) {
    forall k: nat :: k < |order| ==> Held(positions, order, k) == k + 1 || (i <= k && Held(positions, order, k) == offset + k + 1)
  }

  /** No other song holds the position. */
  predicate Free(positions: Positions, song: nat, position: nat) {
    forall other :: other in positions && other != song ==> positions[other] != position
  }

  lemma FreeIffNoOtherPlace(positions: Positions, order: seq<nat>, i: nat, position: nat)
    requires IsOrder(order, positions) && i < |order|
    ensures Free(positions, order[i], position) <==> forall m: nat :: m != i ==> Held(positions, order, m) != position
  {
    if !Free(positions, order[i], position) {
      var other :| other in positions && other != order[i] && positions[other] == position;
      var m :| 0 <= m < |order| && order[m] == other;
      assert Held(positions, order, m) == position;
    }
  }

  lemma ParkStep(positions: Positions, was: Positions, order: seq<nat>, i: nat, offset: nat, skipPlaced: bool)
    requires IsOrder(order, was) && i < |order| && Parked(positions, was, order, i, offset, skipPlaced)
    ensures !Parks(was, order, i, skipPlaced) ==> Parked(positions, was, order, i + 1, offset, skipPlaced)
    ensures Parks(was, order, i, skipPlaced) ==> Parked(positions[order[i] := offset + i + 1], was, order, i + 1, offset, skipPlaced)
  {
  }

  /** The write is refused exactly when a later place still holds the parking position. */
  lemma ParkIsRefusedIff(positions: Positions, was: Positions, order: seq<nat>, i: nat, offset: nat, skipPlaced: bool)
    requires IsOrder(order, was) && i < |order| && Parked(positions, was, order, i, offset, skipPlaced)
    ensures Free(positions, order[i], offset + i + 1) <==> forall m: nat :: i < m ==> Held(was, order, m) != offset + i + 1
  {
    FreeIffNoOtherPlace(positions, order, i, offset + i + 1);
    forall m: nat | m != i ensures Held(positions, order, m) == offset + i + 1 <==> i < m && Held(was, order, m) == offset + i + 1 {
    }
  }

  lemma SettleIsFree(positions: Positions, order: seq<nat>, i: nat, offset: nat)
    requires IsOrder(order, positions) && i < |order| && Settled(positions, order, i, offset)
    ensures Free(positions, order[i], i + 1)
    ensures Settled(positions[order[i] := i + 1], order, i + 1, offset)
  {
    FreeIffNoOtherPlace(positions, order, i, i + 1);
    var now := positions[order[i] := i + 1];
    forall k: nat | k < |order|
      ensures Held(now, order, k) == k + 1 || (i + 1 <= k && Held(now, order, k) == offset + k + 1)
    {
      assert k != i ==> Held(now, order, k) == Held(positions, order, k);
    }
    forall m: nat | m != i ensures Held(positions, order, m) != i + 1 {
      assert m < |order| ==> Held(positions, order, m) == m + 1 || (i <= m && Held(positions, order, m) == offset + m + 1);
    }
  }

  class Rows {
    var positions: Positions

    constructor (positions: Positions)
      ensures this.positions == positions
    {
      this.positions := positions;
    }

    /** One UPDATE: refused when another row of the release already has the position. */
    method Move(song: nat, position: nat) returns (ok: bool)
      requires song in positions
      modifies this
      ensures ok <==> Free(old(positions), song, position)
      ensures positions == if ok then old(positions)[song := position] else old(positions)
    {
      ok := Free(positions, song, position);
      if ok {
        positions := positions[song := position];
      }
    }

    /** The two loops; a refused write rolls everything back. */
    method Write(order: seq<nat>, offset: nat, skipPlaced: bool) returns (ok: bool)
      requires IsOrder(order, positions)
      modifies this
      ensures positions.Keys == old(positions).Keys
      ensures ok <==> !Collides(old(positions), order, offset, skipPlaced)
      ensures if ok then Numbered(positions, order) else positions == old(positions)
    {
      hide Free;
      var start := positions;
      StartsParked(start, order, offset, skipPlaced);
      for i := 0 to |order|
        invariant Parked(positions, start, order, i, offset, skipPlaced)
        invariant forall k: nat, m: nat :: k < i && k < m && Parks(start, order, k, skipPlaced) ==> Held(start, order, m) != offset + k + 1
      {
        ParkStep(positions, start, order, i, offset, skipPlaced);
        ParkIsRefusedIff(positions, start, order, i, offset, skipPlaced);
        if !skipPlaced || start[order[i]] != i + 1 {
          var moved := Move(order[i], offset + i + 1);
          if !moved {
            positions := start;
            return false;
          }
        }
      }
      StartsSettled(positions, start, order, offset, skipPlaced);
      for i := 0 to |order|
        invariant positions.Keys == start.Keys && Settled(positions, order, i, offset)
      {
        SettleIsFree(positions, order, i, offset);
        var moved := Move(order[i], i + 1);
      }
      NoLaterPlace(start, order, offset, skipPlaced);
      AllSettled(positions, order, offset);
      ok := true;
    }

    /** `_renumber_release_links` and `_renumber_admin_release_tracks`, over the songs in stored order. */
    method Renumber(stored: seq<nat>, offset: nat) returns (ok: bool)
      requires IsOrder(stored, positions)
      modifies this
      ensures positions.Keys == old(positions).Keys
      ensures ok <==> !Collides(old(positions), stored, offset, true)
      ensures if ok then Numbered(positions, stored) else positions == old(positions)
    {
      ok := Write(stored, offset, true);
    }

    /** The reorder action, over the songs in the requested order. */
    method Reorder(requested: seq<nat>) returns (ok: bool)
      requires IsOrder(requested, positions)
      modifies this
      ensures positions.Keys == old(positions).Keys
      ensures ok <==> !Collides(old(positions), requested, ARTIST_OFFSET, false)
      ensures if ok then Numbered(positions, requested) else positions == old(positions)
    {
      ok := Write(requested, ARTIST_OFFSET, false);
    }
  }

  lemma StartsParked(was: Positions, order: seq<nat>, offset: nat, skipPlaced: bool)
    requires IsOrder(order, was)
    ensures Parked(was, was, order, 0, offset, skipPlaced)
  {
  }

  lemma StartsSettled(positions: Positions, was: Positions, order: seq<nat>, offset: nat, skipPlaced: bool)
    requires IsOrder(order, was) && Parked(positions, was, order, |order|, offset, skipPlaced)
    ensures Settled(positions, order, 0, offset) && IsOrder(order, positions)
  {
  }

  lemma AllSettled(positions: Positions, order: seq<nat>, offset: nat)
    requires Settled(positions, order, |order|, offset)
    ensures Numbered(positions, order)
  {
  }

  lemma NoLaterPlace(was: Positions, order: seq<nat>, offset: nat, skipPlaced: bool)
    requires forall k: nat, m: nat :: k < |order| && k < m && Parks(was, order, k, skipPlaced) ==> Held(was, order, m) != offset + k + 1
    ensures !Collides(was, order, offset, skipPlaced)
  {
  }

  /** Positions no larger than the offset never collide, whatever is renumbered or reordered. */
  lemma SmallPositionsNeverCollide(positions: Positions, order: seq<nat>, offset: nat, skipPlaced: bool)
    requires forall song :: song in positions ==> positions[song] <= offset
    ensures !Collides(positions, order, offset, skipPlaced)
  {
  }

  /** Beyond the offset the artist loop can fail where the admin loop succeeds: a gap at the front
      parks the first row on the second. */
  lemma LargePositionCollides()
    ensures var positions: Positions := map[7 := 2, 8 := 1001];
            Collides(positions, [7, 8], ARTIST_OFFSET, true) && !Collides(positions, [7, 8], ADMIN_OFFSET, true)
  {
    var positions: Positions := map[7 := 2, 8 := 1001];
    assert Parks(positions, [7, 8], 0, true) && Held(positions, [7, 8], 1) == ARTIST_OFFSET + 1;
  }
}
