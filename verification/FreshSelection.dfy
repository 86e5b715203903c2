/** How recently exposed ids move behind the rest, for the Redis script and for the Python fallback.

    `recent` is the recency list as `LRANGE key 0 window-1` returns it, newest first. */
module FreshSelection {
  import opened Sequences

  type Id = string

  function Take<T>(xs: seq<T>, n: nat): seq<T> { if n < |xs| then xs[..n] else xs }

  /** The script keeps the first, most recent, position of a repeated id. */
  function FirstPositions(recent: seq<Id>): map<Id, nat> {
    if recent == [] then map[]
    else
      var position := FirstPositions(recent[..|recent| - 1]);
      var last := recent[|recent| - 1];
      if last in position then position else position[last := |recent| - 1]
  }

  /** The dictionary comprehension of the fallback keeps the last, oldest, position. */
  function LastPositions(recent: seq<Id>): map<Id, nat> {
    if recent == [] then map[]
    else LastPositions(recent[..|recent| - 1])[recent[|recent| - 1] := |recent| - 1]
  }

  ghost predicate Locates(position: map<Id, nat>, recent: seq<Id>) {
    && (forall id :: id in position <==> id in recent)
    && (forall id :: id in position ==> position[id] < |recent| && recent[position[id]] == id)
  }

  lemma {:induction false} FirstPositionsLocate(recent: seq<Id>)
    ensures Locates(FirstPositions(recent), recent)
    ensures forall id, j :: id in FirstPositions(recent) && 0 <= j < FirstPositions(recent)[id] ==> recent[j] != id
  {
    if recent != [] {
      var front, last := recent[..|recent| - 1], recent[|recent| - 1];
      FirstPositionsLocate(front);
      assert recent == front + [last];
    }
  }

  lemma {:induction false} LastPositionsLocate(recent: seq<Id>)
    ensures Locates(LastPositions(recent), recent)
    ensures forall id, j :: id in LastPositions(recent) && LastPositions(recent)[id] < j < |recent| ==> recent[j] != id
  {
    if recent != [] {
      var front, last := recent[..|recent| - 1], recent[|recent| - 1];
      LastPositionsLocate(front);
      assert recent == front + [last];
    }
  }

  predicate Injective(position: map<Id, nat>) {
    forall x, y :: x in position && y in position && x != y ==> position[x] != position[y]
  }

  /** `x` is picked before `y`: it is unseen, or both were seen and `x` longer ago.
      Two unseen ids are ordered by the ranking instead. */
  predicate Precedes(position: map<Id, nat>, x: Id, y: Id) {
    x !in position || (y in position && position[x] > position[y])
  }

  function Unseen(position: map<Id, nat>, ranked: seq<Id>): seq<Id> {
    if ranked == [] then []
    else
      var last := ranked[|ranked| - 1];
      Unseen(position, ranked[..|ranked| - 1]) + if last in position then [] else [last]
  }

  function Age(position: map<Id, nat>, id: Id): nat {
    if id in position then position[id] else 0
  }

  /** Insertion into a list sorted by descending position. */
  function InsertByAge(position: map<Id, nat>, sorted: seq<Id>, id: Id): seq<Id> {
    if sorted == [] then [id]
    else if Age(position, id) > Age(position, sorted[0]) then [id] + sorted
    else [sorted[0]] + InsertByAge(position, sorted[1..], id)
  }

  function SeenOldestFirst(position: map<Id, nat>, ranked: seq<Id>): seq<Id> {
    if ranked == [] then []
    else
      var last := ranked[|ranked| - 1];
      var sorted := SeenOldestFirst(position, ranked[..|ranked| - 1]);
      if last in position then InsertByAge(position, sorted, last) else sorted
  }

  lemma {:induction false} UnseenMembers(position: map<Id, nat>, ranked: seq<Id>)
    ensures forall id :: id in Unseen(position, ranked) <==> id in ranked && id !in position
  {
    if ranked != [] {
      UnseenMembers(position, ranked[..|ranked| - 1]);
      assert ranked == ranked[..|ranked| - 1] + [ranked[|ranked| - 1]];
    }
  }

  lemma {:induction false} InsertMembers(position: map<Id, nat>, sorted: seq<Id>, id: Id)
    ensures |InsertByAge(position, sorted, id)| == |sorted| + 1
    ensures forall x :: x in InsertByAge(position, sorted, id) <==> x == id || x in sorted
  {
    if sorted != [] {
      InsertMembers(position, sorted[1..], id);
      assert sorted == [sorted[0]] + sorted[1..];
    }
  }

  lemma {:induction false} SeenMembers(position: map<Id, nat>, ranked: seq<Id>)
    ensures forall id :: id in SeenOldestFirst(position, ranked) <==> id in ranked && id in position
    ensures |Unseen(position, ranked)| + |SeenOldestFirst(position, ranked)| == |ranked|
  {
    if ranked != [] {
      var front, last := ranked[..|ranked| - 1], ranked[|ranked| - 1];
      SeenMembers(position, front);
      assert ranked == front + [last];
      InsertMembers(position, SeenOldestFirst(position, front), last);
    }
  }

  /** One more candidate goes to the end of the unseen ids or into its place among the seen. */
  lemma SplitStep(position: map<Id, nat>, ranked: seq<Id>, i: nat)
    requires i < |ranked|
    ensures Unseen(position, ranked[..i + 1]) == Unseen(position, ranked[..i]) + if ranked[i] in position then [] else [ranked[i]]
    ensures ranked[i] in position ==>
              SeenOldestFirst(position, ranked[..i + 1]) == InsertByAge(position, SeenOldestFirst(position, ranked[..i]), ranked[i])
    ensures ranked[i] !in position ==> SeenOldestFirst(position, ranked[..i + 1]) == SeenOldestFirst(position, ranked[..i])
  {
    assert ranked[..i + 1][..i] == ranked[..i];
  }

  /** The whole ranking with recently exposed ids moved to the back, oldest exposure first. */
  function Ordered(position: map<Id, nat>, ranked: seq<Id>): seq<Id> {
    Unseen(position, ranked) + SeenOldestFirst(position, ranked)
  }

  function Selected(position: map<Id, nat>, ranked: seq<Id>, limit: nat): seq<Id> {
    Take(Ordered(position, ranked), limit)
  }

  /** `LPUSH` from the last selected to the first, then `LTRIM` to the window. */
  function Remembered(recent: seq<Id>, selected: seq<Id>, window: nat): seq<Id> {
    Take(selected + recent, window)
  }

  // The order.

  ghost predicate SortedByAge(position: map<Id, nat>, xs: seq<Id>) {
    && (forall x :: x in xs ==> x in position)
    && forall p, q :: 0 <= p < q < |xs| ==> position[xs[p]] > position[xs[q]]
  }

  lemma {:induction false} InsertKeepsSorted(position: map<Id, nat>, sorted: seq<Id>, id: Id)
    requires Injective(position) && SortedByAge(position, sorted) && id in position && id !in sorted
    ensures SortedByAge(position, InsertByAge(position, sorted, id))
  {
    if sorted == [] || position[id] > position[sorted[0]] {
      var inserted := [id] + sorted;
      assert forall q :: 0 < q < |inserted| ==> inserted[q] == sorted[q - 1] && inserted[q] in sorted;
    } else {
      var rest := InsertByAge(position, sorted[1..], id);
      InsertMembers(position, sorted[1..], id);
      InsertKeepsSorted(position, sorted[1..], id);
      PutInFront(position, sorted, rest, id);
    }
  }

  lemma PutInFront(position: map<Id, nat>, sorted: seq<Id>, rest: seq<Id>, id: Id)
    requires Injective(position) && SortedByAge(position, sorted) && sorted != [] && SortedByAge(position, rest)
    requires id in position && id !in sorted && position[id] <= position[sorted[0]]
    requires forall x :: x in rest <==> x == id || x in sorted[1..]
    ensures SortedByAge(position, [sorted[0]] + rest)
  {
    assert sorted[0] in sorted;
    forall q | 0 <= q < |rest| ensures position[sorted[0]] > position[rest[q]] {
      assert rest[q] in rest;
    }
  }

  lemma {:induction false} SeenIsSorted(position: map<Id, nat>, ranked: seq<Id>)
    requires Injective(position) && Distinct(ranked)
    ensures SortedByAge(position, SeenOldestFirst(position, ranked))
  {
    if ranked != [] {
      var front, last := ranked[..|ranked| - 1], ranked[|ranked| - 1];
      SeenIsSorted(position, front);
      SeenMembers(position, front);
      if last in position {
        InsertKeepsSorted(position, SeenOldestFirst(position, front), last);
      }
    }
  }

  lemma {:induction false} UnseenKeepsRanking(position: map<Id, nat>, ranked: seq<Id>)
    requires Distinct(ranked)
    ensures Distinct(Unseen(position, ranked))
  {
    if ranked != [] {
      UnseenKeepsRanking(position, ranked[..|ranked| - 1]);
      UnseenMembers(position, ranked[..|ranked| - 1]);
    }
  }

  lemma OrderedIsDistinct(position: map<Id, nat>, ranked: seq<Id>)
    requires Injective(position) && Distinct(ranked)
    ensures Distinct(Ordered(position, ranked))
    ensures |Ordered(position, ranked)| == |ranked|
    ensures forall id :: id in Ordered(position, ranked) <==> id in ranked
  {
    UnseenKeepsRanking(position, ranked);
    SeenIsSorted(position, ranked);
    UnseenMembers(position, ranked);
    SeenMembers(position, ranked);
    var unseen, seen := Unseen(position, ranked), SeenOldestFirst(position, ranked);
    assert forall i, j :: 0 <= i < |unseen| && 0 <= j < |seen| ==> unseen[i] in unseen && seen[j] in seen;
  }

  /** A selection takes `limit` different candidates, and each precedes every candidate left out. */
  lemma SelectionTakesOldest(position: map<Id, nat>, ranked: seq<Id>, limit: nat)
    requires Injective(position) && Distinct(ranked) && limit <= |ranked|
    ensures var s := Selected(position, ranked, limit);
            && |s| == limit && Distinct(s) && (forall id :: id in s ==> id in ranked)
            && forall x, y :: x in s && y in ranked && y !in s ==> Precedes(position, x, y)
  {
    var order, s := Ordered(position, ranked), Selected(position, ranked, limit);
    OrderedIsDistinct(position, ranked);
    SeenIsSorted(position, ranked);
    UnseenMembers(position, ranked);
    forall x, y | x in s && y in ranked && y !in s ensures Precedes(position, x, y) {
      var p :| 0 <= p < |s| && s[p] == x;
      assert y in order;
      var q :| 0 <= q < |order| && order[q] == y;
      assert order[p] == x && p < q;
    }
  }

  lemma FirstPositionsInjective(recent: seq<Id>)
    ensures Injective(FirstPositions(recent))
  {
    FirstPositionsLocate(recent);
  }

  lemma LastPositionsInjective(recent: seq<Id>)
    ensures Injective(LastPositions(recent))
  {
    LastPositionsLocate(recent);
  }

  // The slice, said without positions.

  /** The exposure of `x` that counts is the one at `k`: its newest one, or its oldest one. */
  ghost predicate ShownAt(recent: seq<Id>, newest: bool, x: Id, k: nat) {
    k < |recent| && recent[k] == x && forall j :: 0 <= j < |recent| && recent[j] == x ==> if newest then k <= j else j <= k
  }

  ghost predicate RankedBefore(ranked: seq<Id>, x: Id, y: Id) {
    exists i, j :: 0 <= i < j < |ranked| && ranked[i] == x && ranked[j] == y
  }

  /** Unseen candidates are served first and in rank order, then those shown longest ago. */
  ghost predicate ServedBefore(recent: seq<Id>, newest: bool, ranked: seq<Id>, x: Id, y: Id) {
    if x !in recent then y in recent || RankedBefore(ranked, x, y)
    else exists i, j :: ShownAt(recent, newest, x, i) && ShownAt(recent, newest, y, j) && i > j
  }

  /** `size` different candidates, each served before every candidate that comes later or not at all. */
  ghost predicate FreshSlice(recent: seq<Id>, newest: bool, ranked: seq<Id>, size: nat, slice: seq<Id>) {
    && |slice| == size && Distinct(slice)
    && (forall x :: x in slice ==> x in ranked)
    && forall p, y :: 0 <= p < |slice| && y in ranked && y !in slice[..p + 1] ==> ServedBefore(recent, newest, ranked, slice[p], y)
  }

  /** The positions the script or the fallback keeps. */
  function PositionsOf(recent: seq<Id>, newest: bool): map<Id, nat> {
    if newest then FirstPositions(recent) else LastPositions(recent)
  }

  lemma PositionsAreShown(recent: seq<Id>, newest: bool)
    ensures var position := PositionsOf(recent, newest);
            && Injective(position) && (forall x :: x in position <==> x in recent)
            && forall x :: x in position ==> ShownAt(recent, newest, x, position[x])
  {
    FirstPositionsLocate(recent);
    LastPositionsLocate(recent);
    FirstPositionsInjective(recent);
    LastPositionsInjective(recent);
  }

  lemma {:induction false} UnseenInRankOrder(position: map<Id, nat>, ranked: seq<Id>, p: nat, q: nat)
    requires p < q < |Unseen(position, ranked)|
    ensures RankedBefore(ranked, Unseen(position, ranked)[p], Unseen(position, ranked)[q])
  {
    var front, last := ranked[..|ranked| - 1], ranked[|ranked| - 1];
    var unseen := Unseen(position, front);
    assert ranked == front + [last];
    if q < |unseen| {
      UnseenInRankOrder(position, front, p, q);
      var i, j :| 0 <= i < j < |front| && front[i] == unseen[p] && front[j] == unseen[q];
      assert ranked[i] == unseen[p] && ranked[j] == unseen[q];
    } else {
      UnseenMembers(position, front);
      assert unseen[p] in front;
      var i :| 0 <= i < |front| && front[i] == unseen[p];
      assert ranked[i] == unseen[p] && ranked[|front|] == last;
    }
  }

  /** Any two places of the order the slice is cut from. */
  lemma OrderedServes(recent: seq<Id>, newest: bool, ranked: seq<Id>, p: nat, q: nat)
    requires Distinct(ranked) && p < q < |Ordered(PositionsOf(recent, newest), ranked)|
    ensures var order := Ordered(PositionsOf(recent, newest), ranked); ServedBefore(recent, newest, ranked, order[p], order[q])
  {
    var position := PositionsOf(recent, newest);
    var unseen, seen := Unseen(position, ranked), SeenOldestFirst(position, ranked);
    PositionsAreShown(recent, newest);
    UnseenMembers(position, ranked);
    SeenMembers(position, ranked);
    SeenIsSorted(position, ranked);
    if q < |unseen| {
      UnseenInRankOrder(position, ranked, p, q);
      assert unseen[p] in unseen;
    } else if p < |unseen| {
      assert unseen[p] in unseen && seen[q - |unseen|] in seen;
    } else {
      var x, y := seen[p - |unseen|], seen[q - |unseen|];
      assert x in seen && y in seen;
      assert ShownAt(recent, newest, x, position[x]) && ShownAt(recent, newest, y, position[y]);
    }
  }

  lemma SelectedIsFresh(recent: seq<Id>, newest: bool, ranked: seq<Id>, size: nat)
    requires Distinct(ranked) && size <= |ranked|
    ensures FreshSlice(recent, newest, ranked, size, Selected(PositionsOf(recent, newest), ranked, size))
  {
    var position := PositionsOf(recent, newest);
    var order, slice := Ordered(position, ranked), Selected(position, ranked, size);
    PositionsAreShown(recent, newest);
    OrderedIsDistinct(position, ranked);
    SelectionTakesOldest(position, ranked, size);
    hide PositionsOf, Injective, Ordered, ServedBefore;
    forall p, y | 0 <= p < |slice| && y in ranked && y !in slice[..p + 1] ensures ServedBefore(recent, newest, ranked, slice[p], y) {
      var q :| 0 <= q < |order| && order[q] == y;
      assert forall k :: 0 <= k < p + 1 ==> slice[..p + 1][k] == order[k];
      OrderedServes(recent, newest, ranked, p, q);
    }
  }

  lemma ServedBeforeIsOneWay(recent: seq<Id>, newest: bool, ranked: seq<Id>, x: Id, y: Id)
    requires Distinct(ranked) && x != y && ServedBefore(recent, newest, ranked, x, y)
    ensures !ServedBefore(recent, newest, ranked, y, x)
  {
  }

  /** The description leaves no choice. */
  lemma FreshSliceIsUnique(recent: seq<Id>, newest: bool, ranked: seq<Id>, size: nat, slice: seq<Id>, other: seq<Id>)
    requires Distinct(ranked)
    requires FreshSlice(recent, newest, ranked, size, slice) && FreshSlice(recent, newest, ranked, size, other)
    ensures slice == other
  {
    hide ServedBefore;
    for n := 0 to size
      invariant slice[..n] == other[..n]
    {
      var x, y := slice[n], other[n];
      if x != y {
        assert x in ranked && y in ranked;
        assert slice[..n + 1] == slice[..n] + [x] && other[..n + 1] == other[..n] + [y];
        assert forall k :: 0 <= k < n ==> slice[..n][k] == slice[k] && other[..n][k] == other[k];
        ServedBeforeIsOneWay(recent, newest, ranked, x, y);
        assert false;
      }
    }
    assert slice[..size] == slice && other[..size] == other;
  }

  // The fallback against the script.

  lemma SameKeys(recent: seq<Id>)
    ensures FirstPositions(recent).Keys == LastPositions(recent).Keys
    ensures forall id :: id in FirstPositions(recent) <==> id in recent
  {
    FirstPositionsLocate(recent);
    LastPositionsLocate(recent);
  }

  /** Among candidates that were exposed, the newest and the oldest exposure give the same order. */
  ghost predicate SameAgeOrder(recent: seq<Id>, ranked: seq<Id>) {
    var first, last := FirstPositions(recent), LastPositions(recent);
    forall x, y :: x in ranked && y in ranked && x in first && y in first && x in last && y in last ==>
      (first[x] > first[y] <==> last[x] > last[y])
  }

  lemma {:induction false} InsertAgrees(p: map<Id, nat>, q: map<Id, nat>, sorted: seq<Id>, id: Id)
    requires id in p && id in q
    requires forall x :: x in sorted ==> x in p && x in q && (p[id] > p[x] <==> q[id] > q[x])
    ensures InsertByAge(p, sorted, id) == InsertByAge(q, sorted, id)
  {
    if sorted != [] {
      InsertAgrees(p, q, sorted[1..], id);
    }
  }

  lemma {:induction false} OrderAgrees(p: map<Id, nat>, q: map<Id, nat>, ranked: seq<Id>)
    requires p.Keys == q.Keys
    requires forall x, y :: x in ranked && y in ranked && x in p && y in p ==> (p[x] > p[y] <==> q[x] > q[y])
    ensures Unseen(p, ranked) == Unseen(q, ranked)
    ensures SeenOldestFirst(p, ranked) == SeenOldestFirst(q, ranked)
  {
    if ranked != [] {
      var front, last := ranked[..|ranked| - 1], ranked[|ranked| - 1];
      OrderAgrees(p, q, front);
      if last in p {
        SeenMembers(p, front);
        InsertAgrees(p, q, SeenOldestFirst(p, front), last);
      }
    }
  }

  lemma {:induction false} UnseenDependsOnKeys(p: map<Id, nat>, q: map<Id, nat>, ranked: seq<Id>)
    requires p.Keys == q.Keys
    ensures Unseen(p, ranked) == Unseen(q, ranked)
  {
    if ranked != [] {
      UnseenDependsOnKeys(p, q, ranked[..|ranked| - 1]);
    }
  }

  /** Whatever the recency list holds, script and fallback agree on which candidates are unseen,
      list them first and in rank order, and follow with the same seen candidates. */
  lemma SameSplit(recent: seq<Id>, ranked: seq<Id>)
    ensures var first, last := FirstPositions(recent), LastPositions(recent);
            var unseen := Unseen(first, ranked);
            && unseen <= Ordered(first, ranked) && unseen <= Ordered(last, ranked)
            && (forall id :: id in unseen <==> id in ranked && id !in recent)
            && (forall id :: id in Ordered(first, ranked)[|unseen|..] <==> id in ranked && id in recent)
            && (forall id :: id in Ordered(last, ranked)[|unseen|..] <==> id in ranked && id in recent)
  {
    var first, last := FirstPositions(recent), LastPositions(recent);
    SameKeys(recent);
    UnseenDependsOnKeys(first, last, ranked);
    var unseen := Unseen(first, ranked);
    UnseenMembers(first, ranked);
    SeenMembers(first, ranked);
    SeenMembers(last, ranked);
    assert Ordered(first, ranked)[|unseen|..] == SeenOldestFirst(first, ranked);
    assert Ordered(last, ranked)[|unseen|..] == SeenOldestFirst(last, ranked);
  }

  lemma SortedTwiceAgrees(p: map<Id, nat>, q: map<Id, nat>, xs: seq<Id>, x: Id, y: Id)
    requires SortedByAge(p, xs) && SortedByAge(q, xs) && x in xs && y in xs
    ensures p[x] > p[y] <==> q[x] > q[y]
  {
    var i :| 0 <= i < |xs| && xs[i] == x;
    var j :| 0 <= j < |xs| && xs[j] == y;
  }

  lemma AgreementNeedsSameAgeOrder(recent: seq<Id>, ranked: seq<Id>)
    requires Distinct(ranked)
    requires Ordered(FirstPositions(recent), ranked) == Ordered(LastPositions(recent), ranked)
    ensures SameAgeOrder(recent, ranked)
  {
    var first, last := FirstPositions(recent), LastPositions(recent);
    SameKeys(recent);
    UnseenDependsOnKeys(first, last, ranked);
    var sorted := SeenOldestFirst(first, ranked);
    assert sorted == Ordered(first, ranked)[|Unseen(first, ranked)|..];
    assert SeenOldestFirst(last, ranked) == Ordered(last, ranked)[|Unseen(first, ranked)|..];
    FirstPositionsInjective(recent);
    LastPositionsInjective(recent);
    SeenIsSorted(first, ranked);
    SeenIsSorted(last, ranked);
    SeenMembers(first, ranked);
    forall x, y | x in ranked && y in ranked && x in first && y in first
      ensures first[x] > first[y] <==> last[x] > last[y]
    {
      SortedTwiceAgrees(first, last, sorted, x, y);
    }
  }

  lemma WholeSlice(position: map<Id, nat>, ranked: seq<Id>)
    ensures Selected(position, ranked, |ranked|) == Ordered(position, ranked)
  {
    SeenMembers(position, ranked);
  }

  ghost predicate SameSlices(recent: seq<Id>, ranked: seq<Id>) {
    forall limit: nat ::
      Selected(FirstPositions(recent), ranked, limit) == Selected(LastPositions(recent), ranked, limit)
  }

  /** The fallback picks the script's slice for every limit exactly when repeated exposures do not
      disagree about age. */
  lemma FallbackAgreesIff(recent: seq<Id>, ranked: seq<Id>)
    requires Distinct(ranked)
    ensures SameSlices(recent, ranked) <==> SameAgeOrder(recent, ranked)
  {
    var first, last := FirstPositions(recent), LastPositions(recent);
    if SameAgeOrder(recent, ranked) {
      SameKeys(recent);
      OrderAgrees(first, last, ranked);
      assert Ordered(first, ranked) == Ordered(last, ranked);
    } else if SameSlices(recent, ranked) {
      assert Selected(first, ranked, |ranked|) == Selected(last, ranked, |ranked|);
      WholeSlice(first, ranked);
      WholeSlice(last, ranked);
      AgreementNeedsSameAgeOrder(recent, ranked);
    }
  }

  lemma OnePositionEach(recent: seq<Id>)
    requires Distinct(recent)
    ensures FirstPositions(recent) == LastPositions(recent)
  {
    var first, last := FirstPositions(recent), LastPositions(recent);
    SameKeys(recent);
    FirstPositionsLocate(recent);
    LastPositionsLocate(recent);
    forall id | id in recent ensures first[id] == last[id] {
      assert recent[first[id]] == recent[last[id]];
    }
  }

  /** A recency list without repetitions makes script and fallback the same operation: the same
      slice, and the same list left behind. */
  lemma FallbackRefinedByScript(recent: seq<Id>, ranked: seq<Id>, limit: nat, window: nat)
    requires Distinct(recent)
    ensures var byScript := Selected(FirstPositions(recent), ranked, limit);
            var byFallback := Selected(LastPositions(recent), ranked, limit);
            byScript == byFallback && Remembered(recent, byScript, window) == Remembered(recent, byFallback, window)
  {
    OnePositionEach(recent);
  }

  lemma OldestOfTwo(position: map<Id, nat>, ranked: seq<Id>, x: Id, y: Id)
    requires ranked == [x, y] || ranked == [y, x]
    requires x != y && x in position && y in position && position[x] > position[y] && Injective(position)
    ensures Selected(position, ranked, 1) == [x]
  {
    SelectionTakesOldest(position, ranked, 1);
    var s := Selected(position, ranked, 1);
    assert ranked[0] in ranked && ranked[1] in ranked && !Precedes(position, y, x);
    assert s[0] in s && s == [s[0]];
    assert y in s ==> x in s;
  }

  /** They do differ after a repetition: `a` was shown again, so the script serves `b` first while
      the fallback still sees the old exposure of `a`. */
  lemma FallbackDiffersAfterRepetition()
    ensures var recent := ["a", "b", "a"];
            Selected(FirstPositions(recent), ["a", "b"], 1) == ["b"] &&
            Selected(LastPositions(recent), ["a", "b"], 1) == ["a"]
  {
    var recent := ["a", "b", "a"];
    assert recent[0] == "a" && recent[1] == "b" && recent[2] == "a";
    FirstPositionsLocate(recent);
    LastPositionsLocate(recent);
    FirstPositionsInjective(recent);
    LastPositionsInjective(recent);
    OldestOfTwo(FirstPositions(recent), ["a", "b"], "b", "a");
    OldestOfTwo(LastPositions(recent), ["a", "b"], "a", "b");
  }
}
