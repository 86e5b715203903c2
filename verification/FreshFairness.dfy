/** What a run of atomic selections over one pool guarantees.

    The pool has `n` members; every call ranks all of them, in an order that may change from call
    to call, and takes `limit` of them. The recency list may hold anything when the run begins. */
module FreshFairness {
  import opened Numbers
  import opened Sequences
  import opened FreshSelection

  /** A trace: the recency list before each call, the ranking each call was given, what it returned. */
  datatype Trace = Trace(pool: set<Id>, limit: nat, window: nat,
                         lists: seq<seq<Id>>, rankings: seq<seq<Id>>, picks: seq<seq<Id>>) {
    ghost predicate Valid() {
      && 1 <= limit <= |pool|
      && 1 <= window
      && |rankings| == |picks| && |lists| == |picks| + 1
      && (forall t :: 0 <= t < |rankings| ==> RanksPool(rankings[t]))
      && (forall t :: 0 <= t < |picks| ==> Call(limit, window, lists[t], rankings[t], picks[t], lists[t + 1]))
    }

    /** One atomic selection: what it returned and the list it left. */
    static ghost predicate Call(limit: nat, window: nat, list: seq<Id>, ranked: seq<Id>, pick: seq<Id>, next: seq<Id>) {
      pick == Selected(FirstPositions(Take(list, window)), ranked, limit) && next == Remembered(list, pick, window)
    }

    ghost predicate RanksPool(ranked: seq<Id>) {
      Distinct(ranked) && forall id :: id in ranked <==> id in pool
    }

    /** What the fairness arguments use of a valid trace. */
    ghost predicate Fair() {
      && 1 <= limit <= |pool|
      && |lists| == |picks| + 1
      && (forall t :: 0 <= t < |picks| ==> FairPick(pool, limit, Recent(t), picks[t]))
      && (forall t :: 0 <= t < |picks| ==> lists[t + 1] == Remembered(lists[t], picks[t], window))
    }

    /** What `LRANGE key 0 window-1` sees in call `t`. */
    function Recent(t: nat): seq<Id>
      requires t < |lists|
    {
      Take(lists[t], window)
    }

    /** Everything picked from call `i` up to but not including call `t`, newest first. */
    function Block(i: nat, t: nat): seq<Id>
      requires i <= t <= |picks|
      decreases t
    {
      if i == t then [] else picks[t - 1] + Block(i, t - 1)
    }
  }

  lemma RankingSize(s: Trace, ranked: seq<Id>)
    requires s.RanksPool(ranked)
    ensures |ranked| == |s.pool|
  {
    DistinctSize(ranked);
    assert (set x | x in ranked) == s.pool;
  }

  /** However short the head of the list that shows `x`, it shows `y` too. */
  ghost predicate ShownNoEarlier(recent: seq<Id>, y: Id, x: Id) {
    forall k :: 0 <= k <= |recent| && x in recent[..k] ==> y in recent[..k]
  }

  /** A pick has `limit` different members, and whoever it passes over was shown more recently
      than every picked member that was shown at all. */
  ghost predicate FairPick(pool: set<Id>, limit: nat, recent: seq<Id>, pick: seq<Id>) {
    && |pick| == limit && Distinct(pick)
    && (forall id :: id in pick ==> id in pool)
    && (forall x, y :: x in pick && y in pool && y !in pick ==> ShownNoEarlier(recent, y, x))
  }

  lemma PrecedesMeansShownEarlier(recent: seq<Id>, x: Id, y: Id)
    requires Precedes(FirstPositions(recent), x, y)
    ensures ShownNoEarlier(recent, y, x)
  {
    var position := FirstPositions(recent);
    FirstPositionsLocate(recent);
    forall k | 0 <= k <= |recent| && x in recent[..k] ensures y in recent[..k] {
      var p :| 0 <= p < k && recent[..k][p] == x;
      assert recent[p] == x && position[x] <= p;
      assert recent[position[y]] == y && recent[..k][position[y]] == y;
    }
  }

  lemma SelectionIsFair(pool: set<Id>, limit: nat, recent: seq<Id>, ranked: seq<Id>)
    requires Distinct(ranked) && (forall id :: id in ranked <==> id in pool) && limit <= |ranked|
    ensures FairPick(pool, limit, recent, Selected(FirstPositions(recent), ranked, limit))
  {
    var pick := Selected(FirstPositions(recent), ranked, limit);
    FirstPositionsInjective(recent);
    SelectionTakesOldest(FirstPositions(recent), ranked, limit);
    forall x, y | x in pick && y in pool && y !in pick ensures ShownNoEarlier(recent, y, x) {
      PrecedesMeansShownEarlier(recent, x, y);
    }
  }

  lemma ValidIsFair(s: Trace)
    requires s.Valid()
    ensures s.Fair()
  {
    assert forall t :: 0 <= t < |s.picks| ==> Trace.Call(s.limit, s.window, s.lists[t], s.rankings[t], s.picks[t], s.lists[t + 1]);
    forall t | 0 <= t < |s.picks| ensures FairPick(s.pool, s.limit, s.Recent(t), s.picks[t]) {
      assert Trace.Call(s.limit, s.window, s.lists[t], s.rankings[t], s.picks[t], s.lists[t + 1]);
      RankingSize(s, s.rankings[t]);
      SelectionIsFair(s.pool, s.limit, s.Recent(t), s.rankings[t]);
    }
  }

  lemma Distribute(a: nat, l: nat)
    ensures (a + 1) * l == a * l + l
  {
  }

  lemma {:induction false} BlockSize(s: Trace, i: nat, t: nat)
    requires s.Fair() && i <= t <= |s.picks|
    ensures |s.Block(i, t)| == (t - i) * s.limit
    ensures forall id :: id in s.Block(i, t) ==> id in s.pool
    decreases t
  {
    if i < t {
      BlockSize(s, i, t - 1);
      var a: nat := t - 1 - i;
      Distribute(a, s.limit);
      assert t - i == a + 1;
    }
  }

  /** The newest part of what a call reads is what the calls before it picked. */
  lemma {:induction false} RecentStartsWithBlock(s: Trace, i: nat, t: nat)
    requires s.Fair() && i <= t <= |s.picks|
    ensures Take(s.Recent(t), |s.Block(i, t)|) == Take(s.Block(i, t), s.window)
    decreases t
  {
    if i < t {
      RecentStartsWithBlock(s, i, t - 1);
      HeadsAgree(s.picks[t - 1], s.Block(i, t - 1), s.lists[t - 1], s.window);
    }
  }

  lemma HeadsAgree(pick: seq<Id>, older: seq<Id>, list: seq<Id>, window: nat)
    requires Take(Take(list, window), |older|) == Take(older, window)
    ensures Take(Take(Take(pick + list, window), window), |pick + older|) == Take(pick + older, window)
  {
    var m := if |older| < window then |older| else window;
    assert Take(older, window) == older[..m];
    assert m <= |list| && list[..m] == older[..m];
  }

  /** Within the newest part, whoever was passed over in favour of a shown member is shown too. */
  lemma PassedOverIsInBlock(s: Trace, i: nat, t: nat, x: Id, y: Id)
    requires s.Fair() && i <= t < |s.picks|
    requires x in s.picks[t] && y in s.pool && y !in s.picks[t]
    requires x in Take(s.Block(i, t), s.window)
    ensures y in Take(s.Block(i, t), s.window)
  {
    RecentStartsWithBlock(s, i, t);
    var head := Take(s.Block(i, t), s.window);
    var recent := s.Recent(t);
    assert FairPick(s.pool, s.limit, recent, s.picks[t]);
    assert head == recent[..|head|];
  }

  /** `many` different members of the pool, none of them in `few`. */
  lemma PoolRoom(pool: set<Id>, many: seq<Id>, few: set<Id>)
    requires Distinct(many) && (forall id :: id in many ==> id in pool && id !in few)
    requires few <= pool
    ensures |many| + |few| <= |pool|
  {
    DistinctSize(many);
    var m := set x | x in many;
    assert m !! few && m + few <= pool;
    assert |m + few| == |m| + |few|;
    SubsetSize(m + few, pool);
  }

  lemma {:induction false} ElementsAtMost(xs: seq<Id>)
    ensures |set x | x in xs| <= |xs|
  {
    if xs != [] {
      var front, last := xs[..|xs| - 1], xs[|xs| - 1];
      ElementsAtMost(front);
      assert xs == front + [last];
      assert (set x | x in xs) == (set x | x in front) + {last};
    }
  }

  lemma MonotoneProduct(a: nat, b: nat, l: nat)
    requires a <= b
    ensures a * l <= b * l
  {
  }

  lemma {:induction false} PickIsInBlock(s: Trace, i: nat, m: nat, t: nat, x: Id)
    requires s.Fair() && i <= m < t <= |s.picks| && x in s.picks[m]
    ensures x in s.Block(i, t)
    decreases t
  {
    if m < t - 1 {
      PickIsInBlock(s, i, m, t - 1, x);
    }
  }

  lemma FairPicksAreDisjoint(s: Trace, span: nat, i: nat, j: nat, x: Id)
    requires s.Fair() && i < j < |s.picks| && j - i < span
    requires span * s.limit <= |s.pool| && (span - 1) * s.limit <= s.window
    requires x in s.picks[i]
    ensures x !in s.picks[j]
  {
    var block := s.Block(i, j);
    BlockSize(s, i, j);
    MonotoneProduct(j - i, span - 1, s.limit);
    Distribute(span - 1, s.limit);
    PickIsInBlock(s, i, i, j, x);
    var blocked := set id | id in block;
    ElementsAtMost(block);
    var rest, picked := s.pool - blocked, set id | id in s.picks[j];
    assert FairPick(s.pool, s.limit, s.Recent(j), s.picks[j]);
    DistinctSize(s.picks[j]);
    if x in s.picks[j] {
      // Every member outside the block is still older than x, so it is picked too.
      forall y | y in rest ensures y in picked {
        if y !in s.picks[j] {
          PassedOverIsInBlock(s, i, j, x, y);
        }
      }
      SubsetSize(rest + {x}, picked);
    }
  }

  /** Any `span` consecutive calls return pairwise disjoint slices as long as the pool has that many
      slices in it and the window remembers all but one of them. */
  lemma ConsecutivePicksAreDisjoint(s: Trace, span: nat, i: nat, j: nat, x: Id)
    requires s.Valid() && i < j < |s.picks| && j - i < span
    requires span * s.limit <= |s.pool| && (span - 1) * s.limit <= s.window
    requires x in s.picks[i]
    ensures x !in s.picks[j]
  {
    ValidIsFair(s);
    FairPicksAreDisjoint(s, span, i, j, x);
  }

  /** Six slices but at least 72, and no more than the pool if that is larger than 72. */
  function DefaultWindow(limit: nat, n: nat): nat { Min(Max(limit * 6, 72), Max(n, 72)) }

  /** With the window the code uses by default, up to seven consecutive slices never overlap. */
  lemma DefaultWindowKeepsSevenSlicesApart(s: Trace, i: nat, j: nat, x: Id)
    requires s.Valid() && s.window == DefaultWindow(s.limit, |s.pool|)
    requires i < j < |s.picks| && j - i < 7 && (j - i + 1) * s.limit <= |s.pool|
    requires x in s.picks[i]
    ensures x !in s.picks[j]
  {
    var span := j - i + 1;
    MonotoneProduct(span - 1, 6, s.limit);
    MonotoneProduct(span - 1, span, s.limit);
    ConsecutivePicksAreDisjoint(s, span, i, j, x);
  }

  /** While a member goes unpicked, the calls that pass it over never repeat themselves within
      the window. */
  lemma {:induction false} PassedOverPicksDiffer(s: Trace, i: nat, t: nat, x: Id)
    requires s.Fair() && i <= t <= |s.picks| && x in s.pool
    requires forall m :: i <= m < t ==> x !in s.picks[m]
    ensures Distinct(Take(s.Block(i, t), s.window)) && x !in s.Block(i, t)
    decreases t
  {
    if i < t {
      PassedOverPicksDiffer(s, i, t - 1, x);
      var pick, older := s.picks[t - 1], s.Block(i, t - 1);
      var all := Take(pick + older, s.window);
      forall p, q | 0 <= p < q < |all| ensures all[p] != all[q] {
        if |pick| <= p {
          assert all[p] == Take(older, s.window)[p - |pick|] && all[q] == Take(older, s.window)[q - |pick|];
        } else if |pick| <= q {
          assert all[q] == Take(older, s.window)[q - |pick|];
          if all[p] == all[q] {
            PassedOverIsInBlock(s, i, t - 1, all[p], x);
          }
        }
      }
    }
  }

  /** A window that remembers all but one slice of the pool lets any `span` consecutive calls that
      hold at least the pool's size reach every member. */
  lemma PoolIsCovered(s: Trace, span: nat, i: nat, x: Id)
    requires s.Valid() && span >= 1 && i + span <= |s.picks| && x in s.pool
    requires span * s.limit >= |s.pool| && s.window + s.limit >= |s.pool|
    ensures Reached(s, span, x, i)
  {
    ValidIsFair(s);
    var t := i + span - 1;
    if forall m :: i <= m < t ==> x !in s.picks[m] {
      if x !in s.picks[t] {
        PassedOverPicksDiffer(s, i, t, x);
        BlockSize(s, i, t);
        var head := Take(s.Block(i, t), s.window);
        Distribute(span - 1, s.limit);
        assert |head| + s.limit >= |s.pool|;
        forall y | y in s.picks[t] ensures y !in head {
          if y in head {
            PassedOverIsInBlock(s, i, t, y, x);
          }
        }
        var both := (set y | y in s.picks[t]) + {x};
        DistinctSize(s.picks[t]);
        PoolRoom(s.pool, head, both);
        assert false;
      }
      assert x in s.picks[t];
    }
  }

  // The window is too small: the tail of the ranking starves.

  lemma {:induction false} UnseenIsPrefixwise(position: map<Id, nat>, ranked: seq<Id>, k: nat)
    requires k <= |ranked|
    ensures Unseen(position, ranked[..k]) <= Unseen(position, ranked)
  {
    if k == |ranked| {
      assert ranked[..k] == ranked;
    } else {
      UnseenIsPrefixwise(position, ranked[..|ranked| - 1], k);
      assert ranked[..|ranked| - 1][..k] == ranked[..k];
    }
  }

  lemma {:induction false} UnseenCount(recent: seq<Id>, ranked: seq<Id>)
    requires Distinct(ranked)
    ensures |Unseen(FirstPositions(recent), ranked)| + |recent| >= |ranked|
  {
    var unseen := Unseen(FirstPositions(recent), ranked);
    UnseenKeepsRanking(FirstPositions(recent), ranked);
    UnseenMembers(FirstPositions(recent), ranked);
    FirstPositionsLocate(recent);
    DistinctSize(ranked);
    DistinctSize(unseen);
    ElementsAtMost(recent);
    var r, u, c := set x | x in ranked, set x | x in unseen, set x | x in recent;
    assert r <= u + c;
    SubsetSize(r, u + c);
  }

  lemma TakeFromPrefix(a: seq<Id>, b: seq<Id>, c: seq<Id>, n: nat)
    requires a <= b && n <= |a|
    ensures Take(b + c, n) == a[..n]
  {
  }

  lemma EnoughUnseenAtTheTop(position: map<Id, nat>, ranked: seq<Id>, limit: nat, k: nat, r: nat)
    requires Distinct(ranked) && k <= r < |ranked| && limit <= |Unseen(position, ranked[..k])|
    ensures ranked[r] !in Selected(position, ranked, limit)
  {
    var unseen := Unseen(position, ranked[..k]);
    UnseenIsPrefixwise(position, ranked, k);
    UnseenMembers(position, ranked[..k]);
    TakeFromPrefix(unseen, Unseen(position, ranked), SeenOldestFirst(position, ranked), limit);
    assert ranked[r] !in ranked[..k];
    assert forall id :: id in unseen[..limit] ==> id in unseen;
  }

  /** A call only ever returns candidates from the top `window + limit` of its ranking. */
  lemma PicksComeFromTheTop(recent: seq<Id>, ranked: seq<Id>, limit: nat, window: nat, r: nat)
    requires Distinct(ranked) && |recent| <= window && window + limit <= r < |ranked|
    ensures ranked[r] !in Selected(FirstPositions(recent), ranked, limit)
  {
    hide *;
    var position := FirstPositions(recent);
    var top := ranked[..window + limit];
    assert limit <= |Unseen(position, top)| by {
      PrefixIsDistinct(ranked, window + limit);
      UnseenCount(recent, top);
    }
    EnoughUnseenAtTheTop(position, ranked, limit, window + limit, r);
  }

  lemma PrefixIsDistinct(xs: seq<Id>, k: nat)
    requires Distinct(xs) && k <= |xs|
    ensures Distinct(xs[..k])
  {
  }

  /** With a fixed ranking everything from place `window + limit` on is passed over for ever. */
  lemma StarvedUnderFixedRanking(s: Trace, ranked: seq<Id>, r: nat, t: nat)
    requires s.Valid() && t < |s.picks| && (forall u :: 0 <= u < |s.picks| ==> s.rankings[u] == ranked)
    requires s.window + s.limit <= r < |ranked|
    ensures ranked[r] !in s.picks[t]
  {
    assert Trace.Call(s.limit, s.window, s.lists[t], s.rankings[t], s.picks[t], s.lists[t + 1]);
    PicksComeFromTheTop(s.Recent(t), s.rankings[t], s.limit, s.window, r);
  }

  /** The run of `calls` selections from an empty list that always get the same ranking. */
  function FixedRun(pool: set<Id>, limit: nat, window: nat, ranked: seq<Id>, calls: nat): (s: Trace)
    ensures |s.picks| == calls && |s.lists| == calls + 1 && |s.rankings| == calls
    ensures s.pool == pool && s.limit == limit && s.window == window
  {
    if calls == 0 then Trace(pool, limit, window, [[]], [], [])
    else
      var s := FixedRun(pool, limit, window, ranked, calls - 1);
      var pick := Selected(FirstPositions(s.Recent(calls - 1)), ranked, limit);
      Trace(pool, limit, window,
            s.lists + [Remembered(s.lists[calls - 1], pick, window)], s.rankings + [ranked], s.picks + [pick])
  }

  lemma {:induction false} FixedRunIsValid(pool: set<Id>, limit: nat, window: nat, ranked: seq<Id>, calls: nat)
    requires 1 <= limit <= |pool| && 1 <= window
    requires Distinct(ranked) && forall id :: id in ranked <==> id in pool
    ensures var s := FixedRun(pool, limit, window, ranked, calls);
            s.Valid() && forall u :: 0 <= u < calls ==> s.rankings[u] == ranked
  {
    if calls > 0 {
      FixedRunIsValid(pool, limit, window, ranked, calls - 1);
      FixedRunGrows(pool, limit, window, ranked, calls);
    }
  }

  lemma FixedRunGrows(pool: set<Id>, limit: nat, window: nat, ranked: seq<Id>, calls: nat)
    requires calls > 0 && FixedRun(pool, limit, window, ranked, calls - 1).Valid()
    requires Distinct(ranked) && forall id :: id in ranked <==> id in pool
    ensures FixedRun(pool, limit, window, ranked, calls).Valid()
  {
    hide FirstPositions, Selected, Remembered, Take;
    var s := FixedRun(pool, limit, window, ranked, calls - 1);
    var pick := Selected(FirstPositions(s.Recent(calls - 1)), ranked, limit);
    AnotherCall(s, ranked, pick, Remembered(s.lists[calls - 1], pick, window));
  }

  lemma AnotherCall(s: Trace, ranked: seq<Id>, pick: seq<Id>, next: seq<Id>)
    requires s.Valid() && s.RanksPool(ranked)
    requires Trace.Call(s.limit, s.window, s.lists[|s.picks|], ranked, pick, next)
    ensures Trace(s.pool, s.limit, s.window, s.lists + [next], s.rankings + [ranked], s.picks + [pick]).Valid()
  {
    var n := |s.picks|;
    var s' := Trace(s.pool, s.limit, s.window, s.lists + [next], s.rankings + [ranked], s.picks + [pick]);
    forall t | 0 <= t <= n
      ensures Trace.Call(s'.limit, s'.window, s'.lists[t], s'.rankings[t], s'.picks[t], s'.lists[t + 1])
    {
      if t < n {
        assert Trace.Call(s.limit, s.window, s.lists[t], s.rankings[t], s.picks[t], s.lists[t + 1]);
      }
    }
  }

  ghost predicate Reached(s: Trace, span: nat, x: Id, i: nat)
    requires i + span <= |s.picks|
  {
    exists t :: i <= t < i + span && x in s.picks[t]
  }

  ghost predicate EveryMemberIsReached(s: Trace, span: nat) {
    forall x, i: nat {:trigger Reached(s, span, x, i)} :: x in s.pool && i + span <= |s.picks| ==> Reached(s, span, x, i)
  }

  ghost predicate AlwaysCovers(pool: set<Id>, limit: nat, window: nat, span: nat) {
    forall s: Trace {:trigger EveryMemberIsReached(s, span)} ::
      s.Valid() && s.pool == pool && s.limit == limit && s.window == window ==> EveryMemberIsReached(s, span)
  }

  lemma FixedRankingStarves(s: Trace, ranked: seq<Id>)
    requires s.Valid() && s.window + s.limit < |s.pool| && s.RanksPool(ranked)
    requires forall u :: 0 <= u < |s.picks| ==> s.rankings[u] == ranked
    ensures !EveryMemberIsReached(s, |s.picks|)
  {
    RankingSize(s, ranked);
    var x := ranked[s.window + s.limit];
    forall t: nat | t < |s.picks| ensures x !in s.picks[t] {
      StarvedUnderFixedRanking(s, ranked, s.window + s.limit, t);
    }
    assert x in ranked && x in s.pool;
    assert 0 + |s.picks| <= |s.picks| && !Reached(s, |s.picks|, x, 0);
  }

  lemma SmallWindowStarves(pool: set<Id>, limit: nat, window: nat, span: nat, ranked: seq<Id>)
    requires 1 <= limit <= |pool| && 1 <= window && window + limit < |pool|
    requires Distinct(ranked) && forall id :: id in ranked <==> id in pool
    ensures !AlwaysCovers(pool, limit, window, span)
  {
    var s := FixedRun(pool, limit, window, ranked, span);
    FixedRunIsValid(pool, limit, window, ranked, span);
    FixedRankingStarves(s, ranked);
    assert !EveryMemberIsReached(s, span);
  }

  /** Whether any `span` consecutive calls reach the whole pool, for every starting list and every
      way of ranking it, comes down to window plus slice being at least the pool. */
  lemma CoverageIff(pool: set<Id>, limit: nat, window: nat, span: nat, ranked: seq<Id>)
    requires 1 <= limit <= |pool| && 1 <= window && span >= 1 && span * limit >= |pool|
    requires Distinct(ranked) && forall id :: id in ranked <==> id in pool
    ensures AlwaysCovers(pool, limit, window, span) <==> window + limit >= |pool|
  {
    if window + limit < |pool| {
      SmallWindowStarves(pool, limit, window, span, ranked);
    } else {
      forall s: Trace | s.Valid() && s.pool == pool && s.limit == limit && s.window == window
        ensures EveryMemberIsReached(s, span)
      {
        forall x, i: nat | x in s.pool && i + span <= |s.picks| ensures Reached(s, span, x, i) {
          PoolIsCovered(s, span, i, x);
        }
      }
    }
  }

  // The exact bound on disjointness.

  ghost predicate SlicesApart(s: Trace, span: nat) {
    forall i, j, x :: 0 <= i < j < |s.picks| && j - i < span && x in s.picks[i] ==> x !in s.picks[j]
  }

  ghost predicate AlwaysApart(pool: set<Id>, limit: nat, window: nat, span: nat) {
    forall s: Trace {:trigger SlicesApart(s, span)} ::
      s.Valid() && s.pool == pool && s.limit == limit && s.window == window ==> SlicesApart(s, span)
  }

  lemma {:induction false} ApartBlockIsDistinct(s: Trace, span: nat, t: nat)
    requires s.Fair() && SlicesApart(s, span) && t <= |s.picks| && t <= span
    ensures Distinct(s.Block(0, t))
    ensures forall x :: x in s.Block(0, t) ==> exists m :: 0 <= m < t && x in s.picks[m]
  {
    if t > 0 {
      ApartBlockIsDistinct(s, span, t - 1);
      var pick, older := s.picks[t - 1], s.Block(0, t - 1);
      assert FairPick(s.pool, s.limit, s.Recent(t - 1), pick);
      forall x | x in older ensures x !in pick {
        var m :| 0 <= m < t - 1 && x in s.picks[m];
      }
      assert s.Block(0, t) == pick + older;
      DistinctConcat(pick, older);
    }
  }

  /** Under a fixed ranking everything that is ever picked comes from its top. */
  lemma {:induction false} BlockComesFromTheTop(s: Trace, ranked: seq<Id>, t: nat, x: Id)
    requires s.Valid() && t <= |s.picks| && (forall u :: 0 <= u < |s.picks| ==> s.rankings[u] == ranked)
    requires s.RanksPool(ranked) && x in s.Block(0, t)
    ensures x in Take(ranked, s.window + s.limit)
  {
    ValidIsFair(s);
    if x in s.Block(0, t - 1) {
      BlockComesFromTheTop(s, ranked, t - 1, x);
    } else {
      assert x in s.picks[t - 1] && FairPick(s.pool, s.limit, s.Recent(t - 1), s.picks[t - 1]);
      var r :| 0 <= r < |ranked| && ranked[r] == x;
      if s.window + s.limit <= r {
        StarvedUnderFixedRanking(s, ranked, r, t - 1);
      }
    }
  }

  /** Slices that stay apart under a fixed ranking all fit its top. */
  lemma ApartSlicesFitTheTop(s: Trace, ranked: seq<Id>)
    requires s.Valid() && s.RanksPool(ranked) && SlicesApart(s, |s.picks|)
    requires forall u :: 0 <= u < |s.picks| ==> s.rankings[u] == ranked
    ensures |s.picks| * s.limit <= |s.pool| && |s.picks| * s.limit <= s.window + s.limit
  {
    var span := |s.picks|;
    var block, top := s.Block(0, span), Take(ranked, s.window + s.limit);
    ValidIsFair(s);
    ApartBlockIsDistinct(s, span, span);
    BlockSize(s, 0, span);
    DistinctSize(block);
    forall x | x in block ensures x in top {
      BlockComesFromTheTop(s, ranked, span, x);
    }
    RankingSize(s, ranked);
    ElementsAtMost(top);
    SubsetSize(set x | x in block, set x | x in top);
  }

  /** Whether any `span` consecutive slices are pairwise disjoint, for every starting list and every
      way of ranking the pool, comes down to the pool holding that many slices and the window
      remembering all but one of them. */
  lemma DisjointIff(pool: set<Id>, limit: nat, window: nat, span: nat, ranked: seq<Id>)
    requires 1 <= limit <= |pool| && 1 <= window && span >= 1
    requires Distinct(ranked) && forall id :: id in ranked <==> id in pool
    ensures AlwaysApart(pool, limit, window, span) <==> span * limit <= |pool| && (span - 1) * limit <= window
  {
    Distribute(span - 1, limit);
    if span * limit <= |pool| && (span - 1) * limit <= window {
      forall s: Trace | s.Valid() && s.pool == pool && s.limit == limit && s.window == window ensures SlicesApart(s, span) {
        forall i, j, x | 0 <= i < j < |s.picks| && j - i < span && x in s.picks[i] ensures x !in s.picks[j] {
          ConsecutivePicksAreDisjoint(s, span, i, j, x);
        }
      }
    } else {
      var s := FixedRun(pool, limit, window, ranked, span);
      FixedRunIsValid(pool, limit, window, ranked, span);
      if SlicesApart(s, span) {
        ApartSlicesFitTheTop(s, ranked);
      }
    }
  }
}
