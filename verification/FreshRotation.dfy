/** The rotating slice served when no Redis client is available, and its fairness. */
module FreshRotation {
  import opened Sequences
  import opened FreshSelection

  /** The first `limit` candidates after turning the ranking by `offset` places. */
  function RotatedSlice(ranked: seq<Id>, offset: nat, limit: nat): seq<Id>
    requires offset <= |ranked|
  {
    Take(ranked[offset..] + ranked[..offset], limit)
  }

  /** The offset a stored counter stands for. */
  function Offset(counter: nat, n: nat): nat
    requires n > 0
  {
    counter % n
  }

  /** How many of `calls` consecutive calls return `id`. Every call stores its reduced offset plus
      the slice size as the next counter. */
  function TimesReturned(ranked: seq<Id>, counter: nat, limit: nat, calls: nat, id: Id): nat
    requires |ranked| > 0
    decreases calls
  {
    if calls == 0 then 0
    else
      var offset := Offset(counter, |ranked|);
      (if id in RotatedSlice(ranked, offset, limit) then 1 else 0)
      + TimesReturned(ranked, offset + limit, limit, calls - 1, id)
  }

  // A walk around the ring of n places, one place at a time.

  function Next(p: nat, n: nat): nat { if p + 1 == n then 0 else p + 1 }

  function Walk(p: nat, steps: nat, n: nat): nat
    decreases steps
  {
    if steps == 0 then p else Walk(Next(p, n), steps - 1, n)
  }

  function Visits(p: nat, steps: nat, n: nat, place: nat): nat
    decreases steps
  {
    if steps == 0 then 0 else (if p == place then 1 else 0) + Visits(Next(p, n), steps - 1, n, place)
  }

  /** Steps from `p` to `place`. */
  function Distance(p: nat, place: nat, n: nat): nat
    requires p < n && place < n
  {
    if place >= p then place - p else place + n - p
  }

  lemma {:induction false} VisitsFormula(p: nat, steps: nat, n: nat, place: nat)
    requires p < n && place < n
    ensures var d := Distance(p, place, n);
            Visits(p, steps, n, place) == if steps <= d then 0 else 1 + (steps - d - 1) / n
    decreases steps
  {
    if steps > 0 {
      VisitsFormula(Next(p, n), steps - 1, n, place);
      if p == place {
        if steps - 1 >= n {
          DivDown(steps - 1, n);
        } else {
          DivSmall(steps - 1, n);
        }
      }
    }
  }

  lemma DivSmall(x: nat, n: nat)
    requires x < n
    ensures x / n == 0
  {
  }

  lemma DivDown(x: nat, n: nat)
    requires 0 < n <= x
    ensures x / n == 1 + (x - n) / n
  {
    var q := (x - n) / n;
    assert x - n == q * n + (x - n) % n;
    DivUnique(x, n, q + 1, (x - n) % n);
  }

  lemma DivUnique(x: nat, n: nat, q: nat, r: nat)
    requires n > 0 && r < n && x == q * n + r
    ensures x / n == q && x % n == r
  {
    var q', r' := x / n, x % n;
    assert q' * n + r' == q * n + r;
    Gap(q, q', n);
    Gap(q', q, n);
  }

  lemma Product(a: nat, d: nat, n: nat)
    ensures (a + 1 + d) * n >= a * n + n
  {
    assert (a + 1 + d) * n == a * n + n + d * n;
  }

  lemma Gap(a: nat, b: nat, n: nat)
    ensures a < b ==> a * n + n <= b * n
  {
    if a < b {
      Product(a, b - a - 1, n);
    }
  }

  lemma DivMonotone(a: nat, b: nat, n: nat)
    requires n > 0 && a <= b
    ensures a / n <= b / n
  {
    var q, q' := a / n, b / n;
    assert a == q * n + a % n && b == q' * n + b % n;
    Gap(q', q, n);
  }

  /** Any stretch of the walk visits every place the same number of times, give or take one. */
  lemma VisitsAreEven(p: nat, steps: nat, n: nat, place: nat)
    requires p < n && place < n
    ensures steps / n <= Visits(p, steps, n, place) <= (steps + n - 1) / n
  {
    VisitsFormula(p, steps, n, place);
    var d := Distance(p, place, n);
    if steps <= d {
      DivSmall(steps, n);
    } else {
      DivDown(steps - 1 + n, n);
      DivMonotone(steps - d - 1, steps - 1, n);
      if steps >= n {
        DivDown(steps, n);
        DivMonotone(steps - n, steps - d - 1, n);
      } else {
        DivSmall(steps, n);
      }
    }
  }

  lemma {:induction false} VisitsSplit(p: nat, a: nat, b: nat, n: nat, place: nat)
    requires p < n
    ensures Visits(p, a + b, n, place) == Visits(p, a, n, place) + Visits(Walk(p, a, n), b, n, place)
    decreases a
  {
    if a > 0 {
      VisitsSplit(Next(p, n), a - 1, b, n, place);
    }
  }

  lemma {:induction false} WalkWraps(p: nat, steps: nat, n: nat)
    requires p < n && steps <= n
    ensures Walk(p, steps, n) == (if p + steps < n then p + steps else p + steps - n)
    decreases steps
  {
    if steps > 0 {
      WalkWraps(Next(p, n), steps - 1, n);
    }
  }

  lemma OffsetAfterSlice(offset: nat, limit: nat, n: nat)
    requires offset < n && limit <= n
    ensures Offset(offset + limit, n) == Walk(offset, limit, n)
  {
    WalkWraps(offset, limit, n);
    if offset + limit >= n {
      DivUnique(offset + limit, n, 1, offset + limit - n);
    } else {
      DivUnique(offset + limit, n, 0, offset + limit);
    }
  }

  lemma PlaceAfter(counter: nat, k: nat, n: nat)
    requires k < n
    ensures (counter + k) % n == (if counter % n + k < n then counter % n + k else counter % n + k - n)
  {
    var q, offset := counter / n, counter % n;
    if offset + k < n {
      DivUnique(counter + k, n, q, offset + k);
    } else {
      Distribute(q, n);
      DivUnique(counter + k, n, q + 1, offset + k - n);
    }
  }

  lemma Distribute(q: nat, n: nat)
    ensures (q + 1) * n == q * n + n
  {
  }

  /** The slice starts at the place the counter stands for and goes round. */
  lemma RotatedAt(ranked: seq<Id>, counter: nat, limit: nat)
    requires 0 < limit <= |ranked|
    ensures var slice := RotatedSlice(ranked, Offset(counter, |ranked|), limit);
            |slice| == limit && forall k :: 0 <= k < limit ==> slice[k] == ranked[(counter + k) % |ranked|]
  {
    hide Offset;
    var n := |ranked|;
    var offset := Offset(counter, n);
    OffsetBelow(counter, n);
    var rotated := ranked[offset..] + ranked[..offset];
    forall k | 0 <= k < limit ensures RotatedSlice(ranked, offset, limit)[k] == ranked[(counter + k) % n] {
      PlaceAfter(counter, k, n);
      assert RotatedSlice(ranked, offset, limit)[k] == rotated[k];
    }
  }

  lemma OffsetBelow(counter: nat, n: nat)
    requires n > 0
    ensures Offset(counter, n) == counter % n < n
  {
  }

  /** A slice holds place `k` exactly when the walk of that many steps visits it, and then once. */
  lemma SliceIsAWalk(ranked: seq<Id>, offset: nat, limit: nat, k: nat)
    requires Distinct(ranked) && offset < |ranked| && limit <= |ranked| && k < |ranked|
    ensures Visits(offset, limit, |ranked|, k) == if ranked[k] in RotatedSlice(ranked, offset, limit) then 1 else 0
  {
    var n := |ranked|;
    var rotated := ranked[offset..] + ranked[..offset];
    var slice := RotatedSlice(ranked, offset, limit);
    var d := Distance(offset, k, n);
    VisitsFormula(offset, limit, n, k);
    assert rotated[d] == ranked[k];
    assert forall j :: 0 <= j < n ==> rotated[j] == ranked[if j < n - offset then offset + j else j - (n - offset)];
    assert slice == rotated[..limit];
    if limit > d {
      DivSmall(limit - d - 1, n);
      assert slice[d] == ranked[k];
    } else {
      assert forall j :: 0 <= j < limit ==> slice[j] == rotated[j];
    }
  }

  lemma {:induction false} CallsAreAWalk(ranked: seq<Id>, counter: nat, limit: nat, calls: nat, k: nat)
    requires Distinct(ranked) && limit <= |ranked| && k < |ranked|
    ensures TimesReturned(ranked, counter, limit, calls, ranked[k]) ==
            Visits(Offset(counter, |ranked|), calls * limit, |ranked|, k)
    decreases calls
  {
    if calls > 0 {
      var n := |ranked|;
      var offset := Offset(counter, n);
      CallsAreAWalk(ranked, offset + limit, limit, calls - 1, k);
      OffsetAfterSlice(offset, limit, n);
      SliceIsAWalk(ranked, offset, limit, k);
      VisitsSplit(offset, limit, (calls - 1) * limit, n, k);
      Distribute(calls - 1, limit);
    }
  }

  /** After any number of calls of one size, from any stored counter, every candidate was returned
      the average number of times, rounded down or up. */
  lemma FallbackIsFair(ranked: seq<Id>, counter: nat, limit: nat, calls: nat, id: Id)
    requires Distinct(ranked) && limit <= |ranked| && id in ranked
    ensures calls * limit / |ranked| <= TimesReturned(ranked, counter, limit, calls, id)
            <= (calls * limit + |ranked| - 1) / |ranked|
  {
    var k :| 0 <= k < |ranked| && ranked[k] == id;
    CallsAreAWalk(ranked, counter, limit, calls, k);
    VisitsAreEven(Offset(counter, |ranked|), calls * limit, |ranked|, k);
  }
}
