/** The freshness state of one scope, selected from and remembered in place. */
module FreshScheduler {
  import opened Sequences
  import opened Numbers
  import opened FreshSelection
  import FreshFairness
  import FreshRotation

  /** What Redis does when a selection asks for it. */
  datatype Backend = NoClient | ScriptRuns | ScriptFails

  method Unique(values: seq<Id>) returns (result: seq<Id>)
    ensures result == Dedupe(values)
  {
    var seen: set<Id> := {};
    result := [];
    for i := 0 to |values|
      invariant result == Dedupe(values[..i])
      invariant forall id :: id in seen <==> id in result
    {
      DedupeStep(values, i);
      if values[i] !in seen {
        seen := seen + {values[i]};
        result := result + [values[i]];
      }
    }
    assert values[..|values|] == values;
  }

  class Scope {
    /** The Redis list, newest exposure first. */
    var recent: seq<Id>
    /** The process-local counter of the scope, zero when absent. */
    var counter: nat

    constructor ()
      ensures recent == [] && counter == 0
    {
      recent, counter := [], 0;
    }

    /** The atomic script: read the window, split the ranking, take the slice, push and trim. It is one
        call of the traces the fairness results are about. */
    method SelectScript(ranked: seq<Id>, limit: nat, window: nat) returns (selected: seq<Id>)
      requires window >= 1 && limit <= |ranked|
      modifies this`recent
      ensures FreshFairness.Trace.Call(limit, window, old(recent), ranked, selected, recent)
      ensures Distinct(ranked) ==> FreshSlice(Take(old(recent), window), true, ranked, limit, selected)
      ensures recent == Take(selected + old(recent), window)
    {
      if Distinct(ranked) {
        SelectedIsFresh(Take(recent, window), true, ranked, limit);
      }
      hide FreshSlice;
      var read := Take(recent, window);
      var position: map<Id, nat> := map[];
      for i := 0 to |read|
        invariant position == FirstPositions(read[..i])
      {
        assert read[..i + 1][..i] == read[..i];
        if read[i] !in position {
          position := position[read[i] := i];
        }
      }
      assert read[..|read|] == read;
      var unseen, seen := SplitRanking(position, ranked);
      selected := TakeInOrder(unseen, seen, limit);
      PushAll(selected);
      recent := Take(recent, window);
    }

    static method SplitRanking(position: map<Id, nat>, ranked: seq<Id>) returns (unseen: seq<Id>, seen: seq<Id>)
      ensures unseen == Unseen(position, ranked)
      ensures seen == SeenOldestFirst(position, ranked)
    {
      unseen, seen := [], [];
      var i := 0;
      while i < |ranked|
        invariant 0 <= i <= |ranked|
        invariant unseen == Unseen(position, ranked[..i])
        invariant seen == SeenOldestFirst(position, ranked[..i])
      {
        SplitStep(position, ranked, i);
        var id := ranked[i];
        if id in position {
          seen := InsertByAge(position, seen, id);
        } else {
          unseen := unseen + [id];
        }
        i := i + 1;
      }
      assert ranked[..i] == ranked;
    }

    static method TakeInOrder(unseen: seq<Id>, seen: seq<Id>, limit: nat) returns (selected: seq<Id>)
      ensures selected == Take(unseen + seen, limit)
    {
      selected := [];
      var i := 0;
      while i < |unseen| && |selected| < limit
        invariant 0 <= i <= |unseen| && i <= limit
        invariant selected == unseen[..i]
      {
        selected := selected + [unseen[i]];
        i := i + 1;
      }
      var j := 0;
      while j < |seen| && |selected| < limit
        invariant 0 <= j <= |seen| && |selected| <= limit
        invariant j > 0 ==> i == |unseen|
        invariant selected == unseen[..i] + seen[..j]
      {
        selected := selected + [seen[j]];
        j := j + 1;
      }
    }

    /** `LPUSH` one id at a time, last selected first, so that the first selected ends up newest. */
    method PushAll(values: seq<Id>)
      modifies this`recent
      ensures recent == values + old(recent)
    {
      var i := |values|;
      while i > 0
        invariant 0 <= i <= |values|
        invariant recent == values[i..] + old(recent)
      {
        i := i - 1;
        recent := [values[i]] + recent;
      }
    }

    /** `ids` were ordered already; remembering pushes their distinct values and trims. */
    method RememberExposure(ids: seq<Id>, window: nat)
      modifies this`recent
      ensures recent == if ids == [] then old(recent) else Remembered(old(recent), Dedupe(ids), window)
    {
      var values := Unique(ids);
      if values == [] {
        assert forall id :: id in ids ==> id in values;
        return;
      }
      PushAll(values);
      recent := Take(recent, window);
    }

    /** `fresh_select_ids`: the rotating slice without a client, the script, or, when the script
        fails, ordering first and remembering afterwards. The script ages a candidate by its newest
        exposure, the fallback by its oldest. */
    method Select(rankedIds: seq<Id>, limit: int, window: nat, backend: Backend) returns (result: seq<Id>)
      requires window >= 1
      modifies this
      ensures |result| == Max(0, Min(limit, |Dedupe(rankedIds)|))
      ensures result == [] ==> unchanged(this)
      ensures result != [] && backend.NoClient? ==>
                var ranked := Dedupe(rankedIds);
                && (forall k :: 0 <= k < |result| ==> result[k] == ranked[(old(counter) + k) % |ranked|])
                && counter == old(counter) % |ranked| + |result| && recent == old(recent)
                && result == FreshRotation.RotatedSlice(ranked, FreshRotation.Offset(old(counter), |ranked|), |result|)
      ensures result != [] && backend.ScriptRuns? ==>
                && FreshSlice(Take(old(recent), window), true, Dedupe(rankedIds), |result|, result)
                && FreshFairness.Trace.Call(|result|, window, old(recent), Dedupe(rankedIds), result, recent)
                && recent == Take(result + old(recent), window) && counter == old(counter)
      ensures result != [] && backend.ScriptFails? ==>
                && FreshSlice(Take(old(recent), window), false, Dedupe(rankedIds), |result|, result)
                && recent == Take(result + old(recent), window) && counter == old(counter)
    {
      hide FreshSlice;
      var ranked := Unique(rankedIds);
      var size: nat := Max(0, Min(limit, |ranked|));
      if size == 0 {
        return [];
      }
      match backend
      case NoClient =>
        var offset := counter % |ranked|;
        FreshRotation.RotatedAt(ranked, counter, size);
        counter := offset + size;
        result := Take(ranked[offset..] + ranked[..offset], size);
      case ScriptRuns =>
        result := SelectScript(ranked, size, window);
        ScriptSize(Take(old(recent), window), ranked, size);
      case ScriptFails =>
        var position := LastPositions(Take(recent, window));
        result := Selected(position, ranked, size);
        LastPositionsInjective(Take(recent, window));
        SelectionTakesOldest(position, ranked, size);
        SelectedIsFresh(Take(recent, window), false, ranked, size);
        DedupeOfDistinct(result);
        RememberExposure(result, window);
    }
  }

  lemma ScriptSize(recent: seq<Id>, ranked: seq<Id>, size: nat)
    requires Distinct(ranked) && size <= |ranked|
    ensures |Selected(FirstPositions(recent), ranked, size)| == size
  {
    FirstPositionsInjective(recent);
    SelectionTakesOldest(FirstPositions(recent), ranked, size);
  }
}
