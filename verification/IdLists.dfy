/** Stored id lists: what `_rewrite_id_list` keeps, in which order, and when it reports a change. */
module IdLists {
  import opened Options
  import opened Sequences

  /** A stored element: an integer, something `int()` turns into one (`"5"`, `5.0`), or anything else. */
  datatype Raw = Int(n: int) | Text(n: int, spelling: nat) | Other(mark: nat)

  /** A stored field; an absent or empty one is an empty list. */
  datatype Field = List(values: seq<Raw>) | NotAList(mark: nat)

  function Norm(raw: Raw): Raw {
    if raw.Text? then Int(raw.n) else raw
  }

  function Normalized(values: seq<Raw>): seq<Raw> {
    seq(|values|, i requires 0 <= i < |values| => Norm(values[i]))
  }

  datatype Rewrite = Rewrite(source: int, replacement: Option<int>, remove: set<int>)

  /** What becomes of one element before duplicates are dropped. */
  function Moved(raw: Raw, rw: Rewrite): Option<Raw> {
    var value := Norm(raw);
    var mapped := if value == Int(rw.source) then
                    if rw.replacement.None? then None else Some(Int(rw.replacement.value))
                  else Some(value);
    if mapped.Some? && mapped.value.Int? && mapped.value.n in rw.remove then None else mapped
  }

  function Kept(values: seq<Raw>, rw: Rewrite): seq<Raw> {
    if values == [] then []
    else
      var moved := Moved(values[|values| - 1], rw);
      Kept(values[..|values| - 1], rw) + if moved.Some? then [moved.value] else []
  }

  /** The element is the source or is removed. */
  predicate Affected(raw: Raw, rw: Rewrite) {
    Norm(raw) == Int(rw.source) || Moved(raw, rw).None?
  }

  /** The change flag: an element was affected, or a duplicate was dropped. */
  ghost predicate Touched(values: seq<Raw>, rw: Rewrite) {
    (exists i :: 0 <= i < |values| && Affected(values[i], rw)) || !Distinct(Kept(values, rw))
  }

  /** One round of the loop: how the result and the flag move on. */
  lemma RewriteStep(values: seq<Raw>, i: nat, rw: Rewrite)
    requires i < |values|
    ensures var kept, moved := Dedupe(Kept(values[..i], rw)), Moved(values[i], rw);
            && Dedupe(Kept(values[..i + 1], rw)) == (if moved.None? || moved.value in kept then kept else kept + [moved.value])
            && (Touched(values[..i + 1], rw) <==>
                Touched(values[..i], rw) || Affected(values[i], rw) || (moved.Some? && moved.value in kept))
  {
    var front, moved := values[..i], Moved(values[i], rw);
    assert values[..i + 1] == front + [values[i]] && values[..i + 1][..i] == front;
    var kept := Kept(front, rw);
    if moved.Some? {
      DistinctStep(kept, moved.value);
      assert (kept + [moved.value])[..|kept|] == kept;
    } else {
      assert kept + [] == kept;
    }
    AffectedStep(front, values[i], rw);
  }

  lemma AffectedStep(front: seq<Raw>, last: Raw, rw: Rewrite)
    ensures (exists k :: 0 <= k < |front + [last]| && Affected((front + [last])[k], rw)) <==>
            (exists k :: 0 <= k < |front| && Affected(front[k], rw)) || Affected(last, rw)
  {
    assert (front + [last])[|front|] == last;
    assert forall k :: 0 <= k < |front| ==> (front + [last])[k] == front[k];
  }

  /** `_rewrite_id_list` for a stored list. */
  method RewriteIdList(values: seq<Raw>, rw: Rewrite) returns (result: seq<Raw>, changed: bool)
    ensures result == Dedupe(Kept(values, rw))
    ensures changed <==> Touched(values, rw)
  {
    hide Touched, Kept;
    result, changed := [], false;
    StartOfRewrite(values, rw);
    for i := 0 to |values|
      invariant result == Dedupe(Kept(values[..i], rw))
      invariant changed <==> Touched(values[..i], rw)
    {
      RewriteStep(values, i, rw);
      var value := Norm(values[i]);
      if value == Int(rw.source) {
        changed := true;
        if rw.replacement.None? {
          continue;
        }
        value := Int(rw.replacement.value);
      }
      if value.Int? && value.n in rw.remove {
        changed := true;
        continue;
      }
      if value in result {
        changed := true;
      } else {
        result := result + [value];
      }
    }
    assert values[..|values|] == values;
  }

  lemma StartOfRewrite(values: seq<Raw>, rw: Rewrite)
    ensures Dedupe(Kept(values[..0], rw)) == [] && !Touched(values[..0], rw)
  {
  }

  // The flag and the content.

  lemma {:induction false} KeptMembers(values: seq<Raw>, rw: Rewrite, n: int)
    ensures Int(n) in Kept(values, rw) <==>
              n !in rw.remove && (if Int(rw.source) in Normalized(values) && rw.replacement == Some(n) then true
                                  else n != rw.source && Int(n) in Normalized(values))
  {
    if values != [] {
      var front, last := values[..|values| - 1], values[|values| - 1];
      KeptMembers(front, rw, n);
      assert Normalized(values) == Normalized(front) + [Norm(last)];
    }
  }

  lemma {:induction false} UnaffectedIsKept(values: seq<Raw>, rw: Rewrite)
    requires forall i :: 0 <= i < |values| ==> !Affected(values[i], rw)
    ensures Kept(values, rw) == Normalized(values)
  {
    if values != [] {
      UnaffectedIsKept(values[..|values| - 1], rw);
    }
  }

  lemma {:induction false} KeptIsShorter(values: seq<Raw>, rw: Rewrite)
    ensures |Kept(values, rw)| <= |values|
  {
    if values != [] {
      KeptIsShorter(values[..|values| - 1], rw);
    }
  }

  /** With a replacement other than the source, the flag is set exactly when the list, read as
      integers, changed; it is never written back otherwise. */
  lemma FlagIffChanged(values: seq<Raw>, rw: Rewrite)
    requires rw.replacement != Some(rw.source)
    ensures Touched(values, rw) <==> Dedupe(Kept(values, rw)) != Normalized(values)
  {
    var kept := Kept(values, rw);
    if i :| 0 <= i < |values| && Affected(values[i], rw) {
      var value := Norm(values[i]);
      assert Normalized(values)[i] == value;
      KeptMembers(values, rw, value.n);
      assert value in Normalized(values) && value !in Dedupe(kept);
    } else {
      UnaffectedIsKept(values, rw);
      if Distinct(kept) {
        DedupeOfDistinct(kept);
      } else {
        DedupeOfRepeated(kept);
        KeptIsShorter(values, rw);
      }
    }
  }

  /** For a list of integers the flag is exactly a change of the stored list. */
  lemma FlagIffStoredListChanged(values: seq<Raw>, rw: Rewrite)
    requires rw.replacement != Some(rw.source)
    requires forall i :: 0 <= i < |values| ==> values[i].Int?
    ensures Touched(values, rw) <==> Dedupe(Kept(values, rw)) != values
  {
    FlagIffChanged(values, rw);
    assert Normalized(values) == values;
  }

  /** Merging an id into itself sets the flag although nothing changes. */
  lemma SelfReplacementFlagsUnchangedList()
    ensures var rw := Rewrite(5, Some(5), {}); Touched([Int(5)], rw) && Dedupe(Kept([Int(5)], rw)) == [Int(5)]
  {
    var rw := Rewrite(5, Some(5), {});
    assert Affected([Int(5)][0], rw);
    assert Kept([Int(5)][..0], rw) == [];
    assert Kept([Int(5)], rw) == [Int(5)];
    DedupeOfDistinct([Int(5)]);
  }

  // Fields as sets of ids.

  function IdsOf(values: seq<Raw>): set<nat> {
    if values == [] then {}
    else
      var last := Norm(values[|values| - 1]);
      IdsOf(values[..|values| - 1]) + if last.Int? && last.n >= 0 then {last.n} else {}
  }

  function Ids(field: Field): set<nat> {
    if field.List? then IdsOf(field.values) else {}
  }

  lemma {:induction false} IdsMembers(values: seq<Raw>, n: nat)
    ensures n in IdsOf(values) <==> Int(n) in Normalized(values)
  {
    if values != [] {
      var front, last := values[..|values| - 1], values[|values| - 1];
      IdsMembers(front, n);
      assert Normalized(values) == Normalized(front) + [Norm(last)];
    }
  }

  ghost predicate Rewritten(field: Field, rw: Rewrite) {
    field.List? && Touched(field.values, rw)
  }

  /** The field as it is stored afterwards. */
  ghost function RewriteField(field: Field, rw: Rewrite): Field {
    if Rewritten(field, rw) then List(Dedupe(Kept(field.values, rw))) else field
  }

  /** The ids a rewrite leaves: the source gives way to the replacement, removed ids go. */
  function IdsAfter(ids: set<nat>, source: int, replacement: Option<nat>, remove: set<int>): set<nat> {
    var merged := if replacement.Some? && source in ids then ids + {replacement.value} else ids;
    set n | n in merged && n != source && n !in remove
  }

  lemma NormalizedListsItself(values: seq<Raw>, n: nat)
    requires forall i :: 0 <= i < |values| ==> values[i] == Norm(values[i])
    ensures Int(n) in Normalized(values) <==> Int(n) in values
  {
    assert Normalized(values) == values;
  }

  lemma {:induction false} KeptIsNormal(values: seq<Raw>, rw: Rewrite)
    ensures forall x :: x in Kept(values, rw) ==> x == Norm(x)
  {
    if values != [] {
      KeptIsNormal(values[..|values| - 1], rw);
    }
  }

  /** Whether or not the field is written back, its ids are the mapped and filtered ones. */
  lemma RewriteFieldIds(field: Field, source: int, replacement: Option<nat>, remove: set<int>)
    requires replacement.Some? ==> source >= 0 && replacement.value != source
    ensures Ids(RewriteField(field, Rewrite(source, replacement, remove))) == IdsAfter(Ids(field), source, replacement, remove)
  {
    hide Touched, IdsOf, Kept;
    if field.List? {
      var after := RewriteField(field, Rewrite(source, replacement, remove));
      forall n: nat ensures n in IdsOf(after.values) <==> n in IdsAfter(IdsOf(field.values), source, replacement, remove) {
        FieldIdsPoint(field.values, source, replacement, remove, n);
      }
    }
  }

  lemma FieldIdsPoint(values: seq<Raw>, source: int, replacement: Option<nat>, remove: set<int>, n: nat)
    requires replacement.Some? ==> source >= 0 && replacement.value != source
    ensures var rw := Rewrite(source, replacement, remove);
            (n in IdsOf(if Touched(values, rw) then Dedupe(Kept(values, rw)) else values)) <==>
            (n in IdsAfter(IdsOf(values), source, replacement, remove))
  {
    var rw := Rewrite(source, replacement, remove);
    var kept := Kept(values, rw);
    IdsMembers(values, n);
    KeptMembers(values, rw, n);
    if source >= 0 {
      IdsMembers(values, source);
    }
    if Touched(values, rw) {
      KeptIsNormal(values, rw);
      IdsMembers(Dedupe(kept), n);
      NormalizedListsItself(Dedupe(kept), n);
    } else {
      UnaffectedIsKept(values, rw);
    }
  }

  /** A field that is written back is different from what was stored. */
  lemma RewrittenDiffers(field: Field, rw: Rewrite)
    requires rw.replacement != Some(rw.source) && Rewritten(field, rw)
    ensures RewriteField(field, rw) != field
  {
    hide Touched, Kept, Norm;
    FlagIffChanged(field.values, rw);
    KeptIsNormal(field.values, rw);
    var now := Dedupe(Kept(field.values, rw));
    forall i | 0 <= i < |now| ensures Normalized(now)[i] == now[i] {
      assert now[i] in Kept(field.values, rw);
    }
    assert Normalized(now) == now;
  }

  // Adding a genre to a field.

  /** The genre list read as integers without duplicates; a field that is not a list counts as empty. */
  function NormalGenres(field: Field): seq<Raw> {
    if field.List? then Dedupe(Normalized(field.values)) else []
  }

  /** The field is rewritten only when the genre is missing from it. */
  function WithGenre(field: Field, genre: nat): Field {
    if Int(genre) in NormalGenres(field) then field else List(NormalGenres(field) + [Int(genre)])
  }

  method NormalizeGenres(field: Field) returns (genres: seq<Raw>)
    ensures genres == NormalGenres(field)
  {
    genres := [];
    if field.NotAList? {
      return;
    }
    ghost var all := Normalized(field.values);
    for i := 0 to |field.values|
      invariant genres == Dedupe(all[..i])
    {
      DedupeStep(all, i);
      var normalized := Norm(field.values[i]);
      if normalized !in genres {
        genres := genres + [normalized];
      }
    }
    assert all[..|all|] == all;
  }

  lemma NormalGenresAreTheIds(field: Field, genre: nat)
    ensures Int(genre) in NormalGenres(field) <==> genre in Ids(field)
  {
    if field.List? {
      IdsMembers(field.values, genre);
    }
  }

  lemma WithGenreIds(field: Field, genre: nat)
    ensures Ids(WithGenre(field, genre)) == Ids(field) + {genre}
  {
    var values := if field.List? then field.values else [];
    var now := WithGenre(field, genre);
    forall n: nat ensures n in Ids(now) <==> n in Ids(field) + {genre} {
      IdsMembers(values, n);
      IdsMembers(values, genre);
      if now != field {
        var stored := Dedupe(Normalized(values)) + [Int(genre)];
        IdsMembers(stored, n);
        forall x | x in stored ensures x == Norm(x) {
        }
        NormalizedListsItself(stored, n);
      }
    }
  }
}
