/** The capped greedy selection behind playlist smart fill. */
module SmartFill {
  import opened Numbers
  import opened Sequences

  datatype Song = Song(id: nat, artist: nat)

  function CountArtist(songs: seq<Song>, artist: nat): nat {
    if songs == [] then 0
    else CountArtist(songs[..|songs| - 1], artist) + if songs[|songs| - 1].artist == artist then 1 else 0
  }

  /** The artist may still gain a song; a cap of zero means no cap. */
  predicate Open(cap: nat, held: seq<Song>, selected: seq<Song>, artist: nat) {
    cap == 0 || CountArtist(held, artist) + CountArtist(selected, artist) < cap
  }

  /** What the fill takes from `ranked`, best first, given the songs already `held`. */
  function Fill(ranked: seq<Song>, needed: nat, cap: nat, held: seq<Song>): seq<Song> {
    if ranked == [] then []
    else
      var selected := Fill(ranked[..|ranked| - 1], needed, cap, held);
      var song := ranked[|ranked| - 1];
      if |selected| < needed && Open(cap, held, selected, song.artist) then selected + [song] else selected
  }

  // The size of the selection.

  /** How many of the ranked songs of one artist the cap lets in. */
  function Allowance(ranked: seq<Song>, cap: nat, held: seq<Song>, artist: nat): nat {
    var available := CountArtist(ranked, artist);
    if cap == 0 then available else Min(available, Max(0, cap - CountArtist(held, artist)))
  }

  function Artists(songs: seq<Song>): seq<nat> {
    Dedupe(seq<nat>(|songs|, i requires 0 <= i < |songs| => songs[i].artist))
  }

  function TotalAllowance(artists: seq<nat>, ranked: seq<Song>, cap: nat, held: seq<Song>): nat {
    if artists == [] then 0
    else TotalAllowance(artists[..|artists| - 1], ranked, cap, held) + Allowance(ranked, cap, held, artists[|artists| - 1])
  }

  function TotalCount(artists: seq<nat>, songs: seq<Song>): nat {
    if artists == [] then 0
    else TotalCount(artists[..|artists| - 1], songs) + CountArtist(songs, artists[|artists| - 1])
  }

  lemma CountOfPrefixStep(songs: seq<Song>, song: Song, artist: nat)
    ensures CountArtist(songs + [song], artist) == CountArtist(songs, artist) + if song.artist == artist then 1 else 0
  {
    assert (songs + [song])[..|songs|] == songs;
  }

  lemma {:induction false} TotalCountStep(artists: seq<nat>, songs: seq<Song>, song: Song)
    requires Distinct(artists)
    ensures TotalCount(artists, songs + [song]) == TotalCount(artists, songs) + if song.artist in artists then 1 else 0
  {
    if artists != [] {
      var front, last := artists[..|artists| - 1], artists[|artists| - 1];
      assert artists == front + [last];
      TotalCountStep(front, songs, song);
      CountOfPrefixStep(songs, song, last);
    }
  }

  lemma {:induction false} TotalCountOfNothing(artists: seq<nat>)
    ensures TotalCount(artists, []) == 0
  {
    if artists != [] {
      TotalCountOfNothing(artists[..|artists| - 1]);
    }
  }

  /** Every song is counted under exactly one artist. */
  lemma {:induction false} SongsAreCountedOnce(artists: seq<nat>, songs: seq<Song>)
    requires Distinct(artists)
    requires forall s :: s in songs ==> s.artist in artists
    ensures TotalCount(artists, songs) == |songs|
  {
    if songs == [] {
      TotalCountOfNothing(artists);
    } else {
      var front, last := songs[..|songs| - 1], songs[|songs| - 1];
      assert songs == front + [last];
      SongsAreCountedOnce(artists, front);
      TotalCountStep(artists, front, last);
    }
  }

  lemma {:induction false} TotalsCompare(artists: seq<nat>, songs: seq<Song>, ranked: seq<Song>, cap: nat, held: seq<Song>)
    requires forall a :: a in artists ==> CountArtist(songs, a) <= Allowance(ranked, cap, held, a)
    ensures TotalCount(artists, songs) <= TotalAllowance(artists, ranked, cap, held)
    ensures (forall a :: a in artists ==> CountArtist(songs, a) == Allowance(ranked, cap, held, a)) ==>
              TotalCount(artists, songs) == TotalAllowance(artists, ranked, cap, held)
  {
    if artists != [] {
      TotalsCompare(artists[..|artists| - 1], songs, ranked, cap, held);
    }
  }

  lemma ArtistsCover(songs: seq<Song>)
    ensures forall s :: s in songs ==> s.artist in Artists(songs)
  {
    var names := seq<nat>(|songs|, i requires 0 <= i < |songs| => songs[i].artist);
    forall s | s in songs ensures s.artist in Artists(songs) {
      var i :| 0 <= i < |songs| && songs[i] == s;
      assert names[i] == s.artist;
    }
  }

  /** With no bound on the count, every artist contributes exactly its allowance. */
  lemma {:induction false} UnboundedFillMeetsAllowance(ranked: seq<Song>, needed: nat, cap: nat, held: seq<Song>, artist: nat)
    requires needed >= |ranked|
    ensures CountArtist(Fill(ranked, needed, cap, held), artist) == Allowance(ranked, cap, held, artist)
    ensures |Fill(ranked, needed, cap, held)| <= |ranked|
  {
    if ranked != [] {
      var front, last := ranked[..|ranked| - 1], ranked[|ranked| - 1];
      UnboundedFillMeetsAllowance(front, needed, cap, held, artist);
      UnboundedFillMeetsAllowance(front, needed, cap, held, last.artist);
      CountOfPrefixStep(Fill(front, needed, cap, held), last, artist);
    }
  }

  /** A bounded fill is the unbounded one cut off. */
  lemma {:induction false} FillIsCutOff(ranked: seq<Song>, needed: nat, cap: nat, held: seq<Song>)
    ensures var all := Fill(ranked, |ranked|, cap, held);
            Fill(ranked, needed, cap, held) == all[..Min(needed, |all|)]
  {
    CutOff(ranked, needed, |ranked|, cap, held);
  }

  lemma {:induction false} CutOff(ranked: seq<Song>, needed: nat, more: nat, cap: nat, held: seq<Song>)
    requires more >= |ranked|
    ensures |Fill(ranked, more, cap, held)| <= |ranked|
    ensures var all := Fill(ranked, more, cap, held); Fill(ranked, needed, cap, held) == all[..Min(needed, |all|)]
  {
    if ranked != [] {
      CutOff(ranked[..|ranked| - 1], needed, more, cap, held);
      var all := Fill(ranked[..|ranked| - 1], more, cap, held);
      assert |all| < needed ==> all[..|all|] == all;
      assert all <= Fill(ranked, more, cap, held);
    }
  }

  lemma {:induction false} FillTakesFromRanking(ranked: seq<Song>, needed: nat, cap: nat, held: seq<Song>)
    ensures forall s :: s in Fill(ranked, needed, cap, held) ==> s in ranked
    ensures |Fill(ranked, needed, cap, held)| <= needed
  {
    if ranked != [] {
      FillTakesFromRanking(ranked[..|ranked| - 1], needed, cap, held);
      assert ranked == ranked[..|ranked| - 1] + [ranked[|ranked| - 1]];
    }
  }

  /** The number selected is the smaller of the number needed and what the caps leave available. */
  lemma FillSize(ranked: seq<Song>, needed: nat, cap: nat, held: seq<Song>)
    ensures |Fill(ranked, needed, cap, held)| == Min(needed, TotalAllowance(Artists(ranked), ranked, cap, held))
  {
    var artists, all := Artists(ranked), Fill(ranked, |ranked|, cap, held);
    FillIsCutOff(ranked, needed, cap, held);
    FillTakesFromRanking(ranked, |ranked|, cap, held);
    ArtistsCover(ranked);
    SongsAreCountedOnce(artists, all);
    forall a | a in artists ensures CountArtist(all, a) == Allowance(ranked, cap, held, a) {
      UnboundedFillMeetsAllowance(ranked, |ranked|, cap, held, a);
    }
    TotalsCompare(artists, all, ranked, cap, held);
  }

  // Any other selection.

  /** The songs of the ranking kept by a mask, in ranking order. */
  function Chosen(ranked: seq<Song>, keep: seq<bool>): seq<Song>
    requires |keep| == |ranked|
  {
    if ranked == [] then []
    else
      var front := Chosen(ranked[..|ranked| - 1], keep[..|keep| - 1]);
      if keep[|keep| - 1] then front + [ranked[|ranked| - 1]] else front
  }

  /** No artist gains a song beyond its cap. */
  ghost predicate WithinCap(selected: seq<Song>, cap: nat, held: seq<Song>) {
    forall a: nat :: CountArtist(selected, a) > 0 && cap > 0 ==> CountArtist(held, a) + CountArtist(selected, a) <= cap
  }

  ghost predicate Feasible(selected: seq<Song>, needed: nat, cap: nat, held: seq<Song>) {
    |selected| <= needed && WithinCap(selected, cap, held)
  }

  lemma {:induction false} FillIsWithinCap(ranked: seq<Song>, needed: nat, cap: nat, held: seq<Song>)
    ensures WithinCap(Fill(ranked, needed, cap, held), cap, held)
  {
    if ranked != [] {
      var front, last := ranked[..|ranked| - 1], ranked[|ranked| - 1];
      FillIsWithinCap(front, needed, cap, held);
      var selected := Fill(front, needed, cap, held);
      forall a: nat ensures CountArtist(selected + [last], a) == CountArtist(selected, a) + if last.artist == a then 1 else 0 {
        CountOfPrefixStep(selected, last, a);
      }
    }
  }

  lemma {:induction false} FillIsChosen(ranked: seq<Song>, needed: nat, cap: nat, held: seq<Song>) returns (keep: seq<bool>)
    ensures |keep| == |ranked| && Chosen(ranked, keep) == Fill(ranked, needed, cap, held)
  {
    keep := [];
    if ranked != [] {
      var front, last := ranked[..|ranked| - 1], ranked[|ranked| - 1];
      var before := FillIsChosen(front, needed, cap, held);
      var selected := Fill(front, needed, cap, held);
      keep := before + [|selected| < needed && Open(cap, held, selected, last.artist)];
      assert keep[..|keep| - 1] == before;
    }
  }

  lemma {:induction false} ChosenCounts(ranked: seq<Song>, keep: seq<bool>, artist: nat)
    requires |keep| == |ranked|
    ensures CountArtist(Chosen(ranked, keep), artist) <= CountArtist(ranked, artist)
    ensures forall s :: s in Chosen(ranked, keep) ==> s in ranked
  {
    if ranked != [] {
      ChosenCounts(ranked[..|ranked| - 1], keep[..|keep| - 1], artist);
      CountOfPrefixStep(Chosen(ranked[..|ranked| - 1], keep[..|keep| - 1]), ranked[|ranked| - 1], artist);
    }
  }

  /** No selection from the ranking that respects the caps is longer than the fill. */
  lemma FillIsLargest(ranked: seq<Song>, keep: seq<bool>, needed: nat, cap: nat, held: seq<Song>)
    requires |keep| == |ranked| && Feasible(Chosen(ranked, keep), needed, cap, held)
    ensures |Chosen(ranked, keep)| <= |Fill(ranked, needed, cap, held)|
  {
    var artists, chosen := Artists(ranked), Chosen(ranked, keep);
    FillSize(ranked, needed, cap, held);
    ArtistsCover(ranked);
    ChosenCounts(ranked, keep, 0);
    SongsAreCountedOnce(artists, chosen);
    forall a | a in artists ensures CountArtist(chosen, a) <= Allowance(ranked, cap, held, a) {
      ChosenCounts(ranked, keep, a);
    }
    TotalsCompare(artists, chosen, ranked, cap, held);
  }

  lemma {:induction false} ChosenPrefix(ranked: seq<Song>, keep: seq<bool>, n: nat)
    requires |keep| == |ranked| && n <= |ranked|
    ensures Chosen(ranked[..n], keep[..n]) <= Chosen(ranked, keep)
  {
    if n < |ranked| {
      ChosenPrefix(ranked[..|ranked| - 1], keep[..|keep| - 1], n);
      assert ranked[..|ranked| - 1][..n] == ranked[..n] && keep[..|keep| - 1][..n] == keep[..n];
    } else {
      assert ranked[..n] == ranked && keep[..n] == keep;
    }
  }

  lemma {:induction false} CountOfPrefix(songs: seq<Song>, prefix: seq<Song>, artist: nat)
    requires prefix <= songs
    ensures CountArtist(prefix, artist) <= CountArtist(songs, artist)
  {
    if |prefix| < |songs| {
      CountOfPrefix(songs[..|songs| - 1], prefix, artist);
    } else {
      assert prefix == songs;
    }
  }

  /** The fill is best at every depth of the ranking: among the first `n` candidates it has already
      selected at least as many as any selection that respects the caps. */
  lemma FillDominates(ranked: seq<Song>, keep: seq<bool>, needed: nat, cap: nat, held: seq<Song>, n: nat)
    requires |keep| == |ranked| && n <= |ranked|
    requires Feasible(Chosen(ranked, keep), needed, cap, held)
    ensures |Chosen(ranked[..n], keep[..n])| <= |Fill(ranked[..n], needed, cap, held)|
  {
    ChosenPrefix(ranked, keep, n);
    var chosen, prefix := Chosen(ranked, keep), Chosen(ranked[..n], keep[..n]);
    forall a: nat ensures CountArtist(prefix, a) <= CountArtist(chosen, a) {
      CountOfPrefix(chosen, prefix, a);
    }
    FillIsLargest(ranked[..n], keep[..n], needed, cap, held);
  }

  /** A shortfall leaves no candidate behind whose artist still had room. */
  lemma ShortfallMeansCapped(ranked: seq<Song>, needed: nat, cap: nat, held: seq<Song>)
    ensures var selected := Fill(ranked, needed, cap, held);
            |selected| < needed ==> forall s :: s in ranked ==> s in selected || !Open(cap, held, selected, s.artist)
  {
    if |Fill(ranked, needed, cap, held)| < needed {
      LeftOutIsCapped(ranked, needed, cap, held);
    }
  }

  lemma {:induction false} LeftOutIsCapped(ranked: seq<Song>, needed: nat, cap: nat, held: seq<Song>)
    requires |Fill(ranked, needed, cap, held)| < needed
    ensures var selected := Fill(ranked, needed, cap, held);
            forall s :: s in ranked ==> s in selected || !Open(cap, held, selected, s.artist)
  {
    if ranked != [] {
      var front, last := ranked[..|ranked| - 1], ranked[|ranked| - 1];
      LeftOutIsCapped(front, needed, cap, held);
      var selected := Fill(front, needed, cap, held);
      forall s | s in ranked
        ensures s in Fill(ranked, needed, cap, held) || !Open(cap, held, Fill(ranked, needed, cap, held), s.artist)
      {
        assert s in front || s == last;
        CountOfPrefixStep(selected, last, s.artist);
      }
    }
  }

  lemma {:induction false} FullStays(ranked: seq<Song>, n: nat, needed: nat, cap: nat, held: seq<Song>)
    requires n <= |ranked| && |Fill(ranked[..n], needed, cap, held)| >= needed
    ensures Fill(ranked, needed, cap, held) == Fill(ranked[..n], needed, cap, held)
  {
    if n < |ranked| {
      assert ranked[..|ranked| - 1][..n] == ranked[..n];
      FullStays(ranked[..|ranked| - 1], n, needed, cap, held);
    } else {
      assert ranked[..n] == ranked;
    }
  }

  // The request.

  /** One raw input: absent, a value `int()` accepts, or one it does not. */
  datatype Raw = Missing | Number(n: int) | Junk

  datatype Mode = Append | FillTo | Replace | Unknown

  datatype Answer =
    | Rejected
    | Filled(requested: nat, finalCount: nat, shortfall: nat, songs: seq<Song>)

  function Clamped(low: nat, high: nat, raw: Raw, default: int): int {
    Max(low, Min(high, if raw.Number? then raw.n else default))
  }

  function PositiveIds(raw: seq<Raw>): seq<nat> {
    if raw == [] then []
    else
      var last := raw[|raw| - 1];
      PositiveIds(raw[..|raw| - 1]) + if last.Number? && last.n > 0 then [last.n] else []
  }

  /** `_int_list`: the positive integers, first occurrences only. */
  method IntList(raw: seq<Raw>) returns (ids: seq<nat>)
    ensures ids == Dedupe(PositiveIds(raw))
  {
    ids := [];
    for i := 0 to |raw|
      invariant ids == Dedupe(PositiveIds(raw[..i]))
    {
      assert raw[..i + 1][..i] == raw[..i];
      ghost var numbers := PositiveIds(raw[..i]);
      if raw[i].Number? && raw[i].n > 0 {
        assert (numbers + [raw[i].n])[..|numbers|] == numbers;
        if raw[i].n !in ids {
          ids := ids + [raw[i].n];
        }
      } else {
        assert numbers + [] == numbers;
      }
    }
    assert raw[..|raw|] == raw;
  }

  /** The library's rows for the given ids. */
  function Rows(ids: seq<nat>, library: map<nat, nat>): seq<Song> {
    if ids == [] then []
    else
      var last := ids[|ids| - 1];
      Rows(ids[..|ids| - 1], library) + if last in library then [Song(last, library[last])] else []
  }

  function Excluding(ranking: seq<Song>, ids: seq<nat>): seq<Song> {
    if ranking == [] then []
    else
      var last := ranking[|ranking| - 1];
      Excluding(ranking[..|ranking| - 1], ids) + if last.id in ids then [] else [last]
  }

  /** The existing songs count against the caps unless the playlist is replaced. */
  function Held(mode: Mode, existing: seq<nat>, library: map<nat, nat>): seq<Song> {
    if mode == Replace then [] else Rows(existing, library)
  }

  function Candidates(mode: Mode, ranking: seq<Song>, existing: seq<nat>): seq<Song> {
    if mode == Replace then ranking else Excluding(ranking, existing)
  }

  function Needed(mode: Mode, requested: nat, existing: seq<nat>): nat {
    if mode == FillTo then Max(0, requested - |existing|) else requested
  }

  /** The playlist length the request asks for. */
  function Target(mode: Mode, requested: nat, existing: nat): nat {
    match mode
    case Append => existing + requested
    case FillTo => Max(requested, existing)
    case _ => requested
  }

  function GroupCounts(held: seq<Song>): map<nat, nat> {
    map a | a in Artists(held) :: CountArtist(held, a)
  }

  lemma {:induction false} UnseenArtistCountsZero(songs: seq<Song>, artist: nat)
    requires forall s :: s in songs ==> s.artist != artist
    ensures CountArtist(songs, artist) == 0
  {
    if songs != [] {
      UnseenArtistCountsZero(songs[..|songs| - 1], artist);
    }
  }

  predicate CountsAre(counts: map<nat, nat>, held: seq<Song>, selected: seq<Song>, artist: nat) {
    (if artist in counts then counts[artist] else 0) == CountArtist(held, artist) + CountArtist(selected, artist)
  }

  /** The loop of `AdminPlaylistBuilderView.post`; the counts are kept only as far as the cap needs them. */
  method Select(ranked: seq<Song>, needed: nat, cap: nat, held: seq<Song>) returns (selected: seq<Song>)
    ensures selected == Fill(ranked, needed, cap, held)
  {
    selected := [];
    var counts: map<nat, nat> := if cap > 0 then GroupCounts(held) else map[];
    if needed == 0 {
      FillTakesFromRanking(ranked, needed, cap, held);
      return;
    }
    ArtistsCover(held);
    forall a: nat | cap > 0 ensures CountsAre(counts, held, [], a) {
      if a !in Artists(held) {
        UnseenArtistCountsZero(held, a);
      }
    }
    for i := 0 to |ranked|
      invariant selected == Fill(ranked[..i], needed, cap, held) && |selected| < needed
      invariant cap > 0 ==> forall a: nat :: CountsAre(counts, held, selected, a)
    {
      var song := ranked[i];
      assert ranked[..i + 1][..i] == ranked[..i];
      var count := if song.artist in counts then counts[song.artist] else 0;
      assert cap > 0 ==> CountsAre(counts, held, selected, song.artist);
      if cap > 0 && count >= cap {
        continue;
      }
      ghost var before, was := selected, counts;
      selected := selected + [song];
      counts := counts[song.artist := count + 1];
      forall a: nat | cap > 0 ensures CountsAre(counts, held, selected, a) {
        assert CountsAre(was, held, before, a);
        CountOfPrefixStep(before, song, a);
      }
      if |selected| >= needed {
        FullStays(ranked, i + 1, needed, cap, held);
        return;
      }
    }
    assert ranked[..|ranked|] == ranked;
  }

  lemma {:induction false} ExcludedStayOut(ranking: seq<Song>, ids: seq<nat>)
    ensures forall s :: s in Excluding(ranking, ids) <==> s in ranking && s.id !in ids
  {
    if ranking != [] {
      ExcludedStayOut(ranking[..|ranking| - 1], ids);
      assert ranking == ranking[..|ranking| - 1] + [ranking[|ranking| - 1]];
    }
  }

  /** Appending or filling never repeats a song the playlist already has. */
  lemma NoSongIsAddedTwice(mode: Mode, ranking: seq<Song>, existing: seq<nat>, needed: nat, cap: nat, held: seq<Song>)
    requires mode != Replace
    ensures forall s :: s in Fill(Candidates(mode, ranking, existing), needed, cap, held) ==> s.id !in existing && s in ranking
  {
    ExcludedStayOut(ranking, existing);
    FillTakesFromRanking(Candidates(mode, ranking, existing), needed, cap, held);
  }

  // The answer in the request's own terms.

  /** The bounded value of an input: itself within the bounds, else the bound it passes, or the default. */
  ghost predicate Bounded(low: int, high: int, raw: Raw, default: int, n: int) {
    && low <= n <= high
    && (raw.Missing? ==> n == default)
    && (raw.Number? ==> if raw.n < low then n == low else if raw.n > high then n == high else n == raw.n)
  }

  /** The positive ids of a list. */
  ghost function Listed(raw: seq<Raw>): set<nat> {
    set i | 0 <= i < |raw| && raw[i].Number? && raw[i].n > 0 :: raw[i].n
  }

  /** How many songs of the artist the playlist holds already. */
  ghost function HeldBy(mode: Mode, listed: set<nat>, library: map<nat, nat>, artist: nat): nat {
    if mode == Replace then 0 else |ByArtist(listed, library, artist)|
  }

  ghost function ByArtist(listed: set<nat>, library: map<nat, nat>, artist: nat): set<nat> {
    set id | id in listed && id in library && library[id] == artist
  }

  lemma {:induction false} PositiveIdsAreListed(raw: seq<Raw>)
    ensures forall n: nat :: n in PositiveIds(raw) <==> n in Listed(raw)
  {
    if raw != [] {
      var front, last := raw[..|raw| - 1], raw[|raw| - 1];
      PositiveIdsAreListed(front);
      assert Listed(raw) == Listed(front) + (if last.Number? && last.n > 0 then {last.n} else {}) by {
        forall n: nat ensures n in Listed(raw) <==> n in Listed(front) || (last == Number(n) && n > 0) {
          if i :| 0 <= i < |raw| && raw[i] == Number(n) && n > 0 {
            assert i < |front| ==> front[i] == Number(n);
          }
          if i :| 0 <= i < |front| && front[i] == Number(n) && n > 0 {
            assert raw[i] == Number(n);
          }
        }
      }
    }
  }

  lemma ExistingSize(raw: seq<Raw>)
    ensures |Dedupe(PositiveIds(raw))| == |Listed(raw)|
  {
    PositiveIdsAreListed(raw);
    var ids := Dedupe(PositiveIds(raw));
    DistinctSize(ids);
    assert (set x: nat | x in ids) == Listed(raw);
  }

  lemma {:induction false} RowsOfArtist(ids: seq<nat>, library: map<nat, nat>, artist: nat)
    requires Distinct(ids)
    ensures CountArtist(Rows(ids, library), artist) == |ByArtist((set id: nat | id in ids), library, artist)|
  {
    if ids == [] {
      assert ByArtist((set id: nat | id in ids), library, artist) == {};
    } else {
      var front, last := ids[..|ids| - 1], ids[|ids| - 1];
      RowsOfArtist(front, library, artist);
      assert ids == front + [last];
      ByArtistStep(front, last, library, artist);
      if last in library {
        CountOfPrefixStep(Rows(front, library), Song(last, library[last]), artist);
      } else {
        assert Rows(front, library) + [] == Rows(front, library);
      }
    }
  }

  lemma ByArtistStep(front: seq<nat>, last: nat, library: map<nat, nat>, artist: nat)
    requires last !in front
    ensures |ByArtist((set id: nat | id in front + [last]), library, artist)| ==
            |ByArtist((set id: nat | id in front), library, artist)| + if last in library && library[last] == artist then 1 else 0
  {
    var before, after := ByArtist((set id: nat | id in front), library, artist), ByArtist((set id: nat | id in front + [last]), library, artist);
    assert last !in before;
    assert after == before + if last in library && library[last] == artist then {last} else {};
  }

  lemma HeldAreTheListed(mode: Mode, raw: seq<Raw>, library: map<nat, nat>, artist: nat)
    ensures CountArtist(Held(mode, Dedupe(PositiveIds(raw)), library), artist) == HeldBy(mode, Listed(raw), library, artist)
  {
    var ids := Dedupe(PositiveIds(raw));
    PositiveIdsAreListed(raw);
    RowsOfArtist(ids, library, artist);
    assert (set id: nat | id in ids) == Listed(raw);
  }

  /** The songs an answer offers: from the ranking, not yet on a playlist that is kept, no artist beyond
      its cap, and no candidate left out while there is room for it. */
  ghost predicate Offered(mode: Mode, listed: set<nat>, ranking: seq<Song>, library: map<nat, nat>, cap: nat, short: bool, songs: seq<Song>) {
    && (forall s :: s in songs ==> s in ranking && (mode != Replace ==> s.id !in listed))
    && (forall a :: cap > 0 && CountArtist(songs, a) > 0 ==> HeldBy(mode, listed, library, a) + CountArtist(songs, a) <= cap)
    && (short ==> forall s :: s in ranking && s !in songs && (mode == Replace || s.id !in listed) ==>
          cap > 0 && HeldBy(mode, listed, library, s.artist) + CountArtist(songs, s.artist) >= cap)
  }

  lemma FillIsOffered(mode: Mode, raw: seq<Raw>, ranking: seq<Song>, library: map<nat, nat>, needed: nat, cap: nat)
    ensures var existing := Dedupe(PositiveIds(raw));
            var songs := Fill(Candidates(mode, ranking, existing), needed, cap, Held(mode, existing, library));
            Offered(mode, Listed(raw), ranking, library, cap, |songs| < needed, songs)
  {
    hide *;
    var existing := Dedupe(PositiveIds(raw));
    PositiveIdsAreListed(raw);
    CandidatesMeans(mode, ranking, existing);
    forall a: nat ensures CountArtist(Held(mode, existing, library), a) == HeldBy(mode, Listed(raw), library, a) {
      HeldAreTheListed(mode, raw, library, a);
    }
    FromCandidates(mode, Listed(raw), ranking, library, Candidates(mode, ranking, existing), Held(mode, existing, library), needed, cap);
  }

  lemma FromCandidates(mode: Mode, listed: set<nat>, ranking: seq<Song>, library: map<nat, nat>, candidates: seq<Song>, held: seq<Song>,
                       needed: nat, cap: nat)
    requires forall s :: s in candidates <==> s in ranking && (mode == Replace || s.id !in listed)
    requires forall a: nat :: CountArtist(held, a) == HeldBy(mode, listed, library, a)
    ensures var songs := Fill(candidates, needed, cap, held); Offered(mode, listed, ranking, library, cap, |songs| < needed, songs)
  {
    hide Fill, HeldBy, CountArtist;
    FillTakesFromRanking(candidates, needed, cap, held);
    FillIsWithinCap(candidates, needed, cap, held);
    ShortfallMeansCapped(candidates, needed, cap, held);
  }

  lemma CandidatesMeans(mode: Mode, ranking: seq<Song>, existing: seq<nat>)
    ensures forall s :: s in Candidates(mode, ranking, existing) <==> s in ranking && (mode == Replace || s.id !in existing)
  {
    ExcludedStayOut(ranking, existing);
  }

  /** The whole request: what is refused, and what an accepted request answers. The number asked for is
      bounded by 500 and the cap by 100; the songs of a playlist that is kept count against both. */
  method Post(mode: Mode, count: Raw, maxPerArtist: Raw, existingRaw: seq<Raw>, ranking: seq<Song>, library: map<nat, nat>)
    returns (answer: Answer)
    ensures answer.Rejected? <==> mode == Unknown || count == Junk || maxPerArtist == Junk
    ensures answer.Filled? ==>
              var existing := Dedupe(PositiveIds(existingRaw));
              var needed := Needed(mode, answer.requested, existing);
              && answer.requested == Clamped(1, 500, count, 1)
              && answer.songs == Fill(Candidates(mode, ranking, existing), needed, Clamped(0, 100, maxPerArtist, 0),
                                      Held(mode, existing, library))
              && answer.shortfall + |answer.songs| == needed
              && answer.finalCount + answer.shortfall == Target(mode, answer.requested, |existing|)
    ensures answer.Filled? ==>
              var held := |Listed(existingRaw)|;
              && Bounded(1, 500, count, 1, answer.requested)
              && answer.shortfall + |answer.songs| ==
                   (if mode == FillTo then (if answer.requested > held then answer.requested - held else 0) else answer.requested)
              && answer.finalCount == |answer.songs| + (if mode == Replace then 0 else held)
              && exists cap: nat :: Bounded(0, 100, maxPerArtist, 0, cap)
                   && Offered(mode, Listed(existingRaw), ranking, library, cap, answer.shortfall > 0, answer.songs)
  {
    if mode == Unknown || count == Junk || maxPerArtist == Junk {
      return Rejected;
    }
    var requested: nat, cap: nat := Clamped(1, 500, count, 1), Clamped(0, 100, maxPerArtist, 0);
    ExistingSize(existingRaw);
    var existing := IntList(existingRaw);
    var needed, base;
    match mode {
      case Append => needed, base := requested, |existing|;
      case FillTo => needed, base := Max(0, requested - |existing|), |existing|;
      case Replace => needed, base := requested, 0;
    }
    var held := Held(mode, existing, library);
    var candidates := Candidates(mode, ranking, existing);
    var songs := Select(candidates, needed, cap, held);
    FillTakesFromRanking(candidates, needed, cap, held);
    FillIsOffered(mode, existingRaw, ranking, library, needed, cap);
    assert Bounded(0, 100, maxPerArtist, 0, cap);

    var shortfall := Max(0, needed - |songs|);
    answer := Filled(requested, base + |songs|, shortfall, songs);
  }
}
