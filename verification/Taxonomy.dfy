/** Genres and sub-genres, what carries them, and what deleting or merging one of them leaves. */
module Taxonomy {
  import opened Options
  import opened Sequences
  import opened IdLists

  datatype Kind = Genre | SubGenre

  datatype Sub = Sub(name: string, parent: Option<nat>)

  /** The genres and sub-genres of a song, an album or a release workspace. */
  datatype Content = Content(genres: set<nat>, subs: set<nat>)

  /** A release workspace keeps its ids as stored lists. */
  datatype Release = Release(genreIds: Field, subIds: Field, lockVersion: nat, hasSnapshot: bool) {
    function View(): Content { Content(Ids(genreIds), Ids(subIds)) }
  }

  datatype World = World(
    genres: map<nat, string>,
    subs: map<nat, Sub>,
    songs: map<nat, Content>,
    albums: map<nat, Content>,
    releases: map<nat, Release>)

  /** One deletion: the item, its replacement, the sub-genres under it, the replacement's own parent. */
  datatype Merge = Merge(kind: Kind, source: nat, replacement: Option<nat>, children: set<nat>, parent: Option<nat>)

  function MergeOf(w: World, kind: Kind, source: nat, replacement: Option<nat>): Merge {
    Merge(kind, source, replacement,
          if kind.Genre? then set s | s in w.subs && w.subs[s].parent == Some(source) else {},
          if kind.SubGenre? && replacement.Some? && replacement.value in w.subs then w.subs[replacement.value].parent else None)
  }

  predicate Exists(w: World, kind: Kind, id: nat) {
    if kind.Genre? then id in w.genres else id in w.subs
  }

  // The meaning of a deletion for anything that carries genres.

  function ContentAfter(m: Merge, c: Content): Content {
    match m.kind
    case Genre =>
      var joins := m.replacement.Some? && (m.source in c.genres || c.subs * m.children != {});
      Content((if joins then c.genres + {m.replacement.value} else c.genres) - {m.source},
              if m.replacement.Some? then c.subs else c.subs - m.children)
    case SubGenre =>
      if m.source !in c.subs then c
      else if m.replacement.None? then Content(c.genres, c.subs - {m.source})
      else Content(if m.parent.Some? then c.genres + {m.parent.value} else c.genres,
                   c.subs - {m.source} + {m.replacement.value})
  }

  function SubsAfter(m: Merge, subs: map<nat, Sub>): map<nat, Sub> {
    match m.kind
    case Genre =>
      if m.replacement.None? then map s | s in subs && s !in m.children :: subs[s]
      else map s | s in subs :: if s in m.children then subs[s].(parent := m.replacement) else subs[s]
    case SubGenre => subs - {m.source}
  }

  function ContentsAfter(m: Merge, items: map<nat, Content>): map<nat, Content> {
    map i | i in items :: ContentAfter(m, items[i])
  }

  // Release workspaces.

  function KeyField(kind: Kind, r: Release): Field {
    if kind.Genre? then r.genreIds else r.subIds
  }

  function KeyRewrite(m: Merge): Rewrite {
    Rewrite(m.source, m.replacement, {})
  }

  /** Dropping the sub-genres that go with a deleted genre. */
  function ChildRewrite(m: Merge): Rewrite {
    Rewrite(-1, None, m.children)
  }

  predicate UsesChild(m: Merge, r: Release) {
    Ids(r.subIds) * m.children != {}
  }

  ghost function GenreFieldAfter(m: Merge, r: Release): Field {
    match m.kind
    case Genre =>
      var rewritten := RewriteField(r.genreIds, KeyRewrite(m));
      if m.replacement.Some? && UsesChild(m, r) then WithGenre(rewritten, m.replacement.value) else rewritten
    case SubGenre =>
      if m.replacement.Some? && m.parent.Some? && Rewritten(r.subIds, KeyRewrite(m)) then WithGenre(r.genreIds, m.parent.value) else r.genreIds
  }

  ghost function SubFieldAfter(m: Merge, r: Release): Field {
    match m.kind
    case Genre => if m.replacement.None? && m.children != {} then RewriteField(r.subIds, ChildRewrite(m)) else r.subIds
    case SubGenre => RewriteField(r.subIds, KeyRewrite(m))
  }

  ghost predicate Changed(m: Merge, r: Release) {
    || Rewritten(KeyField(m.kind, r), KeyRewrite(m))
    || (m.kind.Genre? && m.replacement.None? && m.children != {} && Rewritten(r.subIds, ChildRewrite(m)))
    || (m.kind.Genre? && m.replacement.Some? && UsesChild(m, r)
        && Int(m.replacement.value) !in NormalGenres(RewriteField(r.genreIds, KeyRewrite(m))))
  }

  /** `_rewrite_release_workspace_taxonomy` on one release; a changed one gets a new lock version. */
  ghost function RewriteRelease(m: Merge, r: Release): Release {
    if Changed(m, r) then Release(GenreFieldAfter(m, r), SubFieldAfter(m, r), r.lockVersion + 1, false) else r
  }

  predicate DirectHit(m: Merge, r: Release) {
    m.source in Ids(KeyField(m.kind, r))
  }

  predicate Hit(m: Merge, r: Release) {
    DirectHit(m, r) || UsesChild(m, r)
  }

  /** `_taxonomy_release_workspace_impact`. */
  function Impacted(m: Merge, releases: map<nat, Release>): set<nat> {
    set r | r in releases && Hit(m, releases[r])
  }

  ghost function ReleasesAfter(m: Merge, releases: map<nat, Release>, rewritten: set<nat>): map<nat, Release> {
    map r | r in releases :: if r in rewritten then RewriteRelease(m, releases[r]) else releases[r]
  }

  ghost function After(w: World, m: Merge, rewritten: set<nat>): World {
    World(if m.kind.Genre? then w.genres - {m.source} else w.genres,
          SubsAfter(m, w.subs),
          ContentsAfter(m, w.songs),
          ContentsAfter(m, w.albums),
          ReleasesAfter(m, w.releases, rewritten))
  }

  /** `AdminTaxonomyDetailView.delete` once it is neither refused nor awaiting confirmation. */
  ghost function Delete(w: World, kind: Kind, source: nat, replacement: Option<nat>): World {
    var m := MergeOf(w, kind, source, replacement);
    After(w, m, Impacted(m, w.releases))
  }

  // A workspace is rewritten as a song is.

  lemma SourceIsAffected(field: Field, source: nat, replacement: Option<nat>)
    requires source in Ids(field)
    ensures Rewritten(field, Rewrite(source, replacement, {}))
  {
    IdsMembers(field.values, source);
    var i :| 0 <= i < |field.values| && Norm(field.values[i]) == Int(source);
    assert Affected(field.values[i], Rewrite(source, replacement, {}));
  }

  lemma UnchangedKeepsFields(m: Merge, r: Release)
    requires !Changed(m, r)
    ensures GenreFieldAfter(m, r) == r.genreIds && SubFieldAfter(m, r) == r.subIds
  {
    hide Touched, NormalGenres;
  }

  /** The ids a rewritten workspace lists are what the same deletion leaves of a song with those ids. */
  lemma WorkspaceFollowsContent(m: Merge, r: Release)
    requires m.replacement != Some(m.source) && (m.kind.SubGenre? ==> m.children == {})
    requires Hit(m, r)
    ensures RewriteRelease(m, r).View() == ContentAfter(m, r.View())
  {
    hide Touched, Ids, WithGenre, RewriteField, NormalGenres;
    if !Changed(m, r) {
      UnchangedKeepsFields(m, r);
    }
    match m.kind
    case Genre =>
      RewriteFieldIds(r.genreIds, m.source, m.replacement, {});
      RewriteFieldIds(r.subIds, -1, None, m.children);
      if m.replacement.Some? {
        WithGenreIds(RewriteField(r.genreIds, KeyRewrite(m)), m.replacement.value);
      }
    case SubGenre =>
      RewriteFieldIds(r.subIds, m.source, m.replacement, {});
      SourceIsAffected(r.subIds, m.source, m.replacement);
      if m.parent.Some? {
        WithGenreIds(r.genreIds, m.parent.value);
      }
  }

  lemma WorkspacesFollowContent(m: Merge, releases: map<nat, Release>, id: nat)
    requires m.replacement != Some(m.source) && (m.kind.SubGenre? ==> m.children == {})
    requires id in releases
    ensures ReleasesAfter(m, releases, Impacted(m, releases))[id].View() == ContentAfter(m, releases[id].View())
  {
    hide RewriteRelease;
    if Hit(m, releases[id]) {
      WorkspaceFollowsContent(m, releases[id]);
    } else {
      UnaffectedContentStays(m, releases[id].View());
    }
  }

  // What a deletion carries over.

  /** The merge names the sub-genres under a deleted genre, and the parent genre of a replacing sub-genre. */
  ghost predicate Describes(w: World, m: Merge) {
    && (forall s :: s in m.children <==> m.kind.Genre? && s in w.subs && w.subs[s].parent == Some(m.source))
    && (forall g :: m.parent == Some(g) <==>
          m.kind.SubGenre? && m.replacement.Some? && m.replacement.value in w.subs && w.subs[m.replacement.value].parent == Some(g))
  }

  /** Which ids are listed after the deletion. A replacement is listed by whatever listed it, the
      source or, for a genre, a sub-genre of the source; a replacing sub-genre brings its parent genre
      along. Without a replacement a genre takes its sub-genres with it. Every other id is kept. */
  ghost predicate CarriesOver(m: Merge, before: Content, after: Content) {
    match m.kind
    case Genre =>
      && (forall g :: g in after.genres <==>
            g != m.source &&
            (g in before.genres || (m.replacement == Some(g) && (m.source in before.genres || exists s :: s in before.subs && s in m.children))))
      && (forall s :: s in after.subs <==> s in before.subs && (m.replacement.None? ==> s !in m.children))
    case SubGenre =>
      && (forall s :: s in after.subs <==> s != m.source && (s in before.subs || (m.replacement == Some(s) && m.source in before.subs)))
      && (forall g :: g in after.genres <==>
            g in before.genres || (m.replacement.Some? && m.parent == Some(g) && m.source in before.subs))
  }

  lemma ContentIsCarriedOver(m: Merge, c: Content)
    requires m.replacement != Some(m.source) && (m.parent.Some? ==> m.replacement.Some?)
    ensures CarriesOver(m, c, ContentAfter(m, c))
  {
    assert c.subs * m.children != {} <==> exists s :: s in c.subs && s in m.children by {
      if s :| s in c.subs && s in m.children {
        assert s in c.subs * m.children;
      }
    }
  }

  /** A workspace whose stored lists changed is a new version without a snapshot; any other is left alone. */
  ghost predicate Reversioned(before: Release, after: Release) {
    if before.genreIds == after.genreIds && before.subIds == after.subIds then after == before
    else after.lockVersion == before.lockVersion + 1 && !after.hasSnapshot
  }

  /** What every song, album and workspace lists afterwards, in terms of what it listed before.
      Sub-genres of a merged genre are moved under the replacement, and go with a genre that has none;
      every other genre and sub-genre stays as it was. */
  ghost predicate Carried(w: World, m: Merge, now: World) {
    && now.songs.Keys == w.songs.Keys && (forall i :: i in w.songs ==> CarriesOver(m, w.songs[i], now.songs[i]))
    && now.albums.Keys == w.albums.Keys && (forall i :: i in w.albums ==> CarriesOver(m, w.albums[i], now.albums[i]))
    && now.releases.Keys == w.releases.Keys
    && (forall i :: i in w.releases ==>
          CarriesOver(m, w.releases[i].View(), now.releases[i].View()) && Reversioned(w.releases[i], now.releases[i]))
    && RowsCarriedOver(w, m, now)
  }

  /** Deleting or merging carries the content of the item over to its replacement and loses nothing else. */
  lemma DeleteCarriesOver(w: World, m: Merge)
    requires Describes(w, m) && m.replacement != Some(m.source)
    ensures Carried(w, m, Delete(w, m.kind, m.source, m.replacement))
  {
    var now := Delete(w, m.kind, m.source, m.replacement);
    DescriptionIsUnique(w, m);
    RowsAreCarriedOver(w, m);
    hide ContentAfter, RewriteRelease, CarriesOver, Hit, MergeOf, SubsAfter, Describes, Reversioned;
    forall i | i in w.songs ensures CarriesOver(m, w.songs[i], now.songs[i]) {
      ContentIsCarriedOver(m, w.songs[i]);
    }
    forall i | i in w.albums ensures CarriesOver(m, w.albums[i], now.albums[i]) {
      ContentIsCarriedOver(m, w.albums[i]);
    }
    forall i | i in w.releases
      ensures CarriesOver(m, w.releases[i].View(), now.releases[i].View()) && Reversioned(w.releases[i], now.releases[i])
    {
      WorkspacesFollowContent(m, w.releases, i);
      ContentIsCarriedOver(m, w.releases[i].View());
      RewriteReversions(m, w.releases[i]);
    }
  }

  lemma DescriptionIsUnique(w: World, m: Merge)
    requires Describes(w, m)
    ensures m == MergeOf(w, m.kind, m.source, m.replacement)
    ensures (m.kind.SubGenre? ==> m.children == {}) && (m.parent.Some? ==> m.replacement.Some?)
  {
    var made := MergeOf(w, m.kind, m.source, m.replacement);
    assert m.children == made.children;
    assert m.parent.Some? ==> m.parent == Some(m.parent.value);
    assert made.parent.Some? ==> m.parent == Some(made.parent.value);
  }

  lemma MergeDescribes(w: World, kind: Kind, source: nat, replacement: Option<nat>)
    ensures Describes(w, MergeOf(w, kind, source, replacement))
  {
  }

  lemma RewriteReversions(m: Merge, r: Release)
    requires m.replacement != Some(m.source)
    ensures Reversioned(r, RewriteRelease(m, r)) && Reversioned(r, r)
  {
    hide Touched, NormalGenres, WithGenre, RewriteField, Ids;
    var key := KeyRewrite(m);
    if Rewritten(KeyField(m.kind, r), key) {
      RewrittenDiffers(KeyField(m.kind, r), key);
    }
    if Rewritten(r.subIds, ChildRewrite(m)) {
      RewrittenDiffers(r.subIds, ChildRewrite(m));
    }
    if m.kind.Genre? && m.replacement.Some? {
      AddedGenreShows(r.genreIds, m.source, m.replacement.value);
    }
  }

  lemma AddedGenreShows(field: Field, source: nat, target: nat)
    requires target != source
    ensures var rewritten := RewriteField(field, Rewrite(source, Some(target), {}));
            if Int(target) in NormalGenres(rewritten) then WithGenre(rewritten, target) == rewritten
            else WithGenre(rewritten, target) != field
  {
    var rewritten := RewriteField(field, Rewrite(source, Some(target), {}));
    RewriteFieldIds(field, source, Some(target), {});
    WithGenreIds(rewritten, target);
    NormalGenresAreTheIds(rewritten, target);
    NormalGenresAreTheIds(WithGenre(rewritten, target), target);
  }

  ghost predicate RowsCarriedOver(w: World, m: Merge, now: World) {
    && (forall g :: g in now.genres <==> g in w.genres && !(m.kind.Genre? && g == m.source))
    && (forall g :: g in now.genres ==> now.genres[g] == w.genres[g])
    && (forall s :: s in now.subs <==> s in w.subs && !(m.kind.SubGenre? && s == m.source) && !(s in m.children && m.replacement.None?))
    && (forall s :: s in now.subs ==>
          now.subs[s].name == w.subs[s].name && now.subs[s].parent == if s in m.children then m.replacement else w.subs[s].parent)
  }

  lemma RowsAreCarriedOver(w: World, m: Merge)
    requires m == MergeOf(w, m.kind, m.source, m.replacement)
    ensures RowsCarriedOver(w, m, Delete(w, m.kind, m.source, m.replacement))
  {
    hide ContentAfter, RewriteRelease, Impacted;
  }

  // The hierarchy.

  ghost predicate Covered(subs: map<nat, Sub>, c: Content) {
    forall s :: s in c.subs && s in subs && subs[s].parent.Some? ==> subs[s].parent.value in c.genres
  }

  /** Whatever lists a sub-genre also lists its parent genre. */
  ghost predicate Hierarchical(w: World) {
    && (forall i :: i in w.songs ==> Covered(w.subs, w.songs[i]))
    && (forall i :: i in w.albums ==> Covered(w.subs, w.albums[i]))
    && (forall i :: i in w.releases ==> Covered(w.subs, w.releases[i].View()))
  }

  ghost predicate Known(w: World, c: Content) {
    c.genres <= w.genres.Keys && c.subs <= w.subs.Keys
  }

  /** Every id that is listed exists. */
  ghost predicate IdsExist(w: World) {
    && (forall s :: s in w.subs && w.subs[s].parent.Some? ==> w.subs[s].parent.value in w.genres)
    && (forall i :: i in w.songs ==> Known(w, w.songs[i]))
    && (forall i :: i in w.albums ==> Known(w, w.albums[i]))
    && (forall i :: i in w.releases ==> Known(w, w.releases[i].View()))
  }

  lemma ContentStaysCovered(w: World, kind: Kind, source: nat, replacement: Option<nat>, c: Content)
    requires replacement != Some(source)
    requires Covered(w.subs, c)
    ensures var m := MergeOf(w, kind, source, replacement); Covered(SubsAfter(m, w.subs), ContentAfter(m, c))
  {
    var m := MergeOf(w, kind, source, replacement);
    var subs, now := SubsAfter(m, w.subs), ContentAfter(m, c);
    forall s | s in now.subs && s in subs && subs[s].parent.Some? ensures subs[s].parent.value in now.genres {
      assert s in w.subs;
    }
  }

  lemma ContentStaysKnown(w: World, kind: Kind, source: nat, replacement: Option<nat>, c: Content)
    requires replacement.Some? ==> Exists(w, kind, replacement.value) && replacement.value != source
    requires IdsExist(w) && Known(w, c)
    ensures Known(Delete(w, kind, source, replacement), ContentAfter(MergeOf(w, kind, source, replacement), c))
  {
  }

  /** Deleting a genre or sub-genre, with or without a replacement, keeps the hierarchy. */
  lemma DeleteKeepsHierarchy(w: World, kind: Kind, source: nat, replacement: Option<nat>)
    requires replacement != Some(source)
    requires Hierarchical(w)
    ensures Hierarchical(Delete(w, kind, source, replacement))
  {
    var m := MergeOf(w, kind, source, replacement);
    var now := Delete(w, kind, source, replacement);
    hide ContentAfter, SubsAfter, RewriteRelease, Covered, Hit, MergeOf;
    assert m.kind.SubGenre? ==> m.children == {} by { HasNoChildren(w, kind, source, replacement); }
    HasNoChildren(w, kind, source, replacement);
    forall i | i in now.songs ensures Covered(now.subs, now.songs[i]) {
      ContentStaysCovered(w, kind, source, replacement, w.songs[i]);
    }
    forall i | i in now.albums ensures Covered(now.subs, now.albums[i]) {
      ContentStaysCovered(w, kind, source, replacement, w.albums[i]);
    }
    forall i | i in now.releases ensures Covered(now.subs, now.releases[i].View()) {
      WorkspacesFollowContent(m, w.releases, i);
      ContentStaysCovered(w, kind, source, replacement, w.releases[i].View());
    }
  }

  lemma HasNoChildren(w: World, kind: Kind, source: nat, replacement: Option<nat>)
    ensures var m := MergeOf(w, kind, source, replacement);
            m.kind == kind && m.source == source && m.replacement == replacement && (kind.SubGenre? ==> m.children == {})
  {
  }

  /** No id dangles after a deletion, in any song, album, workspace or parent link. */
  lemma DeleteKeepsIdsExisting(w: World, kind: Kind, source: nat, replacement: Option<nat>)
    requires replacement.Some? ==> Exists(w, kind, replacement.value) && replacement.value != source
    requires IdsExist(w)
    ensures IdsExist(Delete(w, kind, source, replacement))
  {
    var m := MergeOf(w, kind, source, replacement);
    var now := Delete(w, kind, source, replacement);
    ParentsStayKnown(w, kind, source, replacement);
    hide ContentAfter, SubsAfter, RewriteRelease, Hit, MergeOf, Known;
    HasNoChildren(w, kind, source, replacement);
    forall i | i in now.songs ensures Known(now, now.songs[i]) {
      ContentStaysKnown(w, kind, source, replacement, w.songs[i]);
    }
    forall i | i in now.albums ensures Known(now, now.albums[i]) {
      ContentStaysKnown(w, kind, source, replacement, w.albums[i]);
    }
    forall i | i in now.releases ensures Known(now, now.releases[i].View()) {
      WorkspacesFollowContent(m, w.releases, i);
      ContentStaysKnown(w, kind, source, replacement, w.releases[i].View());
    }
  }

  lemma ParentsStayKnown(w: World, kind: Kind, source: nat, replacement: Option<nat>)
    requires replacement.Some? ==> Exists(w, kind, replacement.value) && replacement.value != source
    requires IdsExist(w)
    ensures var now := Delete(w, kind, source, replacement);
            forall s :: s in now.subs && now.subs[s].parent.Some? ==> now.subs[s].parent.value in now.genres
  {
    hide RewriteRelease, ContentAfter;
  }

  // What the impact report promises.

  predicate AffectedContent(m: Merge, c: Content) {
    if m.kind.Genre? then m.source in c.genres || c.subs * m.children != {} else m.source in c.subs
  }

  /** `has_metadata_impact`. */
  predicate HasImpact(w: World, m: Merge) {
    || (exists i :: i in w.songs && AffectedContent(m, w.songs[i]))
    || (exists i :: i in w.albums && AffectedContent(m, w.albums[i]))
    || m.children != {}
    || Impacted(m, w.releases) != {}
  }

  /** The world with nothing but the item itself gone. */
  function Without(w: World, m: Merge): World {
    if m.kind.Genre? then w.(genres := w.genres - {m.source}) else w.(subs := w.subs - {m.source})
  }

  lemma UnaffectedContentStays(m: Merge, c: Content)
    requires !AffectedContent(m, c)
    ensures ContentAfter(m, c) == c
  {
    if m.kind.Genre? {
      assert forall s :: s in c.subs && s in m.children ==> s in c.subs * m.children;
      assert c.genres - {m.source} == c.genres && c.subs - m.children == c.subs;
    }
  }

  lemma AffectedContentChanges(m: Merge, c: Content)
    requires m.replacement != Some(m.source)
    requires AffectedContent(m, c) && m.children == {}
    ensures ContentAfter(m, c) != c
  {
    assert c.subs * m.children == {};
    assert m.kind.Genre? ==> m.source !in ContentAfter(m, c).genres;
    assert m.kind.SubGenre? ==> m.source !in ContentAfter(m, c).subs;
  }

  lemma HitReleaseChanges(m: Merge, r: Release)
    requires Hit(m, r) && m.children == {}
    ensures RewriteRelease(m, r) != r
  {
    SourceIsAffected(KeyField(m.kind, r), m.source, m.replacement);
  }

  lemma ChildrenMove(w: World, kind: Kind, source: nat, replacement: Option<nat>)
    requires replacement != Some(source)
    requires var m := MergeOf(w, kind, source, replacement); m.children != {}
    ensures var m := MergeOf(w, kind, source, replacement); SubsAfter(m, w.subs) != w.subs
  {
    var m := MergeOf(w, kind, source, replacement);
    var s :| s in m.children;
    var now := SubsAfter(m, w.subs);
    assert s !in now || now[s].parent == replacement;
  }

  /** The confirmation is asked for exactly when the deletion changes more than the item itself. */
  lemma ImpactIffSomethingElseChanges(w: World, kind: Kind, source: nat, replacement: Option<nat>)
    requires replacement != Some(source)
    ensures var m := MergeOf(w, kind, source, replacement);
            HasImpact(w, m) <==> Delete(w, kind, source, replacement) != Without(w, m)
  {
    var m := MergeOf(w, kind, source, replacement);
    var now := Delete(w, kind, source, replacement);
    if m.children != {} {
      ChildrenMove(w, kind, source, replacement);
    } else if HasImpact(w, m) {
      ImpactWithoutChildrenShows(w, m);
    } else {
      NoImpactNoChange(w, m);
    }
  }

  lemma ImpactWithoutChildrenShows(w: World, m: Merge)
    requires m.replacement != Some(m.source)
    requires m.children == {} && HasImpact(w, m)
    ensures After(w, m, Impacted(m, w.releases)) != Without(w, m)
  {
    hide RewriteRelease, ContentAfter, AffectedContent, Hit, SubsAfter;
    var now := After(w, m, Impacted(m, w.releases));
    if i :| i in w.songs && AffectedContent(m, w.songs[i]) {
      AffectedContentChanges(m, w.songs[i]);
      assert now.songs[i] != w.songs[i];
    } else if i :| i in w.albums && AffectedContent(m, w.albums[i]) {
      AffectedContentChanges(m, w.albums[i]);
      assert now.albums[i] != w.albums[i];
    } else {
      var i :| i in Impacted(m, w.releases);
      HitReleaseChanges(m, w.releases[i]);
      assert now.releases[i] != w.releases[i];
    }
  }

  lemma NoImpactNoChange(w: World, m: Merge)
    requires !HasImpact(w, m)
    ensures After(w, m, Impacted(m, w.releases)) == Without(w, m)
  {
    hide RewriteRelease, ContentAfter, AffectedContent, Hit;
    forall i | i in w.songs ensures ContentAfter(m, w.songs[i]) == w.songs[i] {
      UnaffectedContentStays(m, w.songs[i]);
    }
    forall i | i in w.albums ensures ContentAfter(m, w.albums[i]) == w.albums[i] {
      UnaffectedContentStays(m, w.albums[i]);
    }
    assert ContentsAfter(m, w.songs) == w.songs;
    assert ContentsAfter(m, w.albums) == w.albums;
    assert ReleasesAfter(m, w.releases, Impacted(m, w.releases)) == w.releases;
    assert m.kind.Genre? ==> SubsAfter(m, w.subs) == w.subs;
  }

  // Rewriting only what the scan reports.

  ghost predicate Repeats(field: Field) {
    field.List? && !Distinct(Normalized(field.values))
  }

  /** The stored lists hold something a rewrite would tidy up although the item is not listed. */
  ghost predicate Untidy(m: Merge, r: Release) {
    || Repeats(KeyField(m.kind, r))
    || (m.kind.Genre? && m.replacement.None? && m.children != {} && r.subIds.List?
        && (Repeats(r.subIds) || Int(-1) in Normalized(r.subIds.values)))
  }

  lemma UnhitTouchedIffRepeats(values: seq<Raw>, rw: Rewrite)
    requires forall n: nat :: n in rw.remove || n == rw.source ==> n !in IdsOf(values)
    requires forall n :: n in rw.remove ==> n >= 0
    requires rw.source >= -1
    ensures Touched(values, rw) <==>
            !Distinct(Normalized(values)) || (rw.source == -1 && Int(-1) in Normalized(values))
  {
    forall i | 0 <= i < |values| ensures Affected(values[i], rw) <==> rw.source == -1 && Norm(values[i]) == Int(-1) {
      var value := Norm(values[i]);
      assert Normalized(values)[i] == value;
      if value.Int? && value.n >= 0 {
        IdsMembers(values, value.n);
      }
    }
    if forall i :: 0 <= i < |values| ==> !Affected(values[i], rw) {
      UnaffectedIsKept(values, rw);
      assert rw.source == -1 ==> Int(-1) !in Normalized(values);
    } else {
      var i :| 0 <= i < |values| && Affected(values[i], rw);
      assert Normalized(values)[i] == Int(-1);
    }
  }

  lemma UnhitChangesIffUntidy(m: Merge, r: Release)
    requires !Hit(m, r)
    ensures Changed(m, r) <==> Untidy(m, r)
  {
    hide Touched, NormalGenres;
    var key := KeyField(m.kind, r);
    if key.List? {
      UnhitTouchedIffRepeats(key.values, KeyRewrite(m));
    }
    if r.subIds.List? {
      assert forall n: nat :: n in m.children ==> n !in IdsOf(r.subIds.values) by {
        forall n: nat | n in m.children ensures n !in IdsOf(r.subIds.values) {
          assert n in Ids(r.subIds) ==> n in Ids(r.subIds) * m.children;
        }
      }
      UnhitTouchedIffRepeats(r.subIds.values, ChildRewrite(m));
    }
  }

  /** Rewriting the workspaces the scan reports is rewriting all of them, exactly when no other
      workspace stores a repeated id (or, when sub-genres go too, the id -1). */
  lemma ScanSufficesIff(w: World, m: Merge)
    ensures After(w, m, w.releases.Keys) == After(w, m, Impacted(m, w.releases)) <==>
            forall i :: i in w.releases && !Hit(m, w.releases[i]) ==> !Untidy(m, w.releases[i])
  {
    var all, some := ReleasesAfter(m, w.releases, w.releases.Keys), ReleasesAfter(m, w.releases, Impacted(m, w.releases));
    forall i | i in w.releases
      ensures all[i] == some[i] <==> Hit(m, w.releases[i]) || !Untidy(m, w.releases[i])
    {
      ScanSufficesForOne(m, w.releases[i]);
    }
    hide RewriteRelease, Hit, Untidy;
    if forall i :: i in w.releases && !Hit(m, w.releases[i]) ==> !Untidy(m, w.releases[i]) {
      assert all == some;
    }
  }

  lemma ScanSufficesForOne(m: Merge, r: Release)
    ensures RewriteRelease(m, r) == r || Hit(m, r) <==> Hit(m, r) || !Untidy(m, r)
  {
    hide Untidy, GenreFieldAfter, SubFieldAfter, Changed;
    if !Hit(m, r) {
      UnhitChangesIffUntidy(m, r);
    }
  }

  /** A workspace that repeats an id it keeps is tidied by a full rewrite but not reported by the scan. */
  lemma RepeatedIdEscapesTheScan()
    ensures exists m: Merge, r: Release :: !Hit(m, r) && RewriteRelease(m, r) != r
  {
    var m := Merge(Genre, 1, None, {}, None);
    var r := Release(List([Int(2), Int(2)]), List([]), 0, false);
    assert [Int(2), Int(2)][..1] == [Int(2)] && [Int(2)][..0] == [];
    assert IdsOf([Int(2), Int(2)]) == {2};
    assert Normalized([Int(2), Int(2)])[0] == Normalized([Int(2), Int(2)])[1];
    assert Repeats(r.genreIds);
    UnhitChangesIffUntidy(m, r);
    assert !Hit(m, r) && RewriteRelease(m, r) != r;
  }
}
