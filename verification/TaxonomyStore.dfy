/** The taxonomy tables updated in place by a deletion. */
module TaxonomyStore {
  import opened Options
  import opened IdLists
  import opened Taxonomy

  datatype RawId = Missing | Number(n: int) | Junk

  datatype Request = Request(kind: Kind, id: nat, replacement: RawId, confirmName: string, acknowledged: bool)

  datatype Outcome =
    | BadReplacement
    | SelfReplacement
    | NotFound
    | ReplacementNotFound
    | NameNotConfirmed
    | NotAcknowledged
    | Deleted(replacement: Option<nat>, reparented: nat, rewritten: nat)

  function NameOf(w: World, kind: Kind, id: nat): string
    requires Exists(w, kind, id)
  {
    if kind.Genre? then w.genres[id] else w.subs[id].name
  }

  /** The replacement as an id; a negative number names nothing. */
  function Chosen(raw: RawId): Option<nat> {
    if raw.Number? && raw.n >= 0 then Some(raw.n) else None
  }

  /** Why a request is refused, in the order the checks are made. */
  function Refusal(w: World, r: Request): Option<Outcome> {
    if r.replacement.Junk? then Some(BadReplacement)
    else if r.replacement == Number(r.id) then Some(SelfReplacement)
    else if !Exists(w, r.kind, r.id) then Some(NotFound)
    else if r.replacement.Number? && (r.replacement.n < 0 || !Exists(w, r.kind, r.replacement.n)) then Some(ReplacementNotFound)
    else
      var impact := HasImpact(w, MergeOf(w, r.kind, r.id, Chosen(r.replacement)));
      if impact && r.confirmName != NameOf(w, r.kind, r.id) then Some(NameNotConfirmed)
      else if r.replacement.Missing? && impact && !r.acknowledged then Some(NotAcknowledged)
      else None
  }

  /** Nothing but the item itself is ever lost without the name typed and, when there is no
      replacement, the loss acknowledged. */
  lemma NothingIsLostUnconfirmed(w: World, r: Request)
    requires Refusal(w, r).None?
    requires Delete(w, r.kind, r.id, Chosen(r.replacement)) != Without(w, MergeOf(w, r.kind, r.id, Chosen(r.replacement)))
    ensures r.confirmName == NameOf(w, r.kind, r.id)
    ensures r.replacement.Number? || r.acknowledged
  {
    ImpactIffSomethingElseChanges(w, r.kind, r.id, Chosen(r.replacement));
  }

  /** A request goes through exactly when its item exists, its replacement is absent or another existing
      item, and it changes nothing but the item or is confirmed. */
  lemma AcceptedIff(w: World, r: Request)
    ensures Refusal(w, r).None? <==>
              && Exists(w, r.kind, r.id)
              && (r.replacement.Missing? ||
                  (r.replacement.Number? && r.replacement.n >= 0 && r.replacement.n != r.id && Exists(w, r.kind, r.replacement.n)))
              && (|| Delete(w, r.kind, r.id, Chosen(r.replacement)) == Without(w, MergeOf(w, r.kind, r.id, Chosen(r.replacement)))
                  || (r.confirmName == NameOf(w, r.kind, r.id) && (r.replacement.Number? || r.acknowledged)))
  {
    if Chosen(r.replacement) != Some(r.id) {
      ImpactIffSomethingElseChanges(w, r.kind, r.id, Chosen(r.replacement));
    }
    hide Delete, Without, HasImpact;
  }

  /** A refusal tells the truth: the reason it gives holds, and none that is checked earlier does. */
  lemma RefusalTells(w: World, r: Request)
    requires Refusal(w, r).Some?
    ensures var number, found := r.replacement.Number?, Exists(w, r.kind, r.id);
            var known := number ==> r.replacement.n >= 0 && Exists(w, r.kind, r.replacement.n);
            var harmless := Delete(w, r.kind, r.id, Chosen(r.replacement)) == Without(w, MergeOf(w, r.kind, r.id, Chosen(r.replacement)));
            match Refusal(w, r).value
            case BadReplacement => r.replacement.Junk?
            case SelfReplacement => number && r.replacement.n == r.id
            case NotFound => !found && !r.replacement.Junk? && !(number && r.replacement.n == r.id)
            case ReplacementNotFound => found && !known && r.replacement.n != r.id
            case NameNotConfirmed => found && known && !harmless && r.confirmName != NameOf(w, r.kind, r.id)
            case NotAcknowledged =>
              found && !harmless && r.replacement.Missing? && !r.acknowledged && r.confirmName == NameOf(w, r.kind, r.id)
            case Deleted(_, _, _) => false
  {
    if Chosen(r.replacement) != Some(r.id) {
      ImpactIffSomethingElseChanges(w, r.kind, r.id, Chosen(r.replacement));
    }
    hide Delete, Without, HasImpact;
  }

  // Adding a genre or sub-genre to many items.

  function With(c: Content, kind: Kind, target: nat): Content {
    if kind.Genre? then c.(genres := c.genres + {target}) else c.(subs := c.subs + {target})
  }

  function Attached(items: map<nat, Content>, ids: set<nat>, kind: Kind, target: nat): map<nat, Content> {
    map i | i in items :: if i in ids then With(items[i], kind, target) else items[i]
  }

  const CHUNK: nat := 1000

  /** `_add_ids_to_reverse_many_to_many`: the ids are added a batch at a time. */
  method AddInBatches(items: map<nat, Content>, ids: set<nat>, kind: Kind, target: nat) returns (now: map<nat, Content>, processed: nat)
    ensures now == Attached(items, ids, kind, target)
    ensures processed == |ids|
  {
    hide Attached;
    AttachedTwice(items, {}, {}, kind, target);
    now, processed := items, 0;
    var todo, batch: set<nat> := ids, {};
    ghost var done: set<nat> := {};
    while todo != {}
      invariant ids == done + batch + todo && done !! batch && (done + batch) !! todo
      invariant now == Attached(items, done, kind, target) && processed == |done|
      decreases todo
    {
      var id :| id in todo;
      todo, batch := todo - {id}, batch + {id};
      if |batch| >= CHUNK {
        AttachedTwice(items, done, batch, kind, target);
        now, processed := Attached(now, batch, kind, target), processed + |batch|;
        Disjoint(done, batch);
        done, batch := done + batch, {};
      }
    }
    if batch != {} {
      AttachedTwice(items, done, batch, kind, target);
      now, processed := Attached(now, batch, kind, target), processed + |batch|;
      Disjoint(done, batch);
    }
    assert done + batch == ids;
  }

  lemma Disjoint(a: set<nat>, b: set<nat>)
    requires a !! b
    ensures |a + b| == |a| + |b|
  {
  }

  lemma AttachedTwice(items: map<nat, Content>, first: set<nat>, second: set<nat>, kind: Kind, target: nat)
    ensures Attached(Attached(items, first, kind, target), second, kind, target) == Attached(items, first + second, kind, target)
    ensures Attached(items, {}, kind, target) == items
  {
  }

  /** The items linked to the deleted row itself. */
  function Listing(items: map<nat, Content>, kind: Kind, id: nat): set<nat> {
    set i | i in items && id in (if kind.Genre? then items[i].genres else items[i].subs)
  }

  function ListingAny(items: map<nat, Content>, children: set<nat>): set<nat> {
    set i | i in items && items[i].subs * children != {}
  }

  function LinkedContent(m: Merge, target: nat, c: Content): Content {
    match m.kind
    case Genre => if AffectedContent(m, c) then c.(genres := c.genres + {target}) else c
    case SubGenre =>
      if m.source !in c.subs then c
      else Content(if m.parent.Some? then c.genres + {m.parent.value} else c.genres, c.subs + {target})
  }

  function Linked(m: Merge, target: nat, items: map<nat, Content>): map<nat, Content> {
    map i | i in items :: LinkedContent(m, target, items[i])
  }

  /** The link rows that go with deleted genres and sub-genres. */
  function Dropped(items: map<nat, Content>, genres: set<nat>, subs: set<nat>): map<nat, Content> {
    map i | i in items :: Content(items[i].genres - genres, items[i].subs - subs)
  }

  /** What lists the source of a merge, or a sub-genre of it, is linked to the replacement, and to the
      parent genre of a replacing sub-genre. No link is lost. */
  ghost predicate GainsLinks(m: Merge, before: Content, after: Content) {
    match m.kind
    case Genre =>
      && after.subs == before.subs
      && forall g :: g in after.genres <==>
           g in before.genres || (m.replacement == Some(g) && (m.source in before.genres || exists s :: s in before.subs && s in m.children))
    case SubGenre =>
      && (forall s :: s in after.subs <==> s in before.subs || (m.replacement == Some(s) && m.source in before.subs))
      && (forall g :: g in after.genres <==> g in before.genres || (m.parent == Some(g) && m.source in before.subs))
  }

  lemma LinkedGains(m: Merge, c: Content)
    requires m.replacement.Some?
    ensures GainsLinks(m, c, LinkedContent(m, m.replacement.value, c))
  {
    assert c.subs * m.children != {} <==> exists s :: s in c.subs && s in m.children by {
      if s :| s in c.subs && s in m.children {
        assert s in c.subs * m.children;
      }
    }
  }

  lemma LinkedAllGain(m: Merge, items: map<nat, Content>)
    requires m.replacement.Some?
    ensures var now := Linked(m, m.replacement.value, items);
            now.Keys == items.Keys && forall i :: i in items ==> GainsLinks(m, items[i], now[i])
  {
    hide GainsLinks, LinkedContent;
    forall i | i in items ensures GainsLinks(m, items[i], LinkedContent(m, m.replacement.value, items[i])) {
      LinkedGains(m, items[i]);
    }
  }

  /** The link rows a merge adds, for the songs or for the albums. */
  method MoveLinks(m: Merge, items: map<nat, Content>) returns (now: map<nat, Content>)
    requires m.replacement.Some? && m.replacement.value != m.source
    requires (m.kind.SubGenre? ==> m.children == {}) && (m.kind.Genre? ==> m.parent.None?)
    ensures now == Linked(m, m.replacement.value, items)
    ensures now.Keys == items.Keys && forall i :: i in items ==> GainsLinks(m, items[i], now[i])
  {
    hide GainsLinks;
    LinkedAllGain(m, items);
    var target, moved := m.replacement.value, 0;
    now, moved := AddInBatches(items, Listing(items, m.kind, m.source), m.kind, target);
    if m.parent.Some? {
      now, moved := AddInBatches(now, Listing(now, SubGenre, m.source), Genre, m.parent.value);
    }
    if m.children != {} {
      now, moved := AddInBatches(now, ListingAny(now, m.children), Genre, target);
    }
  }

  /** The children of a merged genre move under its replacement. */
  function Reparented(m: Merge, subs: map<nat, Sub>): (now: map<nat, Sub>)
    ensures now.Keys == subs.Keys
  {
    map s | s in subs :: if s in m.children then subs[s].(parent := m.replacement) else subs[s]
  }

  function Orphans(subs: map<nat, Sub>, genre: nat): set<nat> {
    set s | s in subs && subs[s].parent == Some(genre)
  }

  lemma MergeShape(w: World, m: Merge)
    requires m == MergeOf(w, m.kind, m.source, m.replacement)
    ensures (m.kind.SubGenre? ==> m.children == {}) && (m.kind.Genre? ==> m.parent.None?)
  {
  }

  lemma DroppingFinishesSubs(w: World, m: Merge)
    requires m == MergeOf(w, m.kind, m.source, m.replacement) && m.replacement != Some(m.source)
    ensures var subs := if m.replacement.Some? then Reparented(m, w.subs) else w.subs;
            if m.kind.Genre? then Orphans(subs, m.source) == (if m.replacement.None? then m.children else {})
                                  && subs - Orphans(subs, m.source) == SubsAfter(m, w.subs)
            else subs - {m.source} == SubsAfter(m, w.subs)
  {
  }

  lemma DroppingFinishesMerge(m: Merge, items: map<nat, Content>)
    requires m.replacement != Some(m.source)
    ensures var linked := if m.replacement.Some? then Linked(m, m.replacement.value, items) else items;
            Dropped(linked, if m.kind.Genre? then {m.source} else {},
                    if m.kind.SubGenre? then {m.source} else if m.replacement.None? then m.children else {})
            == ContentsAfter(m, items)
  {
    var drop := if m.kind.SubGenre? then {m.source} else if m.replacement.None? then m.children else {};
    forall i | i in items
      ensures var linked := if m.replacement.Some? then LinkedContent(m, m.replacement.value, items[i]) else items[i];
              Content(linked.genres - (if m.kind.Genre? then {m.source} else {}), linked.subs - drop) == ContentAfter(m, items[i])
    {
      DroppingFinishesOne(m, items[i]);
    }
    hide ContentAfter, LinkedContent;
  }

  lemma DroppingFinishesOne(m: Merge, c: Content)
    requires m.replacement != Some(m.source)
    ensures var linked := if m.replacement.Some? then LinkedContent(m, m.replacement.value, c) else c;
            Content(linked.genres - (if m.kind.Genre? then {m.source} else {}),
                    linked.subs - (if m.kind.SubGenre? then {m.source} else if m.replacement.None? then m.children else {}))
            == ContentAfter(m, c)
  {
    assert c.subs - {} == c.subs && c.genres - {} == c.genres;
    if m.kind.SubGenre? && m.source !in c.subs {
      assert c.subs - {m.source} == c.subs;
    }
  }

  // One workspace.

  lemma RewriteOneMeans(m: Merge, r: Release)
    ensures Proper(m) ==> Reversioned(r, RewriteRelease(m, r)) && (Changed(m, r) <==> RewriteRelease(m, r) != r)
    ensures Proper(m) && Hit(m, r) ==> CarriesOver(m, r.View(), RewriteRelease(m, r).View())
  {
    hide CarriesOver, Reversioned, Changed, Hit;
    if Proper(m) {
      RewriteReversions(m, r);
      ContentIsCarriedOver(m, r.View());
      if Hit(m, r) {
        WorkspaceFollowsContent(m, r);
      }
    }
  }

  /** A merge of an item into another one, or a deletion without replacement. */
  predicate Proper(m: Merge) {
    m.replacement != Some(m.source) && (m.kind.SubGenre? ==> m.children == {}) && (m.parent.Some? ==> m.replacement.Some?)
  }

  /** The loop body of `_rewrite_release_workspace_taxonomy`: a workspace that uses the item afterwards
      lists what the deletion leaves, and has a new version exactly when its lists changed. */
  method RewriteOne(m: Merge, r: Release) returns (now: Release, changed: bool)
    ensures now == RewriteRelease(m, r) && (changed <==> Changed(m, r))
    ensures Proper(m) ==> Reversioned(r, now) && (changed <==> now != r)
    ensures Proper(m) && Hit(m, r) ==> CarriesOver(m, r.View(), now.View())
  {
    RewriteOneMeans(m, r);
    hide Touched, NormalGenres, Ids, CarriesOver, Reversioned;
    var genreIds, subIds := r.genreIds, r.subIds;
    changed := false;
    var key := KeyField(m.kind, r);
    if key.List? {
      var values, touched := RewriteIdList(key.values, KeyRewrite(m));
      changed := touched;
      if touched && m.kind.Genre? {
        genreIds := List(values);
      } else if touched {
        subIds := List(values);
      }
    }
    if m.kind.SubGenre? && m.replacement.Some? && m.parent.Some? && changed {
      var genres := NormalizeGenres(genreIds);
      if Int(m.parent.value) !in genres {
        genreIds := List(genres + [Int(m.parent.value)]);
      }
    }
    if m.kind.Genre? && m.children != {} {
      if m.replacement.None? {
        if r.subIds.List? {
          var values, touched := RewriteIdList(r.subIds.values, ChildRewrite(m));
          if touched {
            subIds := List(values);
            changed := true;
          }
        }
      } else if UsesChild(m, r) {
        var genres := NormalizeGenres(genreIds);
        if Int(m.replacement.value) !in genres {
          genreIds := List(genres + [Int(m.replacement.value)]);
          changed := true;
        }
      }
    }
    if !changed {
      return r, false;
    }
    now := Release(genreIds, subIds, r.lockVersion + 1, false);
  }

  /** Every link of a song or an album, and every parent reference, names an existing row. */
  ghost predicate LinksExist(w: World) {
    && (forall s :: s in w.subs && w.subs[s].parent.Some? ==> w.subs[s].parent.value in w.genres)
    && (forall i :: i in w.songs ==> Known(w, w.songs[i]))
    && (forall i :: i in w.albums ==> Known(w, w.albums[i]))
  }

  /** The same items, each with exactly those of its links whose rows were not deleted. */
  ghost predicate KeepsSurvivors(w: World, now: World, before: map<nat, Content>, after: map<nat, Content>) {
    && after.Keys == before.Keys
    && forall i :: i in before ==>
        && (forall g :: g in after[i].genres <==> g in before[i].genres && (g in w.genres ==> g in now.genres))
        && (forall s :: s in after[i].subs <==> s in before[i].subs && (s in w.subs ==> s in now.subs))
  }

  lemma Assembled(w: World, m: Merge, now: World)
    requires m == MergeOf(w, m.kind, m.source, m.replacement)
    requires now.genres == w.genres - if m.kind.Genre? then {m.source} else {}
    requires now.subs == SubsAfter(m, w.subs)
    requires now.songs == ContentsAfter(m, w.songs) && now.albums == ContentsAfter(m, w.albums)
    requires now.releases == ReleasesAfter(m, w.releases, Impacted(m, w.releases))
    ensures now == Delete(w, m.kind, m.source, m.replacement)
  {
    hide SubsAfter, ContentsAfter, ReleasesAfter, Impacted, MergeOf;
    assert w.genres - {} == w.genres;
  }

  ghost function ChangedIds(m: Merge, releases: map<nat, Release>, ids: set<nat>): set<nat> {
    set r | r in ids && r in releases && Changed(m, releases[r])
  }

  class Tables {
    var genres: map<nat, string>
    var subs: map<nat, Sub>
    var songs: map<nat, Content>
    var albums: map<nat, Content>
    var releases: map<nat, Release>

    function View(): World
      reads this
    {
      World(genres, subs, songs, albums, releases)
    }

    constructor (w: World)
      ensures View() == w
    {
      genres, subs, songs, albums, releases := w.genres, w.subs, w.songs, w.albums, w.releases;
    }

    /** `_taxonomy_release_workspace_impact`: one pass over the workspaces. */
    method ScanImpact(m: Merge) returns (affected: set<nat>)
      ensures affected == Impacted(m, releases) && affected <= releases.Keys
    {
      affected := {};
      var todo := releases.Keys;
      while todo != {}
        invariant todo <= releases.Keys
        invariant affected == set r | r in releases && r !in todo && Hit(m, releases[r])
        decreases todo
      {
        var r :| r in todo;
        todo := todo - {r};
        if DirectHit(m, releases[r]) || UsesChild(m, releases[r]) {
          affected := affected + {r};
        }
      }
    }

    /** `_rewrite_release_workspace_taxonomy` over the reported workspaces. */
    method RewriteWorkspaces(m: Merge, ids: set<nat>) returns (rewritten: nat)
      requires ids <= releases.Keys
      modifies this`releases
      ensures releases == ReleasesAfter(m, old(releases), ids)
      ensures rewritten == |ChangedIds(m, old(releases), ids)|
    {
      hide Changed, RewriteRelease;
      ghost var was := releases;
      var todo := ids;
      ghost var changedIds: set<nat> := {};
      rewritten := 0;
      while todo != {}
        invariant todo <= ids
        invariant releases == ReleasesAfter(m, was, ids - todo)
        invariant changedIds == ChangedIds(m, was, ids - todo) && rewritten == |changedIds|
        decreases todo
      {
        var r :| r in todo;
        assert releases[r] == was[r];
        var now, changed := RewriteOne(m, releases[r]);
        UnchangedStays(m, was[r]);
        if changed {
          releases := releases[r := now];
          rewritten := rewritten + 1;
          changedIds := changedIds + {r};
        }
        todo := todo - {r};
      }
      assert ids - todo == ids;
    }

    /** Deleting the item: the row, the sub-genres still under it, and every link row to them. No link or
        parent reference dangles afterwards, nothing that was listed and still exists is lost, and
        what lists none of the deleted rows stays as it was. */
    method DeleteRow(kind: Kind, id: nat)
      requires Exists(View(), kind, id)
      modifies this`genres, this`subs, this`songs, this`albums
      ensures !Exists(View(), kind, id)
      ensures LinksExist(old(View())) ==> LinksExist(View())
      ensures KeepsSurvivors(old(View()), View(), old(songs), songs) && KeepsSurvivors(old(View()), View(), old(albums), albums)
      ensures var goneSubs := if kind.Genre? then Orphans(old(subs), id) else {id};
              var goneGenres := if kind.Genre? then {id} else {};
              && genres == old(genres) - goneGenres && subs == old(subs) - goneSubs
              && songs == Dropped(old(songs), goneGenres, goneSubs)
              && albums == Dropped(old(albums), goneGenres, goneSubs)
    {
      if kind.Genre? {
        var orphans := Orphans(subs, id);
        genres := genres - {id};
        subs := subs - orphans;
        songs := Dropped(songs, {id}, orphans);
        albums := Dropped(albums, {id}, orphans);
      } else {
        assert genres - {} == genres;
        subs := subs - {id};
        songs := Dropped(songs, {}, {id});
        albums := Dropped(albums, {}, {id});
      }
    }

    /** The merge steps in the order they are made: links added, children moved, workspaces
        rewritten, the row deleted with everything that cascades from it. */
    method Apply(m: Merge) returns (reparented: nat, rewritten: nat)
      requires m == MergeOf(View(), m.kind, m.source, m.replacement) && m.replacement != Some(m.source)
      requires Exists(View(), m.kind, m.source)
      modifies this
      ensures View() == Delete(old(View()), m.kind, m.source, m.replacement)
      ensures Describes(old(View()), m) && Carried(old(View()), m, View())
      ensures reparented == if m.replacement.Some? then |m.children| else 0
      ensures rewritten == |ChangedIds(m, old(releases), Impacted(m, old(releases)))|
    {
      hide Changed, RewriteRelease, ReleasesAfter, Hit, UsesChild, DirectHit, ChangedIds, MergeOf, Linked, ContentsAfter, Dropped,
        SubsAfter, Reparented, Orphans, Impacted, Delete, After, Carried, Describes, GainsLinks;
      ghost var was := View();
      MergeDescribes(was, m.kind, m.source, m.replacement);
      DeleteCarriesOver(was, m);
      var ids := ScanImpact(m);
      reparented := 0;
      MergeShape(was, m);
      if m.replacement.Some? {
        songs := MoveLinks(m, songs);
        albums := MoveLinks(m, albums);
        if m.children != {} {
          reparented := |m.children|;
        }
        subs := Reparented(m, subs);
      }
      rewritten := RewriteWorkspaces(m, ids);
      DroppingFinishesMerge(m, was.songs);
      DroppingFinishesMerge(m, was.albums);
      DroppingFinishesSubs(was, m);
      DeleteRow(m.kind, m.source);
      Assembled(was, m, View());
    }

    /** `AdminTaxonomyDetailView.delete`: a refused request changes nothing; any other carries the
        content over to the replacement, or drops the item and what is under it when there is none. */
    method Remove(r: Request) returns (outcome: Outcome)
      modifies this
      ensures match Refusal(old(View()), r)
              case Some(why) => outcome == why && View() == old(View())
              case None =>
                && outcome.Deleted?
                && var m := MergeOf(old(View()), r.kind, r.id, Chosen(r.replacement));
                && outcome == Deleted(m.replacement, if m.replacement.Some? then |m.children| else 0,
                                      |ChangedIds(m, old(releases), Impacted(m, old(releases)))|)
                && View() == Delete(old(View()), r.kind, r.id, Chosen(r.replacement))
                && m.kind == r.kind && m.source == r.id && m.replacement == Chosen(r.replacement)
                && Describes(old(View()), m) && Carried(old(View()), m, View())
      ensures Hierarchical(old(View())) ==> Hierarchical(View())
      ensures IdsExist(old(View())) ==> IdsExist(View())
    {
      hide Delete, Carried, Describes, Hierarchical, IdsExist, HasImpact, MergeOf;
      ghost var was := View();
      if r.replacement.Junk? {
        return BadReplacement;
      }
      if r.replacement.Number? && r.replacement.n == r.id {
        return SelfReplacement;
      }
      if !Exists(View(), r.kind, r.id) {
        return NotFound;
      }
      if r.replacement.Number? && (r.replacement.n < 0 || !Exists(View(), r.kind, r.replacement.n)) {
        return ReplacementNotFound;
      }
      var m := MergeOf(View(), r.kind, r.id, Chosen(r.replacement));
      var impact := HasImpact(View(), m);
      if impact && r.confirmName != NameOf(View(), r.kind, r.id) {
        return NameNotConfirmed;
      }
      if r.replacement.Missing? && impact && !r.acknowledged {
        return NotAcknowledged;
      }
      MergeDescribes(was, r.kind, r.id, Chosen(r.replacement));
      MergeNames(was, r.kind, r.id, Chosen(r.replacement));
      var reparented, rewritten := Apply(m);
      if Hierarchical(was) {
        DeleteKeepsHierarchy(was, r.kind, r.id, Chosen(r.replacement));
      }
      if IdsExist(was) {
        DeleteKeepsIdsExisting(was, r.kind, r.id, Chosen(r.replacement));
      }
      outcome := Deleted(m.replacement, reparented, rewritten);
    }
  }

  lemma MergeNames(w: World, kind: Kind, source: nat, replacement: Option<nat>)
    ensures var m := MergeOf(w, kind, source, replacement); m.kind == kind && m.source == source && m.replacement == replacement
  {
  }

  lemma UnchangedStays(m: Merge, r: Release)
    ensures !Changed(m, r) ==> RewriteRelease(m, r) == r
  {
  }
}
