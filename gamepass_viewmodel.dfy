/** The view model of the GamePassCatalogBrowser revision's Steam search
    window: the search state, the duplicate check against the Playnite
    library and the add-to-library command. */
module GamePassSteamViewModel {
  import opened Wrappers
  import opened DotNet
  import opened Playnite
  import opened GamePassSteamModels
  import opened GamePassSteamService
  import Steam

  /** How an add-to-library request ended. */
  datatype AddOutcome = NoSelection | AlreadyInLibrary | Added(id: Guid) | Failed

  const SearchPrompt := "Enter a game name and click Search"
  const MaxResults := 30

  // ----------------------------------------------------------- RelayCommand

  /** `RelayCommand.CanExecute(parameter)`: a command built without a
      predicate can always run; otherwise the predicate decides. */
  function CanExecute<T>(canExecute: Option<T -> bool>, parameter: T): (r: bool)
    ensures canExecute.None? ==> r
    ensures canExecute.Some? ==> (r <==> canExecute.value(parameter))
  {
    canExecute.None? || canExecute.value(parameter)
  }

  /** The predicate of `SearchCommand`, over the state it captures. */
  function SearchPredicate(searchQuery: NString, isSearching: bool): (p: object? -> bool)
    ensures p(null) <==> !IsNullOrWhiteSpace(searchQuery) && !isSearching
  {
    _ => !IsNullOrWhiteSpace(searchQuery) && !isSearching
  }

  /** A search cannot be started while one runs, nor for a blank query. */
  lemma SearchCommandGate(searchQuery: NString, isSearching: bool, parameter: object?)
    ensures CanExecute(Some(SearchPredicate(searchQuery, isSearching)), parameter)
            <==> !isSearching && !IsNullOrWhiteSpace(searchQuery)
  {
  }

  // -------------------------------------------------------- IsGameInLibrary

  /** The test `IsGameInLibrary` applies to one library game: its `GameId` is
      "steam_" + AppId or AppId itself, or it has the same name and its
      source is named "Steam". Every comparison is ordinal and case-sensitive,
      and two nulls compare equal. */
  predicate MatchesSteamGame(g: Game, sourceName: NString, appId: NString, name: NString) {
    || g.gameId == Some("steam_" + appId.GetOr(""))
    || g.gameId == appId
    || (g.name == name && sourceName == Some("Steam"))
  }

  /** `Games.Any(g => ...)` for the Steam game `appId`/`name`. */
  function AnyMatch(games: seq<Game>, sources: seq<NamedItem>, appId: NString, name: NString): (r: bool)
    ensures r <==> exists i | 0 <= i < |games| :: MatchesSteamGame(games[i], SourceName(sources, games[i]), appId, name)
  {
    if games == [] then false
    else
      assert forall i | 1 <= i < |games| :: games[i] == games[1..][i - 1];
      MatchesSteamGame(games[0], SourceName(sources, games[0]), appId, name)
      || AnyMatch(games[1..], sources, appId, name)
  }

  /** A game stored under the Steam app id is found by the duplicate check,
      whatever its name and source. */
  lemma AnyMatchFindsAppId(games: seq<Game>, sources: seq<NamedItem>, g: Game, appId: NString, name: NString)
    requires g.gameId == appId
    ensures AnyMatch(games + [g], sources, appId, name)
  {
    var all := games + [g];
    assert MatchesSteamGame(all[|games|], SourceName(sources, all[|games|]), appId, name);
  }

  // --------------------------------------------------------- AddToLibrary

  /** The game has a developer, publisher, genre or category without a name,
      on which the host's `Add(name)` throws. */
  predicate HasUnnamed(sel: SteamGameRecord) {
    || (exists i | 0 <= i < |sel.developers| :: IsNullOrEmpty(sel.developers[i]))
    || (exists i | 0 <= i < |sel.publishers| :: IsNullOrEmpty(sel.publishers[i]))
    || (exists i | 0 <= i < |sel.genres| :: IsNullOrEmpty(sel.genres[i]))
    || (exists i | 0 <= i < |sel.categories| :: IsNullOrEmpty(sel.categories[i]))
  }

  /** A list of names becomes ids only when it is not empty. */
  ghost predicate TaxonomyFor(t: Taxonomy, names: seq<NString>, list: seq<NamedItem>) {
    if names == [] then t == Unset else t.ByIds? && Resolved(t.ids, names, list)
  }

  /** The library game `AddToLibrary` makes from the selected Steam game,
      apart from its images. */
  ghost predicate Describes(g: Game, sel: SteamGameRecord, s: Catalog) {
    CopiesRecord(g, sel) && TaxonomiesFor(g, sel, s) && OnSteamForWindows(g, s)
  }

  /** The fields taken from the selection as they are. */
  predicate CopiesRecord(g: Game, sel: SteamGameRecord) {
    && g.name == sel.name
    && g.gameId == sel.appId
    && g.description == sel.description
    && g.releaseDate == sel.releaseDate
    && !g.isInstalled
    && g.links == Some([Link("Steam Store", Steam.StoreUrlFor(sel.appId))])
  }

  /** Developers, publishers, genres and tags name the selection's lists. */
  ghost predicate TaxonomiesFor(g: Game, sel: SteamGameRecord, s: Catalog) {
    && TaxonomyFor(g.developers, sel.developers, s.Items(Companies))
    && TaxonomyFor(g.publishers, sel.publishers, s.Items(Companies))
    && TaxonomyFor(g.genres, sel.genres, s.Items(Genres))
    && TaxonomyFor(g.tags, sel.categories, s.Items(Tags))
  }

  /** One platform, named "PC (Windows)", and the source named "Steam". */
  ghost predicate OnSteamForWindows(g: Game, s: Catalog) {
    && g.platformIds.Some? && |g.platformIds.value| == 1
    && NamedIn(s.Items(Platforms), g.platformIds.value[0], "PC (Windows)")
    && g.sourceId.Some? && NamedIn(s.Items(Sources), g.sourceId.value, "Steam")
  }

  /** `names.Select(n => collection.Add(n).Id).ToList()` on the catalog as a
      value, over the first `n` names: each name found or created in turn; a
      null or empty name throws (`None`), leaving the items created before it. */
  function AddNames(s: Catalog, c: Collection, names: seq<NString>, n: nat): (r: (Catalog, Option<seq<Guid>>))
    requires n <= |names|
    ensures r.1.Some? ==> |r.1.value| == n
    ensures forall d | d != c :: r.0.Items(d) == s.Items(d)
    ensures s.Items(c) <= r.0.Items(c) && s.nextId <= r.0.nextId
    decreases n
  {
    if n == 0 then (s, Some([]))
    else
      var prev := AddNames(s, c, names, n - 1);
      if prev.1.None? || IsNullOrEmpty(names[n - 1]) then (prev.0, None)
      else
        var added := AddName(prev.0, c, names[n - 1].value);
        (added.0, Some(prev.1.value + [added.1.id]))
  }

  /** The adds throw exactly when one of the names is null or empty. */
  lemma {:induction false} AddNamesThrowsIff(s: Catalog, c: Collection, names: seq<NString>, n: nat)
    requires n <= |names|
    ensures AddNames(s, c, names, n).1.None? <==> exists i | 0 <= i < n :: IsNullOrEmpty(names[i])
    decreases n
  {
    if n > 0 {
      AddNamesThrowsIff(s, c, names, n - 1);
      if AddNames(s, c, names, n - 1).1.None? {
        var i :| 0 <= i < n - 1 && IsNullOrEmpty(names[i]);
      } else if !IsNullOrEmpty(names[n - 1]) {
        forall i | 0 <= i < n
          ensures !IsNullOrEmpty(names[i])
        {
        }
      }
    }
  }

  /** Once a name has thrown, the names after it change nothing. */
  lemma {:induction false} AddNamesStops(s: Catalog, c: Collection, names: seq<NString>, j: nat, n: nat)
    requires j <= n <= |names| && AddNames(s, c, names, j).1.None?
    ensures AddNames(s, c, names, n) == AddNames(s, c, names, j)
    decreases n
  {
    if j < n {
      AddNamesStops(s, c, names, j, n - 1);
    }
  }

  /** The ids name the names one for one, ignoring case, within the collection after the adds. */
  lemma {:induction false} AddNamesResolves(s: Catalog, c: Collection, names: seq<NString>, n: nat)
    requires n <= |names|
    ensures var r := AddNames(s, c, names, n); r.1.Some? ==> Resolved(r.1.value, names[..n], r.0.Items(c))
    decreases n
  {
    if n > 0 {
      AddNamesResolves(s, c, names, n - 1);
      AddNamesResolvesStep(s, c, names, n);
    }
  }

  /** One more name walked keeps the ids resolved. */
  lemma AddNamesResolvesStep(s: Catalog, c: Collection, names: seq<NString>, n: nat)
    requires 0 < n <= |names|
    requires var r := AddNames(s, c, names, n - 1); r.1.Some? ==> Resolved(r.1.value, names[..n - 1], r.0.Items(c))
    ensures var r := AddNames(s, c, names, n); r.1.Some? ==> Resolved(r.1.value, names[..n], r.0.Items(c))
  {
    var prev := AddNames(s, c, names, n - 1);
    if prev.1.Some? && !IsNullOrEmpty(names[n - 1]) {
      PrefixSnoc(names, n);
      ResolvedByAdd(prev.0, c, prev.1.value, names[..n - 1], names[n - 1].value);
    }
  }

  /** A prefix one longer is the prefix with the next element. */
  lemma PrefixSnoc<T>(s: seq<T>, n: nat)
    requires 0 < n <= |s|
    ensures s[..n - 1] + [s[n - 1]] == s[..n]
  {
  }

  /** One more name found or created extends the resolution by its item. */
  lemma ResolvedByAdd(s: Catalog, c: Collection, ids: seq<Guid>, names: seq<NString>, name: string)
    requires Resolved(ids, names, s.Items(c))
    ensures var added := AddName(s, c, name);
      Resolved(ids + [added.1.id], names + [Some(name)], added.0.Items(c))
  {
    var added := AddName(s, c, name);
    AddNameFindsFirst(s, c, name);
    ResolvedStep(ids, names, s.Items(c), added.0.Items(c), added.1, name);
  }

  /** The whole walk: it throws exactly when some name is null or empty, and
      otherwise every id names its name. */
  lemma AddNamesMeaning(s: Catalog, c: Collection, names: seq<NString>)
    ensures var r := AddNames(s, c, names, |names|);
      && (r.1.None? <==> exists i | 0 <= i < |names| :: IsNullOrEmpty(names[i]))
      && (r.1.Some? ==> Resolved(r.1.value, names, r.0.Items(c)))
  {
    AddNamesResolves(s, c, names, |names|);
    AddNamesThrowsIff(s, c, names, |names|);
    assert names[..|names|] == names;
  }

  /** `collection.Add(names[i])` as one step of the walk over the names:
      the walk so far, `result` from `start`, is extended by one name. */
  method AddNext(library: Library, c: Collection, names: seq<NString>, i: nat, ghost start: Catalog, ghost result: seq<Guid>)
    returns (item: Option<NamedItem>)
    requires library.Valid() && i < |names|
    requires AddNames(start, c, names, i) == (library.State(), Some(result))
    modifies library
    ensures library.Valid()
    ensures library.games == old(library.games) && library.files == old(library.files)
    ensures item.None? <==> IsNullOrEmpty(names[i])
    ensures item.None? ==> AddNames(start, c, names, i + 1) == (library.State(), None)
    ensures item.Some? ==> AddNames(start, c, names, i + 1) == (library.State(), Some(result + [item.value.id]))
  {
    item := library.AddNamed(c, names[i]);
  }

  /** `names.Select(n => collection.Add(n).Id).ToList()`: finds or creates one
      item per name, in order; a null or empty name throws part-way, leaving
      the items created before it. */
  method ResolveNames(library: Library, c: Collection, names: seq<NString>) returns (ids: Option<seq<Guid>>)
    requires library.Valid()
    modifies library
    ensures library.Valid()
    ensures library.games == old(library.games) && library.files == old(library.files)
    ensures (library.State(), ids) == AddNames(old(library.State()), c, names, |names|)
    ensures ids.None? <==> exists i | 0 <= i < |names| :: IsNullOrEmpty(names[i])
    ensures ids.Some? ==> Resolved(ids.value, names, library.Items(c))
  {
    ghost var start := library.State();
    ids := WalkNames(library, c, names);
    AddNamesMeaning(start, c, names);
  }

  /** The loop of `ResolveNames`: one `collection.Add` per name, stopping at
      the first that throws. */
  method WalkNames(library: Library, c: Collection, names: seq<NString>) returns (ids: Option<seq<Guid>>)
    requires library.Valid()
    modifies library
    ensures library.Valid()
    ensures library.games == old(library.games) && library.files == old(library.files)
    ensures (library.State(), ids) == AddNames(old(library.State()), c, names, |names|)
  {
    ghost var start := library.State();
    var result: seq<Guid> := [];
    var i := 0;
    while i < |names|
      invariant 0 <= i <= |names|
      invariant library.Valid()
      invariant library.games == old(library.games) && library.files == old(library.files)
      invariant AddNames(start, c, names, i) == (library.State(), Some(result))
    {
      var item := AddNext(library, c, names, i, start, result);
      if item.None? {
        AddNamesStops(start, c, names, i + 1, |names|);
        return None;
      }
      result := result + [item.value.id];
      i := i + 1;
    }
    return Some(result);
  }

  /** One taxonomy step on the catalog as a value: unset when there are no
      names, otherwise the ids of the names. */
  function AddTaxonomy(s: Catalog, c: Collection, names: seq<NString>): (r: (Catalog, Option<Taxonomy>))
    ensures r.1.None? <==> exists i | 0 <= i < |names| :: IsNullOrEmpty(names[i])
    ensures names == [] ==> r == (s, Some(Unset))
    ensures forall d | d != c :: r.0.Items(d) == s.Items(d)
    ensures s.Items(c) <= r.0.Items(c) && s.nextId <= r.0.nextId
  {
    if names == [] then (s, Some(Unset))
    else
      var added := AddNames(s, c, names, |names|);
      AddNamesThrowsIff(s, c, names, |names|);
      (added.0, if added.1.None? then None else Some(ByIds(added.1.value)))
  }

  /** A taxonomy step names its names within the collection it leaves. */
  lemma AddTaxonomyMeaning(s: Catalog, c: Collection, names: seq<NString>)
    ensures var r := AddTaxonomy(s, c, names); r.1.Some? ==> TaxonomyFor(r.1.value, names, r.0.Items(c))
  {
    if names != [] {
      AddNamesMeaning(s, c, names);
    }
  }

  /** Items are only appended, so a taxonomy stays valid. */
  lemma TaxonomyForGrows(t: Taxonomy, names: seq<NString>, list: seq<NamedItem>, more: seq<NamedItem>)
    requires TaxonomyFor(t, names, list) && list <= more
    ensures TaxonomyFor(t, names, more)
  {
    if names != [] {
      ResolvedGrows(t.ids, names, list, more);
    }
  }

  /** One taxonomy step: the ids of `names`, or unset when there are none. */
  method ResolveTaxonomy(library: Library, c: Collection, names: seq<NString>) returns (t: Option<Taxonomy>)
    requires library.Valid()
    modifies library
    ensures library.Valid()
    ensures library.games == old(library.games) && library.files == old(library.files)
    ensures (library.State(), t) == AddTaxonomy(old(library.State()), c, names)
    ensures t.None? <==> exists i | 0 <= i < |names| :: IsNullOrEmpty(names[i])
    ensures t.Some? ==> TaxonomyFor(t.value, names, library.Items(c))
  {
    if names == [] {
      return Some(Unset);
    }
    var ids := ResolveNames(library, c, names);
    if ids.None? {
      return None;
    }
    return Some(ByIds(ids.value));
  }

  /** The four taxonomy steps on the catalog as a value, in the order
      `AddToLibrary` runs them; the first that throws ends them. */
  function TaxonomySteps(s: Catalog, sel: SteamGameRecord): (r: (Catalog, Option<(Taxonomy, Taxonomy, Taxonomy, Taxonomy)>))
    ensures r.1.None? <==> HasUnnamed(sel)
    ensures r.0.Items(Platforms) == s.Items(Platforms) && r.0.Items(Sources) == s.Items(Sources)
    ensures s.nextId <= r.0.nextId
  {
    var developers := AddTaxonomy(s, Companies, sel.developers);
    if developers.1.None? then (developers.0, None) else
    var publishers := AddTaxonomy(developers.0, Companies, sel.publishers);
    if publishers.1.None? then (publishers.0, None) else
    var genres := AddTaxonomy(publishers.0, Genres, sel.genres);
    if genres.1.None? then (genres.0, None) else
    var tags := AddTaxonomy(genres.0, Tags, sel.categories);
    if tags.1.None? then (tags.0, None) else
    (tags.0, Some((developers.1.value, publishers.1.value, genres.1.value, tags.1.value)))
  }

  /** The four taxonomies each name their names in the final collections. */
  lemma TaxonomyStepsMeaning(s: Catalog, sel: SteamGameRecord)
    ensures var r := TaxonomySteps(s, sel);
      r.1.Some? ==>
        && TaxonomyFor(r.1.value.0, sel.developers, r.0.Items(Companies))
        && TaxonomyFor(r.1.value.1, sel.publishers, r.0.Items(Companies))
        && TaxonomyFor(r.1.value.2, sel.genres, r.0.Items(Genres))
        && TaxonomyFor(r.1.value.3, sel.categories, r.0.Items(Tags))
  {
    var developers := AddTaxonomy(s, Companies, sel.developers);
    var publishers := AddTaxonomy(developers.0, Companies, sel.publishers);
    var genres := AddTaxonomy(publishers.0, Genres, sel.genres);
    var tags := AddTaxonomy(genres.0, Tags, sel.categories);
    if developers.1.Some? && publishers.1.Some? && genres.1.Some? && tags.1.Some? {
      AddTaxonomyMeaning(s, Companies, sel.developers);
      AddTaxonomyMeaning(developers.0, Companies, sel.publishers);
      AddTaxonomyMeaning(publishers.0, Genres, sel.genres);
      AddTaxonomyMeaning(genres.0, Tags, sel.categories);
      TaxonomyForGrows(developers.1.value, sel.developers, developers.0.Items(Companies), tags.0.Items(Companies));
      TaxonomyForGrows(publishers.1.value, sel.publishers, publishers.0.Items(Companies), tags.0.Items(Companies));
      TaxonomyForGrows(genres.1.value, sel.genres, genres.0.Items(Genres), tags.0.Items(Genres));
    }
  }

  /** The four taxonomy steps, in the order `AddToLibrary` runs them. */
  method ResolveTaxonomies(library: Library, sel: SteamGameRecord) returns (t: Option<(Taxonomy, Taxonomy, Taxonomy, Taxonomy)>)
    requires library.Valid()
    modifies library
    ensures library.Valid()
    ensures library.games == old(library.games) && library.files == old(library.files)
    ensures (library.State(), t) == TaxonomySteps(old(library.State()), sel)
    ensures t.None? <==> HasUnnamed(sel)
    ensures t.Some? ==>
      && TaxonomyFor(t.value.0, sel.developers, library.Items(Companies))
      && TaxonomyFor(t.value.1, sel.publishers, library.Items(Companies))
      && TaxonomyFor(t.value.2, sel.genres, library.Items(Genres))
      && TaxonomyFor(t.value.3, sel.categories, library.Items(Tags))
  {
    ghost var start := library.State();
    TaxonomyStepsMeaning(start, sel);
    var developers := ResolveTaxonomy(library, Companies, sel.developers);
    if developers.None? {
      return None;
    }
    var publishers := ResolveTaxonomy(library, Companies, sel.publishers);
    if publishers.None? {
      return None;
    }
    var genres := ResolveTaxonomy(library, Genres, sel.genres);
    if genres.None? {
      return None;
    }
    var tags := ResolveTaxonomy(library, Tags, sel.categories);
    if tags.None? {
      return None;
    }
    return Some((developers.value, publishers.value, genres.value, tags.value));
  }

  /** The game `AddToLibrary` builds, on the catalog as a value: a new id,
      the taxonomies, the store link, then the platform and the source. */
  function BuiltGame(s: Catalog, sel: SteamGameRecord): (r: (Catalog, Option<Game>))
    ensures r.1.None? <==> HasUnnamed(sel)
    ensures r.1.Some? ==> r.1.value.id == s.nextId < r.0.nextId
    ensures r.1.Some? ==> Describes(r.1.value, sel, r.0)
    ensures r.1.Some? ==> r.1.value.coverImage.None? && r.1.value.backgroundImage.None?
  {
    var g := NewGame(s.nextId, sel.name).(gameId := sel.appId, description := sel.description,
                                          releaseDate := sel.releaseDate);
    var taxonomies := TaxonomySteps(s.(nextId := s.nextId + 1), sel);
    if taxonomies.1.None? then (taxonomies.0, None) else
    var platform := AddName(taxonomies.0, Platforms, "PC (Windows)");
    var source := AddName(platform.0, Sources, "Steam");
    TaxonomyStepsMeaning(s.(nextId := s.nextId + 1), sel);
    AddNameNames(taxonomies.0, Platforms, "PC (Windows)");
    AddNameNames(platform.0, Sources, "Steam");
    (source.0, Some(g.(developers := taxonomies.1.value.0, publishers := taxonomies.1.value.1,
                       genres := taxonomies.1.value.2, tags := taxonomies.1.value.3,
                       links := Some([Link("Steam Store", Steam.StoreUrlFor(sel.appId))]),
                       platformIds := Some([platform.1.id]), sourceId := Some(source.1.id))))
  }

  /** The item `collection.Add(name)` answers is in the collection under
      that name. */
  lemma AddNameNames(s: Catalog, c: Collection, name: string)
    ensures var r := AddName(s, c, name); NamedIn(r.0.Items(c), r.1.id, name)
  {
    AddNameFindsFirst(s, c, name);
    var r := AddName(s, c, name);
    var k :| 0 <= k < |r.0.Items(c)| && r.0.Items(c)[k] == r.1;
  }

  /** The `Game` built by `AddToLibrary` before it is stored: name, ids,
      description, release date, the four taxonomies, the store link, the
      platform and the source. Taxonomy items are created on the way. */
  method BuildGame(library: Library, sel: SteamGameRecord) returns (game: Option<Game>)
    requires library.Valid()
    modifies library
    ensures library.Valid()
    ensures library.games == old(library.games) && library.files == old(library.files)
    ensures (library.State(), game) == BuiltGame(old(library.State()), sel)
    ensures game.None? <==> HasUnnamed(sel)
    ensures game.Some? ==> old(library.nextId) <= game.value.id < library.nextId
    ensures game.Some? ==> Describes(game.value, sel, library.State())
    ensures game.Some? ==> game.value.coverImage.None? && game.value.backgroundImage.None?
  {
    var id := library.NewId();
    var g := NewGame(id, sel.name).(gameId := sel.appId, description := sel.description, isInstalled := false);
    if sel.releaseDate.Some? {
      g := g.(releaseDate := sel.releaseDate);
    }
    var taxonomies := ResolveTaxonomies(library, sel);
    if taxonomies.None? {
      return None;
    }
    g := g.(developers := taxonomies.value.0, publishers := taxonomies.value.1,
            genres := taxonomies.value.2, tags := taxonomies.value.3);
    g := g.(links := Some([Link("Steam Store", Steam.StoreUrlFor(sel.appId))]));
    var platform := AddPlatform(library);
    g := g.(platformIds := Some([platform]));
    var source := AddSource(library);
    g := g.(sourceId := Some(source));
    return Some(g);
  }

  /** `Platforms.Add("PC (Windows)").Id`: the first platform named so
      ignoring case, or a new one appended. */
  method AddPlatform(library: Library) returns (id: Guid)
    requires library.Valid()
    modifies library
    ensures library.Valid()
    ensures library.games == old(library.games) && library.files == old(library.files)
    ensures var added := AddName(old(library.State()), Platforms, "PC (Windows)");
      library.State() == added.0 && id == added.1.id
    ensures match IndexIgnoringCase(old(library.Items(Platforms)), "PC (Windows)")
      case Some(k) => id == old(library.Items(Platforms))[k].id && library.State() == old(library.State())
      case None => id == old(library.nextId) && library.nextId == id + 1
                   && library.Items(Platforms) == old(library.Items(Platforms)) + [NamedItem(id, Some("PC (Windows)"))]
    ensures forall d | d != Platforms :: library.Items(d) == old(library.Items(d))
    ensures NamedIn(library.Items(Platforms), id, "PC (Windows)")
  {
    var platform := library.AddNamed(Platforms, Some("PC (Windows)"));
    var k :| 0 <= k < |library.Items(Platforms)| && library.Items(Platforms)[k] == platform.value;
    return platform.value.id;
  }

  /** `Sources.Add("Steam").Id`: the first source named so ignoring case,
      or a new one appended. */
  method AddSource(library: Library) returns (id: Guid)
    requires library.Valid()
    modifies library
    ensures library.Valid()
    ensures library.games == old(library.games) && library.files == old(library.files)
    ensures var added := AddName(old(library.State()), Sources, "Steam");
      library.State() == added.0 && id == added.1.id
    ensures match IndexIgnoringCase(old(library.Items(Sources)), "Steam")
      case Some(k) => id == old(library.Items(Sources))[k].id && library.State() == old(library.State())
      case None => id == old(library.nextId) && library.nextId == id + 1
                   && library.Items(Sources) == old(library.Items(Sources)) + [NamedItem(id, Some("Steam"))]
    ensures forall d | d != Sources :: library.Items(d) == old(library.Items(d))
    ensures NamedIn(library.Items(Sources), id, "Steam")
  {
    var source := library.AddNamed(Sources, Some("Steam"));
    var k :| 0 <= k < |library.Items(Sources)| && library.Items(Sources)[k] == source.value;
    return source.value.id;
  }

  /** `Games.Add(game)`, the cover and background downloads, and
      `Games.Update(game)`: the game is stored first, each image is attached
      only when its URL is set and its download succeeds, and a failed
      download is skipped. */
  method StoreGame(library: Library, game: Game, sel: SteamGameRecord,
                   coverDownloaded: bool, backgroundDownloaded: bool) returns (stored: Game)
    requires library.Valid() && game.id < library.nextId
    requires forall i | 0 <= i < |library.games| :: library.games[i].id != game.id
    requires game.coverImage.None? && game.backgroundImage.None?
    modifies library
    ensures library.Valid()
    ensures library.games == old(library.games) + [stored]
    ensures library.items == old(library.items) && library.nextId == old(library.nextId)
    ensures library.files == old(library.files) + Attached(stored)
    ensures stored.(coverImage := None, backgroundImage := None) == game
    ensures stored.coverImage.Some? <==> !IsNullOrEmpty(sel.headerImage) && coverDownloaded
    ensures stored.backgroundImage.Some? <==> !IsNullOrEmpty(sel.backgroundImage) && backgroundDownloaded
    ensures stored.coverImage.Some? ==> stored.coverImage.value in library.files && stored.coverImage.value.owner == game.id
    ensures stored.backgroundImage.Some? ==>
      stored.backgroundImage.value in library.files && stored.backgroundImage.value.owner == game.id
  {
    ghost var before := library.games;
    library.AddGame(game);
    stored := game;
    if !IsNullOrEmpty(sel.headerImage) && coverDownloaded {
      var file := library.AddFile(game.id);
      stored := stored.(coverImage := Some(file));
    }
    if !IsNullOrEmpty(sel.backgroundImage) && backgroundDownloaded {
      var file := library.AddFile(game.id);
      stored := stored.(backgroundImage := Some(file));
    }
    library.UpdateGame(stored);
    ReplaceAppended(before, game, stored);
  }

  /** The images do not enter the description of the game. */
  lemma DescribesIgnoresImages(g: Game, h: Game, sel: SteamGameRecord, s: Catalog)
    requires Describes(g, sel, s)
    requires h.(coverImage := None, backgroundImage := None) == g.(coverImage := None, backgroundImage := None)
    ensures Describes(h, sel, s)
  {
  }

  class SteamSearchBrowserViewModel {
    var searchQuery: NString
    var isSearching: bool
    var searchResults: seq<SteamGame>
    var selectedGame: SteamGame?
    var statusMessage: string
    const library: Library

    constructor (library: Library)
      ensures this.library == library
      ensures searchQuery.None? && !isSearching && searchResults == [] && selectedGame == null
      ensures statusMessage == SearchPrompt
    {
      this.library := library;
      searchQuery := None;
      isSearching := false;
      searchResults := [];
      selectedGame := null;
      statusMessage := SearchPrompt;
    }

    function IsNotSearching(): (r: bool)
      reads this
      ensures r <==> !isSearching
    {
      !isSearching
    }

    /** `IsGameInLibrary(steamGame)`: false for no game; otherwise whether
        some library game matches it. */
    function IsGameInLibrary(steamGame: SteamGame?): (r: bool)
      reads library, steamGame
      ensures steamGame == null ==> !r
      ensures steamGame != null ==> (r <==> exists i | 0 <= i < |library.games| ::
        MatchesSteamGame(library.games[i], SourceName(library.Items(Sources), library.games[i]),
                         steamGame.appId, steamGame.name))
    {
      steamGame != null && AnyMatch(library.games, library.Items(Sources), steamGame.appId, steamGame.name)
    }

    function CanAddToLibrary(): (r: bool)
      reads this, library, selectedGame
      ensures r <==> selectedGame != null && !IsGameInLibrary(selectedGame)
    {
      selectedGame != null && !IsGameInLibrary(selectedGame)
    }

    /** `AddToLibraryCommand.CanExecute`. */
    function AddCommandEnabled(parameter: object?): (r: bool)
      reads this, library, selectedGame
      ensures r <==> CanAddToLibrary()
    {
      var canAdd := CanAddToLibrary();
      CanExecute(Some((_: object?) => canAdd), parameter)
    }

    /** The part of `PerformSearch` before the service is awaited. A blank
        query returns at once and changes nothing. */
    method BeginSearch() returns (started: bool)
      modifies this`searchResults, this`statusMessage, this`isSearching, this`selectedGame
      ensures started <==> !IsNullOrWhiteSpace(old(searchQuery))
      ensures !started ==> unchanged(this)
      ensures started ==> isSearching && searchResults == [] && selectedGame == null
      ensures started ==> searchQuery == old(searchQuery)
                          && statusMessage == "Searching for '" + searchQuery.value + "'..."
    {
      if IsNullOrWhiteSpace(searchQuery) {
        return false;
      }
      isSearching := true;
      statusMessage := "Searching for '" + searchQuery.value + "'...";
      searchResults := [];
      selectedGame := null;
      return true;
    }

    /** The part of `PerformSearch` after the service returns, with its
        `finally`: the games are appended in order and the count reported. */
    method EndSearch(results: seq<SteamGame>)
      modifies this`searchResults, this`statusMessage, this`isSearching
      ensures searchResults == old(searchResults) + results
      ensures Records(results) == old(Records(results))
      ensures statusMessage == FoundMessage(|results|)
      ensures !isSearching
      ensures searchQuery == old(searchQuery) && selectedGame == old(selectedGame)
    {
      if |results| > 0 {
        var list := searchResults;
        var i := 0;
        while i < |results|
          invariant 0 <= i <= |results|
          invariant list == searchResults + results[..i]
        {
          list := list + [results[i]];
          i := i + 1;
        }
        assert results[..i] == results;
        searchResults := list;
      }
      statusMessage := FoundMessage(|results|);
      isSearching := false;
    }

    /** `PerformSearch`: a blank query is ignored; otherwise the results
        become the service's games for the query, at most 30. */
    method PerformSearch(api: SteamApi)
      modifies this`searchResults, this`statusMessage, this`isSearching, this`selectedGame
      ensures IsNullOrWhiteSpace(old(searchQuery)) ==> unchanged(this)
      ensures !IsNullOrWhiteSpace(old(searchQuery)) ==>
        && !isSearching && selectedGame == null && searchQuery == old(searchQuery)
        && Records(searchResults) == SearchResults(searchQuery, MaxResults, api)
        && statusMessage == FoundMessage(|searchResults|)
        && forall g | g in searchResults :: fresh(g)
    {
      var started := BeginSearch();
      if !started {
        return;
      }
      var results := SearchGames(searchQuery, MaxResults, api);
      EndSearch(results);
    }

    /** The part of `AddToLibrary` past its checks: the game is built, then
        stored with the images whose downloads succeed. A name the host refuses
        ends it after the taxonomy items created so far; otherwise the status
        reports the game added. */
    method AddSelected(sel: SteamGameRecord, coverDownloaded: bool, backgroundDownloaded: bool)
      returns (stored: Option<Game>)
      requires library.Valid()
      modifies this`statusMessage, library
      ensures library.Valid()
      ensures stored.None? <==> HasUnnamed(sel)
      ensures library.State() == BuiltGame(old(library.State()), sel).0
      ensures stored.None? ==>
        library.games == old(library.games) && library.files == old(library.files)
        && statusMessage == old(statusMessage)
      ensures stored.Some? ==>
        var g := stored.value;
        && library.games == old(library.games) + [g]
        && g.(coverImage := None, backgroundImage := None) == BuiltGame(old(library.State()), sel).1.value
        && library.files == old(library.files) + Attached(g)
        && Describes(g, sel, library.State())
        && (g.coverImage.Some? <==> !IsNullOrEmpty(sel.headerImage) && coverDownloaded)
        && (g.backgroundImage.Some? <==> !IsNullOrEmpty(sel.backgroundImage) && backgroundDownloaded)
        && (g.coverImage.Some? ==> g.coverImage.value in library.files && g.coverImage.value.owner == g.id)
        && (g.backgroundImage.Some? ==> g.backgroundImage.value in library.files && g.backgroundImage.value.owner == g.id)
        && statusMessage == "Added '" + sel.name.GetOr("") + "' to library"
    {
      var built := BuildGame(library, sel);
      if built.None? {
        return None;
      }
      var game := StoreGame(library, built.value, sel, coverDownloaded, backgroundDownloaded);
      DescribesIgnoresImages(built.value, game, sel, library.State());
      statusMessage := "Added '" + sel.name.GetOr("") + "' to library";
      return Some(game);
    }

    /** `AddToLibrary`, without the background auto-select block.
        `coverDownloaded` and `backgroundDownloaded` say whether the image
        downloads succeed; a failed one is skipped and the add goes on. */
    method AddToLibrary(coverDownloaded: bool, backgroundDownloaded: bool) returns (outcome: AddOutcome)
      requires library.Valid()
      modifies this`statusMessage, library
      ensures library.Valid()
      ensures outcome.NoSelection? <==> selectedGame == null
      ensures outcome.AlreadyInLibrary? <==> selectedGame != null && old(IsGameInLibrary(selectedGame))
      ensures outcome.Failed? <==>
        selectedGame != null && !old(IsGameInLibrary(selectedGame)) && HasUnnamed(selectedGame.Record())
      ensures outcome.NoSelection? || outcome.AlreadyInLibrary? ==>
        unchanged(library) && statusMessage == old(statusMessage)
      ensures outcome.Failed? ==>
        library.games == old(library.games) && library.files == old(library.files)
        && library.State() == BuiltGame(old(library.State()), selectedGame.Record()).0
        && statusMessage == old(statusMessage)
      ensures outcome.Added? ==>
        var sel := selectedGame.Record();
        && |library.games| == |old(library.games)| + 1
        && library.games[..|old(library.games)|] == old(library.games)
        && var g := library.games[|old(library.games)|];
           && g.id == outcome.id
           && library.State() == BuiltGame(old(library.State()), sel).0
           && g.(coverImage := None, backgroundImage := None) == BuiltGame(old(library.State()), sel).1.value
           && library.files == old(library.files) + Attached(g)
           && Describes(g, sel, library.State())
           && (g.coverImage.Some? <==> !IsNullOrEmpty(sel.headerImage) && coverDownloaded)
           && (g.backgroundImage.Some? <==> !IsNullOrEmpty(sel.backgroundImage) && backgroundDownloaded)
           && (g.coverImage.Some? ==> g.coverImage.value in library.files && g.coverImage.value.owner == g.id)
           && (g.backgroundImage.Some? ==> g.backgroundImage.value in library.files && g.backgroundImage.value.owner == g.id)
           && statusMessage == "Added '" + sel.name.GetOr("") + "' to library"
      ensures outcome.Added? ==> IsGameInLibrary(selectedGame) && !CanAddToLibrary()
    {
      if selectedGame == null {
        return NoSelection;
      }
      if IsGameInLibrary(selectedGame) {
        return AlreadyInLibrary;
      }
      var sel := selectedGame.Record();
      ghost var before := library.games;
      var stored := AddSelected(sel, coverDownloaded, backgroundDownloaded);
      if stored.None? {
        return Failed;
      }
      AnyMatchFindsAppId(before, library.Items(Sources), stored.value, sel.appId, sel.name);
      return Added(stored.value.id);
    }
  }

  /** The status after a search: the number of games, or that there were none. */
  function FoundMessage(count: nat): (m: string)
    ensures count == 0 ==> m == "No games found"
    ensures count > 0 ==> |m| > 12 && m[..6] == "Found " && m[|m| - 6..] == " games"
  {
    if count > 0 then "Found " + NatToString(count) + " games" else "No games found"
  }

  /** The status reports the count itself: its digits read back as the count. */
  lemma FoundMessageReportsCount(count: nat)
    requires count > 0
    ensures var m := FoundMessage(count);
      var digits := m[6..|m| - 6];
      (forall i | 0 <= i < |digits| :: '0' <= digits[i] <= '9') && DigitsValue(digits) == count
  {
    var m := FoundMessage(count);
    assert m[6..|m| - 6] == NatToString(count);
    NatToStringRoundTrip(count);
  }
}
