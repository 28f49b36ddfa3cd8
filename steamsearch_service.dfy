/** `SteamSearchService` of the SteamSearchBrowser revision: searches the
    Steam store, keeps the games among the hits, fetches their details and
    turns them into `SteamGame` records. */
module SteamSearchBrowserService {
  import opened Wrappers
  import opened DotNet
  import opened Markup
  import opened Batch
  import opened SteamSearchBrowserModels
  import Steam

  /** What the service gets from outside. `searchApps` is the search endpoint
      (the query in, the deserialised hits out, `None` when the download
      fails, the reply does not deserialise or is null); `appDetails` is the
      details endpoint keyed by the `appids` query value (`None` likewise);
      `htmlDecode` is `HttpUtility.HtmlDecode`; `parseDate` is
      `DateTime.TryParse`. */
  datatype SteamApi = SteamApi(
    searchApps: string -> Option<seq<Option<SteamSearchItem>>>,
    appDetails: string -> Option<map<string, Option<SteamAppDetailsResponse>>>,
    htmlDecode: string -> string,
    parseDate: string -> Option<DateTime>)

  /** An HTTP request the service makes. */
  datatype Request = SearchRequest(query: string) | DetailsRequest(appId: string)

  const MaxSearchResults := 50

  // ---------------------------------------------------------------- StripHtml

  /** `StripHtml`: every tag is removed, entities are decoded, runs of white
      space become one space, and the ends are trimmed. */
  function StripHtml(html: NString, htmlDecode: string -> string): (r: string)
    ensures IsNullOrWhiteSpace(html) ==> r == ""
    ensures WellSpaced(r)
    ensures !IsNullOrWhiteSpace(html) ==>
      NonWhiteSpace(r) == NonWhiteSpace(htmlDecode(StripTags(html.value, "")))
    ensures !IsNullOrWhiteSpace(html) ==> r == Normalize(htmlDecode(StripTags(html.value, "")))
  {
    if IsNullOrWhiteSpace(html) then "" else Normalize(htmlDecode(StripTags(html.value, "")))
  }

  /** Plain, tidy text without entities passes through unchanged. */
  lemma StripHtmlKeepsPlainText(s: string, htmlDecode: string -> string)
    requires !HasTag(s) && WellSpaced(s) && htmlDecode(s) == s
    ensures StripHtml(Some(s), htmlDecode) == s
  {
    if !IsBlank(s) {
      StripTagsFixesTagFree(s, "");
      NormalizeFixesWellSpaced(s);
    }
  }

  // ---------------------------------------------------------- SearchGamesAsync

  /** The hit types the service keeps. */
  predicate IsGameType(item: SteamSearchItem) {
    item.itemType == Some("app") || item.itemType == Some("game")
  }

  /** Only the exact, lower-case type names count: a hit without a type,
      or typed "App", "Game" or "dlc", is not a game. */
  lemma IsGameTypeExact(item: SteamSearchItem)
    ensures item.itemType.None? ==> !IsGameType(item)
    ensures IsGameType(item) ==> item.itemType.value[0] in {'a', 'g'}
    ensures item.itemType == Some("App") || item.itemType == Some("Game") || item.itemType == Some("dlc")
      ==> !IsGameType(item)
  {
    if IsGameType(item) {
      assert item.itemType.value[0] == 'a' || item.itemType.value[0] == 'g';
    }
  }

  /** The games among the hits, in order: the reference the lazy pipeline
      below is checked against. */
  function GameItems(items: seq<SteamSearchItem>): (r: seq<SteamSearchItem>)
    ensures forall x | x in r :: x in items && IsGameType(x)
    ensures forall x | x in items && IsGameType(x) :: x in r
  {
    if items == [] then []
    else (if IsGameType(items[0]) then [items[0]] else []) + GameItems(items[1..])
  }

  /** Filtering distributes over concatenation: the games of two replies
      are the games of each, in order. */
  lemma {:induction false} GameItemsAppend(a: seq<SteamSearchItem>, b: seq<SteamSearchItem>)
    ensures GameItems(a + b) == GameItems(a) + GameItems(b)
    decreases |a|
  {
    if a == [] {
      assert a + b == b;
    } else {
      assert (a + b)[0] == a[0];
      assert (a + b)[1..] == a[1..] + b;
      GameItemsAppend(a[1..], b);
      var h := if IsGameType(a[0]) then [a[0]] else [];
      assert h + (GameItems(a[1..]) + GameItems(b)) == (h + GameItems(a[1..])) + GameItems(b);
    }
  }

  /** `items.Where(x => x.Type == "app" || x.Type == "game").Take(limit).ToList()`,
      evaluated lazily: reading the type of a null hit throws (`None`), but
      hits after the `limit`-th game are never looked at. */
  function FilterGames(items: seq<Option<SteamSearchItem>>, limit: nat): (r: Option<seq<SteamSearchItem>>)
    ensures r.Some? ==> |r.value| <= limit
    ensures r.Some? ==> forall x | x in r.value :: IsGameType(x)
    ensures r.None? ==> exists i | 0 <= i < |items| :: items[i].None?
  {
    if limit == 0 || items == [] then Some([])
    else if items[0].None? then None
    else
      var isGame := IsGameType(items[0].value);
      var rest := FilterGames(items[1..], if isGame then limit - 1 else limit);
      if rest.None? then
        assert exists i | 1 <= i < |items| :: items[i].None? by {
          var i :| 0 <= i < |items[1..]| && items[1..][i].None?;
          assert items[i + 1].None?;
        }
        None
      else
        Some(if isGame then [items[0].value] + rest.value else rest.value)
  }

  /** Without null hits the lazy pipeline gives the first `limit` games of
      the reply, in the reply's order. */
  lemma {:induction false} FilterGamesIsTakeOfGames(items: seq<SteamSearchItem>, limit: nat)
    ensures FilterGames(Present(items), limit) == Some(Take(GameItems(items), limit))
  {
    if limit != 0 && items != [] {
      var present := Present(items);
      assert present[0] == Some(items[0]);
      assert present[1..] == Present(items[1..]);
      assert GameItems(items) == (if IsGameType(items[0]) then [items[0]] else []) + GameItems(items[1..]);
      if IsGameType(items[0]) {
        FilterGamesIsTakeOfGames(items[1..], limit - 1);
        TakeCons(items[0], GameItems(items[1..]), limit);
      } else {
        FilterGamesIsTakeOfGames(items[1..], limit);
        assert [] + GameItems(items[1..]) == GameItems(items[1..]);
      }
    }
  }

  /** The hits of a reply without nulls. */
  function Present<T>(items: seq<T>): (r: seq<Option<T>>)
    ensures |r| == |items| && forall i | 0 <= i < |items| :: r[i] == Some(items[i])
  {
    seq(|items|, i requires 0 <= i < |items| => Some(items[i]))
  }

  /** `SearchGamesAsync(searchQuery)`: no hits for a blank query, a failed
      download or any exception; otherwise at most 50 games. */
  function SearchGames(searchQuery: NString, api: SteamApi): (r: seq<SteamSearchItem>)
    ensures IsNullOrWhiteSpace(searchQuery) ==> r == []
    ensures |r| <= MaxSearchResults
    ensures forall x | x in r :: IsGameType(x)
    ensures !IsNullOrWhiteSpace(searchQuery) && api.searchApps(searchQuery.value).None? ==> r == []
    ensures !IsNullOrWhiteSpace(searchQuery) && api.searchApps(searchQuery.value).Some? ==>
      r == FilterGames(api.searchApps(searchQuery.value).value, MaxSearchResults).GetOr([])
  {
    if IsNullOrWhiteSpace(searchQuery) then []
    else
      match api.searchApps(searchQuery.value)
      case None => []
      case Some(items) => FilterGames(items, MaxSearchResults).GetOr([])
  }

  /** A reply without null hits yields its first 50 games, in the reply's order. */
  lemma SearchGamesTakesFirstGames(searchQuery: NString, hits: seq<SteamSearchItem>, api: SteamApi)
    requires !IsNullOrWhiteSpace(searchQuery) && api.searchApps(searchQuery.value) == Some(Present(hits))
    ensures SearchGames(searchQuery, api) == Take(GameItems(hits), MaxSearchResults)
  {
    FilterGamesIsTakeOfGames(hits, MaxSearchResults);
  }

  // ------------------------------------------------------- GetGameDetailsAsync

  /** `list.Select(x => field(x)).ToList()`: a null element throws. */
  function SelectAll<T>(list: seq<Option<T>>, field: T -> NString): (r: Option<seq<NString>>)
    ensures r.Some? <==> forall i | 0 <= i < |list| :: list[i].Some?
    ensures r.Some? ==> |r.value| == |list| && forall i | 0 <= i < |list| :: r.value[i] == field(list[i].value)
  {
    if list == [] then Some([])
    else if list[0].None? then None
    else
      var rest := SelectAll(list[1..], field);
      assert forall i | 1 <= i < |list| :: list[i] == list[1..][i - 1];
      if rest.None? then None else Some([field(list[0].value)] + rest.value)
  }

  /** `list?.Select(field).ToList() ?? new List<string>()`. */
  function SelectOrEmpty<T>(list: Option<seq<Option<T>>>, field: T -> NString): (r: Option<seq<NString>>)
    ensures list.None? ==> r == Some([])
  {
    if list.None? then Some([]) else SelectAll(list.value, field)
  }

  /** The text the description is made from: the first non-null of
      `AboutTheGame`, `DetailedDescription` and `ShortDescription`, else "". */
  function DescriptionSource(d: SteamAppDetails): string {
    d.aboutTheGame.GetOr(d.detailedDescription.GetOr(d.shortDescription.GetOr("")))
  }

  /** The object initializer of the game. */
  function Initial(appId: string, d: SteamAppDetails, htmlDecode: string -> string): (r: Option<SteamGameRecord>)
    ensures r.Some? ==> r.value.appId == Some(appId) && r.value.name == d.name
    ensures r.Some? ==> r.value.storeUrl == Some(Steam.StoreUrlFor(Some(appId)))
    ensures r.Some? ==> r.value.developers == d.developers.GetOr([]) && r.value.publishers == d.publishers.GetOr([])
    ensures r.Some? && d.genres.None? ==> r.value.genres == []
    ensures r.Some? && d.categories.None? ==> r.value.categories == []
    ensures r.Some? && d.screenshots.None? ==> r.value.screenshots == []
    ensures r.Some? ==> r.value.releaseDate.None? && r.value.price.None? && r.value.isFree == d.isFree
    ensures r.Some? ==> r.value.description.Some? && WellSpaced(r.value.description.value)
    ensures r.None? <==>
      || SelectOrEmpty(d.genres, (g: SteamGenre) => g.description).None?
      || SelectOrEmpty(d.categories, (c: SteamCategory) => c.description).None?
      || SelectOrEmpty(d.screenshots, (s: SteamScreenshot) => s.pathFull).None?
  {
    var genres :- SelectOrEmpty(d.genres, (g: SteamGenre) => g.description);
    var categories :- SelectOrEmpty(d.categories, (c: SteamCategory) => c.description);
    var screenshots :- SelectOrEmpty(d.screenshots, (s: SteamScreenshot) => s.pathFull);
    Some(SteamGameRecord(
      Some(appId), d.name,
      Some(StripHtml(Some(DescriptionSource(d)), htmlDecode)),
      Some(StripHtml(Some(d.detailedDescription.GetOr("")), htmlDecode)),
      Some(StripHtml(Some(d.shortDescription.GetOr("")), htmlDecode)),
      d.headerImage, d.headerImage, d.background,
      d.developers.GetOr([]), d.publishers.GetOr([]), genres, categories,
      None, None, d.isFree, screenshots,
      Some(Steam.StoreUrlFor(Some(appId)))))
  }

  /** The release date step: set only when the game is out and its date parses. */
  function WithReleaseDate(g: SteamGameRecord, d: SteamAppDetails, parseDate: string -> Option<DateTime>): (r: SteamGameRecord)
    ensures r.(releaseDate := g.releaseDate) == g
  {
    if d.releaseDate.Some? && !d.releaseDate.value.comingSoon && d.releaseDate.value.date.Some?
       && parseDate(d.releaseDate.value.date.value).Some?
    then g.(releaseDate := parseDate(d.releaseDate.value.date.value))
    else g
  }

  /** The price step: the overview's formatted price, or "Free" for a free game. */
  function WithPrice(g: SteamGameRecord, d: SteamAppDetails): (r: SteamGameRecord)
    ensures r.(price := g.price) == g
  {
    if d.priceOverview.Some? then g.(price := d.priceOverview.value.finalFormatted)
    else if d.isFree then g.(price := Some("Free"))
    else g
  }

  /** The game record built from one app's details. */
  function ReadGame(appId: string, d: SteamAppDetails, api: SteamApi): (r: Option<SteamGameRecord>)
    ensures r.Some? <==> Initial(appId, d, api.htmlDecode).Some?
    ensures r.Some? ==> r.value.(releaseDate := None, price := None) == Initial(appId, d, api.htmlDecode).value
  {
    var g :- Initial(appId, d, api.htmlDecode);
    Some(WithPrice(WithReleaseDate(g, d, api.parseDate), d))
  }

  /** `GetGameDetailsAsync(appId)` as a value: the game, or `None` when the
      download fails, the reply lacks the app, the app's entry is null or not
      a success or has no data, or building the record throws. */
  function GameDetails(appId: NString, api: SteamApi): (r: Option<SteamGameRecord>)
    ensures r.Some? ==> appId.Some? && r.value.appId == appId
    ensures r.Some? ==> r.value.storeUrl == Some(Steam.StoreUrlFor(appId))
    ensures r.Some? ==>
      && api.appDetails(appId.value).Some?
      && appId.value in api.appDetails(appId.value).value
      && var entry := api.appDetails(appId.value).value[appId.value];
         entry.Some? && entry.value.success && entry.value.data.Some?
    ensures r.Some? ==> r.value.description.Some? && WellSpaced(r.value.description.value)
  {
    match api.appDetails(appId.GetOr(""))
    case None => None
    case Some(responses) =>
      if appId.None? || appId.value !in responses then None
      else
        var entry := responses[appId.value];
        if entry.None? || !entry.value.success || entry.value.data.None? then None
        else ReadGame(appId.value, entry.value.data.value, api)
  }

  /** The description is made from `AboutTheGame` whenever that is not null,
      even when it is empty and a detailed description exists. */
  lemma DescriptionPrefersAboutTheGame(appId: string, d: SteamAppDetails, api: SteamApi)
    requires ReadGame(appId, d, api).Some?
    ensures d.aboutTheGame.Some? ==>
      ReadGame(appId, d, api).value.description == Some(StripHtml(d.aboutTheGame, api.htmlDecode))
    ensures d.aboutTheGame == Some("") ==> ReadGame(appId, d, api).value.description == Some("")
    ensures d.aboutTheGame.None? && d.detailedDescription.Some? ==>
      ReadGame(appId, d, api).value.description == Some(StripHtml(d.detailedDescription, api.htmlDecode))
    ensures d.aboutTheGame.None? && d.detailedDescription.None? ==>
      ReadGame(appId, d, api).value.description == Some(StripHtml(Some(d.shortDescription.GetOr("")), api.htmlDecode))
    ensures d.aboutTheGame.None? && d.detailedDescription.None? && d.shortDescription.None? ==>
      ReadGame(appId, d, api).value.description == Some("")
  {
  }

  /** A release date is reported only for a game that is out, and it is
      the parse of the details' date. */
  lemma ReleaseDateOnlyWhenOut(g: SteamGameRecord, d: SteamAppDetails, parseDate: string -> Option<DateTime>)
    requires g.releaseDate.None?
    ensures WithReleaseDate(g, d, parseDate).releaseDate.Some? <==>
      d.releaseDate.Some? && !d.releaseDate.value.comingSoon && d.releaseDate.value.date.Some?
      && parseDate(d.releaseDate.value.date.value).Some?
    ensures WithReleaseDate(g, d, parseDate).releaseDate.Some? ==>
      WithReleaseDate(g, d, parseDate).releaseDate == parseDate(d.releaseDate.value.date.value)
  {
  }

  /** With an overview the price is its formatted price, even for a free
      game; without one it is "Free" exactly for a free game. */
  lemma PriceFollowsOverview(g: SteamGameRecord, d: SteamAppDetails)
    requires g.price.None?
    ensures d.priceOverview.Some? ==> WithPrice(g, d).price == d.priceOverview.value.finalFormatted
    ensures d.priceOverview.None? ==> (WithPrice(g, d).price == Some("Free") <==> d.isFree)
    ensures d.priceOverview.None? && !d.isFree ==> WithPrice(g, d).price.None?
  {
  }

  /** `GetGameDetailsAsync`: builds the game with the object initializer,
      then sets the release date and the price step by step. */
  method GetGameDetails(appId: NString, api: SteamApi) returns (game: SteamGame?)
    ensures game == null <==> GameDetails(appId, api).None?
    ensures game != null ==> fresh(game) && game.Record() == GameDetails(appId, api).value
  {
    var response := api.appDetails(appId.GetOr(""));
    if response.None? {
      return null;
    }
    var responses := response.value;
    if appId.None? || appId.value !in responses {
      return null;
    }
    var entry := responses[appId.value];
    if entry.None? || !entry.value.success || entry.value.data.None? {
      return null;
    }
    var d := entry.value.data.value;
    game := NewSteamGame(appId.value, d, api.htmlDecode);
    if game == null {
      return null;
    }
    if d.releaseDate.Some? && !d.releaseDate.value.comingSoon {
      if d.releaseDate.value.date.Some? {
        var parsed := api.parseDate(d.releaseDate.value.date.value);
        if parsed.Some? {
          game.releaseDate := parsed;
        }
      }
    }
    if d.priceOverview.Some? {
      game.price := d.priceOverview.value.finalFormatted;
    } else if d.isFree {
      game.price := Some("Free");
    }
  }

  /** The object initializer `new SteamGame { ... }`; null when one of the
      list projections throws. */
  method NewSteamGame(appId: string, d: SteamAppDetails, htmlDecode: string -> string) returns (game: SteamGame?)
    ensures game == null <==> Initial(appId, d, htmlDecode).None?
    ensures game != null ==> fresh(game) && game.Record() == Initial(appId, d, htmlDecode).value
  {
    var initial := Initial(appId, d, htmlDecode);
    if initial.None? {
      return null;
    }
    var g := initial.value;
    game := new SteamGame();
    SetTexts(game, g);
    SetCollections(game, g);
  }

  /** The text properties of the initializer. */
  method SetTexts(game: SteamGame, g: SteamGameRecord)
    modifies game
    ensures game.Record() == old(game.Record()).(appId := g.appId, name := g.name,
      description := g.description, detailedDescription := g.detailedDescription,
      shortDescription := g.shortDescription, headerImage := g.headerImage,
      coverImage := g.coverImage, backgroundImage := g.backgroundImage)
  {
    game.appId := g.appId;
    game.name := g.name;
    game.description := g.description;
    game.detailedDescription := g.detailedDescription;
    game.shortDescription := g.shortDescription;
    game.headerImage := g.headerImage;
    game.coverImage := g.coverImage;
    game.backgroundImage := g.backgroundImage;
  }

  /** The list, flag and link properties of the initializer. */
  method SetCollections(game: SteamGame, g: SteamGameRecord)
    modifies game
    ensures game.Record() == old(game.Record()).(developers := g.developers,
      publishers := g.publishers, genres := g.genres, categories := g.categories,
      isFree := g.isFree, screenshots := g.screenshots, storeUrl := g.storeUrl)
  {
    game.developers := g.developers;
    game.publishers := g.publishers;
    game.genres := g.genres;
    game.categories := g.categories;
    game.isFree := g.isFree;
    game.screenshots := g.screenshots;
    game.storeUrl := g.storeUrl;
  }

  // -------------------------------------------------- SearchAndGetDetailsAsync

  /** What one hit contributes: its details, or nothing when they are null. */
  function Found(item: SteamSearchItem, api: SteamApi): (r: seq<SteamGameRecord>)
    ensures |r| <= 1
    ensures r != [] <==> GameDetails(Some(IntToString(item.id)), api).Some?
  {
    match GameDetails(Some(IntToString(item.id)), api)
    case None => []
    case Some(game) => [game]
  }

  function FoundWith(api: SteamApi): (found: SteamSearchItem -> seq<SteamGameRecord>)
    ensures forall item :: found(item) == Found(item, api)
  {
    item => Found(item, api)
  }

  /** The hits whose details are fetched: the first `maxResults`. */
  function Fetched(searchQuery: NString, maxResults: int, api: SteamApi): seq<SteamSearchItem> {
    Take(SearchGames(searchQuery, api), maxResults)
  }

  /** `SearchAndGetDetailsAsync(searchQuery, maxResults)` as a value. */
  function SearchResults(searchQuery: NString, maxResults: int, api: SteamApi): (r: seq<SteamGameRecord>)
    ensures IsNullOrWhiteSpace(searchQuery) || maxResults <= 0 ==> r == []
    ensures |r| <= |Fetched(searchQuery, maxResults, api)|
  {
    EnrichBounded(Fetched(searchQuery, maxResults, api), FoundWith(api));
    Enrich(Fetched(searchQuery, maxResults, api), FoundWith(api))
  }

  /** The details requests for some hits, one per hit, in order. */
  function DetailsRequests(items: seq<SteamSearchItem>): (r: seq<Request>)
    ensures |r| == |items|
    ensures forall i | 0 <= i < |items| :: r[i] == DetailsRequest(IntToString(items[i].id))
  {
    seq(|items|, i requires 0 <= i < |items| => DetailsRequest(IntToString(items[i].id)))
  }

  /** The requests `SearchAndGetDetailsAsync` makes: a search unless the query
      is blank, then one details request per fetched hit. */
  function Requests(searchQuery: NString, maxResults: int, api: SteamApi): seq<Request> {
    (if IsNullOrWhiteSpace(searchQuery) then [] else [SearchRequest(searchQuery.value)])
    + DetailsRequests(Fetched(searchQuery, maxResults, api))
  }

  /** No request at all for a blank query, and no details request when the
      search has no hits or `maxResults` is not positive. */
  lemma RequestsOnlyForHits(searchQuery: NString, maxResults: int, api: SteamApi)
    ensures IsNullOrWhiteSpace(searchQuery) ==> Requests(searchQuery, maxResults, api) == []
    ensures SearchGames(searchQuery, api) == [] || maxResults <= 0 ==>
      forall r | r in Requests(searchQuery, maxResults, api) :: r.SearchRequest?
  {
  }

  /** At most `min(hits, maxResults)` games, none when `maxResults` is not positive. */
  lemma SearchResultsBounded(searchQuery: NString, maxResults: int, api: SteamApi)
    ensures |SearchResults(searchQuery, maxResults, api)| <= |SearchGames(searchQuery, api)|
    ensures |SearchResults(searchQuery, maxResults, api)| <= if maxResults < 0 then 0 else maxResults
  {
    EnrichBounded(Fetched(searchQuery, maxResults, api), FoundWith(api));
  }

  /** A hit without details does not stop the others. */
  lemma EnrichSkipsFailure(a: seq<SteamSearchItem>, item: SteamSearchItem, b: seq<SteamSearchItem>, api: SteamApi)
    requires GameDetails(Some(IntToString(item.id)), api).None?
    ensures Enrich(a + [item] + b, FoundWith(api)) == Enrich(a + b, FoundWith(api))
  {
    EnrichDropsEmpty(a, item, b, FoundWith(api));
  }

  /** When every hit has details, the games are those details in hit order. */
  lemma EnrichKeepsOrder(items: seq<SteamSearchItem>, api: SteamApi)
    requires forall k | 0 <= k < |items| :: GameDetails(Some(IntToString(items[k].id)), api).Some?
    ensures |Enrich(items, FoundWith(api))| == |items|
    ensures forall k | 0 <= k < |items| ::
      Enrich(items, FoundWith(api))[k] == GameDetails(Some(IntToString(items[k].id)), api).value
  {
    EnrichComplete(items, FoundWith(api));
  }

  /** Every game is the details of one of the hits, under that hit's id. */
  lemma EnrichFromHits(items: seq<SteamSearchItem>, api: SteamApi)
    ensures forall r | r in Enrich(items, FoundWith(api)) ::
      exists k | 0 <= k < |items| :: r.appId == Some(IntToString(items[k].id))
                                    && GameDetails(Some(IntToString(items[k].id)), api) == Some(r)
  {
    EnrichFromItems(items, FoundWith(api));
  }

  /** `SearchAndGetDetailsAsync`: searches, then fetches the details of the
      first `min(hits, maxResults)` hits one after the other. `requests` is
      the log of the HTTP requests made. */
  method SearchAndGetDetails(searchQuery: NString, maxResults: int, api: SteamApi)
    returns (games: seq<SteamGame>, requests: seq<Request>)
    ensures Records(games) == SearchResults(searchQuery, maxResults, api)
    ensures requests == Requests(searchQuery, maxResults, api)
    ensures forall g | g in games :: fresh(g)
  {
    requests := if IsNullOrWhiteSpace(searchQuery) then [] else [SearchRequest(searchQuery.value)];
    var searchResults := SearchGames(searchQuery, api);
    games := [];
    if |searchResults| == 0 {
      return;
    }
    var resultsToFetch := if |searchResults| < maxResults then |searchResults| else maxResults;
    assert Take(searchResults, resultsToFetch) == Fetched(searchQuery, maxResults, api);
    var fetchRequests;
    games, fetchRequests := FetchFirst(searchResults, resultsToFetch, api);
    requests := requests + fetchRequests;
  }

  /** The `for` loop: the details of the first `resultsToFetch` hits, one
      after the other, and the requests made for them. */
  method FetchFirst(searchResults: seq<SteamSearchItem>, resultsToFetch: int, api: SteamApi)
    returns (games: seq<SteamGame>, requests: seq<Request>)
    requires resultsToFetch <= |searchResults|
    ensures Records(games) == Enrich(Take(searchResults, resultsToFetch), FoundWith(api))
    ensures requests == DetailsRequests(Take(searchResults, resultsToFetch))
    ensures forall g | g in games :: fresh(g)
  {
    games, requests := [], [];
    ghost var fetched := Take(searchResults, resultsToFetch);
    ghost var found := FoundWith(api);
    var i := 0;
    while i < resultsToFetch
      invariant 0 <= i <= |fetched|
      invariant Records(games) == Enrich(fetched[..i], found)
      invariant requests == DetailsRequests(fetched[..i])
      invariant forall g | g in games :: fresh(g)
    {
      var searchItem := searchResults[i];
      assert searchItem == fetched[i];
      var appId := IntToString(searchItem.id);
      DetailsRequestsStep(fetched, i);
      requests := requests + [DetailsRequest(appId)];
      var added := FetchDetails(searchItem, api);
      CollectStep(games, added, fetched, i, found);
      games := games + added;
      i := i + 1;
    }
    assert fetched[..i] == fetched;
  }

  /** The body of the loop: the details of one hit, or nothing when they are null. */
  method FetchDetails(item: SteamSearchItem, api: SteamApi) returns (games: seq<SteamGame>)
    ensures Records(games) == Found(item, api)
    ensures forall g | g in games :: fresh(g)
  {
    var details := GetGameDetails(Some(IntToString(item.id)), api);
    games := if details == null then [] else [details];
  }

  /** One more hit fetched: its games come after the games of the hits before it. */
  lemma CollectStep(games: seq<SteamGame>, added: seq<SteamGame>, items: seq<SteamSearchItem>, i: nat,
                    found: SteamSearchItem -> seq<SteamGameRecord>)
    requires i < |items|
    requires Records(games) == Enrich(items[..i], found)
    requires Records(added) == found(items[i])
    ensures Records(games + added) == Enrich(items[..i + 1], found)
  {
    RecordsAppend(games, added);
    EnrichStep(items, i, found);
  }

  /** One more hit fetched: one more details request, for that hit. */
  lemma DetailsRequestsStep(items: seq<SteamSearchItem>, i: nat)
    requires i < |items|
    ensures DetailsRequests(items[..i + 1]) == DetailsRequests(items[..i]) + [DetailsRequest(IntToString(items[i].id))]
  {
  }
}
