/** `SteamSearchService` of the GamePassCatalogBrowser revision: searches the
    Steam app list, fetches every candidate's store details and turns them
    into `SteamGame` records. */
module GamePassSteamService {
  import opened Wrappers
  import opened DotNet
  import opened Json
  import opened Markup
  import opened GamePassSteamModels
  import opened Batch

  /** What the service gets from outside. `searchApps` is the community search
      endpoint (the URL-encoded term in, the deserialised list out, `None` when
      the request or the deserialisation fails or yields null); `appDetails` is
      the store details endpoint keyed by the `appids` query value (`None` when
      the request fails or the body is not JSON); `htmlDecode` is
      `HttpUtility.HtmlDecode`; `parseDate` is `DateTime.TryParse`. */
  datatype SteamApi = SteamApi(
    searchApps: string -> Option<seq<Option<SteamApp>>>,
    appDetails: string -> Option<Json>,
    htmlDecode: string -> string,
    parseDate: string -> Option<DateTime>)

  // ---------------------------------------------------------------- StripHtml

  /** `StripHtml`: every tag becomes one space, entities are decoded, runs of
      white space become one space, and the ends are trimmed. */
  function StripHtml(html: NString, htmlDecode: string -> string): (r: string)
    ensures IsNullOrEmpty(html) ==> r == ""
    ensures WellSpaced(r)
    ensures !IsNullOrEmpty(html) ==>
      NonWhiteSpace(r) == NonWhiteSpace(htmlDecode(StripTags(html.value, " ")))
    ensures !IsNullOrEmpty(html) ==> r == Normalize(htmlDecode(StripTags(html.value, " ")))
  {
    if IsNullOrEmpty(html) then "" else Normalize(htmlDecode(StripTags(html.value, " ")))
  }

  /** Plain, tidy text without entities passes through unchanged; in
      particular a description that was already stripped is a fixed point. */
  lemma StripHtmlKeepsPlainText(s: string, htmlDecode: string -> string)
    requires !HasTag(s) && WellSpaced(s) && htmlDecode(s) == s
    ensures StripHtml(Some(s), htmlDecode) == s
  {
    if s != "" {
      StripTagsFixesTagFree(s, " ");
      NormalizeFixesWellSpaced(s);
    }
  }

  // ------------------------------------------------------ GetGameDetailsAsync

  /** `genres`/`categories` element: `g["description"]?.Value<string>()`. */
  function DescriptionOf(item: Json): Result<NString> {
    StringField(item, "description")
  }

  /** `items.Select(description).Where(d => !string.IsNullOrEmpty(d)).ToList()`:
      the non-empty descriptions in order; any element that is not an object,
      or whose description is not a primitive, throws. */
  function Descriptions(items: seq<Json>): (r: Result<seq<NString>>)
    ensures r.Success? <==> forall i | 0 <= i < |items| :: DescriptionOf(items[i]).Success?
    ensures r.Success? ==> forall d | d in r.value :: !IsNullOrEmpty(d)
    ensures r.Success? ==> forall d | d in r.value ::
      exists i | 0 <= i < |items| :: DescriptionOf(items[i]) == Success(d)
    ensures r.Success? ==> forall i | 0 <= i < |items| ::
      !IsNullOrEmpty(DescriptionOf(items[i]).value) ==> DescriptionOf(items[i]).value in r.value
  {
    if items == [] then Success([])
    else
      var d :- DescriptionOf(items[0]);
      var rest :- Descriptions(items[1..]);
      assert forall i | 1 <= i < |items| :: items[i] == items[1..][i - 1];
      Success(if IsNullOrEmpty(d) then rest else [d] + rest)
  }

  /** `t != null && t.Type == JTokenType.Array` for `t = data[key]`. */
  predicate IsArray(data: Json, key: string)
    requires data.JObject?
  {
    Property(data, key).Some? && Property(data, key).value.JArray?
  }

  /** `developers`/`publishers`: the values of the property when it is an
      array, `None` when the property is missing or not an array (the list
      keeps its default). */
  function StringListField(data: Json, key: string): (r: Result<Option<seq<NString>>>)
    requires data.JObject?
    ensures !IsArray(data, key) ==> r == Success(None)
    ensures IsArray(data, key) ==> var values := StringValues(data.properties[key].items);
      (r.Success? <==> values.Success?) && (r.Success? ==> r.value == Some(values.value))
  {
    var t := Property(data, key);
    if t.Some? && t.value.JArray? then
      var values :- StringValues(t.value.items);
      Success(Some(values))
    else
      Success(None)
  }

  /** `genres`/`categories`, likewise. */
  function DescriptionListField(data: Json, key: string): (r: Result<Option<seq<NString>>>)
    requires data.JObject?
    ensures !IsArray(data, key) ==> r == Success(None)
    ensures IsArray(data, key) ==> var values := Descriptions(data.properties[key].items);
      (r.Success? <==> values.Success?) && (r.Success? ==> r.value == Some(values.value))
  {
    var t := Property(data, key);
    if t.Some? && t.value.JArray? then
      var values :- Descriptions(t.value.items);
      Success(Some(values))
    else
      Success(None)
  }

  /** The release date: read only when `release_date` is present and its
      `coming_soon` flag is false; an empty or unparsable date gives none. */
  function ReleaseDateField(data: Json, parseDate: string -> Option<DateTime>): (r: Result<Option<DateTime>>)
    requires data.JObject?
    ensures "release_date" !in data.properties ==> r == Success(None)
    ensures "release_date" in data.properties ==>
      var comingSoon := BoolField(data.properties["release_date"], "coming_soon");
      && (comingSoon.Failure? ==> r.Failure?)
      && (comingSoon.Success? && comingSoon.value != Some(false) ==> r == Success(None))
    ensures r.Success? && r.value.Some? ==>
      && "release_date" in data.properties
      && BoolField(data.properties["release_date"], "coming_soon") == Success(Some(false))
      && var date := StringField(data.properties["release_date"], "date");
         date.Success? && !IsNullOrEmpty(date.value) && r.value == parseDate(date.value.value)
  {
    var releaseDate := Property(data, "release_date");
    if releaseDate.None? then Success(None)
    else
      var comingSoon :- BoolField(releaseDate.value, "coming_soon");
      if comingSoon != Some(false) then Success(None)
      else
        var dateStr :- StringField(releaseDate.value, "date");
        if IsNullOrEmpty(dateStr) then Success(None) else Success(parseDate(dateStr.value))
  }

  /** The price: `price_overview.final_formatted` when there is an overview,
      otherwise "Free" for a free game and null for any other. */
  function PriceField(data: Json, isFree: bool): (r: Result<NString>)
    requires data.JObject?
    ensures "price_overview" in data.properties ==>
      r == StringField(data.properties["price_overview"], "final_formatted")
    ensures "price_overview" !in data.properties ==> r.Success? && (r.value == Some("Free") <==> isFree)
    ensures "price_overview" !in data.properties ==> (r.value.None? <==> !isFree)
  {
    var overview := Property(data, "price_overview");
    if overview.Some? then StringField(overview.value, "final_formatted")
    else Success(if isFree then Some("Free") else None)
  }

  /** The object initializer of the game: the scalar properties read from
      the `data` object, the lists still empty and no release date or price. */
  function ReadScalars(appId: string, data: Json, htmlDecode: string -> string): (r: Result<SteamGameRecord>)
    ensures r.Success? ==> data.JObject?
    ensures r.Success? ==> r.value.appId == Some(appId)
    ensures r.Success? ==> r.value.developers == r.value.publishers == r.value.genres == r.value.categories == []
    ensures r.Success? ==> r.value.releaseDate.None? && r.value.price.None?
    ensures r.Success? ==> r.value.description.Some? && WellSpaced(r.value.description.value)
    ensures r.Success? ==> r.value.shortDescription.Some? && WellSpaced(r.value.shortDescription.value)
  {
    if !data.JObject? then Failure
    else
      var name :- AsString(Property(data, "name"));
      var detailed :- AsString(Property(data, "detailed_description"));
      var short :- AsString(Property(data, "short_description"));
      var header :- AsString(Property(data, "header_image"));
      var background :- AsString(Property(data, "background"));
      var backgroundRaw :- if background.Some? then Success(None) else AsString(Property(data, "background_raw"));
      var isFree :- AsBool(Property(data, "is_free"));
      Success(SteamGameRecord(
        Some(appId), name,
        Some(StripHtml(Some(detailed.GetOr("")), htmlDecode)),
        Some(StripHtml(Some(short.GetOr("")), htmlDecode)),
        header,
        if background.Some? then background else backgroundRaw,
        [], [], [], [], None, None, isFree.GetOr(false)))
  }

  /** Each scalar property is read from its own key: a missing key or a JSON
      null gives null (an empty description, `IsFree` false),
      `background_raw` stands in for a null `background`, and the
      descriptions are stripped of HTML. */
  lemma ReadScalarsFields(appId: string, data: Json, htmlDecode: string -> string)
    requires ReadScalars(appId, data, htmlDecode).Success?
    ensures data.JObject?
    ensures var g := ReadScalars(appId, data, htmlDecode).value;
      && StringField(data, "name") == Success(g.name)
      && StringField(data, "header_image") == Success(g.headerImage)
      && StringField(data, "detailed_description").Success?
      && g.description == Some(StripHtml(Some(StringField(data, "detailed_description").value.GetOr("")), htmlDecode))
      && StringField(data, "short_description").Success?
      && g.shortDescription == Some(StripHtml(Some(StringField(data, "short_description").value.GetOr("")), htmlDecode))
    ensures var g := ReadScalars(appId, data, htmlDecode).value;
      && StringField(data, "background").Success?
      && var background := StringField(data, "background").value;
         (background.Some? ==> g.backgroundImage == background)
         && (background.None? ==> StringField(data, "background_raw") == Success(g.backgroundImage))
    ensures var g := ReadScalars(appId, data, htmlDecode).value;
      BoolField(data, "is_free").Success? && g.isFree == BoolField(data, "is_free").value.GetOr(false)
  {
  }

  /** Reading the scalars throws exactly when the data is not an object or
      one of the properties it reads cannot be converted. */
  lemma ReadScalarsFails(appId: string, data: Json, htmlDecode: string -> string)
    ensures ReadScalars(appId, data, htmlDecode).Failure? <==>
      || !data.JObject?
      || StringField(data, "name").Failure?
      || StringField(data, "detailed_description").Failure?
      || StringField(data, "short_description").Failure?
      || StringField(data, "header_image").Failure?
      || StringField(data, "background").Failure?
      || (StringField(data, "background") == Success(None) && StringField(data, "background_raw").Failure?)
      || BoolField(data, "is_free").Failure?
  {
  }

  /** An empty `data` object gives a game with only its app id: no name or
      images, empty descriptions, not free. */
  lemma ReadScalarsOfEmptyObject(appId: string, htmlDecode: string -> string)
    ensures ReadScalars(appId, JObject(map[]), htmlDecode)
      == Success(SteamGameRecord(Some(appId), None, Some(""), Some(""), None, None,
                                 [], [], [], [], None, None, false))
  {
  }

  /** The four list properties, each replaced only when its property is an array. */
  function WithLists(g: SteamGameRecord, data: Json): (r: Result<SteamGameRecord>)
    requires data.JObject?
    ensures r.Success? ==> r.value.(developers := g.developers, publishers := g.publishers,
                                    genres := g.genres, categories := g.categories) == g
    ensures r.Success? && (forall x | x in g.genres :: !IsNullOrEmpty(x)) ==>
      forall x | x in r.value.genres :: !IsNullOrEmpty(x)
    ensures r.Success? && (forall x | x in g.categories :: !IsNullOrEmpty(x)) ==>
      forall x | x in r.value.categories :: !IsNullOrEmpty(x)
  {
    var developers :- StringListField(data, "developers");
    var publishers :- StringListField(data, "publishers");
    var genres :- DescriptionListField(data, "genres");
    var categories :- DescriptionListField(data, "categories");
    Success(g.(developers := developers.GetOr(g.developers), publishers := publishers.GetOr(g.publishers),
               genres := genres.GetOr(g.genres), categories := categories.GetOr(g.categories)))
  }

  /** Each list is replaced by the values of its property exactly when that
      property is an array, and keeps its value otherwise; the step throws
      exactly when one of the arrays has an element that cannot be read. */
  lemma WithListsFields(g: SteamGameRecord, data: Json)
    requires data.JObject?
    ensures WithLists(g, data).Success? <==>
      && (IsArray(data, "developers") ==> StringValues(data.properties["developers"].items).Success?)
      && (IsArray(data, "publishers") ==> StringValues(data.properties["publishers"].items).Success?)
      && (IsArray(data, "genres") ==> Descriptions(data.properties["genres"].items).Success?)
      && (IsArray(data, "categories") ==> Descriptions(data.properties["categories"].items).Success?)
    ensures WithLists(g, data).Success? ==> var r := WithLists(g, data).value;
      && (IsArray(data, "developers") ==> Success(r.developers) == StringValues(data.properties["developers"].items))
      && (!IsArray(data, "developers") ==> r.developers == g.developers)
      && (IsArray(data, "publishers") ==> Success(r.publishers) == StringValues(data.properties["publishers"].items))
      && (!IsArray(data, "publishers") ==> r.publishers == g.publishers)
    ensures WithLists(g, data).Success? ==> var r := WithLists(g, data).value;
      && (IsArray(data, "genres") ==> Success(r.genres) == Descriptions(data.properties["genres"].items))
      && (!IsArray(data, "genres") ==> r.genres == g.genres)
      && (IsArray(data, "categories") ==> Success(r.categories) == Descriptions(data.properties["categories"].items))
      && (!IsArray(data, "categories") ==> r.categories == g.categories)
  {
  }

  /** The release date, set only when the details say the game is out and
      the date parses. */
  function WithReleaseDate(g: SteamGameRecord, data: Json, parseDate: string -> Option<DateTime>): (r: Result<SteamGameRecord>)
    requires data.JObject?
    ensures r.Success? ==> r.value.(releaseDate := g.releaseDate) == g
  {
    var date :- ReleaseDateField(data, parseDate);
    Success(if date.Some? then g.(releaseDate := date) else g)
  }

  /** The price: the overview's formatted price, or "Free" for a free game. */
  function WithPrice(g: SteamGameRecord, data: Json): (r: Result<SteamGameRecord>)
    requires data.JObject?
    ensures r.Success? ==> r.value.(price := g.price) == g
  {
    if Property(data, "price_overview").Some? then
      var price :- PriceField(data, g.isFree);
      Success(g.(price := price))
    else
      Success(if g.isFree then g.(price := Some("Free")) else g)
  }

  /** The game record built from the `data` object of one app's details. */
  function ReadGame(appId: string, data: Json, api: SteamApi): (r: Result<SteamGameRecord>)
    ensures r.Success? ==> data.JObject? && r.value.appId == Some(appId)
    ensures r.Success? ==> r.value.description.Some? && WellSpaced(r.value.description.value)
    ensures r.Success? ==> r.value.shortDescription.Some? && WellSpaced(r.value.shortDescription.value)
    ensures r.Success? ==> forall x | x in r.value.genres :: !IsNullOrEmpty(x)
    ensures r.Success? ==> forall x | x in r.value.categories :: !IsNullOrEmpty(x)
  {
    var g0 :- ReadScalars(appId, data, api.htmlDecode);
    var g1 :- WithLists(g0, data);
    var g2 :- WithReleaseDate(g1, data, api.parseDate);
    WithPrice(g2, data)
  }

  /** The game is the initializer's record with the lists, the release date
      and the price filled in from the same `data` object, and reading
      fails exactly when one of the four steps throws. */
  lemma ReadGameSteps(appId: string, data: Json, api: SteamApi)
    ensures ReadGame(appId, data, api).Success? <==>
      && ReadScalars(appId, data, api.htmlDecode).Success?
      && WithLists(ReadScalars(appId, data, api.htmlDecode).value, data).Success?
      && ReleaseDateField(data, api.parseDate).Success?
      && PriceField(data, ReadScalars(appId, data, api.htmlDecode).value.isFree).Success?
    ensures ReadGame(appId, data, api).Success? ==>
      var g := WithLists(ReadScalars(appId, data, api.htmlDecode).value, data).value;
      ReadGame(appId, data, api).value == g.(
        releaseDate := ReleaseDateField(data, api.parseDate).value,
        price := PriceField(data, g.isFree).value)
  {
  }

  /** `GetGameDetailsAsync(appId)` as a value: the game, or `None` when the
      request fails, the reply is not an object, the app is missing, its
      `success` flag is not true, it has no `data`, or any access throws. */
  function GameDetails(appId: NString, api: SteamApi): (r: Option<SteamGameRecord>)
    ensures r.Some? ==> appId.Some? && r.value.appId == appId
    ensures r.Some? ==>
      && api.appDetails(appId.value).Some?
      && var json := api.appDetails(appId.value).value;
         json.JObject? && appId.value in json.properties
         && BoolField(json.properties[appId.value], "success") == Success(Some(true))
    ensures r.Some? ==>
      var appData := api.appDetails(appId.value).value.properties[appId.value];
      && appData.JObject? && "data" in appData.properties
      && ReadGame(appId.value, appData.properties["data"], api) == Success(r.value)
    ensures r.Some? ==> r.value.description.Some? && WellSpaced(r.value.description.value)
    ensures r.Some? ==> r.value.shortDescription.Some? && WellSpaced(r.value.shortDescription.value)
    ensures r.Some? ==> forall g | g in r.value.genres :: !IsNullOrEmpty(g)
    ensures r.Some? ==> forall c | c in r.value.categories :: !IsNullOrEmpty(c)
  {
    match api.appDetails(appId.GetOr(""))
    case None => None
    case Some(json) =>
      if !json.JObject? || appId.None? then None
      else if appId.value !in json.properties then None
      else
        var appData := json.properties[appId.value];
        if BoolField(appData, "success") != Success(Some(true)) then None
        else
          var data := Property(appData, "data");
          if data.None? then None
          else
            ReadGame(appId.value, data.value, api).ToOption()
  }

  /** Conversely, a successful reply whose `data` object reads gives that game. */
  lemma GameDetailsFromData(appId: string, api: SteamApi)
    requires api.appDetails(appId).Some? && api.appDetails(appId).value.JObject?
    requires appId in api.appDetails(appId).value.properties
    requires var appData := api.appDetails(appId).value.properties[appId];
      && BoolField(appData, "success") == Success(Some(true))
      && appData.JObject? && "data" in appData.properties
      && ReadGame(appId, appData.properties["data"], api).Success?
    ensures GameDetails(Some(appId), api)
      == Some(ReadGame(appId, api.appDetails(appId).value.properties[appId].properties["data"], api).value)
  {
  }

  /** Without an overview the price is "Free" exactly for a free game; with
      one it is the overview's formatted price, whatever `is_free` says. */
  lemma WithPriceFollowsOverview(g: SteamGameRecord, data: Json)
    requires data.JObject? && g.price.None?
    requires WithPrice(g, data).Success?
    ensures "price_overview" !in data.properties ==>
      (WithPrice(g, data).value.price == Some("Free") <==> g.isFree)
    ensures "price_overview" in data.properties ==>
      Success(WithPrice(g, data).value.price) == StringField(data.properties["price_overview"], "final_formatted")
  {
  }

  /** A release date is reported only for a game whose details say it is out,
      and it is the parse of the details' date. */
  lemma WithReleaseDateOnlyWhenOut(g: SteamGameRecord, data: Json, parseDate: string -> Option<DateTime>)
    requires data.JObject? && g.releaseDate.None?
    requires WithReleaseDate(g, data, parseDate).Success?
    requires WithReleaseDate(g, data, parseDate).value.releaseDate.Some?
    ensures "release_date" in data.properties
    ensures BoolField(data.properties["release_date"], "coming_soon") == Success(Some(false))
    ensures var date := StringField(data.properties["release_date"], "date");
      date.Success? && !IsNullOrEmpty(date.value)
      && parseDate(date.value.value) == WithReleaseDate(g, data, parseDate).value.releaseDate
  {
  }

  /** `GetGameDetailsAsync`: builds the game property by property, as the
      service does, and gives null wherever the service returns or catches. */
  method GetGameDetails(appId: NString, api: SteamApi) returns (game: SteamGame?)
    ensures game == null <==> GameDetails(appId, api).None?
    ensures game != null ==> fresh(game) && game.Record() == GameDetails(appId, api).value
  {
    var response := api.appDetails(appId.GetOr(""));
    if response.None? || !response.value.JObject? || appId.None? {
      return null;
    }
    var json := response.value;
    if appId.value !in json.properties {
      return null;
    }
    var appData := json.properties[appId.value];
    if BoolField(appData, "success") != Success(Some(true)) {
      return null;
    }
    var data := Property(appData, "data");
    if data.None? {
      return null;
    }
    game := ReadGameInto(appId.value, data.value, api);
  }

  /** The body of `GetGameDetailsAsync` once the `data` object is found: the
      object initializer followed by the list, release date and price steps. */
  method ReadGameInto(appId: string, d: Json, api: SteamApi) returns (game: SteamGame?)
    ensures game == null <==> ReadGame(appId, d, api).Failure?
    ensures game != null ==> fresh(game) && game.Record() == ReadGame(appId, d, api).value
  {
    var scalars := ReadScalars(appId, d, api.htmlDecode);
    if scalars.Failure? {
      return null;
    }
    var g := Initialize(scalars.value);
    var ok := SetLists(g, d);
    if !ok {
      return null;
    }
    ok := SetReleaseDate(g, d, api.parseDate);
    if !ok {
      return null;
    }
    ok := SetPrice(g, d);
    if !ok {
      return null;
    }
    return g;
  }

  /** The object initializer: a new game holding the scalar properties,
      with the lists, release date and price it starts with. */
  method Initialize(s: SteamGameRecord) returns (g: SteamGame)
    requires s.developers == s.publishers == s.genres == s.categories == []
    requires s.releaseDate.None? && s.price.None?
    ensures fresh(g) && g.Record() == s
  {
    g := new SteamGame();
    g.appId := s.appId;
    g.name := s.name;
    g.description := s.description;
    g.shortDescription := s.shortDescription;
    g.headerImage := s.headerImage;
    g.backgroundImage := s.backgroundImage;
    g.isFree := s.isFree;
  }

  /** The developers, publishers, genres and categories steps; a list whose
      property is not an array keeps its value. */
  method SetLists(game: SteamGame, d: Json) returns (ok: bool)
    requires d.JObject?
    modifies game
    ensures ok <==> WithLists(old(game.Record()), d).Success?
    ensures ok ==> game.Record() == WithLists(old(game.Record()), d).value
  {
    var developers := StringListField(d, "developers");
    if developers.Failure? {
      return false;
    }
    game.developers := developers.value.GetOr(game.developers);
    var publishers := StringListField(d, "publishers");
    if publishers.Failure? {
      return false;
    }
    game.publishers := publishers.value.GetOr(game.publishers);
    var genres := DescriptionListField(d, "genres");
    if genres.Failure? {
      return false;
    }
    game.genres := genres.value.GetOr(game.genres);
    var categories := DescriptionListField(d, "categories");
    if categories.Failure? {
      return false;
    }
    game.categories := categories.value.GetOr(game.categories);
    return true;
  }

  /** The release date step. */
  method SetReleaseDate(game: SteamGame, d: Json, parseDate: string -> Option<DateTime>) returns (ok: bool)
    requires d.JObject?
    modifies game
    ensures ok <==> WithReleaseDate(old(game.Record()), d, parseDate).Success?
    ensures ok ==> game.Record() == WithReleaseDate(old(game.Record()), d, parseDate).value
  {
    var releaseDate := Property(d, "release_date");
    if releaseDate.Some? {
      var comingSoon := BoolField(releaseDate.value, "coming_soon");
      if comingSoon.Failure? {
        return false;
      }
      if comingSoon.value == Some(false) {
        var dateStr := AsString(Property(releaseDate.value, "date"));
        if dateStr.Failure? {
          return false;
        }
        if !IsNullOrEmpty(dateStr.value) {
          var parsed := parseDate(dateStr.value.value);
          if parsed.Some? {
            game.releaseDate := parsed;
          }
        }
      }
    }
    return true;
  }

  /** The price step. */
  method SetPrice(game: SteamGame, d: Json) returns (ok: bool)
    requires d.JObject?
    modifies game
    ensures ok <==> WithPrice(old(game.Record()), d).Success?
    ensures ok ==> game.Record() == WithPrice(old(game.Record()), d).value
  {
    var priceOverview := Property(d, "price_overview");
    if priceOverview.Some? {
      var finalFormatted := StringField(priceOverview.value, "final_formatted");
      if finalFormatted.Failure? {
        return false;
      }
      game.price := finalFormatted.value;
    } else if game.isFree {
      game.price := Some("Free");
    }
    return true;
  }

  // --------------------------------------------------------- SearchGamesAsync

  /** The entries `SearchGamesAsync` goes through: the first `maxResults`
      entries of the reply, none when the request fails. */
  function Candidates(searchTerm: NString, maxResults: int, api: SteamApi): (r: seq<Option<SteamApp>>)
    ensures |r| <= if maxResults < 0 then 0 else maxResults
    ensures api.searchApps(searchTerm.GetOr("")).None? ==> r == []
    ensures api.searchApps(searchTerm.GetOr("")).Some? ==> r <= api.searchApps(searchTerm.GetOr("")).value
    ensures api.searchApps(searchTerm.GetOr("")).Some? ==> r == Take(api.searchApps(searchTerm.GetOr("")).value, maxResults)
  {
    match api.searchApps(searchTerm.GetOr(""))
    case None => []
    case Some(apps) => Take(apps, maxResults)
  }

  /** What one entry contributes: its details, or nothing when its details
      are null. A null entry contributes nothing too, which is what the
      per-entry `catch` is for; as written, the walk never gets past one
      (`UntilNull`). */
  function Found(app: Option<SteamApp>, api: SteamApi): (r: seq<SteamGameRecord>)
    ensures |r| <= 1
    ensures r != [] <==> app.Some? && GameDetails(app.value.appid, api).Some?
  {
    if app.None? then []
    else
      match GameDetails(app.value.appid, api)
      case None => []
      case Some(game) => [game]
  }

  /** `Found` for one API. */
  function FoundWith(api: SteamApi): (found: Option<SteamApp> -> seq<SteamGameRecord>)
    ensures forall app :: found(app) == Found(app, api)
  {
    app => Found(app, api)
  }

  /** The entries the `foreach` gets through: those before the first null
      one. Reading `appid` of a null entry throws; the per-entry `catch`
      reads it again to build its log message, and that second exception
      ends the walk in the outer `catch`. */
  function UntilNull(items: seq<Option<SteamApp>>): (r: seq<Option<SteamApp>>)
    ensures r <= items
    ensures forall k | 0 <= k < |r| :: r[k].Some?
    ensures |r| < |items| ==> items[|r|].None?
  {
    if items == [] || items[0].None? then []
    else
      var rest := UntilNull(items[1..]);
      assert forall k | 1 <= k < |items| :: items[k] == items[1..][k - 1];
      [items[0]] + rest
  }

  /** `SearchGamesAsync(searchTerm, maxResults)` as a value: the details of
      the entries walked before the first null one. */
  function SearchResults(searchTerm: NString, maxResults: int, api: SteamApi): (r: seq<SteamGameRecord>)
    ensures api.searchApps(searchTerm.GetOr("")).None? || maxResults <= 0 ==> r == []
    ensures |r| <= |Candidates(searchTerm, maxResults, api)|
  {
    var walked := UntilNull(Candidates(searchTerm, maxResults, api));
    EnrichBounded(walked, FoundWith(api));
    Enrich(walked, FoundWith(api))
  }

  /** A null entry ends the search: only the games of the entries before it
      are returned, whatever follows. */
  lemma NullEntryEndsSearch(searchTerm: NString, maxResults: int, api: SteamApi,
                            a: seq<Option<SteamApp>>, b: seq<Option<SteamApp>>)
    requires Candidates(searchTerm, maxResults, api) == a + [None] + b
    requires forall k | 0 <= k < |a| :: a[k].Some?
    ensures SearchResults(searchTerm, maxResults, api) == Enrich(a, FoundWith(api))
  {
    UntilNullBefore(a, b);
  }

  /** The walk stops at the null entry after a run of non-null ones. */
  lemma {:induction false} UntilNullBefore(a: seq<Option<SteamApp>>, b: seq<Option<SteamApp>>)
    requires forall k | 0 <= k < |a| :: a[k].Some?
    ensures UntilNull(a + [None] + b) == a
  {
    var items := a + [None] + b;
    if a != [] {
      assert items[1..] == a[1..] + [None] + b;
      UntilNullBefore(a[1..], b);
      assert [a[0]] + a[1..] == a;
    }
  }

  /** The games the entries would give if a null entry were skipped instead,
      as the per-entry `catch` evidently intends. */
  function SearchResultsSkippingNull(searchTerm: NString, maxResults: int, api: SteamApi): (r: seq<SteamGameRecord>)
    ensures |r| <= |Candidates(searchTerm, maxResults, api)|
  {
    var apps := Candidates(searchTerm, maxResults, api);
    EnrichBounded(apps, FoundWith(api));
    Enrich(apps, FoundWith(api))
  }

  /** With the null entry skipped, an entry that fails (null, or without
      details) does not stop the others: the results are those of the
      remaining entries. */
  lemma SkippingNullSkipsFailure(searchTerm: NString, maxResults: int, api: SteamApi,
                                 a: seq<Option<SteamApp>>, app: Option<SteamApp>, b: seq<Option<SteamApp>>)
    requires Candidates(searchTerm, maxResults, api) == a + [app] + b
    requires app.None? || GameDetails(app.value.appid, api).None?
    ensures SearchResultsSkippingNull(searchTerm, maxResults, api) == Enrich(a + b, FoundWith(api))
  {
    EnrichDropsEmpty(a, app, b, FoundWith(api));
  }

  /** The two differ: with a null entry followed by an entry that has
      details, the search as written returns fewer games than the skipping
      one. */
  lemma NullEntryLosesLaterGames(searchTerm: NString, maxResults: int, api: SteamApi,
                                 a: seq<Option<SteamApp>>, b: seq<Option<SteamApp>>, k: nat)
    requires Candidates(searchTerm, maxResults, api) == a + [None] + b
    requires forall j | 0 <= j < |a| :: a[j].Some?
    requires k < |b| && b[k].Some? && GameDetails(b[k].value.appid, api).Some?
    ensures |SearchResults(searchTerm, maxResults, api)| < |SearchResultsSkippingNull(searchTerm, maxResults, api)|
  {
    NullEntryEndsSearch(searchTerm, maxResults, api, a, b);
    SkippingNullSkipsFailure(searchTerm, maxResults, api, a, None, b);
    EnrichAppend(a, b, FoundWith(api));
    EnrichNonEmpty(b, FoundWith(api), k);
  }

  /** The service never returns more games than `maxResults` or than the
      search gave entries, and none when the search fails or `maxResults` is
      not positive. */
  lemma SearchResultsBounded(searchTerm: NString, maxResults: int, api: SteamApi)
    ensures |SearchResults(searchTerm, maxResults, api)| <= if maxResults < 0 then 0 else maxResults
    ensures api.searchApps(searchTerm.GetOr("")).Some? ==>
      |SearchResults(searchTerm, maxResults, api)| <= |api.searchApps(searchTerm.GetOr("")).value|
    ensures api.searchApps(searchTerm.GetOr("")).None? ==> SearchResults(searchTerm, maxResults, api) == []
  {
  }

  /** An entry without details does not stop the others: the results are
      those of the remaining entries. */
  lemma EnrichSkipsFailure(a: seq<Option<SteamApp>>, app: Option<SteamApp>, b: seq<Option<SteamApp>>, api: SteamApi)
    requires app.Some? && GameDetails(app.value.appid, api).None?
    ensures Enrich(a + [app] + b, FoundWith(api)) == Enrich(a + b, FoundWith(api))
  {
    EnrichDropsEmpty(a, app, b, FoundWith(api));
  }

  /** When every entry has details, the results are those details, entry by
      entry and in the search's order. */
  lemma EnrichKeepsOrder(apps: seq<Option<SteamApp>>, api: SteamApi)
    requires forall k | 0 <= k < |apps| :: apps[k].Some? && GameDetails(apps[k].value.appid, api).Some?
    ensures |Enrich(apps, FoundWith(api))| == |apps|
    ensures forall k | 0 <= k < |apps| :: Enrich(apps, FoundWith(api))[k] == GameDetails(apps[k].value.appid, api).value
  {
    EnrichComplete(apps, FoundWith(api));
  }

  /** Every result is the details of one of the entries, under that entry's app id. */
  lemma EnrichFromEntries(apps: seq<Option<SteamApp>>, api: SteamApi)
    ensures forall r | r in Enrich(apps, FoundWith(api)) ::
      exists k | 0 <= k < |apps| :: apps[k].Some? && r.appId == apps[k].value.appid
                                    && GameDetails(apps[k].value.appid, api) == Some(r)
  {
    EnrichFromItems(apps, FoundWith(api));
  }

  /** `SearchGamesAsync`: walks the first `maxResults` entries and keeps the
      details of each entry that has them, in order, until a null entry
      ends the walk. */
  method SearchGames(searchTerm: NString, maxResults: int, api: SteamApi) returns (results: seq<SteamGame>)
    ensures Records(results) == SearchResults(searchTerm, maxResults, api)
    ensures forall g | g in results :: fresh(g)
  {
    results := [];
    var searchResults := api.searchApps(searchTerm.GetOr(""));
    if searchResults.None? || |searchResults.value| == 0 {
      return;
    }
    var limited := Take(searchResults.value, maxResults);
    var i := 0;
    while i < |limited|
      invariant 0 <= i <= |limited|
      invariant forall k | 0 <= k < i :: limited[k].Some?
      invariant Records(results) == Collected(limited, i, api)
      invariant forall g | g in results :: fresh(g)
    {
      if limited[i].None? {
        break;
      }
      var games := FetchEntry(limited[i].value, api);
      CollectStep(results, games, limited, i, api);
      PresentStep(limited, i);
      results := results + games;
      i := i + 1;
    }
    UntilNullAt(limited, i);
  }

  /** One more entry walked is present. */
  lemma PresentStep(items: seq<Option<SteamApp>>, i: nat)
    requires i < |items| && items[i].Some?
    requires forall k | 0 <= k < i :: items[k].Some?
    ensures forall k | 0 <= k < i + 1 :: items[k].Some?
  {
  }

  /** The games kept from the first `i` entries. */
  ghost function Collected(items: seq<Option<SteamApp>>, i: nat, api: SteamApi): seq<SteamGameRecord>
    requires i <= |items|
  {
    Enrich(items[..i], FoundWith(api))
  }

  /** A walk that has passed `i` non-null entries and stands at the end or
      at a null entry has walked `UntilNull`. */
  lemma UntilNullAt(items: seq<Option<SteamApp>>, i: nat)
    requires i <= |items|
    requires forall k | 0 <= k < i :: items[k].Some?
    requires i == |items| || items[i].None?
    ensures UntilNull(items) == items[..i]
  {
  }

  /** One more entry walked: its games come after the games of the entries before it. */
  lemma CollectStep(results: seq<SteamGame>, added: seq<SteamGame>, items: seq<Option<SteamApp>>, i: nat, api: SteamApi)
    requires i < |items|
    requires Records(results) == Collected(items, i, api)
    requires Records(added) == Found(items[i], api)
    ensures Records(results + added) == Collected(items, i + 1, api)
  {
    RecordsAppend(results, added);
    EnrichStep(items, i, FoundWith(api));
  }

  /** The body of the `foreach` for a non-null entry: its details, or
      nothing when they are null. */
  method FetchEntry(item: SteamApp, api: SteamApi) returns (games: seq<SteamGame>)
    ensures Records(games) == Found(Some(item), api)
    ensures forall g | g in games :: fresh(g)
  {
    games := [];
    var details := GetGameDetails(item.appid, api);
    if details != null {
      games := [details];
    }
  }
}
