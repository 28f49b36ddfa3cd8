/** The data model of the GamePassCatalogBrowser revision of the Steam search
    browser: one result of the Steam app search and the enriched game record
    the service builds from the app details. */
module GamePassSteamModels {
  import opened Wrappers
  import opened DotNet
  import Steam

  /** `SteamSearchResponse.SteamApp`, one element of the search reply. */
  datatype SteamApp = SteamApp(appid: NString, name: NString, logo: NString)

  /** The value of every property of a `SteamGame` at one moment. */
  datatype SteamGameRecord = SteamGameRecord(
    appId: NString,
    name: NString,
    description: NString,
    shortDescription: NString,
    headerImage: NString,
    backgroundImage: NString,
    developers: seq<NString>,
    publishers: seq<NString>,
    genres: seq<NString>,
    categories: seq<NString>,
    releaseDate: Option<DateTime>,
    price: NString,
    isFree: bool)

  /** `SteamGame`, a mutable record whose properties the service sets one by one. */
  class SteamGame {
    var appId: NString
    var name: NString
    var description: NString
    var shortDescription: NString
    var headerImage: NString
    var backgroundImage: NString
    var developers: seq<NString>
    var publishers: seq<NString>
    var genres: seq<NString>
    var categories: seq<NString>
    var releaseDate: Option<DateTime>
    var price: NString
    var isFree: bool

    /** A new game: every string null, every list empty, no release date, not free. */
    constructor ()
      ensures Record() == SteamGameRecord(None, None, None, None, None, None, [], [], [], [], None, None, false)
    {
      appId := None;
      name := None;
      description := None;
      shortDescription := None;
      headerImage := None;
      backgroundImage := None;
      developers := [];
      publishers := [];
      genres := [];
      categories := [];
      releaseDate := None;
      price := None;
      isFree := false;
    }

    function Record(): SteamGameRecord
      reads this
    {
      SteamGameRecord(appId, name, description, shortDescription, headerImage, backgroundImage,
                      developers, publishers, genres, categories, releaseDate, price, isFree)
    }

    /** The store page of the game, read from `AppId` alone: recovering the
        app id from it gives the app id back, and an unset app id gives the
        bare prefix. */
    function StoreUrl(): (url: string)
      reads this`appId
      ensures Steam.AppIdOfStoreUrl(url) == Some(appId.GetOr(""))
      ensures appId.None? ==> url == Steam.StoreUrlPrefix
    {
      Steam.StoreUrlFor(appId)
    }
  }

  /** The records of a list of games, in order. */
  function Records(games: seq<SteamGame>): (r: seq<SteamGameRecord>)
    reads games
    ensures |r| == |games|
    ensures forall i | 0 <= i < |games| :: r[i] == games[i].Record()
  {
    if games == [] then [] else Records(games[..|games| - 1]) + [games[|games| - 1].Record()]
  }

  lemma RecordsAppend(a: seq<SteamGame>, b: seq<SteamGame>)
    ensures Records(a + b) == Records(a) + Records(b)
  {
  }
}
