/** The data model of the SteamSearchBrowser revision: the typed replies of
    the Steam search and app-details endpoints, and the enriched game record
    the service builds. A reference-typed property or list element that the
    JSON may leave null is an `Option`. */
module SteamSearchBrowserModels {
  import opened Wrappers
  import opened DotNet

  /** `SteamSearchItem`, one entry of the search reply. */
  datatype SteamSearchItem = SteamSearchItem(id: int, name: NString, itemType: NString, tinyImage: NString)

  /** `SteamAppDetailsResponse`, the value under one app id in the details reply. */
  datatype SteamAppDetailsResponse = SteamAppDetailsResponse(success: bool, data: Option<SteamAppDetails>)

  /** `SteamAppDetails`; a property missing from the JSON is null (`None`),
      or `false`/`0` for a value type. */
  datatype SteamAppDetails = SteamAppDetails(
    steamAppId: int,
    name: NString,
    appType: NString,
    isFree: bool,
    detailedDescription: NString,
    shortDescription: NString,
    aboutTheGame: NString,
    headerImage: NString,
    background: NString,
    screenshots: Option<seq<Option<SteamScreenshot>>>,
    developers: Option<seq<NString>>,
    publishers: Option<seq<NString>>,
    genres: Option<seq<Option<SteamGenre>>>,
    categories: Option<seq<Option<SteamCategory>>>,
    releaseDate: Option<SteamReleaseDate>,
    priceOverview: Option<SteamPriceOverview>)

  datatype SteamScreenshot = SteamScreenshot(id: int, pathThumbnail: NString, pathFull: NString)

  datatype SteamGenre = SteamGenre(id: NString, description: NString)

  datatype SteamCategory = SteamCategory(id: int, description: NString)

  datatype SteamReleaseDate = SteamReleaseDate(comingSoon: bool, date: NString)

  datatype SteamPriceOverview = SteamPriceOverview(
    currency: NString, initial: int, final: int, discountPercent: int, finalFormatted: NString)

  /** The value of every property of a `SteamGame` at one moment. */
  datatype SteamGameRecord = SteamGameRecord(
    appId: NString,
    name: NString,
    description: NString,
    detailedDescription: NString,
    shortDescription: NString,
    headerImage: NString,
    coverImage: NString,
    backgroundImage: NString,
    developers: seq<NString>,
    publishers: seq<NString>,
    genres: seq<NString>,
    categories: seq<NString>,
    releaseDate: Option<DateTime>,
    price: NString,
    isFree: bool,
    screenshots: seq<NString>,
    storeUrl: NString)

  /** `SteamGame`: a mutable record with a setter on every property,
      `StoreUrl` included. */
  class SteamGame {
    var appId: NString
    var name: NString
    var description: NString
    var detailedDescription: NString
    var shortDescription: NString
    var headerImage: NString
    var coverImage: NString
    var backgroundImage: NString
    var developers: seq<NString>
    var publishers: seq<NString>
    var genres: seq<NString>
    var categories: seq<NString>
    var releaseDate: Option<DateTime>
    var price: NString
    var isFree: bool
    var screenshots: seq<NString>
    var storeUrl: NString

    /** A new game: the five lists empty, every other property unset. */
    constructor ()
      ensures Record() == SteamGameRecord(None, None, None, None, None, None, None, None,
                                          [], [], [], [], None, None, false, [], None)
    {
      appId := None;
      name := None;
      description := None;
      detailedDescription := None;
      shortDescription := None;
      headerImage := None;
      coverImage := None;
      backgroundImage := None;
      developers := [];
      publishers := [];
      genres := [];
      categories := [];
      releaseDate := None;
      price := None;
      isFree := false;
      screenshots := [];
      storeUrl := None;
    }

    function Record(): SteamGameRecord
      reads this
    {
      SteamGameRecord(appId, name, description, detailedDescription, shortDescription, headerImage,
                      coverImage, backgroundImage, developers, publishers, genres, categories,
                      releaseDate, price, isFree, screenshots, storeUrl)
    }

    /** Setting `AppId` leaves `StoreUrl` as it was: the two are independent. */
    method SetAppId(value: NString)
      modifies this
      ensures Record() == old(Record()).(appId := value)
    {
      appId := value;
    }
  }

  /** The records of a list of games, in order. */
  function Records(games: seq<SteamGame>): (r: seq<SteamGameRecord>)
    reads games
    ensures |r| == |games|
    ensures forall i | 0 <= i < |games| :: r[i] == games[i].Record()
  {
    if games == [] then [] else Records(games[..|games| - 1]) + [games[|games| - 1].Record()]
  }

  lemma RecordsAppend(a: seq<SteamGame>, b: seq<SteamGame>)
    ensures Records(a + b) == Records(a) + Records(b)
  {
  }
}
