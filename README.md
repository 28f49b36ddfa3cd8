# Steam search for Playnite, modelled in Dafny

This project models the Steam search pipeline of two Playnite plugins:
search the Steam store, enrich each hit with its app details, check the
Playnite library for duplicates, and add the chosen game to the library.
The pipeline exists in two revisions whose rules differ, and both are
modelled:

- **SteamSearchBrowser**: modules `SteamSearchBrowserModels`,
  `SteamSearchBrowserService` and `SteamSearchBrowserViewModels`.
- **GamePassCatalogBrowser** (its Steam search window): modules
  `GamePassSteamModels`, `GamePassSteamService` and `GamePassSteamViewModel`.

Shared modules:

- `Wrappers`: `Option`, and `Result` for "this .NET call throws".
- `DotNet`: null strings, `char.IsWhiteSpace`, `Trim`, ordinal-ignore-case
  comparison, integer formatting and LINQ `Take`.
- `Markup`: the regular expressions `<.*?>` and `\s+` of `StripHtml`, with
  their proofs.
- `Json`: the Newtonsoft `JToken` accessors that the GamePassCatalogBrowser
  revision reads its reply with.
- `Steam`: the store URL template and its inverse.
- `Playnite`: an in-memory library of games, named items (companies, genres,
  tags, platforms, sources) and attached files.
- `SteamSearchRevisions`: where the two revisions disagree, shown on concrete
  inputs.

How the model represents the program:

- `SteamGame` and both view models are classes whose fields the methods
  update. `Record()` gives the value view that the contracts use.
- Each service operation is a method proved against a specification
  function of the same name family: `GetGameDetails` against `GameDetails`,
  and the search loops against `SearchResults`.
- The Steam web API, `HttpUtility.HtmlDecode` and `DateTime.TryParse` are
  function-typed fields of a `SteamApi` value. The HTTP URL encoding is
  folded into the search oracle.
- Each image download is a boolean parameter: did it succeed?

Rules that are easy to misread:

- SteamSearchBrowser picks the description source with `??`, so the first
  non-null of `AboutTheGame`, `DetailedDescription` and `ShortDescription`
  wins. An empty `AboutTheGame` still wins over a full detailed description.
- GamePassCatalogBrowser describes a game by `detailed_description` alone.
- The SteamSearchBrowser duplicate check compares names ignoring case from
  any source, plus the id. The GamePassCatalogBrowser check compares names
  exactly, only for games whose source is "Steam", and also accepts the id
  `"steam_" + AppId`.
- In SteamSearchBrowser, `StoreUrl` is a plain settable property, filled in
  when the details are read. Only in GamePassCatalogBrowser is it derived
  from `AppId`.

Playnite's own behaviour is not part of the shown source; the model assumes
it as follows:

- `collection.Add(name)` returns the first item whose name equals `name`
  ignoring case, or else appends a new item with that name.
- A null or empty name makes `Add(name)` throw.
- Every new database object gets a fresh id. Ids come from a counter in
  place of `Guid.NewGuid()`.
- `Database.Games` and every item collection (sources, platforms,
  companies, genres, tags) enumerate in insertion order. The model's
  sequences keep that order. Three rules depend on it: which game
  `ExistingGame` meets first (and so whether a nameless game makes the add
  check throw before a match is found), which of several "Steam" sources
  `FirstNamed` picks, and which item `AddNamed` returns as the first match.

## Model

| member | source | states |
|---|---|---|
| DotNet.LeadingBlanks | source/Generic/SteamSearchBrowser/Services/SteamSearchService.cs:200 | counts the white space `Trim` skips at the front: all of it blank, and the next character, if any, is not |
| DotNet.TrimStart | source/Generic/SteamSearchBrowser/Services/SteamSearchService.cs:200 | drops exactly the leading white space: the result is a suffix of the input, what was dropped is blank, and it does not start with white space |
| DotNet.TrimEnd | source/Generic/SteamSearchBrowser/Services/SteamSearchService.cs:200 | drops exactly the trailing white space: the result is a prefix of the input, what was dropped is blank, and it does not end with white space |
| DotNet.Trim | source/Generic/SteamSearchBrowser/Services/SteamSearchService.cs:200 | `string.Trim()`: neither end of the result is white space, the result is empty exactly for blank input, and it is no longer than the input |
| DotNet.TrimStartAppend | source/Generic/SteamSearchBrowser/Services/SteamSearchService.cs:200 | trimming the front of `a + c` trims within `a` when `a` is not blank, and skips all of `a` when it is |
| DotNet.NatToString | source/Generic/SteamSearchBrowser/ViewModels/SteamSearchBrowserViewModel.cs:169 | a count is written as a non-empty run of decimal digits |
| DotNet.NatToStringRoundTrip | source/Generic/SteamSearchBrowser/ViewModels/SteamSearchBrowserViewModel.cs:169 | the decimal digits written for a count read back as that count |
| DotNet.IntToStringRoundTrip | source/Generic/SteamSearchBrowser/Services/SteamSearchService.cs:169 | `int.ToString()`: a leading minus sign exactly for negative numbers, then decimal digits that read back as the magnitude |
| DotNet.Take | source/Generic/GamePassCatalogBrowser/Services/SteamSearchService.cs:44 | LINQ `Take(n)`: none for `n <= 0`, exactly `n` when there are enough, all when there are fewer, always a prefix |
| DotNet.TakeCons | source/Generic/SteamSearchBrowser/Services/SteamSearchService.cs:58 | taking `n` from a sequence with one more element in front takes that element and `n - 1` from the rest |
| Markup.TagEnd | source/Generic/SteamSearchBrowser/Services/SteamSearchService.cs:194 | the lazy `.*?>` stops at the first `>`, and fails when a line break comes first |
| Markup.StripTags | source/Generic/GamePassCatalogBrowser/Services/SteamSearchService.cs:176 | `Regex.Replace(s, "<.*?>", replacement)` with a replacement of at most one character (both revisions) never makes the text longer |
| Markup.StripTagsWithoutOpen | source/Generic/SteamSearchBrowser/Services/SteamSearchService.cs:194 | text without a `<` passes tag removal unchanged |
| Markup.StripTagsTag | source/Generic/GamePassCatalogBrowser/Services/SteamSearchService.cs:176 | in `a + "<" + t + ">" + c`, with no `<` in `a` and no `>` or line break in `t`, the tag becomes the replacement, `a` is kept, and `c` is processed on its own |
| Markup.StripTagsKeepsUnclosed | source/Generic/SteamSearchBrowser/Services/SteamSearchService.cs:194 | a `<` with no `>` before the next line break survives tag removal |
| Markup.StripTagsLeavesNoTag | source/Generic/GamePassCatalogBrowser/Services/SteamSearchService.cs:176 | when the replacement holds no `<`, tag removal leaves no complete tag behind |
| Markup.StripTagsFixesTagFree | source/Generic/GamePassCatalogBrowser/Services/SteamSearchService.cs:176 | text without tags passes tag removal unchanged |
| Markup.StripTagsIdempotent | source/Generic/SteamSearchBrowser/Services/SteamSearchService.cs:194 | removing tags twice is the same as removing them once |
| Markup.CollapseWhiteSpace | source/Generic/GamePassCatalogBrowser/Services/SteamSearchService.cs:182 | `Regex.Replace(s, @"\s+", " ")`: empty exactly for empty input, starts with white space exactly when the input does, no two white-space characters in a row, every white space a plain space |
| Markup.CollapseRun | source/Generic/GamePassCatalogBrowser/Services/SteamSearchService.cs:182 | a maximal run of white space between two texts becomes exactly one space, and each text is collapsed on its own: `Collapse(a + w + b) == Collapse(a) + " " + Collapse(b)` |
| Markup.CollapseLast | source/Generic/GamePassCatalogBrowser/Services/SteamSearchService.cs:182 | the collapse ends in white space exactly when the input does |
| Markup.CollapseFixesSpaced | source/Generic/GamePassCatalogBrowser/Services/SteamSearchService.cs:182 | text whose only white space is single spaces passes `\s+` → " " unchanged |
| Markup.TrimKeepsNonWhiteSpace | source/Generic/SteamSearchBrowser/Services/SteamSearchService.cs:200 | trimming removes no visible character |
| Markup.CollapseKeepsNonWhiteSpace | source/Generic/GamePassCatalogBrowser/Services/SteamSearchService.cs:182 | collapsing white space keeps every visible character, in order |
| Markup.Normalize | source/Generic/SteamSearchBrowser/Services/SteamSearchService.cs:200 | collapse then trim: single plain spaces between words and none at either end, the same visible characters in the same order, empty exactly for blank input |
| Markup.NormalizeRun | source/Generic/SteamSearchBrowser/Services/SteamSearchService.cs:200 | two texts with visible ends joined by any run of white space normalise to the two normalised texts joined by one space |
| Markup.NormalizeFixesWellSpaced | source/Generic/SteamSearchBrowser/Services/SteamSearchService.cs:200 | already tidy text is unchanged by the clean-up |
| Markup.NormalizeIdempotent | source/Generic/GamePassCatalogBrowser/Services/SteamSearchService.cs:182-184 | cleaning up white space twice is the same as once |
| Json.Get | source/Generic/GamePassCatalogBrowser/Services/SteamSearchService.cs:82 | the `JToken` indexer: throws unless the token is an object; otherwise the property, null when missing |
| Json.AsString | source/Generic/GamePassCatalogBrowser/Services/SteamSearchService.cs:98-102 | `?.Value<string>()`: null for a missing or null token, the text of a string, throws for an array or object |
| Json.AsBool | source/Generic/GamePassCatalogBrowser/Services/SteamSearchService.cs:103 | `?.Value<bool>()`: null for a missing token, the value of a boolean, and it throws for a JSON null |
| Json.StringField | source/Generic/GamePassCatalogBrowser/Services/SteamSearchService.cs:98 | `token["key"]?.Value<string>()`: succeeds only on an object, and then reads that property |
| Json.BoolField | source/Generic/GamePassCatalogBrowser/Services/SteamSearchService.cs:84 | `token["key"]?.Value<bool>()`: succeeds only on an object, and then reads that property |
| Json.StringValues | source/Generic/GamePassCatalogBrowser/Services/SteamSearchService.cs:110 | `Values<string>()`: one string per element, in order; throws exactly when some element is not a primitive |
| Steam.StoreUrlFor | source/Generic/GamePassCatalogBrowser/Models/SteamGame.cs:21 | the store prefix followed by the app id, nothing after the prefix for a null id |
| Steam.AppIdOfStoreUrl | source/Generic/GamePassCatalogBrowser/Models/SteamGame.cs:21 | an app id is recovered exactly from URLs that start with the store prefix |
| Steam.StoreUrlRoundTrip | source/Generic/SteamSearchBrowser/Services/SteamSearchService.cs:120 | the store URL of an app id gives that app id back |
| Batch.EnrichAppend | source/Generic/SteamSearchBrowser/Services/SteamSearchService.cs:166-178 | enriching two runs of items one after the other gives the two results concatenated |
| Batch.EnrichStep | source/Generic/SteamSearchBrowser/Services/SteamSearchService.cs:166-178 | one more loop turn appends what the next item contributes, after the results so far |
| Batch.EnrichDropsEmpty | source/Generic/GamePassCatalogBrowser/Services/SteamSearchService.cs:49-63 | an item that yields nothing drops out without disturbing the items around it |
| Batch.EnrichNonEmpty | source/Generic/GamePassCatalogBrowser/Services/SteamSearchService.cs:52-54 | an item that contributes a result leaves the whole walk with a result |
| Batch.EnrichBounded | source/Generic/SteamSearchBrowser/Services/SteamSearchService.cs:166-178 | with at most one result per item, there are no more results than items |
| Batch.EnrichComplete | source/Generic/SteamSearchBrowser/Services/SteamSearchService.cs:166-178 | when every item yields one result, the results are those, in item order |
| Batch.EnrichFromItems | source/Generic/GamePassCatalogBrowser/Services/SteamSearchService.cs:47-63 | every result comes from one of the items |
| Playnite.NewGame | source/Generic/SteamSearchBrowser/ViewModels/SteamSearchBrowserViewModel.cs:215 | `new Game(name)`: the given id and name, no game id, links, source or images, not installed |
| Playnite.IndexIgnoringCase | source/Generic/GamePassCatalogBrowser/ViewModels/SteamSearchBrowserViewModel.cs:200 | the first item whose name equals the given name ignoring case; none exactly when no item does |
| Playnite.AddName | source/Generic/GamePassCatalogBrowser/ViewModels/SteamSearchBrowserViewModel.cs:200 | `collection.Add(name)` on the catalog as a value: the collection only grows, by at most one item; other collections untouched; the id counter never goes back |
| Playnite.AddNameFindsFirst | source/Generic/GamePassCatalogBrowser/ViewModels/SteamSearchBrowserViewModel.cs:200 | the answer is in the collection with that name ignoring case; nothing changes exactly when some item already matches, and then it is the first match; otherwise it is a new item under the next id, appended |
| Playnite.FirstNamed | source/Generic/SteamSearchBrowser/ViewModels/SteamSearchBrowserViewModel.cs:231 | `FirstOrDefault(s => s.Name == name)`: the first item (in insertion order) named exactly so, and none only when no item is |
| Playnite.ItemById | source/Generic/GamePassCatalogBrowser/ViewModels/SteamSearchBrowserViewModel.cs:163 | the first item with the id a game's `SourceId` refers to; none for no id or an unknown id |
| Playnite.SourceName | source/Generic/GamePassCatalogBrowser/ViewModels/SteamSearchBrowserViewModel.cs:163 | `g.Source?.Name`: the name of the first source whose id the game records; null when the game has no source id, and set only to the name of such a source |
| Playnite.ResolvedGrows | source/Generic/GamePassCatalogBrowser/ViewModels/SteamSearchBrowserViewModel.cs:196-213 | ids resolved against a collection stay valid while the collection only grows (developers, then publishers, share the companies) |
| Playnite.ReplaceById | source/Generic/GamePassCatalogBrowser/ViewModels/SteamSearchBrowserViewModel.cs:284 | `Games.Update(g)`: the stored game with `g`'s id becomes `g`, every other game stays |
| Playnite.ReplaceAppended | source/Generic/GamePassCatalogBrowser/ViewModels/SteamSearchBrowserViewModel.cs:250-284 | updating the game that was just added changes only that game |
| Playnite.Library.constructor | source/Generic/GamePassCatalogBrowser/ViewModels/SteamSearchBrowserViewModel.cs:98-101 | an empty library |
| Playnite.Library.NewId | source/Generic/SteamSearchBrowser/ViewModels/SteamSearchBrowserViewModel.cs:215 | a new object gets an id no stored game has; nothing else changes |
| Playnite.Library.AddNamed | source/Generic/GamePassCatalogBrowser/ViewModels/SteamSearchBrowserViewModel.cs:200 | `collection.Add(name)`: the first item with that name ignoring case if one exists (nothing changes), else one new item appended; throws on a null or empty name and changes nothing |
| Playnite.Library.AddItem | source/Generic/SteamSearchBrowser/ViewModels/SteamSearchBrowserViewModel.cs:235 | `Sources.Add(source)`: appends exactly that item to that collection |
| Playnite.Library.AddFile | source/Generic/SteamSearchBrowser/ViewModels/SteamSearchBrowserViewModel.cs:250 | `Database.AddFile(path, game.Id)`: one new file owned by the game |
| Playnite.Library.AddGame | source/Generic/SteamSearchBrowser/ViewModels/SteamSearchBrowserViewModel.cs:292 | `Games.Add(game)`: the game is appended, nothing else changes |
| Playnite.Library.UpdateGame | source/Generic/GamePassCatalogBrowser/ViewModels/SteamSearchBrowserViewModel.cs:284 | `Games.Update(game)`: the stored game with that id is replaced |
| SteamSearchBrowserModels.SteamGame.constructor | source/Generic/SteamSearchBrowser/Models/SteamGame.cs:26-33 | a new game has empty developer, publisher, genre, category and screenshot lists, and every other property unset (no release date, no store URL) |
| SteamSearchBrowserModels.SteamGame.SetAppId | source/Generic/SteamSearchBrowser/Models/SteamGame.cs:8-24 | setting `AppId` changes only `AppId`: the store URL is a property of its own |
| SteamSearchBrowserModels.Records | source/Generic/SteamSearchBrowser/Services/SteamSearchService.cs:163 | the value view of a list of games, one record per game, in order |
| SteamSearchBrowserService.StripHtml | source/Generic/SteamSearchBrowser/Services/SteamSearchService.cs:186-203 | null or blank input gives ""; otherwise exactly `Normalize(HtmlDecode(StripTags(html, "")))`; the output never starts or ends with white space, has no two white-space characters in a row, and has the visible characters of the decoded text with its tags removed |
| SteamSearchBrowserService.StripHtmlKeepsPlainText | source/Generic/SteamSearchBrowser/Services/SteamSearchService.cs:186-203 | tidy text with no tags and no entities comes back unchanged |
| SteamSearchBrowserService.IsGameTypeExact | source/Generic/SteamSearchBrowser/Services/SteamSearchService.cs:58 | the type test is exact and case-sensitive: a hit without a type is not a game, nor is one typed "App", "Game" or "dlc" |
| SteamSearchBrowserService.GameItems | source/Generic/SteamSearchBrowser/Services/SteamSearchService.cs:58 | the hits of type "app" or "game", exactly those, in the order of the reply |
| SteamSearchBrowserService.GameItemsAppend | source/Generic/SteamSearchBrowser/Services/SteamSearchService.cs:58 | the games of two runs of hits are the games of each run, in order |
| SteamSearchBrowserService.FilterGames | source/Generic/SteamSearchBrowser/Services/SteamSearchService.cs:58-59 | the lazy `Where(...).Take(50)`: at most `limit` games, all of type "app" or "game"; it fails only when the reply holds a null hit |
| SteamSearchBrowserService.FilterGamesIsTakeOfGames | source/Generic/SteamSearchBrowser/Services/SteamSearchService.cs:58-59 | without null hits, the pipeline gives the first `limit` games of the reply, in order |
| SteamSearchBrowserService.SearchGames | source/Generic/SteamSearchBrowser/Services/SteamSearchService.cs:33-66 | a blank query or a failed download gives no hits; otherwise the lazy filter of the reply (empty when it throws on a null hit): at most 50 hits, all of type "app" or "game" |
| SteamSearchBrowserService.SearchGamesTakesFirstGames | source/Generic/SteamSearchBrowser/Services/SteamSearchService.cs:55-59 | for a non-blank query whose reply has no null hits, exactly the first 50 games of the reply, in its order |
| SteamSearchBrowserService.SelectAll | source/Generic/SteamSearchBrowser/Services/SteamSearchService.cs:116-119 | `Select(x => x.Field).ToList()`: throws exactly when an element is null; otherwise one value per element, in order |
| SteamSearchBrowserService.SelectOrEmpty | source/Generic/SteamSearchBrowser/Services/SteamSearchService.cs:116-119 | a missing list becomes an empty list |
| SteamSearchBrowserService.Initial | source/Generic/SteamSearchBrowser/Services/SteamSearchService.cs:104-121 | the object initializer: the requested app id, the store URL of that id, missing developer, publisher, genre, category and screenshot lists become empty, a well-spaced description; it fails exactly when a list holds a null entry |
| SteamSearchBrowserService.WithReleaseDate | source/Generic/SteamSearchBrowser/Services/SteamSearchService.cs:124-130 | the release-date step changes only the release date |
| SteamSearchBrowserService.WithPrice | source/Generic/SteamSearchBrowser/Services/SteamSearchService.cs:133-140 | the price step changes only the price |
| SteamSearchBrowserService.ReadGame | source/Generic/SteamSearchBrowser/Services/SteamSearchService.cs:104-140 | the game record fails exactly when the initializer does, and differs from the initializer's record only in release date and price |
| SteamSearchBrowserService.GameDetails | source/Generic/SteamSearchBrowser/Services/SteamSearchService.cs:71-149 | a game only when the reply has the app's entry, the entry is a success and has data; the game carries the requested id and the store URL of that id, with a well-spaced description |
| SteamSearchBrowserService.DescriptionPrefersAboutTheGame | source/Generic/SteamSearchBrowser/Services/SteamSearchService.cs:108 | the description is the stripped first non-null of `AboutTheGame`, `DetailedDescription` and `ShortDescription`: `AboutTheGame` whenever it is non-null, even when empty; else the detailed description; else the short description; "" when all three are null |
| SteamSearchBrowserService.ReleaseDateOnlyWhenOut | source/Generic/SteamSearchBrowser/Services/SteamSearchService.cs:124-130 | a release date is set exactly when the details have one, it is not "coming soon", and its date parses; it is that parse |
| SteamSearchBrowserService.PriceFollowsOverview | source/Generic/SteamSearchBrowser/Services/SteamSearchService.cs:133-140 | with an overview the price is its formatted price, even for a free game; without one it is "Free" exactly for a free game, else unset |
| SteamSearchBrowserService.GetGameDetails | source/Generic/SteamSearchBrowser/Services/SteamSearchService.cs:71-149 | the method returns null exactly when `GameDetails` has no game, and otherwise a new game whose record is `GameDetails` |
| SteamSearchBrowserService.NewSteamGame | source/Generic/SteamSearchBrowser/Services/SteamSearchService.cs:104-121 | the initializer as a method: null exactly when `Initial` fails, else a new game holding `Initial` |
| SteamSearchBrowserService.SetTexts | source/Generic/SteamSearchBrowser/Services/SteamSearchService.cs:106-113 | the text properties of the initializer are set and nothing else |
| SteamSearchBrowserService.SetCollections | source/Generic/SteamSearchBrowser/Services/SteamSearchService.cs:114-120 | the list, flag and link properties of the initializer are set and nothing else |
| SteamSearchBrowserService.Found | source/Generic/SteamSearchBrowser/Services/SteamSearchService.cs:168-174 | one hit contributes at most one game, and one exactly when its details exist |
| SteamSearchBrowserService.DetailsRequests | source/Generic/SteamSearchBrowser/Services/SteamSearchService.cs:169 | one details request per fetched hit, for that hit's id, in order |
| SteamSearchBrowserService.SearchResults | source/Generic/SteamSearchBrowser/Services/SteamSearchService.cs:154-181 | no games for a blank query or `maxResults <= 0`, and no more games than hits fetched |
| SteamSearchBrowserService.RequestsOnlyForHits | source/Generic/SteamSearchBrowser/Services/SteamSearchService.cs:156-161 | a blank query makes no request at all; with no hits, or `maxResults <= 0`, no details request is made |
| SteamSearchBrowserService.SearchResultsBounded | source/Generic/SteamSearchBrowser/Services/SteamSearchService.cs:164-178 | at most `min(hits, maxResults)` games, and none when `maxResults` is not positive |
| SteamSearchBrowserService.EnrichSkipsFailure | source/Generic/SteamSearchBrowser/Services/SteamSearchService.cs:171-174 | a hit without details is left out and the other hits are still fetched |
| SteamSearchBrowserService.EnrichKeepsOrder | source/Generic/SteamSearchBrowser/Services/SteamSearchService.cs:166-178 | when every hit has details, the games are those details in hit order |
| SteamSearchBrowserService.EnrichFromHits | source/Generic/SteamSearchBrowser/Services/SteamSearchService.cs:166-178 | every game is the details of one of the hits, under that hit's id |
| SteamSearchBrowserService.SearchAndGetDetails | source/Generic/SteamSearchBrowser/Services/SteamSearchService.cs:154-181 | the games are `SearchResults`, new objects, and the requests made are a search (unless the query is blank) followed by one details request per fetched hit |
| SteamSearchBrowserService.FetchFirst | source/Generic/SteamSearchBrowser/Services/SteamSearchService.cs:164-178 | the `for` loop: the details of the first `resultsToFetch` hits, in order, and one request per hit |
| SteamSearchBrowserService.FetchDetails | source/Generic/SteamSearchBrowser/Services/SteamSearchService.cs:169-174 | the loop body adds the hit's details when they are not null |
| SteamSearchBrowserViewModels.PromptText | source/Generic/SteamSearchBrowser/ViewModels/SteamSearchBrowserViewModel.cs:129 | the localized prompt when there is one, else "Enter a game name to search Steam..." |
| SteamSearchBrowserViewModels.ExistingGame | source/Generic/SteamSearchBrowser/ViewModels/SteamSearchBrowserViewModel.cs:140-142 | the first library game with the same name ignoring case or the same non-null id ignoring case; none exactly when every game is named and none matches; it throws only if some game is nameless |
| SteamSearchBrowserViewModels.ExistingGameAppend | source/Generic/SteamSearchBrowser/ViewModels/SteamSearchBrowserViewModel.cs:140-142 | a game appended to the library is reached only after every earlier game |
| SteamSearchBrowserViewModels.ExistingGameFindsMatch | source/Generic/SteamSearchBrowser/ViewModels/SteamSearchBrowserViewModel.cs:140-144 | in a library without nameless games, the scan finds a game exactly when some game matches by name or id, whatever its source |
| SteamSearchBrowserViewModels.SteamSource | source/Generic/SteamSearchBrowser/ViewModels/SteamSearchBrowserViewModel.cs:231-237 | an existing source named exactly "Steam" is reused and the sources stay as they were; otherwise exactly one new "Steam" source is appended |
| SteamSearchBrowserViewModels.AttachImage | source/Generic/SteamSearchBrowser/ViewModels/SteamSearchBrowserViewModel.cs:239-259 | an image is stored for the game exactly when its URL is set and the download succeeds; a failed download changes nothing |
| SteamSearchBrowserViewModels.AttachImages | source/Generic/SteamSearchBrowser/ViewModels/SteamSearchBrowserViewModel.cs:239-281 | the cover, then the background: each stored exactly when its URL is set and its download succeeds, owned by the game; the files grow by exactly those images, in that order, and the game, games and items are otherwise untouched |
| SteamSearchBrowserViewModels.BuildGame | source/Generic/SteamSearchBrowser/ViewModels/SteamSearchBrowserViewModel.cs:215-290 | the game gets a new id and the Steam game's name, id, description and release date; names for companies and genres, no tags; a store link only when the store URL is non-empty; the first source named exactly "Steam", or exactly one new one appended; the files grow by exactly its attached images; no other collection and no game changes |
| SteamSearchBrowserViewModels.SteamSearchBrowserViewModel.constructor | source/Generic/SteamSearchBrowser/ViewModels/SteamSearchBrowserViewModel.cs:123-130 | an empty result list, no search yet, and the prompt as status |
| SteamSearchBrowserViewModels.SteamSearchBrowserViewModel.AddButtonStatus | source/Generic/SteamSearchBrowser/ViewModels/SteamSearchBrowserViewModel.cs:132-145 | false for no game; otherwise true exactly when no library game matches by name or id ignoring case; it throws when the scan meets a nameless game first |
| SteamSearchBrowserViewModels.SteamSearchBrowserViewModel.SetSelectedSteamGame | source/Generic/SteamSearchBrowser/ViewModels/SteamSearchBrowserViewModel.cs:55-64 | the selection becomes the new value, and the add button becomes the duplicate check's answer for it |
| SteamSearchBrowserViewModels.SteamSearchBrowserViewModel.CanSearch | source/Generic/SteamSearchBrowser/ViewModels/SteamSearchBrowserViewModel.cs:188-194 | a search can be started exactly when none is running |
| SteamSearchBrowserViewModels.SteamSearchBrowserViewModel.ShowResults | source/Generic/SteamSearchBrowser/ViewModels/SteamSearchBrowserViewModel.cs:120 | the result list shows only for a finished search with games, and never before any search |
| SteamSearchBrowserViewModels.SteamSearchBrowserViewModel.ShowEmptyState | source/Generic/SteamSearchBrowser/ViewModels/SteamSearchBrowserViewModel.cs:121 | the empty state shows before any search, not while a later search runs, and when idle exactly when the result list does not |
| SteamSearchBrowserViewModels.SteamSearchBrowserViewModel.CanAdd | source/Generic/SteamSearchBrowser/ViewModels/SteamSearchBrowserViewModel.cs:308 | the add command can run exactly when the add button is enabled, whatever its parameter |
| SteamSearchBrowserViewModels.SteamSearchBrowserViewModel.BeginSearch | source/Generic/SteamSearchBrowser/ViewModels/SteamSearchBrowserViewModel.cs:149-157 | a blank query changes only the status (to the prompt); otherwise searching is on, the list is cleared and the status names the query |
| SteamSearchBrowserViewModels.SteamSearchBrowserViewModel.EndSearch | source/Generic/SteamSearchBrowser/ViewModels/SteamSearchBrowserViewModel.cs:163-185 | the returned games are appended in order and their data is untouched, the status reports their count, searching is off and a search has happened |
| SteamSearchBrowserViewModels.SteamSearchBrowserViewModel.PerformSearch | source/Generic/SteamSearchBrowser/ViewModels/SteamSearchBrowserViewModel.cs:147-186 | a blank query changes only the status and makes no request; otherwise the list is the service's games for the query (at most 30), searching is off, a search has happened, and the status reports the count |
| SteamSearchBrowserViewModels.SteamSearchBrowserViewModel.AddGameToLibrary | source/Generic/SteamSearchBrowser/ViewModels/SteamSearchBrowserViewModel.cs:207-308 | no game: nothing happens; otherwise exactly one game built from it is appended under the next id, with the Steam source (reused, or one new source appended), images only for successful downloads, the files grown by exactly those images, other collections unchanged, and the add button off; a named game is then a duplicate for the duplicate check |
| SteamSearchBrowserViewModels.VisibilityFlags | source/Generic/SteamSearchBrowser/ViewModels/SteamSearchBrowserViewModel.cs:120-121 | results and empty state never show together; both are off while a later search runs; before any search the empty state shows; when idle exactly one shows |
| SteamSearchBrowserViewModels.ResultsMessage | source/Generic/SteamSearchBrowser/ViewModels/SteamSearchBrowserViewModel.cs:169-173 | "Found N game(s)" for a positive count, "No results found for '<query>'" for none |
| SteamSearchBrowserViewModels.ResultsMessageReportsCount | source/Generic/SteamSearchBrowser/ViewModels/SteamSearchBrowserViewModel.cs:169 | the number in "Found N game(s)" is the result count |
| GamePassSteamModels.SteamGame.constructor | source/Generic/GamePassCatalogBrowser/Models/SteamGame.cs:8-20 | a new game has empty developer, publisher, genre and category lists, no release date, and is not free |
| GamePassSteamModels.SteamGame.StoreUrl | source/Generic/GamePassCatalogBrowser/Models/SteamGame.cs:21 | the store URL reads `AppId` alone, gives `AppId` back, and is the bare prefix for a null `AppId` |
| GamePassSteamModels.Records | source/Generic/GamePassCatalogBrowser/Services/SteamSearchService.cs:27 | the value view of a list of games, one record per game, in order |
| GamePassSteamService.StripHtml | source/Generic/GamePassCatalogBrowser/Services/SteamSearchService.cs:168-185 | null or "" gives ""; otherwise exactly `Normalize(HtmlDecode(StripTags(html, " ")))`, so each tag becomes a space; the output is trimmed with no two white-space characters in a row and keeps the visible characters of the decoded text |
| GamePassSteamService.StripHtmlKeepsPlainText | source/Generic/GamePassCatalogBrowser/Services/SteamSearchService.cs:168-185 | tidy text with no tags and no entities comes back unchanged |
| GamePassSteamService.Descriptions | source/Generic/GamePassCatalogBrowser/Services/SteamSearchService.cs:124 | genre or category names: throws exactly when an entry's description cannot be read; otherwise exactly the non-empty descriptions |
| GamePassSteamService.StringListField | source/Generic/GamePassCatalogBrowser/Services/SteamSearchService.cs:107-118 | `developers`/`publishers`: when the property is an array, its values (throwing exactly when `Values<string>()` does); otherwise no replacement |
| GamePassSteamService.DescriptionListField | source/Generic/GamePassCatalogBrowser/Services/SteamSearchService.cs:121-132 | `genres`/`categories`: when the property is an array, its non-empty descriptions (throwing exactly when reading one throws); otherwise no replacement |
| GamePassSteamService.ReleaseDateField | source/Generic/GamePassCatalogBrowser/Services/SteamSearchService.cs:135-146 | no date without `release_date` or unless `coming_soon` is exactly false; throws when `coming_soon` cannot be read; a date only as the parse of a non-empty `date` |
| GamePassSteamService.PriceField | source/Generic/GamePassCatalogBrowser/Services/SteamSearchService.cs:149-157 | with an overview, its `final_formatted`; without one, "Free" exactly for a free game and null otherwise |
| GamePassSteamService.ReadScalars | source/Generic/GamePassCatalogBrowser/Services/SteamSearchService.cs:95-104 | the initializer: the requested app id, well-spaced descriptions, empty lists, no release date or price; it needs `data` to be an object |
| GamePassSteamService.ReadScalarsFields | source/Generic/GamePassCatalogBrowser/Services/SteamSearchService.cs:95-104 | each scalar is read from its key: the name and header image as read; descriptions are the stripped text or "" when missing; `background_raw` stands in for a null `background`; `is_free` defaults to false |
| GamePassSteamService.ReadScalarsFails | source/Generic/GamePassCatalogBrowser/Services/SteamSearchService.cs:95-104 | the initializer throws exactly when `data` is not an object or one of the properties it reads cannot be converted (`background_raw` only when `background` is null) |
| GamePassSteamService.ReadScalarsOfEmptyObject | source/Generic/GamePassCatalogBrowser/Services/SteamSearchService.cs:95-104 | missing properties give null: an empty `data` object yields only the app id, empty descriptions, no images, not free |
| GamePassSteamService.WithLists | source/Generic/GamePassCatalogBrowser/Services/SteamSearchService.cs:106-132 | the list step changes only the four lists, and keeps genre and category names non-empty |
| GamePassSteamService.WithListsFields | source/Generic/GamePassCatalogBrowser/Services/SteamSearchService.cs:106-132 | each list is replaced by its property's values exactly when that property is an array and kept otherwise; the step throws exactly when an array element cannot be read |
| GamePassSteamService.WithReleaseDate | source/Generic/GamePassCatalogBrowser/Services/SteamSearchService.cs:134-146 | the release-date step changes only the release date |
| GamePassSteamService.WithPrice | source/Generic/GamePassCatalogBrowser/Services/SteamSearchService.cs:148-157 | the price step changes only the price |
| GamePassSteamService.ReadGame | source/Generic/GamePassCatalogBrowser/Services/SteamSearchService.cs:95-159 | the game read from `data`: the requested id, well-spaced descriptions, no empty genre or category |
| GamePassSteamService.ReadGameSteps | source/Generic/GamePassCatalogBrowser/Services/SteamSearchService.cs:95-159 | the game is the initializer's record with the lists read, the release date and the price of the same `data`; reading succeeds exactly when each of the four steps does |
| GamePassSteamService.GameDetails | source/Generic/GamePassCatalogBrowser/Services/SteamSearchService.cs:74-166 | a game only when the reply is an object holding the app, its `success` is exactly true and it has a `data` property; the game is what `ReadGame` reads from that `data`, with the requested id, well-spaced descriptions and non-empty genres and categories |
| GamePassSteamService.GameDetailsFromData | source/Generic/GamePassCatalogBrowser/Services/SteamSearchService.cs:74-159 | conversely, a successful entry whose `data` reads gives exactly that game |
| GamePassSteamService.WithPriceFollowsOverview | source/Generic/GamePassCatalogBrowser/Services/SteamSearchService.cs:149-157 | with an overview the price is `final_formatted`; without one it is "Free" exactly for a free game |
| GamePassSteamService.WithReleaseDateOnlyWhenOut | source/Generic/GamePassCatalogBrowser/Services/SteamSearchService.cs:135-146 | a release date is set only when `coming_soon` is explicitly false and the date is non-empty and parses |
| GamePassSteamService.GetGameDetails | source/Generic/GamePassCatalogBrowser/Services/SteamSearchService.cs:74-166 | the method returns null exactly when `GameDetails` has no game, and otherwise a new game whose record is `GameDetails` |
| GamePassSteamService.ReadGameInto | source/Generic/GamePassCatalogBrowser/Services/SteamSearchService.cs:95-159 | the game built step by step is exactly `ReadGame`, or null when that throws |
| GamePassSteamService.Initialize | source/Generic/GamePassCatalogBrowser/Services/SteamSearchService.cs:95-104 | the object initializer gives a new game holding exactly the scalar record, with empty lists and no release date or price |
| GamePassSteamService.SetLists | source/Generic/GamePassCatalogBrowser/Services/SteamSearchService.cs:106-132 | the list assignments, each only when the property is an array (otherwise the list is kept), as `WithLists`; false exactly when reading a list throws |
| GamePassSteamService.SetReleaseDate | source/Generic/GamePassCatalogBrowser/Services/SteamSearchService.cs:134-146 | the release-date assignment, as `WithReleaseDate` |
| GamePassSteamService.SetPrice | source/Generic/GamePassCatalogBrowser/Services/SteamSearchService.cs:148-157 | the price assignment, as `WithPrice` |
| GamePassSteamService.Candidates | source/Generic/GamePassCatalogBrowser/Services/SteamSearchService.cs:36-44 | exactly `Take(reply, maxResults)` of the reply, no type filter; none when the request fails |
| GamePassSteamService.Found | source/Generic/GamePassCatalogBrowser/Services/SteamSearchService.cs:51-58 | one entry contributes at most one game, and one exactly when the entry is not null and its details are |
| GamePassSteamService.UntilNull | source/Generic/GamePassCatalogBrowser/Services/SteamSearchService.cs:47-66 | the entries the `foreach` gets through: a prefix of the entries, all non-null, and when shorter the next entry is null (its `appid` read throws twice, the second time in the `catch` at line 62, and the outer `catch` ends the walk) |
| GamePassSteamService.SearchResults | source/Generic/GamePassCatalogBrowser/Services/SteamSearchService.cs:25-72 | no games when the request fails or `maxResults <= 0`, and no more games than entries taken |
| GamePassSteamService.NullEntryEndsSearch | source/Generic/GamePassCatalogBrowser/Services/SteamSearchService.cs:47-71 | with a null entry after non-null entries `a`, the games are those of `a` alone, whatever follows the null entry |
| GamePassSteamService.SearchResultsSkippingNull | source/Generic/GamePassCatalogBrowser/Services/SteamSearchService.cs:60-63 | the corrected search, where the per-entry `catch` skips a null entry: no more games than entries taken |
| GamePassSteamService.SkippingNullSkipsFailure | source/Generic/GamePassCatalogBrowser/Services/SteamSearchService.cs:60-63 | in the corrected search, an entry that is null or has no details drops out and the games are those of the other entries, before and after it |
| GamePassSteamService.NullEntryLosesLaterGames | source/Generic/GamePassCatalogBrowser/Services/SteamSearchService.cs:62 | a null entry followed by an entry with details: the search as written returns strictly fewer games than the corrected one |
| GamePassSteamService.SearchResultsBounded | source/Generic/GamePassCatalogBrowser/Services/SteamSearchService.cs:44-64 | at most `min(maxResults, entries)` games |
| GamePassSteamService.EnrichSkipsFailure | source/Generic/GamePassCatalogBrowser/Services/SteamSearchService.cs:51-58 | a non-null entry without details is skipped and the entries after it are still fetched |
| GamePassSteamService.EnrichKeepsOrder | source/Generic/GamePassCatalogBrowser/Services/SteamSearchService.cs:47-64 | when every entry has details, the games are those details in entry order |
| GamePassSteamService.EnrichFromEntries | source/Generic/GamePassCatalogBrowser/Services/SteamSearchService.cs:47-64 | every game is the details of one of the entries |
| GamePassSteamService.SearchGames | source/Generic/GamePassCatalogBrowser/Services/SteamSearchService.cs:25-72 | the `foreach` loop returns new games whose records are `SearchResults`: the details of the entries before the first null one, in order |
| GamePassSteamService.FetchEntry | source/Generic/GamePassCatalogBrowser/Services/SteamSearchService.cs:51-58 | the loop body for a non-null entry adds a new game holding its details exactly when they are not null, and nothing otherwise |
| GamePassSteamViewModel.CanExecute | source/Generic/GamePassCatalogBrowser/ViewModels/SteamSearchBrowserViewModel.cs:378-381 | true with no predicate, otherwise the predicate's answer |
| GamePassSteamViewModel.SearchPredicate | source/Generic/GamePassCatalogBrowser/ViewModels/SteamSearchBrowserViewModel.cs:104 | the search predicate holds exactly when the query is not blank and no search runs |
| GamePassSteamViewModel.SearchCommandGate | source/Generic/GamePassCatalogBrowser/ViewModels/SteamSearchBrowserViewModel.cs:104 | the search command can run exactly when the query is not blank and no search runs |
| GamePassSteamViewModel.AnyMatch | source/Generic/GamePassCatalogBrowser/ViewModels/SteamSearchBrowserViewModel.cs:160-163 | true exactly when some library game has id `"steam_" + AppId` or `AppId`, or the same name (exactly) with source "Steam" |
| GamePassSteamViewModel.AnyMatchFindsAppId | source/Generic/GamePassCatalogBrowser/ViewModels/SteamSearchBrowserViewModel.cs:160-162 | a game stored under the app id is found whatever its name and source |
| GamePassSteamViewModel.AddNames | source/Generic/GamePassCatalogBrowser/ViewModels/SteamSearchBrowserViewModel.cs:198-202 | the first `n` adds on the catalog as a value: one id per name on success; other collections untouched; the collection and the id counter only grow |
| GamePassSteamViewModel.AddNamesThrowsIff | source/Generic/GamePassCatalogBrowser/ViewModels/SteamSearchBrowserViewModel.cs:198-202 | the adds throw exactly when one of the names walked is null or empty |
| GamePassSteamViewModel.AddNamesStops | source/Generic/GamePassCatalogBrowser/ViewModels/SteamSearchBrowserViewModel.cs:198-202 | after the name that throws, later names add nothing: the catalog keeps the items created before it |
| GamePassSteamViewModel.AddNamesResolves | source/Generic/GamePassCatalogBrowser/ViewModels/SteamSearchBrowserViewModel.cs:198-202 | on success the ids name the names one for one, ignoring case, in the collection the adds leave |
| GamePassSteamViewModel.AddNamesMeaning | source/Generic/GamePassCatalogBrowser/ViewModels/SteamSearchBrowserViewModel.cs:198-202 | over all the names: throws exactly when one is null or empty, and otherwise each id names its name |
| GamePassSteamViewModel.AddNext | source/Generic/GamePassCatalogBrowser/ViewModels/SteamSearchBrowserViewModel.cs:200 | one `collection.Add(name)`: it throws exactly for a null or empty name, and the library is then the walk one name further; games and files untouched |
| GamePassSteamViewModel.WalkNames | source/Generic/GamePassCatalogBrowser/ViewModels/SteamSearchBrowserViewModel.cs:198-202 | the `Select` loop leaves the library and the ids exactly as `AddNames` over all the names says, games and files untouched |
| GamePassSteamViewModel.ResolveNames | source/Generic/GamePassCatalogBrowser/ViewModels/SteamSearchBrowserViewModel.cs:198-202 | the library and ids are exactly `AddNames`: items created before a throwing name stay; throws exactly when some name is null or empty; otherwise one id per name, in order, each naming its item |
| GamePassSteamViewModel.AddTaxonomy | source/Generic/GamePassCatalogBrowser/ViewModels/SteamSearchBrowserViewModel.cs:196-203 | a taxonomy step as a value: unset and no change for an empty list; throws exactly when a name is null or empty; only its own collection grows |
| GamePassSteamViewModel.AddTaxonomyMeaning | source/Generic/GamePassCatalogBrowser/ViewModels/SteamSearchBrowserViewModel.cs:196-203 | a step that succeeds gives ids that name its names in the collection it leaves |
| GamePassSteamViewModel.TaxonomyForGrows | source/Generic/GamePassCatalogBrowser/ViewModels/SteamSearchBrowserViewModel.cs:205-233 | a taxonomy stays valid while later steps append to its collection |
| GamePassSteamViewModel.ResolveTaxonomy | source/Generic/GamePassCatalogBrowser/ViewModels/SteamSearchBrowserViewModel.cs:196-203 | the library and result are exactly `AddTaxonomy`: unset for an empty list, otherwise ids naming the names; throws exactly when some name is null or empty |
| GamePassSteamViewModel.TaxonomySteps | source/Generic/GamePassCatalogBrowser/ViewModels/SteamSearchBrowserViewModel.cs:195-233 | the four steps as a value, the first that throws ending them: they throw exactly when some developer, publisher, genre or category is null or empty; platforms and sources untouched |
| GamePassSteamViewModel.TaxonomyStepsMeaning | source/Generic/GamePassCatalogBrowser/ViewModels/SteamSearchBrowserViewModel.cs:195-233 | when the steps succeed, developers and publishers name theirs among the final companies, genres among the genres, categories among the tags |
| GamePassSteamViewModel.ResolveTaxonomies | source/Generic/GamePassCatalogBrowser/ViewModels/SteamSearchBrowserViewModel.cs:195-233 | the library and result are exactly `TaxonomySteps`; developers and publishers against the companies, genres against the genres, categories against the tags; fails exactly when some name is null or empty |
| GamePassSteamViewModel.BuiltGame | source/Generic/GamePassCatalogBrowser/ViewModels/SteamSearchBrowserViewModel.cs:181-247 | the game and catalog as values: a game exactly when no name is null or empty; it has the id taken first and describes the selection (name, id, description, release date, not installed, one "Steam Store" link, the four taxonomies, one platform named "PC (Windows)", a source named "Steam") in the final catalog; no images |
| GamePassSteamViewModel.AddNameNames | source/Generic/GamePassCatalogBrowser/ViewModels/SteamSearchBrowserViewModel.cs:242-247 | the item `Add(name)` answers is in the collection afterwards under that name, ignoring case |
| GamePassSteamViewModel.BuildGame | source/Generic/GamePassCatalogBrowser/ViewModels/SteamSearchBrowserViewModel.cs:181-247 | the library and game are exactly `BuiltGame`: games and files untouched; a game exactly when no name is null or empty, with a new id, describing the selection, with no images |
| GamePassSteamViewModel.AddPlatform | source/Generic/GamePassCatalogBrowser/ViewModels/SteamSearchBrowserViewModel.cs:242-243 | `Platforms.Add("PC (Windows)")`: the first platform with that name ignoring case is reused and nothing changes; otherwise exactly one platform with that name is appended under the next id; other collections, games and files untouched |
| GamePassSteamViewModel.AddSource | source/Generic/GamePassCatalogBrowser/ViewModels/SteamSearchBrowserViewModel.cs:246-247 | `Sources.Add("Steam")`: the first source with that name ignoring case is reused and nothing changes; otherwise exactly one source "Steam" is appended under the next id; other collections, games and files untouched |
| GamePassSteamViewModel.StoreGame | source/Generic/GamePassCatalogBrowser/ViewModels/SteamSearchBrowserViewModel.cs:250-284 | the game is appended, then each image is attached exactly when its URL is set and the download succeeds, owned by the game, and the stored game is updated: the games grow by that game alone, the files by exactly its images, the items not at all |
| GamePassSteamViewModel.DescribesIgnoresImages | source/Generic/GamePassCatalogBrowser/ViewModels/SteamSearchBrowserViewModel.cs:253-284 | attaching images does not change what the game says about the Steam game |
| GamePassSteamViewModel.SteamSearchBrowserViewModel.constructor | source/Generic/GamePassCatalogBrowser/ViewModels/SteamSearchBrowserViewModel.cs:98-109 | no query, no results, no selection, not searching, the prompt as status |
| GamePassSteamViewModel.SteamSearchBrowserViewModel.IsNotSearching | source/Generic/GamePassCatalogBrowser/ViewModels/SteamSearchBrowserViewModel.cs:56 | always the negation of `IsSearching` |
| GamePassSteamViewModel.SteamSearchBrowserViewModel.IsGameInLibrary | source/Generic/GamePassCatalogBrowser/ViewModels/SteamSearchBrowserViewModel.cs:152-164 | false for no game; otherwise true exactly when some library game has id `"steam_" + AppId` or `AppId`, or the same name (exactly) with source "Steam" |
| GamePassSteamViewModel.SteamSearchBrowserViewModel.CanAddToLibrary | source/Generic/GamePassCatalogBrowser/ViewModels/SteamSearchBrowserViewModel.cs:81 | a game is selected and it is not in the library |
| GamePassSteamViewModel.SteamSearchBrowserViewModel.AddCommandEnabled | source/Generic/GamePassCatalogBrowser/ViewModels/SteamSearchBrowserViewModel.cs:105 | the add command can run exactly when `CanAddToLibrary` holds |
| GamePassSteamViewModel.SteamSearchBrowserViewModel.BeginSearch | source/Generic/GamePassCatalogBrowser/ViewModels/SteamSearchBrowserViewModel.cs:113-121 | a blank query changes nothing; otherwise searching is on, results and selection are cleared, the status names the query |
| GamePassSteamViewModel.SteamSearchBrowserViewModel.EndSearch | source/Generic/GamePassCatalogBrowser/ViewModels/SteamSearchBrowserViewModel.cs:127-149 | the games are appended in order and their data is untouched, the status reports their count, searching is off |
| GamePassSteamViewModel.SteamSearchBrowserViewModel.PerformSearch | source/Generic/GamePassCatalogBrowser/ViewModels/SteamSearchBrowserViewModel.cs:111-150 | a blank query changes nothing; otherwise the results are the service's games (at most 30), no selection, searching off, the count reported |
| GamePassSteamViewModel.SteamSearchBrowserViewModel.AddSelected | source/Generic/GamePassCatalogBrowser/ViewModels/SteamSearchBrowserViewModel.cs:179-286 | the `try` block: the catalog becomes `BuiltGame`'s; a null or empty name stops it before any game or file is stored, with the status kept; otherwise one game is appended that is `BuiltGame`'s game with the images that downloaded, the files grow by exactly those images, and the status is "Added '<name>' to library" |
| GamePassSteamViewModel.SteamSearchBrowserViewModel.AddToLibrary | source/Generic/GamePassCatalogBrowser/ViewModels/SteamSearchBrowserViewModel.cs:166-287 | no selection or a duplicate writes nothing; a null or empty taxonomy name aborts before any game is stored but keeps the items created so far (the catalog is `BuiltGame`'s); otherwise exactly one game is appended that is `BuiltGame`'s game with images only for successful downloads, the files grow by exactly those images, the status reports the add, and the selection then counts as in the library |
| GamePassSteamViewModel.FoundMessage | source/Generic/GamePassCatalogBrowser/ViewModels/SteamSearchBrowserViewModel.cs:133-137 | "Found N games" for a positive count, "No games found" for none |
| GamePassSteamViewModel.FoundMessageReportsCount | source/Generic/GamePassCatalogBrowser/ViewModels/SteamSearchBrowserViewModel.cs:133 | the number in "Found N games" is the result count |
| SteamSearchRevisions.TagRemovedBetween | source/Generic/SteamSearchBrowser/Services/SteamSearchService.cs:194 | the tag in "a<b>c" is one match, replaced by the replacement |
| SteamSearchRevisions.TagRemovedWithoutSpace | source/Generic/SteamSearchBrowser/Services/SteamSearchService.cs:194 | this revision turns "a<b>c" into "ac" |
| SteamSearchRevisions.TagReplacedBySpace | source/Generic/GamePassCatalogBrowser/Services/SteamSearchService.cs:176 | this revision turns "a<b>c" into "a c" |
| SteamSearchRevisions.TagJoinsWords | source/Generic/SteamSearchBrowser/Services/SteamSearchService.cs:194 | for any two words around a one-line tag, this revision joins the words with no space |
| SteamSearchRevisions.TagSeparatesWords | source/Generic/GamePassCatalogBrowser/Services/SteamSearchService.cs:176 | for the same input, the other revision leaves exactly one space between the words |
| SteamSearchRevisions.NameRuleDiffers | source/Generic/SteamSearchBrowser/ViewModels/SteamSearchBrowserViewModel.cs:141 | a library game "portal" with no source blocks "Portal" here, but not under the exact, Steam-only name rule of the other revision |
| SteamSearchRevisions.IdRuleDiffers | source/Generic/GamePassCatalogBrowser/ViewModels/SteamSearchBrowserViewModel.cs:161 | a library game stored as "steam_400" blocks app 400 here, but not under the other revision's plain id comparison |

## Left out

- HTTP transport is not modelled: `HttpClient`, FlowHttp, `WebClient`, temporary files and `File.Delete`. The search and details endpoints are oracles that return a parsed reply or nothing. Each image download is a boolean outcome.
- JSON deserialisation is not modelled. The SteamSearchBrowser revision starts from the records of `SteamSearchResponse.cs`. The GamePassCatalogBrowser revision starts from a small `JToken` datatype; `JObject.Parse` failures are the oracle returning nothing.
- `HttpUtility.HtmlDecode`, `HttpUtility.UrlEncode` and `DateTime.TryParse` are uninterpreted. Their results are culture- and library-dependent.
- Asynchrony and `Task.Delay(100)` are not modelled. They only pace requests; every step runs in sequence.
- Property-change notifications, collection views, dialogs, `ProcessStarter`/`Process.Start` (the store-view commands) and logging are left out. They have no effect on the modelled state.
- The GamePassCatalogBrowser `Task.Run` block that selects the new game in the main view is left out. It is background UI work.
- The plugin entry classes and the settings classes are left out. They are window wiring and persisted defaults.
- The `Added` and `Modified` clock fields of a new game are left out.
- Case-insensitive comparison folds ASCII letters only. The full Unicode case mapping of `OrdinalIgnoreCase` is not modelled.
- `Boolean.Parse` trims white space only, not null characters.
- Some `catch` blocks cannot be reached in the model, because every modelled call inside them either succeeds or is already folded into a null result. These are the search `catch` of `PerformSearchAsync`/`PerformSearch` and the add `catch` of the SteamSearchBrowser command. Their status and dialog messages are therefore not modelled.
- A null entry in the details dictionary counts as a failed lookup, like the `NullReferenceException` it causes.
- SteamSearchBrowserViewModels.SteamSearchBrowserViewModel.SetSelectedSteamGame: when the duplicate check throws (a nameless library game), the exception goes to the data-binding caller. The model reports `false` and keeps the button's state; what the binding engine then does is not modelled.
- SteamSearchBrowserViewModels.SteamSearchBrowserViewModel.AddGameToLibrary: the freshly built developer, publisher and genre objects are recorded by name (`ByName`). Whatever Playnite does with them on `Games.Add` is not modelled.

## Findings

| source | as written | input that shows it | evidently intended | confidence | as-written member | corrected member |
|---|---|---|---|---|---|---|
| source/Generic/GamePassCatalogBrowser/Services/SteamSearchService.cs:62 | the per-entry `catch` builds its log message from `item.appid`; for a null entry that throws again, the outer `catch` at line 66 ends the `foreach`, and the games after the null entry are lost | a search reply `[app1, null, app2]` where `app2` has details: the search returns at most `app1`'s game | the `catch` logs the failure and the walk goes on with `app2` | not executed | GamePassSteamService.NullEntryLosesLaterGames | GamePassSteamService.SkippingNullSkipsFailure |
