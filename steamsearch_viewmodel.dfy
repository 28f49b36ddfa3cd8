/** The view model of the SteamSearchBrowser revision: the search state and
    its derived visibility flags, the duplicate check behind the add button,
    and the add-to-library command. */
module SteamSearchBrowserViewModels {
  import opened Wrappers
  import opened DotNet
  import opened Playnite
  import opened SteamSearchBrowserModels
  import opened SteamSearchBrowserService

  const DefaultSearchPrompt := "Enter a game name to search Steam..."
  const MaxResults := 30

  /** The prompt: the localized string when there is one, else the default. */
  function PromptText(resource: NString): (r: string)
    ensures resource.Some? ==> r == resource.value
    ensures resource.None? ==> r == DefaultSearchPrompt
  {
    resource.GetOr(DefaultSearchPrompt)
  }

  // ------------------------------------------------------ GetAddButtonStatus

  /** The test `GetAddButtonStatus` applies to one library game with a name:
      the same name ignoring case, or a non-null `GameId` equal to the app id
      ignoring case. The game's source plays no part. */
  predicate SameGame(g: Game, name: NString, appId: NString)
    requires g.name.Some?
  {
    EqualsIgnoreCaseN(g.name.value, name) || (g.gameId.Some? && EqualsIgnoreCaseN(g.gameId.value, appId))
  }

  /** `Games.FirstOrDefault(g => SameGame(g, ...))`: the first match; reading
      the name of a nameless game met before any match throws. */
  function ExistingGame(games: seq<Game>, name: NString, appId: NString): (r: Result<Option<Game>>)
    ensures r.Success? && r.value.Some? ==>
      r.value.value in games && r.value.value.name.Some? && SameGame(r.value.value, name, appId)
    ensures r == Success(None) <==>
      forall i | 0 <= i < |games| :: games[i].name.Some? && !SameGame(games[i], name, appId)
    ensures r.Failure? ==> exists g | g in games :: g.name.None?
  {
    if games == [] then Success(None)
    else if games[0].name.None? then Failure
    else if SameGame(games[0], name, appId) then Success(Some(games[0]))
    else
      var rest := ExistingGame(games[1..], name, appId);
      assert forall i | 1 <= i < |games| :: games[i] == games[1..][i - 1];
      rest
  }

  /** A game appended to the library is met only after every game before it. */
  lemma {:induction false} ExistingGameAppend(games: seq<Game>, g: Game, name: NString, appId: NString)
    ensures ExistingGame(games + [g], name, appId) ==
      match ExistingGame(games, name, appId)
      case Failure => Failure
      case Success(Some(found)) => Success(Some(found))
      case Success(None) =>
        if g.name.None? then Failure
        else if SameGame(g, name, appId) then Success(Some(g))
        else Success(None)
  {
    if games == [] {
      assert games + [g] == [g];
    } else {
      assert (games + [g])[1..] == games[1..] + [g];
      ExistingGameAppend(games[1..], g, name, appId);
    }
  }

  /** The library holds a game that `GetAddButtonStatus` counts as this one. */
  ghost predicate InLibrary(games: seq<Game>, name: NString, appId: NString) {
    exists i | 0 <= i < |games| :: games[i].name.Some? && SameGame(games[i], name, appId)
  }

  /** In a library without nameless games the scan never throws, and it
      finds a game exactly when the library holds one that matches. */
  lemma ExistingGameFindsMatch(games: seq<Game>, name: NString, appId: NString)
    requires forall i | 0 <= i < |games| :: games[i].name.Some?
    ensures ExistingGame(games, name, appId).Success?
    ensures ExistingGame(games, name, appId).value.Some? <==> InLibrary(games, name, appId)
  {
  }

  // ---------------------------------------------------- AddGameToLibraryCommand

  /** What the add command puts into the game from the Steam game, apart from
      its source and images: names become new objects, tags are empty. */
  ghost predicate AddedFrom(g: Game, sel: SteamGameRecord) {
    && g.name == sel.name
    && g.gameId == sel.appId
    && g.description == sel.description
    && g.releaseDate == sel.releaseDate
    && g.developers == ByName(sel.developers)
    && g.publishers == ByName(sel.publishers)
    && g.genres == ByName(sel.genres)
    && g.tags == ByName([])
    && !g.isInstalled && g.playtime == 0
    && g.platformIds.None?
    && g.links == if IsNullOrEmpty(sel.storeUrl) then None else Some([Link("Steam Store", sel.storeUrl.value)])
  }

  /** The Steam source: the first source named exactly "Steam", or a new one
      appended to the sources. */
  method SteamSource(library: Library) returns (id: Guid)
    requires library.Valid()
    modifies library
    ensures library.Valid()
    ensures library.games == old(library.games) && library.files == old(library.files)
    ensures forall c | c != Sources :: library.Items(c) == old(library.Items(c))
    ensures match FirstNamed(old(library.Items(Sources)), "Steam")
      case Some(source) =>
        id == source.id && library.Items(Sources) == old(library.Items(Sources)) && library.nextId == old(library.nextId)
      case None =>
        id == old(library.nextId) && library.nextId == id + 1
        && library.Items(Sources) == old(library.Items(Sources)) + [NamedItem(id, Some("Steam"))]
  {
    var existing := FirstNamed(library.Items(Sources), "Steam");
    if existing.Some? {
      return existing.value.id;
    }
    id := library.NewId();
    library.AddItem(Sources, NamedItem(id, Some("Steam")));
  }

  /** One image step: the file is stored for the game only when the URL is
      set and the download succeeds; a failed download is skipped. */
  method AttachImage(library: Library, owner: Guid, url: NString, downloaded: bool) returns (file: Option<FileRef>)
    requires library.Valid()
    modifies library
    ensures library.Valid()
    ensures file.Some? <==> !IsNullOrEmpty(url) && downloaded
    ensures file.Some? ==> file.value == FileRef(owner, |old(library.files)|)
                           && library.files == old(library.files) + [file.value]
    ensures file.None? ==> library.files == old(library.files)
    ensures library.games == old(library.games) && library.items == old(library.items)
    ensures library.nextId == old(library.nextId)
  {
    file := None;
    if !IsNullOrEmpty(url) && downloaded {
      var stored := library.AddFile(owner);
      file := Some(stored);
    }
  }

  /** The two image steps, cover then background: the files stored are the
      game's images, in that order. */
  method AttachImages(library: Library, game: Game, sel: SteamGameRecord, coverDownloaded: bool, backgroundDownloaded: bool)
    returns (g: Game)
    requires library.Valid()
    modifies library
    ensures library.Valid()
    ensures library.games == old(library.games) && library.items == old(library.items)
    ensures library.nextId == old(library.nextId)
    ensures g == game.(coverImage := g.coverImage, backgroundImage := g.backgroundImage)
    ensures library.files == old(library.files) + Attached(g)
    ensures g.coverImage.Some? <==> !IsNullOrEmpty(sel.headerImage) && coverDownloaded
    ensures g.backgroundImage.Some? <==> !IsNullOrEmpty(sel.backgroundImage) && backgroundDownloaded
    ensures g.coverImage.Some? ==> g.coverImage.value in library.files && g.coverImage.value.owner == game.id
    ensures g.backgroundImage.Some? ==>
      g.backgroundImage.value in library.files && g.backgroundImage.value.owner == game.id
  {
    var cover := AttachImage(library, game.id, sel.headerImage, coverDownloaded);
    var background := AttachImage(library, game.id, sel.backgroundImage, backgroundDownloaded);
    g := game.(coverImage := cover, backgroundImage := background);
  }

  /** The game the add command builds before storing it: a new id, the
      Steam game's data, the Steam source, the images whose downloads
      succeed, and the store link. */
  method BuildGame(library: Library, sel: SteamGameRecord, coverDownloaded: bool, backgroundDownloaded: bool)
    returns (game: Game)
    requires library.Valid()
    modifies library
    ensures library.Valid()
    ensures library.games == old(library.games)
    ensures library.files == old(library.files) + Attached(game)
    ensures game.id == old(library.nextId) < library.nextId
    ensures AddedFrom(game, sel)
    ensures game.coverImage.Some? <==> !IsNullOrEmpty(sel.headerImage) && coverDownloaded
    ensures game.backgroundImage.Some? <==> !IsNullOrEmpty(sel.backgroundImage) && backgroundDownloaded
    ensures game.coverImage.Some? ==> game.coverImage.value in library.files && game.coverImage.value.owner == game.id
    ensures game.backgroundImage.Some? ==>
      game.backgroundImage.value in library.files && game.backgroundImage.value.owner == game.id
    ensures game.sourceId.Some?
    ensures match FirstNamed(old(library.Items(Sources)), "Steam")
      case Some(source) =>
        game.sourceId.value == source.id && library.Items(Sources) == old(library.Items(Sources))
      case None =>
        library.Items(Sources) == old(library.Items(Sources)) + [NamedItem(game.sourceId.value, Some("Steam"))]
    ensures forall c | c != Sources :: library.Items(c) == old(library.Items(c))
  {
    var id := library.NewId();
    game := NewGame(id, sel.name).(gameId := sel.appId, description := sel.description,
      releaseDate := sel.releaseDate, developers := ByName(sel.developers),
      publishers := ByName(sel.publishers), genres := ByName(sel.genres), tags := ByName([]),
      isInstalled := false, playtime := 0);
    var source := SteamSource(library);
    ghost var itemsWithSource := library.items;
    assert forall c | c != Sources :: library.Items(c) == old(library.Items(c));
    game := game.(sourceId := Some(source));
    game := AttachImages(library, game, sel, coverDownloaded, backgroundDownloaded);
    if !IsNullOrEmpty(sel.storeUrl) {
      game := game.(links := Some([Link("Steam Store", sel.storeUrl.value)]));
    }
    assert library.items == itemsWithSource;
    assert forall c :: library.Items(c) == if c in itemsWithSource then itemsWithSource[c] else [];
  }

  class SteamSearchBrowserViewModel {
    var steamGames: seq<SteamGame>
    var selectedSteamGame: SteamGame?
    var searchQuery: NString
    var isSearching: bool
    var hasSearched: bool
    var statusMessage: string
    var addButtonEnabled: bool
    /** The search prompt as the resource lookup gives it. */
    const searchPrompt: string
    const library: Library

    constructor (library: Library, promptResource: NString)
      ensures this.library == library && searchPrompt == PromptText(promptResource)
      ensures steamGames == [] && selectedSteamGame == null && searchQuery.None?
      ensures !isSearching && !hasSearched && !addButtonEnabled
      ensures statusMessage == searchPrompt
    {
      this.library := library;
      searchPrompt := PromptText(promptResource);
      steamGames := [];
      selectedSteamGame := null;
      searchQuery := None;
      isSearching := false;
      hasSearched := false;
      statusMessage := PromptText(promptResource);
      addButtonEnabled := false;
    }

    /** `GetAddButtonStatus(game)`: false for no game, otherwise whether no
        library game matches it; `Failure` when the scan throws. */
    function AddButtonStatus(game: SteamGame?): (r: Result<bool>)
      reads library, game
      ensures game == null ==> r == Success(false)
      ensures game != null ==> r.Success? == ExistingGame(library.games, game.name, game.appId).Success?
      ensures game != null && r.Success? ==>
        (r.value <==> !InLibrary(library.games, game.name, game.appId))
    {
      if game == null then Success(false)
      else
        var existing :- ExistingGame(library.games, game.name, game.appId);
        Success(existing.None?)
    }

    /** The `SelectedSteamGame` setter: the selection changes first, then the
        add button follows the duplicate check; when that check throws, the
        button keeps its state and the exception reaches the caller. */
    method SetSelectedSteamGame(value: SteamGame?) returns (ok: bool)
      modifies this`selectedSteamGame, this`addButtonEnabled
      ensures selectedSteamGame == value
      ensures ok <==> AddButtonStatus(value).Success?
      ensures ok ==> addButtonEnabled == AddButtonStatus(value).value
      ensures !ok ==> addButtonEnabled == old(addButtonEnabled)
    {
      selectedSteamGame := value;
      var status := AddButtonStatus(value);
      if status.Failure? {
        return false;
      }
      addButtonEnabled := status.value;
      return true;
    }

    /** The result list is visible: games from a finished search. */
    function ShowResults(): (r: bool)
      reads this
      ensures r ==> |steamGames| > 0 && !isSearching
      ensures !hasSearched ==> !r
    {
      hasSearched && !isSearching && |steamGames| > 0
    }

    /** The empty-state panel is visible: before any search, or after a
        finished search without games. */
    function ShowEmptyState(): (r: bool)
      reads this
      ensures !hasSearched ==> r
      ensures hasSearched && isSearching ==> !r
      ensures !isSearching ==> (r <==> !ShowResults())
    {
      !hasSearched || (hasSearched && !isSearching && |steamGames| == 0)
    }

    /** `SearchCommand`'s predicate. */
    function CanSearch(): (r: bool)
      reads this
      ensures r <==> !isSearching
    {
      !isSearching
    }

    /** `AddGameToLibraryCommand`'s predicate: the button state, whatever
        the parameter. */
    function CanAdd(parameter: SteamGame?): (r: bool)
      reads this
      ensures r <==> addButtonEnabled
    {
      addButtonEnabled
    }

    /** The part of `PerformSearchAsync` before the service is awaited. A
        blank query only shows the prompt. */
    method BeginSearch() returns (started: bool)
      modifies this`steamGames, this`statusMessage, this`isSearching
      ensures searchQuery == old(searchQuery) && selectedSteamGame == old(selectedSteamGame)
      ensures started <==> !IsNullOrWhiteSpace(old(searchQuery))
      ensures !started ==>
        && statusMessage == searchPrompt
        && steamGames == old(steamGames) && isSearching == old(isSearching) && hasSearched == old(hasSearched)
      ensures started ==>
        && isSearching && steamGames == [] && hasSearched == old(hasSearched)
        && statusMessage == "Searching for '" + searchQuery.value + "'..."
      ensures addButtonEnabled == old(addButtonEnabled)
    {
      if IsNullOrWhiteSpace(searchQuery) {
        statusMessage := searchPrompt;
        return false;
      }
      isSearching := true;
      statusMessage := "Searching for '" + searchQuery.value + "'...";
      steamGames := [];
      return true;
    }

    /** The part of `PerformSearchAsync` after the service returns, with its
        `finally`: the games are appended in order and the count reported. */
    method EndSearch(results: seq<SteamGame>)
      modifies this`steamGames, this`statusMessage, this`isSearching, this`hasSearched
      ensures steamGames == old(steamGames) + results
      ensures Records(results) == old(Records(results))
      ensures statusMessage == ResultsMessage(searchQuery.GetOr(""), |results|)
      ensures !isSearching && hasSearched
      ensures searchQuery == old(searchQuery) && selectedSteamGame == old(selectedSteamGame)
      ensures addButtonEnabled == old(addButtonEnabled)
    {
      if |results| > 0 {
        var list := steamGames;
        var i := 0;
        while i < |results|
          invariant 0 <= i <= |results|
          invariant list == steamGames + results[..i]
        {
          list := list + [results[i]];
          i := i + 1;
        }
        assert results[..i] == results;
        steamGames := list;
      }
      statusMessage := ResultsMessage(searchQuery.GetOr(""), |results|);
      isSearching := false;
      hasSearched := true;
    }

    /** `PerformSearchAsync`: a blank query only shows the prompt; otherwise
        the list becomes the service's games for the query, at most 30, and
        the search is marked done. `requests` is the service's request log. */
    method PerformSearch(api: SteamApi) returns (requests: seq<Request>)
      modifies this`steamGames, this`statusMessage, this`isSearching, this`hasSearched
      ensures searchQuery == old(searchQuery) && selectedSteamGame == old(selectedSteamGame)
      ensures IsNullOrWhiteSpace(old(searchQuery)) ==>
        && statusMessage == searchPrompt && requests == []
        && steamGames == old(steamGames) && isSearching == old(isSearching) && hasSearched == old(hasSearched)
      ensures !IsNullOrWhiteSpace(old(searchQuery)) ==>
        && !isSearching && hasSearched
        && Records(steamGames) == SearchResults(searchQuery, MaxResults, api)
        && statusMessage == ResultsMessage(searchQuery.value, |steamGames|)
        && requests == Requests(searchQuery, MaxResults, api)
        && forall g | g in steamGames :: fresh(g)
      ensures addButtonEnabled == old(addButtonEnabled)
    {
      requests := [];
      var started := BeginSearch();
      if !started {
        return;
      }
      var results;
      results, requests := SearchAndGetDetails(searchQuery, MaxResults, api);
      EndSearch(results);
    }

    /** `AddGameToLibraryCommand` for `steamGame`: a new game from the Steam
        game with the Steam source, each image attached when its download
        succeeds (a failed one is skipped), and a store link when the game
        has a store URL; then the add button is switched off.
        `coverDownloaded` and `backgroundDownloaded` are the download outcomes. */
    method AddGameToLibrary(steamGame: SteamGame?, coverDownloaded: bool, backgroundDownloaded: bool)
      returns (added: Option<Guid>)
      requires library.Valid()
      modifies this`addButtonEnabled, library
      ensures library.Valid()
      ensures steamGame == null ==>
        added.None? && unchanged(library) && addButtonEnabled == old(addButtonEnabled)
      ensures steamGame != null ==>
        var sel := steamGame.Record();
        && added.Some? && !addButtonEnabled
        && |library.games| == |old(library.games)| + 1
        && library.games[..|old(library.games)|] == old(library.games)
        && var g := library.games[|old(library.games)|];
           && g.id == added.value == old(library.nextId)
           && AddedFrom(g, sel)
           && (g.coverImage.Some? <==> !IsNullOrEmpty(sel.headerImage) && coverDownloaded)
           && (g.backgroundImage.Some? <==> !IsNullOrEmpty(sel.backgroundImage) && backgroundDownloaded)
           && (g.coverImage.Some? ==> g.coverImage.value in library.files && g.coverImage.value.owner == g.id)
           && (g.backgroundImage.Some? ==> g.backgroundImage.value in library.files && g.backgroundImage.value.owner == g.id)
           && library.files == old(library.files) + Attached(g)
           && g.sourceId.Some?
           && match FirstNamed(old(library.Items(Sources)), "Steam")
              case Some(source) =>
                g.sourceId.value == source.id && library.Items(Sources) == old(library.Items(Sources))
              case None =>
                library.Items(Sources) == old(library.Items(Sources)) + [NamedItem(g.sourceId.value, Some("Steam"))]
      ensures forall c | c != Sources :: library.Items(c) == old(library.Items(c))
      ensures steamGame != null && steamGame.name.Some? && old(AddButtonStatus(steamGame)).Success? ==>
        AddButtonStatus(steamGame) == Success(false)
    {
      if steamGame == null {
        return None;
      }
      var sel := steamGame.Record();
      var game := BuildGame(library, sel, coverDownloaded, backgroundDownloaded);
      ghost var before := library.games;
      library.AddGame(game);
      addButtonEnabled := false;
      ExistingGameAppend(before, game, sel.name, sel.appId);
      if sel.name.Some? {
        assert EqualsIgnoreCase(sel.name.value, sel.name.value);
      }
      return Some(game.id);
    }
  }

  /** `ShowResults` and `ShowEmptyState` are never both on; both are off while
      a search runs after an earlier one; before any search the empty state
      shows; once no search runs, exactly one of them is on. */
  lemma VisibilityFlags(vm: SteamSearchBrowserViewModel)
    ensures !(vm.ShowResults() && vm.ShowEmptyState())
    ensures vm.hasSearched && vm.isSearching ==> !vm.ShowResults() && !vm.ShowEmptyState()
    ensures !vm.hasSearched ==> vm.ShowEmptyState()
    ensures !vm.isSearching ==> (vm.ShowResults() <==> !vm.ShowEmptyState())
    ensures vm.ShowResults() ==> |vm.steamGames| > 0
  {
  }

  /** The status after a search: the number of games, or that the query had none. */
  function ResultsMessage(query: string, count: nat): (m: string)
    ensures count == 0 ==> m == "No results found for '" + query + "'"
    ensures count > 0 ==> |m| > 14 && m[..6] == "Found " && m[|m| - 8..] == " game(s)"
  {
    if count > 0 then "Found " + NatToString(count) + " game(s)" else "No results found for '" + query + "'"
  }

  /** The status reports the count itself: its digits read back as the count. */
  lemma ResultsMessageReportsCount(query: string, count: nat)
    requires count > 0
    ensures var m := ResultsMessage(query, count);
      var digits := m[6..|m| - 8];
      (forall i | 0 <= i < |digits| :: '0' <= digits[i] <= '9') && DigitsValue(digits) == count
  {
    var m := ResultsMessage(query, count);
    assert m[6..|m| - 8] == NatToString(count);
    NatToStringRoundTrip(count);
  }
}
