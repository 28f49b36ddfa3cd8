/** Where the SteamSearchBrowser and GamePassCatalogBrowser revisions of the
    Steam search disagree, each shown on one concrete input. */
module SteamSearchRevisions {
  import opened Wrappers
  import opened DotNet
  import opened Markup
  import opened Playnite
  import GamePassService = GamePassSteamService
  import SteamSearchService = SteamSearchBrowserService
  import GamePassViewModel = GamePassSteamViewModel
  import SteamSearchViewModel = SteamSearchBrowserViewModels

  /** A tag between two words: the SteamSearchBrowser revision removes it and
      joins the words, ... */
  lemma TagRemovedWithoutSpace(htmlDecode: string -> string)
    requires htmlDecode("ac") == "ac"
    ensures SteamSearchService.StripHtml(Some("a<b>c"), htmlDecode) == "ac"
  {
    TagRemovedBetween("");
    assert StripTags("a<b>c", "") == "ac";
    assert !IsBlank("a<b>c") by {
      assert !IsWhiteSpace("a<b>c"[0]);
    }
    JoinedWordsWellSpaced();
    NormalizeFixesWellSpaced("ac");
  }

  /** ... while the GamePassCatalogBrowser revision leaves a space. */
  lemma TagReplacedBySpace(htmlDecode: string -> string)
    requires htmlDecode("a c") == "a c"
    ensures GamePassService.StripHtml(Some("a<b>c"), htmlDecode) == "a c"
  {
    TagRemovedBetween(" ");
    assert StripTags("a<b>c", " ") == "a c";
    JoinedWordsWellSpaced();
    NormalizeFixesWellSpaced("a c");
  }

  /** Both outputs are already tidy. */
  lemma JoinedWordsWellSpaced()
    ensures WellSpaced("ac") && WellSpaced("a c")
  {
    assert !IsWhiteSpace('a') && !IsWhiteSpace('c');
  }

  /** The tag in "a<b>c" is one match of `<.*?>`. */
  lemma TagRemovedBetween(replacement: string)
    ensures StripTags("a<b>c", replacement) == "a" + replacement + "c"
  {
    var s := "a<b>c";
    var t := s[1..];
    assert t == "<b>c";
    assert t[2] == '>' && t[1] != '>' && t[1] != '\n';
    assert TagEnd(t, 2) == Some(2);
    assert TagEnd(t, 1) == Some(2);
    assert t[3..] == "c";
    assert StripTags("c", replacement) == "c" by {
      assert "c"[1..] == [];
    }
    assert StripTags(t, replacement) == replacement + "c";
  }

  /** A run of visible characters without a `<`. */
  predicate Word(s: string) {
    s != [] && forall i | 0 <= i < |s| :: !IsWhiteSpace(s[i]) && s[i] != '<'
  }

  lemma WordWellSpaced(s: string)
    requires Word(s)
    ensures WellSpaced(s) && '<' !in s && !IsBlank(s)
  {
    assert !IsWhiteSpace(s[0]);
  }

  /** Two words written together make one word. */
  lemma WordsJoin(a: string, c: string)
    requires Word(a) && Word(c)
    ensures Word(a + c)
  {
    var j := a + c;
    assert forall i | 0 <= i < |j| :: j[i] == if i < |a| then a[i] else c[i - |a|];
  }

  /** The one tag between two words is the only thing tag removal touches,
      and the text with the tag is not blank. */
  lemma TagBetweenWords(a: string, t: string, c: string, replacement: string)
    requires Word(a) && Word(c) && '>' !in t && '\n' !in t
    ensures StripTags(a + "<" + t + ">" + c, replacement) == a + replacement + c
    ensures !IsBlank(a + "<" + t + ">" + c)
  {
    StripTagsTag(a, t, c, replacement);
    StripTagsWithoutOpen(c, replacement);
    var s := a + "<" + t + ">" + c;
    assert s[0] == a[0];
  }

  /** In general: a one-line tag between two words joins them in the
      SteamSearchBrowser revision, ... */
  lemma TagJoinsWords(a: string, t: string, c: string, htmlDecode: string -> string)
    requires Word(a) && Word(c) && '>' !in t && '\n' !in t
    requires htmlDecode(a + c) == a + c
    ensures SteamSearchService.StripHtml(Some(a + "<" + t + ">" + c), htmlDecode) == a + c
  {
    TagBetweenWords(a, t, c, "");
    assert a + "" + c == a + c;
    WordsJoin(a, c);
    WordWellSpaced(a + c);
    NormalizeFixesWellSpaced(a + c);
  }

  /** ... and leaves exactly one space between them in the
      GamePassCatalogBrowser revision. */
  lemma TagSeparatesWords(a: string, t: string, c: string, htmlDecode: string -> string)
    requires Word(a) && Word(c) && '>' !in t && '\n' !in t
    requires htmlDecode(a + " " + c) == a + " " + c
    ensures GamePassService.StripHtml(Some(a + "<" + t + ">" + c), htmlDecode) == a + " " + c
  {
    TagBetweenWords(a, t, c, " ");
    WordWellSpaced(a);
    WordWellSpaced(c);
    assert IsBlank(" ");
    NormalizeRun(a, " ", c);
    NormalizeFixesWellSpaced(a);
    NormalizeFixesWellSpaced(c);
  }

  /** A library game named "portal" with no source blocks adding the Steam
      game "Portal" in the SteamSearchBrowser revision (names compared
      ignoring case, source ignored), but not in the GamePassCatalogBrowser
      revision (names compared exactly, and only for Steam games). */
  lemma NameRuleDiffers()
    ensures var g := NewGame(0, Some("portal"));
      && SteamSearchViewModel.ExistingGame([g], Some("Portal"), Some("400")) == Success(Some(g))
      && !GamePassViewModel.AnyMatch([g], [], Some("400"), Some("Portal"))
  {
    var g := NewGame(0, Some("portal"));
    assert EqualsIgnoreCase("portal", "Portal") by {
      forall i | 0 <= i < 6
        ensures ToUpperAscii("portal"[i]) == ToUpperAscii("Portal"[i])
      {
      }
    }
    assert SteamSearchViewModel.SameGame(g, Some("Portal"), Some("400"));
    assert ItemById([], g.sourceId).None?;
  }

  /** A library game stored under "steam_400" blocks adding app 400 in the
      GamePassCatalogBrowser revision, but not in the SteamSearchBrowser
      revision, which compares the id with the app id only. */
  lemma IdRuleDiffers()
    ensures var g := NewGame(0, Some("Portal 2")).(gameId := Some("steam_400"));
      && SteamSearchViewModel.ExistingGame([g], Some("Portal"), Some("400")) == Success(None)
      && GamePassViewModel.AnyMatch([g], [], Some("400"), Some("Portal"))
  {
    var g := NewGame(0, Some("Portal 2")).(gameId := Some("steam_400"));
    assert !EqualsIgnoreCase("Portal 2", "Portal");
    assert !EqualsIgnoreCase("steam_400", "400");
    assert "steam_" + "400" == "steam_400";
    assert GamePassViewModel.MatchesSteamGame(g, SourceName([], g), Some("400"), Some("Portal"));
  }
}
