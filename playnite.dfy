/** The part of Playnite's game database the plugins write to: the games,
    the named item collections (companies, genres, tags, platforms, sources)
    and the files attached to games. Every database object gets a fresh id;
    ids are drawn from a counter here instead of `Guid.NewGuid()`. */
module Playnite {
  import opened Wrappers
  import opened DotNet

  /** A database id. */
  type Guid = nat

  /** A web link of a game. */
  datatype Link = Link(name: string, url: string)

  /** A file stored in the database for one game, as `Database.AddFile` returns it. */
  datatype FileRef = FileRef(owner: Guid, serial: nat)

  /** How a game records its developers, publishers, genres or tags: not at
      all, as objects built from names (`Developers = names.Select(n => new
      Company(n))`), or as ids of database items (`DeveloperIds`). */
  datatype Taxonomy = Unset | ByName(names: seq<NString>) | ByIds(ids: seq<Guid>)

  /** A Playnite `Game` (the creation and modification clock fields are left out). */
  datatype Game = Game(
    id: Guid,
    name: NString,
    gameId: NString,
    description: NString,
    releaseDate: Option<DateTime>,
    developers: Taxonomy,
    publishers: Taxonomy,
    genres: Taxonomy,
    tags: Taxonomy,
    platformIds: Option<seq<Guid>>,
    sourceId: Option<Guid>,
    links: Option<seq<Link>>,
    coverImage: Option<FileRef>,
    backgroundImage: Option<FileRef>,
    isInstalled: bool,
    playtime: nat)

  /** `new Game(name)`: the given id and name, everything else unset. */
  function NewGame(id: Guid, name: NString): (g: Game)
    ensures g.id == id && g.name == name
    ensures g.gameId.None? && g.links.None? && g.sourceId.None?
    ensures g.coverImage.None? && g.backgroundImage.None? && !g.isInstalled
  {
    Game(id, name, None, None, None, Unset, Unset, Unset, Unset, None, None, None, None, None, false, 0)
  }

  /** A company, genre, tag, platform or game source. */
  datatype NamedItem = NamedItem(id: Guid, name: NString)

  datatype Collection = Companies | Genres | Tags | Platforms | Sources

  /** The position of the first item whose name equals `name` ignoring case. */
  function IndexIgnoringCase(list: seq<NamedItem>, name: string): (r: Option<nat>)
    ensures r.Some? ==> r.value < |list| && EqualsIgnoreCaseN(name, list[r.value].name)
    ensures r.Some? ==> forall k | 0 <= k < r.value :: !EqualsIgnoreCaseN(name, list[k].name)
    ensures r.None? <==> forall k | 0 <= k < |list| :: !EqualsIgnoreCaseN(name, list[k].name)
  {
    if list == [] then None
    else if EqualsIgnoreCaseN(name, list[0].name) then Some(0)
    else
      var rest := IndexIgnoringCase(list[1..], name);
      assert forall k | 1 <= k < |list| :: list[k] == list[1..][k - 1];
      if rest.None? then None else Some(rest.value + 1)
  }

  /** `list.FirstOrDefault(s => s.Name == name)`: the first item named
      exactly `name` (ordinal, case-sensitive). */
  function FirstNamed(list: seq<NamedItem>, name: string): (r: Option<NamedItem>)
    ensures r.Some? ==> r.value in list && r.value.name == Some(name)
    ensures r.None? <==> forall k | 0 <= k < |list| :: list[k].name != Some(name)
    ensures forall k | 0 <= k < |list| && list[k].name == Some(name) ::
      (forall j | 0 <= j < k :: list[j].name != Some(name)) ==> r == Some(list[k])
  {
    if list == [] then None
    else if list[0].name == Some(name) then Some(list[0])
    else
      assert forall k | 1 <= k < |list| :: list[k] == list[1..][k - 1];
      FirstNamed(list[1..], name)
  }

  /** The item with a given id, as a game's `Source` property resolves its
      `SourceId`; `None` when there is none. */
  function ItemById(list: seq<NamedItem>, id: Option<Guid>): (r: Option<NamedItem>)
    ensures r.Some? ==> r.value in list && id == Some(r.value.id)
    ensures r.None? <==> id.None? || forall k | 0 <= k < |list| :: list[k].id != id.value
    ensures forall k | 0 <= k < |list| && id == Some(list[k].id) ::
      (forall j | 0 <= j < k :: id != Some(list[j].id)) ==> r == Some(list[k])
  {
    if id.None? || list == [] then None
    else if list[0].id == id.value then Some(list[0])
    else
      assert forall k | 1 <= k < |list| :: list[k] == list[1..][k - 1];
      ItemById(list[1..], id)
  }

  /** The name of a game's source, `g.Source?.Name`, given the sources. */
  function SourceName(sources: seq<NamedItem>, g: Game): (r: NString)
    ensures r.Some? ==> exists s | s in sources :: Some(s.id) == g.sourceId && s.name == r
    ensures forall k | 0 <= k < |sources| && g.sourceId == Some(sources[k].id) ::
      (forall j | 0 <= j < k :: g.sourceId != Some(sources[j].id)) ==> r == sources[k].name
    ensures g.sourceId.None? ==> r.None?
  {
    var source := ItemById(sources, g.sourceId);
    if source.None? then None else source.value.name
  }

  /** The named collections of a library and its id counter, as a value. */
  datatype Catalog = Catalog(items: map<Collection, seq<NamedItem>>, nextId: Guid) {
    /** The items of one collection. */
    function Items(c: Collection): seq<NamedItem> {
      if c in items then items[c] else []
    }
  }

  /** `collection.Add(name)` for a non-empty name, on the catalog as a value:
      the first item whose name equals `name` ignoring case, or else a new
      item with the next id, appended to the collection. */
  function AddName(s: Catalog, c: Collection, name: string): (r: (Catalog, NamedItem))
    ensures s.Items(c) <= r.0.Items(c) && |r.0.Items(c)| <= |s.Items(c)| + 1
    ensures forall d | d != c :: r.0.Items(d) == s.Items(d)
    ensures s.nextId <= r.0.nextId
  {
    match IndexIgnoringCase(s.Items(c), name)
    case Some(k) => (s, s.Items(c)[k])
    case None =>
      var item := NamedItem(s.nextId, Some(name));
      assert EqualsIgnoreCase(name, name);
      (Catalog(s.items[c := s.Items(c) + [item]], s.nextId + 1), item)
  }

  /** `Add(name)` gives an item of the collection named `name` ignoring
      case: the first such item already there, or else one it creates under
      the next id, exactly when none matches. */
  lemma AddNameFindsFirst(s: Catalog, c: Collection, name: string)
    ensures var r := AddName(s, c, name); r.1 in r.0.Items(c) && EqualsIgnoreCaseN(name, r.1.name)
    ensures var r := AddName(s, c, name);
      r.0 == s <==> exists k | 0 <= k < |s.Items(c)| :: EqualsIgnoreCaseN(name, s.Items(c)[k].name)
    ensures var r := AddName(s, c, name);
      forall k | 0 <= k < |s.Items(c)| && EqualsIgnoreCaseN(name, s.Items(c)[k].name) ::
        (forall j | 0 <= j < k :: !EqualsIgnoreCaseN(name, s.Items(c)[j].name)) ==> r.1 == s.Items(c)[k]
    ensures var r := AddName(s, c, name);
      r.0 != s ==> r.1 == NamedItem(s.nextId, Some(name)) && r.0.nextId == s.nextId + 1
                   && r.0.Items(c) == s.Items(c) + [r.1]
  {
  }

  /** The files attached to a game, the cover before the background. */
  function Attached(g: Game): seq<FileRef> {
    (if g.coverImage.Some? then [g.coverImage.value] else [])
    + (if g.backgroundImage.Some? then [g.backgroundImage.value] else [])
  }

  /** `list` holds an item with id `id` whose name equals `name` ignoring case. */
  ghost predicate NamedIn(list: seq<NamedItem>, id: Guid, name: string) {
    exists k | 0 <= k < |list| :: list[k].id == id && EqualsIgnoreCaseN(name, list[k].name)
  }

  /** `ids` names `names` one for one, in order, within `list`. */
  ghost predicate Resolved(ids: seq<Guid>, names: seq<NString>, list: seq<NamedItem>) {
    && |ids| == |names|
    && forall i | 0 <= i < |ids| :: names[i].Some? && NamedIn(list, ids[i], names[i].value)
  }

  /** Items are only ever appended, so a resolution stays valid. */
  lemma ResolvedGrows(ids: seq<Guid>, names: seq<NString>, list: seq<NamedItem>, more: seq<NamedItem>)
    requires Resolved(ids, names, list) && list <= more
    ensures Resolved(ids, names, more)
  {
    forall i | 0 <= i < |ids|
      ensures NamedIn(more, ids[i], names[i].value)
    {
      var k :| 0 <= k < |list| && list[k].id == ids[i] && EqualsIgnoreCaseN(names[i].value, list[k].name);
      assert more[k] == list[k];
    }
  }

  /** One more name resolved to an item of the list. */
  lemma ResolvedAppend(ids: seq<Guid>, names: seq<NString>, list: seq<NamedItem>, item: NamedItem, name: string)
    requires Resolved(ids, names, list)
    requires item in list && EqualsIgnoreCaseN(name, item.name)
    ensures Resolved(ids + [item.id], names + [Some(name)], list)
  {
    var k :| 0 <= k < |list| && list[k] == item;
    assert NamedIn(list, item.id, name);
    var ids', names' := ids + [item.id], names + [Some(name)];
    forall i | 0 <= i < |ids'|
      ensures names'[i].Some? && NamedIn(list, ids'[i], names'[i].value)
    {
      if i < |ids| {
        assert ids'[i] == ids[i] && names'[i] == names[i];
      }
    }
  }

  /** A resolution extended by an item of a grown list. */
  lemma ResolvedStep(ids: seq<Guid>, names: seq<NString>, list: seq<NamedItem>, more: seq<NamedItem>,
                     item: NamedItem, name: string)
    requires Resolved(ids, names, list) && list <= more
    requires item in more && EqualsIgnoreCaseN(name, item.name)
    ensures Resolved(ids + [item.id], names + [Some(name)], more)
  {
    ResolvedGrows(ids, names, list, more);
    ResolvedAppend(ids, names, more, item, name);
  }

  /** `games` with the game of `g`'s id replaced by `g`, as `Games.Update(g)` does. */
  function ReplaceById(games: seq<Game>, g: Game): (r: seq<Game>)
    ensures |r| == |games|
    ensures forall i | 0 <= i < |games| :: r[i] == if games[i].id == g.id then g else games[i]
  {
    if games == [] then [] else [if games[0].id == g.id then g else games[0]] + ReplaceById(games[1..], g)
  }

  class Library {
    var games: seq<Game>
    var items: map<Collection, seq<NamedItem>>
    var files: seq<FileRef>
    var nextId: Guid

    /** Every game id in use was issued before `nextId`. */
    ghost predicate Valid()
      reads this
    {
      forall i | 0 <= i < |games| :: games[i].id < nextId
    }

    /** The items of one collection. */
    function Items(c: Collection): seq<NamedItem>
      reads this
    {
      if c in items then items[c] else []
    }

    /** The collections and the id counter as a value. */
    function State(): Catalog
      reads this
    {
      Catalog(items, nextId)
    }


    constructor ()
      ensures Valid()
      ensures games == [] && files == [] && forall c :: Items(c) == []
    {
      games := [];
      items := map[];
      files := [];
      nextId := 0;
    }

    /** `Guid.NewGuid()`: an id no database object has. */
    method NewId() returns (id: Guid)
      requires Valid()
      modifies this
      ensures Valid()
      ensures id == old(nextId) && nextId == id + 1
      ensures games == old(games) && items == old(items) && files == old(files)
    {
      id := nextId;
      nextId := nextId + 1;
    }

    /** `collection.Add(name)`: the first item of the collection whose name
        equals `name` ignoring case, or else a new item with that name
        appended; a null or empty name throws (`None`) and changes nothing. */
    method AddNamed(c: Collection, name: NString) returns (item: Option<NamedItem>)
      requires Valid()
      modifies this
      ensures Valid()
      ensures games == old(games) && files == old(files)
      ensures forall d | d != c :: Items(d) == old(Items(d))
      ensures item.None? <==> IsNullOrEmpty(name)
      ensures item.None? ==> items == old(items) && nextId == old(nextId)
      ensures item.Some? ==> item.value in Items(c) && EqualsIgnoreCaseN(name.value, item.value.name)
      ensures item.Some? ==> match IndexIgnoringCase(old(Items(c)), name.value)
        case Some(k) => item.value == old(Items(c))[k] && items == old(items) && nextId == old(nextId)
        case None => item.value == NamedItem(old(nextId), name) && nextId == old(nextId) + 1
                     && Items(c) == old(Items(c)) + [item.value]
      ensures item.Some? ==> (State(), item.value) == AddName(old(State()), c, name.value)
    {
      if IsNullOrEmpty(name) {
        return None;
      }
      var list := Items(c);
      var existing := IndexIgnoringCase(list, name.value);
      if existing.Some? {
        return Some(list[existing.value]);
      }
      var id := NewId();
      var created := NamedItem(id, name);
      assert EqualsIgnoreCase(name.value, name.value);
      items := items[c := list + [created]];
      return Some(created);
    }

    /** `collection.Add(item)` for an item built with a fresh id. */
    method AddItem(c: Collection, item: NamedItem)
      requires Valid()
      modifies this
      ensures Valid()
      ensures Items(c) == old(Items(c)) + [item]
      ensures forall d | d != c :: Items(d) == old(Items(d))
      ensures games == old(games) && files == old(files) && nextId == old(nextId)
    {
      items := items[c := Items(c) + [item]];
    }

    /** `Database.AddFile(path, owner)`: stores a file for the game `owner`. */
    method AddFile(owner: Guid) returns (file: FileRef)
      requires Valid()
      modifies this
      ensures Valid()
      ensures file == FileRef(owner, |old(files)|) && files == old(files) + [file]
      ensures games == old(games) && items == old(items) && nextId == old(nextId)
    {
      file := FileRef(owner, |files|);
      files := files + [file];
    }

    /** `Games.Add(g)`. */
    method AddGame(g: Game)
      requires Valid() && g.id < nextId
      modifies this
      ensures Valid()
      ensures games == old(games) + [g]
      ensures items == old(items) && files == old(files) && nextId == old(nextId)
    {
      games := games + [g];
    }

    /** `Games.Update(g)`: the stored game with `g`'s id becomes `g`. */
    method UpdateGame(g: Game)
      requires Valid() && g.id < nextId
      modifies this
      ensures Valid()
      ensures games == ReplaceById(old(games), g)
      ensures items == old(items) && files == old(files) && nextId == old(nextId)
    {
      games := ReplaceById(games, g);
    }
  }

  /** Replacing a game that was just appended under a new id changes only that game. */
  lemma ReplaceAppended(games: seq<Game>, added: Game, g: Game)
    requires forall i | 0 <= i < |games| :: games[i].id != added.id
    requires g.id == added.id
    ensures ReplaceById(games + [added], g) == games + [g]
  {
  }
}
