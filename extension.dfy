/**
 * The extension object: the shared match counter, the preferences and the
 * discovered bookmark files, with the bounded depth-first walk (`find_rec`),
 * the per-query accumulation (`get_items`) and the preference handler.
 */
module Extension {
  import opened Wrappers
  import opened Text
  import opened Search
  import opened Paths

  /** A rendered result: icon, label, subtitle and the URL that activation opens. */
  datatype ResultItem = ResultItem(icon: Option<string>, name: string, description: string, openUrl: string)

  /** The preference event kinds the extension listens to. */
  datatype PreferencesEvent =
    | PreferencesLoaded(preferences: map<string, string>)
    | PreferenceUpdated(id: string, newValue: string)

  /** The preference whose changes are ignored. */
  const KeywordKey: string := "keyword"

  /** The result items for one file's matches, in match order, with the file's icon. */
  function ItemsOf(matches: seq<Node>, browser: string): (r: seq<ResultItem>)
    requires forall m :: m in matches ==> m.Leaf?
    ensures |r| == |matches|
    ensures forall k :: 0 <= k < |r| ==>
      && r[k].name == matches[k].name
      && r[k].description == matches[k].url
      && r[k].openUrl == matches[k].url
      && r[k].icon == BrowserImage(browser)
  {
    seq(|matches|, k requires 0 <= k < |matches| =>
      ResultItem(BrowserImage(browser), matches[k].name, matches[k].url, matches[k].url))
  }

  /** Cutting the matches short cuts their items short. */
  lemma ItemsOfTake(matches: seq<Node>, browser: string, n: nat)
    requires forall m :: m in matches ==> m.Leaf?
    ensures ItemsOf(Take(matches, n), browser) == Take(ItemsOf(matches, browser), n)
  {
  }

  /** The items of one bookmark file when nothing caps the search. */
  function SourceItems(source: Source, roots: Roots, query: string): seq<ResultItem>
  {
    RootsMatchesAreMatchingLeaves(roots, query);
    ItemsOf(RootsMatches(roots, query), source.browser)
  }

  /** A file's items are those of its matching leaves, bar, then synced, then other, each in depth-first order. */
  lemma SourceItemsAreFilteredLeaves(source: Source, roots: Roots, query: string)
    ensures (forall m :: m in FilterMatches(RootsLeaves(roots), query) ==> m.Leaf? && IsMatch(m, query))
      && SourceItems(source, roots, query) == ItemsOf(FilterMatches(RootsLeaves(roots), query), source.browser)
  {
    RootsMatchesAreMatchingLeaves(roots, query);
  }

  /**
   * The uncapped items of a whole query, file by file in the order of
   * `sources`; the first file that cannot be loaded aborts the query.
   */
  function SearchSources(sources: seq<Source>, load: string -> Option<Roots>, query: string)
    : (r: Result<seq<ResultItem>, Error>)
    ensures r.Success? <==> forall k :: 0 <= k < |sources| ==> load(sources[k].path).Some?
    ensures r.Failure? ==> r.error.LoadError?
    decreases |sources|
  {
    if sources == [] then Success([])
    else
      var last := sources[|sources| - 1];
      assert forall k :: 0 <= k < |sources| - 1 ==> sources[..|sources| - 1][k] == sources[k];
      match SearchSources(sources[..|sources| - 1], load, query)
      case Failure(e) => Failure(e)
      case Success(items) =>
        match load(last.path)
        case None => Failure(LoadError(last.path))
        case Some(roots) => Success(items + SourceItems(last, roots, query))
  }

  /** `preferences` after an event: a load replaces them, an update sets one key unless it is the keyword. */
  function ApplyPreferencesEvent(preferences: map<string, string>, event: PreferencesEvent): (r: map<string, string>)
    ensures event.PreferenceUpdated? && event.id == KeywordKey ==> r == preferences
    ensures event.PreferenceUpdated? && event.id != KeywordKey ==>
      && r.Keys == preferences.Keys + {event.id}
      && r[event.id] == event.newValue
      && forall key :: key in preferences && key != event.id ==> r[key] == preferences[key]
    ensures event.PreferencesLoaded? ==> r == event.preferences
  {
    match event
    case PreferencesLoaded(all) => all
    case PreferenceUpdated(id, value) => if id == KeywordKey then preferences else preferences[id := value]
  }

  class BrowserBookmarks {
    /** Matches found so far in the current query, across all files and root sections. */
    var matchesLen: nat
    var preferences: map<string, string>
    var bookmarksPaths: seq<Source>

    /** The counter never passes the cap. */
    ghost predicate Valid()
      reads this
    {
      matchesLen <= MaxMatchesLen
    }

    /** How many more matches the current query may still collect. */
    function Budget(): (b: nat)
      reads this
      ensures matchesLen <= MaxMatchesLen ==> matchesLen + b == MaxMatchesLen
    {
      if matchesLen < MaxMatchesLen then MaxMatchesLen - matchesLen else 0
    }

    constructor ()
      ensures Valid() && matchesLen == 0
      ensures preferences == map[] && bookmarksPaths == []
    {
      matchesLen := 0;
      preferences := map[];
      bookmarksPaths := [];
    }

    /**
     * `find_rec`: appends to `matches` the matching leaves under `entry` in
     * depth-first order, at most as many as the shared counter still allows,
     * and counts each one. A walk that starts at the cap changes nothing.
     */
    method FindRec(entry: Node, query: string, matches: seq<Node>) returns (matches': seq<Node>)
      modifies this`matchesLen
      ensures matches' == matches + Take(Matches(entry, query), old(Budget()))
      ensures matchesLen == old(matchesLen) + (|matches'| - |matches|)
      ensures old(matchesLen) >= MaxMatchesLen ==> matches' == matches && matchesLen == old(matchesLen)
      ensures old(Valid()) ==> Valid()
      decreases entry
    {
      if matchesLen >= MaxMatchesLen {
        return matches;
      }
      match entry
      case Folder(children) =>
        ghost var budget := Budget();
        matches' := matches;
        for i := 0 to |children|
          invariant matches' == matches + Take(MatchesAll(children[..i], query), budget)
          invariant matchesLen == old(matchesLen) + (|matches'| - |matches|)
        {
          ghost var prev := matches';
          matches' := FindRec(children[i], query, matches');
          ChildVisited(children, i, query, budget, matches, prev, matches');
        }
        assert children[..|children|] == children;
      case Leaf(name, _) =>
        var subQueries := SubQueries(query);
        if !ContainsAllSubstrings(name, subQueries) {
          return matches;
        }
        matches' := matches + [entry];
        matchesLen := matchesLen + 1;
    }

    /** The three root sections of one file, in the order bar, synced, other. */
    method FindInRoots(roots: Roots, query: string) returns (matches: seq<Node>)
      modifies this`matchesLen
      ensures matches == Take(RootsMatches(roots, query), old(Budget()))
      ensures forall m :: m in matches ==> IsMatch(m, query)
      ensures matchesLen == old(matchesLen) + |matches|
      ensures old(Valid()) ==> Valid()
    {
      ghost var budget := Budget();
      var bar := FindRec(roots.bookmarkBar, query, []);
      var synced := FindRec(roots.synced, query, bar);
      matches := FindRec(roots.other, query, synced);
      RootsVisited(roots, query, budget, bar, synced, matches);
      RootsMatchesAreMatchingLeaves(roots, query);
    }

    /**
     * `get_items`: resets the counter, searches every bookmark file in order
     * against one shared cap and turns each match into a result item. The
     * items are the first `MaxMatchesLen` of all files' matches; an absent
     * query is the empty query; a file that cannot be loaded aborts the query.
     */
    method GetItems(query: Option<string>, load: string -> Option<Roots>)
      returns (r: Result<seq<ResultItem>, Error>)
      modifies this`matchesLen
      ensures var q := if query.None? then "" else query.value;
        match SearchSources(bookmarksPaths, load, q)
        case Failure(e) => r == Failure(e)
        case Success(all) => r == Success(Take(all, MaxMatchesLen))
      ensures r.Success? ==> |r.value| <= MaxMatchesLen && matchesLen == |r.value|
      ensures Valid()
    {
      var items: seq<ResultItem> := [];
      matchesLen := 0;
      var q := if query.None? then "" else query.value;
      for i := 0 to |bookmarksPaths|
        invariant SearchSources(bookmarksPaths[..i], load, q).Success?
        invariant items == Take(SearchSources(bookmarksPaths[..i], load, q).value, MaxMatchesLen)
        invariant matchesLen == |items|
      {
        var source := bookmarksPaths[i];
        var data := load(source.path);
        if data.None? {
          LoadFailureAborts(bookmarksPaths, load, q, i);
          return Failure(LoadError(source.path));
        }
        ghost var all := SearchSources(bookmarksPaths[..i], load, q).value;
        var matches := FindInRoots(data.value, q);
        items := AppendItems(items, matches, source.browser);
        SourceSearched(bookmarksPaths, i, load, q, all, data.value, matches, items);
      }
      assert bookmarksPaths[..|bookmarksPaths|] == bookmarksPaths;
      r := Success(items);
    }

    /** The conversion loop of `get_items`: one result item per match, appended in match order. */
    static method AppendItems(items: seq<ResultItem>, matches: seq<Node>, browser: string)
      returns (items': seq<ResultItem>)
      requires forall m :: m in matches ==> m.Leaf?
      ensures items' == items + ItemsOf(matches, browser)
    {
      items' := items;
      for j := 0 to |matches|
        invariant items' == items + ItemsOf(matches[..j], browser)
      {
        var bookmark := matches[j];
        assert bookmark in matches;
        assert matches[..j + 1] == matches[..j] + [bookmark];
        items' := items' + [ResultItem(BrowserImage(browser), bookmark.name, bookmark.url, bookmark.url)];
      }
      assert matches[..|matches|] == matches;
    }

    /**
     * `find_bookmarks_paths`: the supported browsers' bookmark files, then
     * those under the custom directories.
     */
    method FindBookmarksPaths(find: string -> string) returns (r: Result<seq<Source>, Error>)
      ensures r == DiscoverSources(preferences, find)
    {
      if AdditionalPathsKey !in preferences {
        return Failure(KeyError(AdditionalPathsKey));
      }
      var additionalBrowserPaths := preferences[AdditionalPathsKey];
      var foundBookmarks: seq<Source> := [];
      for i := 0 to |SupportBrowsers|
        invariant foundBookmarks == BrowserSources(SupportBrowsers[..i], find)
      {
        assert SupportBrowsers[..i + 1][..i] == SupportBrowsers[..i];
        var browser := SupportBrowsers[i];
        var found := CollectBookmarksPaths(CandidateDirs(browser), browser, find);
        foundBookmarks := foundBookmarks + found;
      }
      assert SupportBrowsers[..|SupportBrowsers|] == SupportBrowsers;
      assert foundBookmarks == BrowserSources(SupportBrowsers, find);
      if additionalBrowserPaths != "" {
        var customPaths := Split(additionalBrowserPaths, ':');
        var found := CollectBookmarksPaths(customPaths, CustomPathLabel, find);
        foundBookmarks := foundBookmarks + found;
      }
      assert foundBookmarks == BrowserSources(SupportBrowsers, find) + CustomSources(additionalBrowserPaths, find);
      r := Success(foundBookmarks);
    }

    /**
     * `PreferencesEventListener.on_event`: applies the event to the
     * preferences and rediscovers the bookmark files; an update of the
     * keyword changes nothing. When discovery raises, the preferences are
     * already updated and the old bookmark files stay.
     */
    method OnPreferencesEvent(event: PreferencesEvent, find: string -> string) returns (raised: Option<Error>)
      modifies this`preferences, this`bookmarksPaths
      ensures preferences == ApplyPreferencesEvent(old(preferences), event)
      ensures event.PreferenceUpdated? && event.id == KeywordKey ==>
        raised.None? && bookmarksPaths == old(bookmarksPaths)
      ensures !(event.PreferenceUpdated? && event.id == KeywordKey) ==>
        match DiscoverSources(preferences, find)
        case Success(sources) => raised.None? && bookmarksPaths == sources
        case Failure(e) => raised == Some(e) && bookmarksPaths == old(bookmarksPaths)
    {
      match event {
        case PreferenceUpdated(id, value) =>
          if id == KeywordKey {
            return None;
          }
          preferences := preferences[id := value];
        case PreferencesLoaded(all) =>
          preferences := all;
      }
      var found := FindBookmarksPaths(find);
      match found
      case Success(sources) =>
        bookmarksPaths := sources;
        raised := None;
      case Failure(e) =>
        raised := Some(e);
    }
  }

  /** The step of the walk over a folder's children: visiting child `i` extends the capped matches of the first `i` children. */
  lemma ChildVisited(children: seq<Node>, i: nat, query: string, budget: nat, matches: seq<Node>, prev: seq<Node>, next: seq<Node>)
    requires i < |children|
    requires prev == matches + Take(MatchesAll(children[..i], query), budget)
    requires next == prev + Take(Matches(children[i], query), budget - (|prev| - |matches|))
    ensures next == matches + Take(MatchesAll(children[..i + 1], query), budget)
  {
    assert children[..i + 1] == children[..i] + [children[i]];
    MatchesAllSnoc(children[..i], children[i], query);
    TakeExtend(matches, MatchesAll(children[..i], query), Matches(children[i], query), budget, prev, next);
  }

  /** Appending the capped rest of a second walk to the capped first walk caps both walks together. */
  lemma TakeExtend<T>(matches: seq<T>, before: seq<T>, here: seq<T>, budget: nat, prev: seq<T>, next: seq<T>)
    requires prev == matches + Take(before, budget)
    requires next == prev + Take(here, budget - (|prev| - |matches|))
    ensures next == matches + Take(before + here, budget)
  {
  }

  /** Walking bar, synced and other against one budget takes the budget's worth of the file's matches. */
  lemma RootsVisited(roots: Roots, query: string, budget: nat, bar: seq<Node>, synced: seq<Node>, other: seq<Node>)
    requires bar == Take(Matches(roots.bookmarkBar, query), budget)
    requires synced == bar + Take(Matches(roots.synced, query), budget - |bar|)
    requires other == synced + Take(Matches(roots.other, query), budget - |synced|)
    ensures other == Take(RootsMatches(roots, query), budget)
  {
  }

  /** A loaded file appends its uncapped items to those of the files before it. */
  lemma SearchSourcesStep(sources: seq<Source>, i: nat, load: string -> Option<Roots>, query: string,
                          all: seq<ResultItem>, roots: Roots)
    requires i < |sources|
    requires SearchSources(sources[..i], load, query) == Success(all)
    requires load(sources[i].path) == Some(roots)
    ensures SearchSources(sources[..i + 1], load, query) == Success(all + SourceItems(sources[i], roots, query))
  {
    assert sources[..i + 1][..i] == sources[..i];
  }

  /**
   * The step of `get_items` over one file: the file's capped matches, turned
   * into items, extend the capped items of the files before it.
   */
  lemma SourceSearched(sources: seq<Source>, i: nat, load: string -> Option<Roots>, query: string,
                       all: seq<ResultItem>, roots: Roots, matches: seq<Node>, items: seq<ResultItem>)
    requires i < |sources|
    requires SearchSources(sources[..i], load, query) == Success(all)
    requires load(sources[i].path) == Some(roots)
    requires matches == Take(RootsMatches(roots, query), MaxMatchesLen - |Take(all, MaxMatchesLen)|)
    requires forall m :: m in matches ==> m.Leaf?
    requires items == Take(all, MaxMatchesLen) + ItemsOf(matches, sources[i].browser)
    ensures SearchSources(sources[..i + 1], load, query) == Success(all + SourceItems(sources[i], roots, query))
    ensures items == Take(all + SourceItems(sources[i], roots, query), MaxMatchesLen)
  {
    SearchSourcesStep(sources, i, load, query, all, roots);
    RootsMatchesAreMatchingLeaves(roots, query);
    ItemsOfTake(RootsMatches(roots, query), sources[i].browser, MaxMatchesLen - |Take(all, MaxMatchesLen)|);
    TakeConcat(all, SourceItems(sources[i], roots, query), MaxMatchesLen);
  }

  /** Once a prefix of the files fails, the whole query fails with the same error. */
  lemma {:induction false} FailurePersists(sources: seq<Source>, load: string -> Option<Roots>, query: string, n: nat)
    requires n <= |sources|
    requires SearchSources(sources[..n], load, query).Failure?
    ensures SearchSources(sources, load, query) == SearchSources(sources[..n], load, query)
    decreases |sources|
  {
    if n < |sources| {
      var init := sources[..|sources| - 1];
      assert init[..n] == sources[..n];
      FailurePersists(init, load, query, n);
    } else {
      assert sources[..n] == sources;
    }
  }

  /**
   * The first file that cannot be loaded decides the outcome of the query,
   * whatever the files after it hold.
   */
  lemma LoadFailureAborts(sources: seq<Source>, load: string -> Option<Roots>, query: string, failed: nat)
    requires failed < |sources|
    requires SearchSources(sources[..failed], load, query).Success?
    requires load(sources[failed].path).None?
    ensures SearchSources(sources, load, query) == Failure(LoadError(sources[failed].path))
  {
    assert sources[..failed + 1][..failed] == sources[..failed];
    FailurePersists(sources, load, query, failed + 1);
  }
}
