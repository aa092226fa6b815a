/**
 * Locating bookmark files. The shell pipeline `find DIR | grep Bookmarks` is
 * a parameter `find` that maps a directory argument to the text the pipeline
 * prints; what is modelled is the splitting of that text into lines, the
 * `endswith("Bookmarks")` filter, the browser labels and the `:`-separated
 * custom directories.
 */
module Paths {
  import opened Wrappers
  import opened Text

  /** One bookmark file to search, with the label that picks its icon. */
  datatype Source = Source(path: string, browser: string)

  /** The ways a preference event or a query can fail. */
  datatype Error =
    | KeyError(key: string)      // a preference the code reads is absent
    | LoadError(path: string)    // a bookmark file could not be opened or decoded

  /** `support_browsers`. */
  const SupportBrowsers: seq<string> := ["BraveSoftware/Brave-Browser-Beta"]

  /** The label of the bookmark files found under the custom directories. */
  const CustomPathLabel: string := "custom_path"

  /** The preference that holds the custom directories. */
  const AdditionalPathsKey: string := "additional_browser_paths"

  /** `browser_imgs.get(browser)`: the icon of a supported browser, none otherwise. */
  function BrowserImage(browser: string): (r: Option<string>)
    ensures r.Some? <==> browser in SupportBrowsers
  {
    if browser == "BraveSoftware/Brave-Browser-Beta" then Some("images/brave-beta.png") else None
  }

  /** The two install locations searched for a supported browser (before `$HOME` is expanded). */
  function CandidateDirs(browser: string): (r: seq<string>)
    ensures |r| == 2
    ensures forall k :: 0 <= k < |r| ==> "$HOME/" <= r[k] && EndsWith(r[k], "/.config/" + browser)
  {
    var config := "$HOME/.config/" + browser;
    var snap := "$HOME/snap/" + browser + "/current/.config/" + browser;
    assert config == "$HOME" + ("/.config/" + browser);
    assert snap == ("$HOME/snap/" + browser + "/current") + ("/.config/" + browser);
    [config, snap]
  }

  /** The lines printed for each directory, directory by directory. */
  function GrepLines(dirs: seq<string>, find: string -> string): (r: seq<string>)
    ensures |r| >= |dirs|
    decreases |dirs|
  {
    if dirs == [] then []
    else GrepLines(dirs[..|dirs| - 1], find) + Split(find(dirs[|dirs| - 1]), '\n')
  }

  /** The lines that end with `Bookmarks`, in order, each tagged with `browser`. */
  function FilterBookmarks(lines: seq<string>, browser: string): (r: seq<Source>)
    ensures |r| <= |lines|
    ensures forall k :: 0 <= k < |r| ==> r[k].browser == browser && EndsWith(r[k].path, "Bookmarks")
    decreases |lines|
  {
    if lines == [] then []
    else
      var last := lines[|lines| - 1];
      FilterBookmarks(lines[..|lines| - 1], browser)
        + (if EndsWith(last, "Bookmarks") then [Source(last, browser)] else [])
  }

  /** A source is kept exactly when its path is one of the lines, ends with `Bookmarks` and carries the given label. */
  lemma {:induction false} FilterBookmarksMembers(lines: seq<string>, browser: string, s: Source)
    ensures s in FilterBookmarks(lines, browser)
        <==> s.path in lines && EndsWith(s.path, "Bookmarks") && s.browser == browser
    decreases |lines|
  {
    if lines != [] {
      var init, last := lines[..|lines| - 1], lines[|lines| - 1];
      var tail := if EndsWith(last, "Bookmarks") then [Source(last, browser)] else [];
      FilterBookmarksMembers(init, browser, s);
      assert FilterBookmarks(lines, browser) == FilterBookmarks(init, browser) + tail;
      assert lines == init + [last];
      assert s.path in lines <==> s.path in init || s.path == last;
    }
  }

  /** The filter keeps the order of the lines: filtering a concatenation concatenates the results. */
  lemma {:induction false} FilterBookmarksConcat(a: seq<string>, b: seq<string>, browser: string)
    ensures FilterBookmarks(a + b, browser) == FilterBookmarks(a, browser) + FilterBookmarks(b, browser)
    decreases |b|
  {
    if b == [] {
      assert a + b == a;
    } else {
      var init, last := b[..|b| - 1], b[|b| - 1];
      var tail := if EndsWith(last, "Bookmarks") then [Source(last, browser)] else [];
      assert (a + b)[..|a + b| - 1] == a + init;
      assert (a + b)[|a + b| - 1] == last;
      calc {
        FilterBookmarks(a + b, browser);
        FilterBookmarks(a + init, browser) + tail;
        { FilterBookmarksConcat(a, init, browser); }
        FilterBookmarks(a, browser) + FilterBookmarks(init, browser) + tail;
        FilterBookmarks(a, browser) + FilterBookmarks(b, browser);
      }
    }
  }

  /** One more directory extends the gathered lines by what `find` printed for it. */
  lemma GrepLinesStep(dirs: seq<string>, i: nat, find: string -> string)
    requires i < |dirs|
    ensures GrepLines(dirs[..i + 1], find) == GrepLines(dirs[..i], find) + Split(find(dirs[i]), '\n')
  {
    assert dirs[..i + 1][..i] == dirs[..i];
  }

  /** One more printed line extends the kept sources by that line's source, if it names a bookmark file. */
  lemma FilterBookmarksStep(lines: seq<string>, i: nat, browser: string)
    requires i < |lines|
    ensures FilterBookmarks(lines[..i + 1], browser)
      == FilterBookmarks(lines[..i], browser)
         + (if EndsWith(lines[i], "Bookmarks") then [Source(lines[i], browser)] else [])
  {
    assert lines[..i + 1][..i] == lines[..i];
  }

  /** `collect_bookmarks_paths`: gather the printed lines of every directory, then keep the bookmark files. */
  method CollectBookmarksPaths(dirs: seq<string>, browser: string, find: string -> string)
    returns (bookmarksPaths: seq<Source>)
    ensures bookmarksPaths == FilterBookmarks(GrepLines(dirs, find), browser)
  {
    var grepResults: seq<string> := [];
    for i := 0 to |dirs|
      invariant grepResults == GrepLines(dirs[..i], find)
    {
      GrepLinesStep(dirs, i, find);
      grepResults := grepResults + Split(find(dirs[i]), '\n');
    }
    assert dirs[..|dirs|] == dirs;
    if |grepResults| == 0 {
      return [];
    }
    bookmarksPaths := [];
    for i := 0 to |grepResults|
      invariant bookmarksPaths == FilterBookmarks(grepResults[..i], browser)
    {
      FilterBookmarksStep(grepResults, i, browser);
      if EndsWith(grepResults[i], "Bookmarks") {
        bookmarksPaths := bookmarksPaths + [Source(grepResults[i], browser)];
      }
    }
    assert grepResults[..|grepResults|] == grepResults;
  }

  /** The bookmark files of the supported browsers, browser by browser. */
  function BrowserSources(browsers: seq<string>, find: string -> string): (r: seq<Source>)
    ensures forall k :: 0 <= k < |r| ==> r[k].browser in browsers && EndsWith(r[k].path, "Bookmarks")
    decreases |browsers|
  {
    if browsers == [] then []
    else
      var b := browsers[|browsers| - 1];
      assert forall x :: x in browsers[..|browsers| - 1] ==> x in browsers;
      BrowserSources(browsers[..|browsers| - 1], find)
        + FilterBookmarks(GrepLines(CandidateDirs(b), find), b)
  }

  /** The bookmark files under the custom directories: the preference split on `:`, unless it is empty. */
  function CustomSources(additionalPaths: string, find: string -> string): (r: seq<Source>)
    ensures additionalPaths == "" ==> r == []
    ensures forall k :: 0 <= k < |r| ==> r[k].browser == CustomPathLabel && EndsWith(r[k].path, "Bookmarks")
  {
    if additionalPaths != "" then
      FilterBookmarks(GrepLines(Split(additionalPaths, ':'), find), CustomPathLabel)
    else []
  }

  /**
   * `find_bookmarks_paths`: the supported browsers' files followed by the
   * custom directories' files; an absent custom-path preference raises.
   */
  function DiscoverSources(preferences: map<string, string>, find: string -> string)
    : (r: Result<seq<Source>, Error>)
    ensures r.Failure? <==> AdditionalPathsKey !in preferences
    ensures r.Failure? ==> r.error == KeyError(AdditionalPathsKey)
    ensures r.Success? ==> BrowserSources(SupportBrowsers, find) <= r.value
  {
    if AdditionalPathsKey !in preferences then Failure(KeyError(AdditionalPathsKey))
    else Success(BrowserSources(SupportBrowsers, find) + CustomSources(preferences[AdditionalPathsKey], find))
  }

  lemma {:induction false} BrowserSourcesLabelled(browsers: seq<string>, find: string -> string, s: Source)
    requires s in BrowserSources(browsers, find)
    ensures s.browser in browsers && EndsWith(s.path, "Bookmarks")
    decreases |browsers|
  {
    var init := browsers[..|browsers| - 1];
    var b := browsers[|browsers| - 1];
    if s in BrowserSources(init, find) {
      BrowserSourcesLabelled(init, find, s);
    } else {
      FilterBookmarksMembers(GrepLines(CandidateDirs(b), find), b, s);
    }
  }

  /**
   * Every discovered source is a `Bookmarks` file, labelled with a supported
   * browser or as a custom path; custom paths appear only when the preference
   * is not empty; discovery fails exactly when the preference is absent.
   */
  lemma DiscoveredSourcesAreBookmarkFiles(preferences: map<string, string>, find: string -> string, s: Source)
    ensures DiscoverSources(preferences, find).Failure? <==> AdditionalPathsKey !in preferences
    ensures DiscoverSources(preferences, find).Success? && s in DiscoverSources(preferences, find).value ==>
      && EndsWith(s.path, "Bookmarks")
      && (s.browser in SupportBrowsers || (s.browser == CustomPathLabel && preferences[AdditionalPathsKey] != ""))
  {
  }

  /** Every line printed for one of the directories is among the gathered lines. */
  lemma {:induction false} GrepLinesHas(dirs: seq<string>, find: string -> string, d: string, l: string)
    requires d in dirs
    requires l in Split(find(d), '\n')
    ensures l in GrepLines(dirs, find)
    decreases |dirs|
  {
    var init := dirs[..|dirs| - 1];
    if d != dirs[|dirs| - 1] {
      assert dirs == init + [dirs[|dirs| - 1]];
      GrepLinesHas(init, find, d, l);
    }
  }

  /** Every bookmark file printed for a candidate directory of a listed browser is found, with that browser's label. */
  lemma {:induction false} BrowserSourcesHas(browsers: seq<string>, find: string -> string, b: string, d: string, l: string)
    requires b in browsers && d in CandidateDirs(b)
    requires l in Split(find(d), '\n') && EndsWith(l, "Bookmarks")
    ensures Source(l, b) in BrowserSources(browsers, find)
    decreases |browsers|
  {
    var init := browsers[..|browsers| - 1];
    if b == browsers[|browsers| - 1] {
      GrepLinesHas(CandidateDirs(b), find, d, l);
      FilterBookmarksMembers(GrepLines(CandidateDirs(b), find), b, Source(l, b));
    } else {
      assert browsers == init + [browsers[|browsers| - 1]];
      BrowserSourcesHas(init, find, b, d, l);
    }
  }

  /**
   * Discovery misses nothing: every `Bookmarks` line printed for a supported
   * browser's candidate directory, or for one of the `:`-separated custom
   * directories, is returned with its label.
   */
  lemma DiscoveryIsComplete(preferences: map<string, string>, find: string -> string, d: string, l: string)
    requires AdditionalPathsKey in preferences
    requires l in Split(find(d), '\n') && EndsWith(l, "Bookmarks")
    ensures forall b :: b in SupportBrowsers && d in CandidateDirs(b) ==>
      Source(l, b) in DiscoverSources(preferences, find).value
    ensures preferences[AdditionalPathsKey] != "" && d in Split(preferences[AdditionalPathsKey], ':') ==>
      Source(l, CustomPathLabel) in DiscoverSources(preferences, find).value
  {
    var extra := preferences[AdditionalPathsKey];
    forall b | b in SupportBrowsers && d in CandidateDirs(b)
      ensures Source(l, b) in DiscoverSources(preferences, find).value
    {
      BrowserSourcesHas(SupportBrowsers, find, b, d, l);
    }
    if extra != "" && d in Split(extra, ':') {
      GrepLinesHas(Split(extra, ':'), find, d, l);
      FilterBookmarksMembers(GrepLines(Split(extra, ':'), find), CustomPathLabel, Source(l, CustomPathLabel));
    }
  }

  /** Every gathered line was printed for one of the directories. */
  lemma {:induction false} GrepLinesFrom(dirs: seq<string>, find: string -> string, l: string)
    requires l in GrepLines(dirs, find)
    ensures exists d :: d in dirs && l in Split(find(d), '\n')
    decreases |dirs|
  {
    var init, last := dirs[..|dirs| - 1], dirs[|dirs| - 1];
    if l in GrepLines(init, find) {
      GrepLinesFrom(init, find, l);
      var d :| d in init && l in Split(find(d), '\n');
      assert d in dirs;
    } else {
      assert last in dirs && l in Split(find(last), '\n');
    }
  }

  /** Every source found for the listed browsers was printed for a candidate directory of its own browser. */
  lemma {:induction false} BrowserSourcesFrom(browsers: seq<string>, find: string -> string, s: Source)
    requires s in BrowserSources(browsers, find)
    ensures exists d :: d in CandidateDirs(s.browser) && s.path in Split(find(d), '\n')
    decreases |browsers|
  {
    var init, b := browsers[..|browsers| - 1], browsers[|browsers| - 1];
    if s in BrowserSources(init, find) {
      BrowserSourcesFrom(init, find, s);
    } else {
      FilterBookmarksMembers(GrepLines(CandidateDirs(b), find), b, s);
      GrepLinesFrom(CandidateDirs(b), find, s.path);
    }
  }

  /**
   * Discovery invents nothing: a source labelled with a supported browser was
   * printed for one of that browser's candidate directories, and a custom-path
   * source was printed for one of the `:`-separated custom directories.
   */
  lemma DiscoveredSourcesWerePrinted(preferences: map<string, string>, find: string -> string, s: Source)
    requires DiscoverSources(preferences, find).Success?
    requires s in DiscoverSources(preferences, find).value
    ensures s.browser in SupportBrowsers ==>
      exists d :: d in CandidateDirs(s.browser) && s.path in Split(find(d), '\n')
    ensures s.browser == CustomPathLabel ==>
      && preferences[AdditionalPathsKey] != ""
      && exists d :: d in Split(preferences[AdditionalPathsKey], ':') && s.path in Split(find(d), '\n')
  {
    var extra := preferences[AdditionalPathsKey];
    if s in BrowserSources(SupportBrowsers, find) {
      BrowserSourcesLabelled(SupportBrowsers, find, s);
      BrowserSourcesFrom(SupportBrowsers, find, s);
    } else {
      assert s in CustomSources(extra, find);
      FilterBookmarksMembers(GrepLines(Split(extra, ':'), find), CustomPathLabel, s);
      GrepLinesFrom(Split(extra, ':'), find, s.path);
    }
  }
}
