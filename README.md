# Browser bookmark search — a Dafny model

This project models the search core of a launcher extension that lists the
bookmarks of a Brave Beta browser (`BrowserBookmarks.py`). When the user types a
query, the extension reads every discovered `Bookmarks` file. It walks the three
root sections of each file (`bookmark_bar`, `synced`, `other`) depth-first and
collects the leaves whose title holds every space-separated sub-query,
ignoring case. A single counter caps the whole query at 10 matches, across all
files and sections. The model also covers how the bookmark files are found:
the `endswith("Bookmarks")` filter over the shell's output lines, the browser
label, and the colon-separated custom directories. It also covers the handler
that applies preference events.

Modules, one per concern:

- `Wrappers` (`wrappers.dfy`): `Option` and `Result`.
- `Text` (`text.dfy`): ASCII lower-casing, substring containment (Python's `in`),
  Python's `str.split` for a one-character separator with its inverse `Join`,
  and `endswith`.
- `Search` (`search.dfy`): the bookmark tree (`Node` = `Folder` | `Leaf`, and
  `Roots`), the matching predicate, and the specification of the walk. That
  specification is `Matches`: all matching leaves in depth-first pre-order,
  with no cap. `Take` is the cap, and `Leaves` with `FilterMatches` is an
  independent reference definition.
- `Paths` (`paths.dfy`): bookmark-file discovery. `collect_bookmarks_paths` is a
  method with loops. `find_bookmarks_paths` is specified by `DiscoverSources`.
- `Extension` (`extension.dfy`): the class `BrowserBookmarks`, which holds the
  shared counter `matchesLen`, the preferences and the discovered files, with
  `FindRec` (`find_rec`), `GetItems` (`get_items`), `FindBookmarksPaths` and
  `OnPreferencesEvent` (`PreferencesEventListener.on_event`).

The state changes step by step in the source, so the model keeps that form.
`FindRec` is a recursive method that advances the counter field. It is proved
to append exactly `Take(Matches(entry, query), budget)`, where the budget is
whatever the counter still allows. `GetItems` resets the counter and loops over
the files. It is proved to return the first 10 of all files' items, in order.
The pure specification functions are then related by lemmas: matches are
exactly the filtered leaves, an empty query matches every leaf, matching
ignores case and the order of the sub-queries, and the cap composes across
consecutive walks.

Inputs that come from outside the program are parameters:

- `find: string -> string` maps a directory argument to the text that the
  pipeline `find DIR | grep Bookmarks` prints.
- `load: string -> Option<Roots>` maps a path to its decoded `roots`, or `None`
  when opening or decoding fails.

The model follows the code as written; in particular:

- A file that cannot be loaded aborts the whole query. It is not isolated per
  source.
- A path is kept when it ends with `Bookmarks`, not only when its name is
  exactly `Bookmarks`.
- Custom paths are labelled `custom_path`.
- An update of the `keyword` preference also skips the rediscovery of the
  bookmark files.

## Model

| member | source | states |
|---|---|---|
| `Text.Lower` | BrowserBookmarks.py:226 | lower-casing keeps the length; the result holds no upper-case letter; a character that is not an upper-case letter is kept, and an upper-case letter becomes the letter 32 code points above it (ASCII letters only) |
| `Text.LowerIdempotent` | BrowserBookmarks.py:226 | lower-casing twice is the same as lower-casing once |
| `Text.EndsWith` | BrowserBookmarks.py:142 | true exactly when the string is some prefix followed by the suffix |
| `Text.Contains` | BrowserBookmarks.py:226 | the scan over start positions is true exactly when the needle occurs somewhere in the text |
| `Text.Split` | BrowserBookmarks.py:165 | split on one character gives at least one part, no part holds the separator, and joining the parts with the separator gives the input back |
| `Text.SplitJoin` | BrowserBookmarks.py:165 | the other round trip: for parts that hold no separator, splitting their join gives the parts back |
| `Text.SplitEmpty` | BrowserBookmarks.py:165 | the empty string splits into one empty part |
| `Search.ContainsAllSubstrings` | BrowserBookmarks.py:214-228 | true exactly when every sub-query, lower-cased, occurs in the lower-cased text; true for no sub-queries |
| `Search.ContainsAllSubstringsIgnoresCase` | BrowserBookmarks.py:225-226 | lower-casing the title or any sub-query does not change the outcome |
| `Search.ContainsAllSubstringsConcat` | BrowserBookmarks.py:225-228 | all of `a + b` occur exactly when all of `a` and all of `b` occur |
| `Search.ContainsAllSubstringsMembers` | BrowserBookmarks.py:225-228 | true exactly when every sub-query that appears in the list, lower-cased, occurs in the lower-cased text |
| `Search.SubQueryOrderIrrelevant` | BrowserBookmarks.py:225-228 | any reordering of the sub-queries (equal multisets) gives the same outcome |
| `Search.SubQueries` | BrowserBookmarks.py:165 | a query yields at least one sub-query, no sub-query holds a space, and joining the sub-queries with single spaces gives the query back |
| `Search.IsMatch` | BrowserBookmarks.py:161-172 | a node is appended exactly when it is a leaf and every space-separated piece of the query, lower-cased, occurs in its lower-cased name |
| `Search.Matches` | BrowserBookmarks.py:158-172 | the uncapped depth-first matches under a node; never more of them than leaves |
| `Search.MatchesAll` | BrowserBookmarks.py:162-163 | the uncapped matches under siblings in stored order; never more of them than leaves |
| `Search.RootsMatches` | BrowserBookmarks.py:197-199 | the uncapped matches of one file are the matching leaves of the bar, then of synced, then of other, each in depth-first order |
| `Search.FilterMatchesMembers` | BrowserBookmarks.py:161-172 | the reference filter keeps a node exactly when it is in the input and is a matching leaf |
| `Search.FilterMatchesConcat` | BrowserBookmarks.py:162-163 | filtering keeps order: it distributes over concatenation |
| `Search.MatchesAreFilteredLeaves` | BrowserBookmarks.py:158-172 | the uncapped walk yields exactly the matching leaves of the tree, in depth-first pre-order |
| `Search.MatchesAllAreFilteredLeaves` | BrowserBookmarks.py:162-163 | the same for a sequence of siblings visited in stored order |
| `Search.RootsMatchesAreMatchingLeaves` | BrowserBookmarks.py:161-172 | every match of a file is a leaf whose name passes the predicate; a folder never is |
| `Search.EmptyQueryMatchesEveryTitle` | BrowserBookmarks.py:165-168 | the empty query passes the predicate for every title |
| `Search.FilterEmptyQueryKeepsLeaves` | BrowserBookmarks.py:165-168 | with the empty query the filter keeps every leaf |
| `Search.EmptyQueryMatchesEveryLeaf` | BrowserBookmarks.py:161-172 | with the empty query the walk matches every leaf of the tree, in order |
| `Search.EmptyQueryMatchesEveryRootLeaf` | BrowserBookmarks.py:197-199 | with the empty query a file's matches are all leaves of bar, then synced, then other |
| `Search.MatchesAllSnoc` | BrowserBookmarks.py:162-163 | visiting one more child appends that child's matches |
| `Search.Take` | BrowserBookmarks.py:158-159 | the cap gives a prefix of the matches, as long as the budget or all of them |
| `Search.TakeConcat` | BrowserBookmarks.py:158-159 | one cap shared by two consecutive walks equals that cap over both walks together |
| `Paths.BrowserImage` | BrowserBookmarks.py:29-31 | an icon exists exactly for a supported browser |
| `Paths.CandidateDirs` | BrowserBookmarks.py:92-95 | a supported browser has two candidate directories, both under `$HOME/` and ending in `/.config/` followed by the browser name |
| `Paths.GrepLines` | BrowserBookmarks.py:131-134 | every directory contributes at least one line |
| `Paths.GrepLinesHas` | BrowserBookmarks.py:131-134 | every line printed for one of the directories is among the gathered lines |
| `Paths.GrepLinesFrom` | BrowserBookmarks.py:131-134 | conversely, every gathered line was printed for one of the directories |
| `Paths.FilterBookmarks` | BrowserBookmarks.py:140-145 | keeps at most as many entries as lines; each kept entry ends with `Bookmarks` and carries the given label |
| `Paths.FilterBookmarksMembers` | BrowserBookmarks.py:140-145 | a source is kept exactly when its path is an output line ending with `Bookmarks` and it carries the given label |
| `Paths.FilterBookmarksConcat` | BrowserBookmarks.py:140-145 | the filter keeps the order of the lines |
| `Paths.CollectBookmarksPaths` | BrowserBookmarks.py:117-145 | the loops return the `Bookmarks` lines of all directories' output, in order, each tagged with the label |
| `Paths.BrowserSources` | BrowserBookmarks.py:91-101 | every source found for the listed browsers is a `Bookmarks` path labelled with one of them |
| `Paths.CustomSources` | BrowserBookmarks.py:103-110 | an empty preference gives no source; every source it gives is a `Bookmarks` path labelled `custom_path` (where they were printed is stated by `DiscoveredSourcesWerePrinted` and `DiscoveryIsComplete`) |
| `Paths.BrowserSourcesLabelled` | BrowserBookmarks.py:91-101 | every source found for the supported browsers is a `Bookmarks` path labelled with one of those browsers |
| `Paths.BrowserSourcesHas` | BrowserBookmarks.py:91-101 | every `Bookmarks` line printed for a candidate directory of a listed browser is found with that browser's label |
| `Paths.BrowserSourcesFrom` | BrowserBookmarks.py:91-101 | conversely, every source found for a listed browser was printed for one of that browser's candidate directories |
| `Paths.DiscoverSources` | BrowserBookmarks.py:81-115 | fails, with a KeyError on the custom-path preference, exactly when that preference is absent; otherwise the supported browsers' files come first |
| `Paths.DiscoveredSourcesWerePrinted` | BrowserBookmarks.py:81-115 | the converse of completeness: a source labelled with a supported browser was printed for one of that browser's candidate directories, and a custom-path source exists only when the preference is not empty and was printed for one of its `:`-separated directories |
| `Paths.DiscoveryIsComplete` | BrowserBookmarks.py:81-115 | every `Bookmarks` line printed for a supported browser's candidate directory, or for a `:`-separated custom directory when the preference is not empty, is returned with its label |
| `Paths.DiscoveredSourcesAreBookmarkFiles` | BrowserBookmarks.py:81-115 | discovery fails exactly when the custom-path preference is absent; every source is a `Bookmarks` path labelled with a supported browser or, only when the preference is not empty, as a custom path |
| `Extension.ItemsOf` | BrowserBookmarks.py:201-210 | item i carries match i's name as label, its url as description and as the URL to open, and the browser's icon |
| `Extension.SourceItemsAreFilteredLeaves` | BrowserBookmarks.py:195-210 | `SourceItems`, the uncapped items of one loaded file, are exactly the items of its matching leaves (bar, then synced, then other), one per leaf in order, with the file's browser icon |
| `Extension.SearchSources` | BrowserBookmarks.py:192-210 | the uncapped items of a whole query succeed exactly when every file can be loaded; a failure is a load error |
| `Extension.ItemsOfTake` | BrowserBookmarks.py:201-210 | capping the matches caps their items the same way |
| `Extension.ApplyPreferencesEvent` | BrowserBookmarks.py:47-53 | a load replaces the preferences; an update sets one key and keeps the others, except that an update of `keyword` changes nothing |
| `Extension.BrowserBookmarks.constructor` | BrowserBookmarks.py:66-72 | the counter starts at 0, within the cap |
| `Extension.BrowserBookmarks.FindRec` | BrowserBookmarks.py:147-172 | appends exactly the first budget's worth of the depth-first matches, counts each appended leaf once, changes nothing when started at the cap, and keeps the counter within the cap |
| `Extension.BrowserBookmarks.FindInRoots` | BrowserBookmarks.py:197-199 | walking bar, synced and other takes the budget's worth of the file's matches in that order |
| `Extension.BrowserBookmarks.GetItems` | BrowserBookmarks.py:174-212 | resets the counter; returns the first 10 of all files' items, in file and traversal order, with the counter equal to their number; an absent query is the empty query; the first unloadable file aborts the query with its path |
| `Extension.BrowserBookmarks.AppendItems` | BrowserBookmarks.py:201-210 | appends one item per match, in match order |
| `Extension.BrowserBookmarks.FindBookmarksPaths` | BrowserBookmarks.py:81-115 | returns the supported browsers' files, then those under the `:`-separated custom directories when that preference is not empty; raises when it is absent |
| `Extension.BrowserBookmarks.OnPreferencesEvent` | BrowserBookmarks.py:35-55 | applies the event to the preferences and replaces the bookmark files with a fresh discovery; an update of `keyword` changes nothing; when discovery raises, the old files stay |
| `Extension.ChildVisited` | BrowserBookmarks.py:162-163 | visiting child i under the remaining budget extends the capped matches of the first i children |
| `Extension.TakeExtend` | BrowserBookmarks.py:158-159 | appending the remaining budget's worth of a second walk to the capped first walk caps both walks together |
| `Extension.RootsVisited` | BrowserBookmarks.py:197-199 | three walks under one shared budget compose into the capped matches of the file |
| `Extension.SourceSearched` | BrowserBookmarks.py:192-210 | one loop step over a file extends the capped items of the files before it |
| `Extension.FailurePersists` | BrowserBookmarks.py:195-196 | once the files so far fail, the whole query fails with the same error |
| `Extension.LoadFailureAborts` | BrowserBookmarks.py:195-196 | the first file that cannot be loaded decides the query's outcome, whatever follows it |

## Left out

- The shell pipeline `find DIR | grep Bookmarks` (BrowserBookmarks.py:132-134) is the parameter `find`. The model does not cover which directories exist, the filesystem enumeration order, or the `$HOME` expansion the shell performs. The directory strings are passed on as written.
- `open` and `json.load` (BrowserBookmarks.py:195-196) are the parameter `load`. The model assumes that a decoded file is well formed: every node has `type`, folders have `children`, and leaves have `name` and `url`. In the source a malformed node raises only when the walk reaches it, and the model does not capture that.
- `FindRec` returns the extended list instead of appending to a list shared by reference. Aliasing of `matches` is not modelled.
- `str.lower()` is ASCII-only case folding here. Unicode case mapping is not modelled.
- Logging, the UTF-8 encode/decode round trip of name and url (identity on strings), and the host framework classes are not modelled. These are `Extension.subscribe`, `EventListener`, `ExtensionResultItem`, `OpenUrlAction` and `RenderResultListAction`. A result item is the plain record `ResultItem`.
- `KeywordQueryEventListener.on_event` (BrowserBookmarks.py:59-63) only forwards the query argument to `get_items`, and is not modelled separately.
- The `assert isinstance(event.preferences, dict)` check (BrowserBookmarks.py:52) is not modelled, because the model's event type already carries a map. Preference values are strings.
- `bookmarks_paths` is not set in the source's constructor, so a query before any preference event would raise. The model's constructor starts it empty.
- `max_matches_len` is the module constant `MaxMatchesLen` (10), not a per-object field.
