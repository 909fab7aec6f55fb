# Learning journal: entry stores, offline cache and navigation, in Dafny

This project models the logic of a small learning-journal web site and proves
properties of it. The site has a Flask back end and a browser front end.

- **JournalStorage** models `JournalStorageManager` (mysite/static/js/storage.js).
  - Entries kept in the browser's localStorage are merged with the entries the Flask
    API serves.
  - Duplicate ids are removed, first occurrence first, and the result is sorted by id,
    newest first.
  - API records are normalised with default values.
  - A save goes to the API, or falls back to localStorage when the API fails.
  - A delete is routed by the entry's source tag.
- **ReflectionsApi** models the Flask reflections store (mysite/flask_app.py).
  - `load_reflections` reads a file that is missing or not valid JSON as empty.
  - The POST route appends one record.
  - The DELETE route filters by id and answers 200 or 404.
- **ServiceWorker** models the offline cache controller (mysite/static/js/sw.js).
  - Install loads the app-shell manifest in one all-or-nothing `addAll`.
  - Activate deletes every cache generation but the current one.
  - Fetch is network-first for HTML and API requests and cache-first otherwise.
  - Cache Storage is a class: generation names in creation order, plus a map from name
    to cache.
- **LegacyStorage** models the older local-only journal (js/storage.js): prepend on save,
  filter on delete, both on one localStorage list.
- **SiteNav** and **LegacyNav** model the two `highlightActivePage` functions
  (mysite/static/js/script.js and js/script.js).
  - SiteNav also covers the duplicate-insertion guard of `loadNavigation`.
  - Both share the link-marking loop in **NavLinks**.
- **Seqs** and **Strings** hold the shared helpers.
  - The array filter `RemoveKey` is used by every delete and by the cache purge.
  - The rest are `startsWith`, `endsWith`, `includes` and `split('/').pop()` over
    `seq<char>`.

How the environment is modelled:

- The browser's localStorage slot is an `Option`: `None` means the key was never set.
- The Flask data file is `Missing`, `Corrupt` or `Stored(records)`.
- Whatever the network, the clock or the locale would supply is a parameter:
  - how each fetch ends;
  - `Date.now()`;
  - the formatted date and time.
- A request the page sends to the API is returned as an `ApiCall` value.
- Ghost counters record how many times each store was written, so "exactly one write"
  and "no write" can be stated.

Behaviour of the code that the model keeps:

- The source tags are the code's own `'browser'` and `'python'`.
- Malformed JSON in localStorage is not read as an empty list. `JSON.parse` throws
  there, and nothing catches it. The model has no malformed local state; only an absent
  key reads as empty.
- A failed install leaves the current generation as `caches.open` made it: a new,
  empty one when CACHE_NAME did not exist before, and the existing one unchanged when
  it did.
- The Cache API neither stores nor matches requests other than GET. So a POST or DELETE
  to `/api/` goes through the network-first branch and caches nothing.
- The Cache API refuses partial (206) responses: `cache.put` stores nothing for one,
  and `cache.addAll` fails when any asset answers with one.

## Model

| member | source | states |
|---|---|---|
| Seqs.RemoveKey | mysite/static/js/storage.js:18 | The filter keeps exactly the elements whose key differs from the one removed, and never grows the list. |
| Seqs.RemoveKeyAppend | mysite/static/js/storage.js:18 | Filtering works part by part, so kept elements stay in their original order. |
| Seqs.RemoveKeySubsequence | mysite/static/js/storage.js:18 | The filtered list is a subsequence of the input. |
| Seqs.RemoveKeyCounts | mysite/static/js/storage.js:18 | Every element without the key keeps its number of occurrences, and every element with the key occurs zero times. |
| Seqs.RemoveKeyAbsent | js/storage.js:9-12 | Filtering out an id that no element has returns the list unchanged. |
| Seqs.RemoveKeyShorter | mysite/flask_app.py:86-89 | The filtered list is shorter exactly when some element carries the id. |
| Strings.ContainsAt | mysite/static/js/sw.js:48 | `includes` holds exactly when the text occurs at some offset. |
| Strings.LastSegment | js/script.js:33 | The text after the last `/` contains no `/`, is a suffix of the path, and is preceded by a `/` when shorter than the path. |
| ReflectionsApi.LoadReflections | mysite/flask_app.py:13-22 | A file that is missing or not valid JSON reads as the empty list; otherwise the stored list is returned. |
| ReflectionsApi.NewReflection | mysite/flask_app.py:65-74 | The new record's id is the timestamp and its source is "python". Its content is the body's content. Its title is the body's title, or "New API Entry" when absent. |
| ReflectionsApi.ReflectionsServer.SaveReflections | mysite/flask_app.py:24-28 | The file is replaced by the given list, and one save is counted. |
| ReflectionsApi.ReflectionsServer.GetReflections | mysite/flask_app.py:57-60 | The GET route answers with the loaded list: empty for a missing or corrupt file. |
| ReflectionsApi.ReflectionsServer.AddReflection | mysite/flask_app.py:62-80 | Without "content": status 500, and the file is neither read nor written. Otherwise: status 201, the file holds the old list plus exactly the new record at the end, and exactly one save. |
| ReflectionsApi.ReflectionsServer.DeleteReflection | mysite/flask_app.py:83-93 | The status is 200 exactly when some record has the id (a missing id counts as 0). Then the file holds the filtered list, no record with that id remains, and one save happens. Otherwise the status is 404 and nothing is written. |
| ReflectionsApi.AddThenDeleteRestores | mysite/flask_app.py:76-91 | Appending a record with a fresh id and then deleting that id gives back the earlier list. |
| JournalStorage.Normalize | mysite/static/js/storage.js:98-105 | The id is kept. A missing or empty title becomes 'API Entry'. Missing content falls back to `reflection`. A missing time becomes ''. A missing source becomes 'python'. Given values pass through. |
| JournalStorage.NormalizeAll | mysite/static/js/storage.js:98-105 | The map yields one normalised entry per record, in order. |
| JournalStorage.LoadJsonEntries | mysite/static/js/storage.js:90-110 | A rejected fetch, a non-ok status or an unparsable body gives []. Otherwise each record is normalised 1:1, in order. |
| JournalStorage.DedupFromUnique | mysite/static/js/storage.js:124-134 | The filter's output has each id at most once. |
| JournalStorage.DedupFromIds | mysite/static/js/storage.js:124-134 | The output's ids are the input's ids minus those already seen, so no id is lost. |
| JournalStorage.DedupFromSubsequence | mysite/static/js/storage.js:124-134 | The kept entries are a subsequence of the input, in their original order. |
| JournalStorage.DedupFromFirstWins | mysite/static/js/storage.js:124-134 | Every kept entry is the first entry in the input with its id. |
| JournalStorage.FirstIndex | mysite/static/js/storage.js:124-134 | The index of the first entry with a given id: that entry has the id and no earlier one does. |
| JournalStorage.DedupFromOrder | mysite/static/js/storage.js:124-134 | The filter emits ids in the order in which they first occur in the input. |
| JournalStorage.DedupSpec | mysite/static/js/storage.js:124-134 | removeDuplicates keeps exactly the first occurrence of each id, drops the later ones, and lists the kept entries in the order of those first occurrences. |
| JournalStorage.InsertDescSorted | mysite/static/js/storage.js:121 | One insertion step keeps the list in descending id order. |
| JournalStorage.SortByIdDesc | mysite/static/js/storage.js:121 | The sort returns a permutation (same multiset) of its input, in descending id order. |
| JournalStorage.SortByIdDescUnique | mysite/static/js/storage.js:121 | Sorting a list with distinct ids keeps the ids distinct. |
| JournalStorage.FirstWithAppend | mysite/static/js/storage.js:117-118 | In local ++ api, the first entry with an id comes from the local list whenever the local list has that id. |
| JournalStorage.MergedViewSpec | mysite/static/js/storage.js:113-122 | The merged list is strictly descending by id and is a permutation of the deduplicated concatenation. Its ids are the union of local and API ids. A local entry wins over an API entry with the same id. |
| JournalStorage.MergeExample | mysite/static/js/storage.js:113-122 | Local [5] merged with API [5, 3] gives [local 5, API 3]. |
| JournalStorage.CountSource | mysite/static/js/storage.js:154-155 | A per-source count never exceeds the number of entries. |
| JournalStorage.SourceCountsBounded | mysite/static/js/storage.js:154-155 | The 'browser' count plus the 'python' count is at most the total. |
| JournalStorage.JournalStorageManager.GetLocalEntries | mysite/static/js/storage.js:84-86 | An unset key reads as []; otherwise the stored list is returned. |
| JournalStorage.JournalStorageManager.DeleteEntry | mysite/static/js/storage.js:12-38 | 'browser': the slot holds the local list without that id, in order, with one write and no API call of its own; the re-render that follows (displayAllEntries, left out) re-reads the list with a GET. 'python': the only effect is a DELETE request for the id. Any other tag does nothing. |
| JournalStorage.JournalStorageManager.SaveToLocal | mysite/static/js/storage.js:67-81 | One new 'browser' entry is put in front of the stored entries, which keep their order. Exactly one write. |
| JournalStorage.JournalStorageManager.SaveEntry | mysite/static/js/storage.js:41-64 | A POST is always sent. An ok reply leaves localStorage untouched. A non-ok reply or a rejected fetch causes exactly one local fallback write. |
| JournalStorage.JournalStorageManager.RemoveDuplicates | mysite/static/js/storage.js:124-134 | The seen-set loop returns exactly the first-occurrence filter. |
| JournalStorage.JournalStorageManager.GetAllEntries | mysite/static/js/storage.js:113-122 | The GET to the API is always sent. The result is the merged view of local and API entries: strictly descending, with ids equal to the union. |
| JournalStorage.ServerEntryShowsAsPython | mysite/static/js/storage.js:98-105 | A record the Flask POST created reaches the page tagged 'python', with its id and its title default. |
| ServiceWorker.NetworkFirst | mysite/static/js/sw.js:48 | A request is network-first exactly when 'text/html' occurs in its Accept header or its pathname starts with '/api/'. |
| ServiceWorker.CacheStorage.Match | mysite/static/js/sw.js:56-62 | A non-GET request never matches; a GET matches exactly when some generation holds its URL, and the answer comes from the first generation that does. |
| ServiceWorker.FirstHit | mysite/static/js/sw.js:62 | `caches.match` answers with the copy in the first generation, in creation order, that holds the URL, and None only when no generation holds it. |
| ServiceWorker.FirstHitIsFirst | mysite/static/js/sw.js:56 | When several generations hold the URL, the earliest one's copy is the answer, whatever the later ones hold. |
| ServiceWorker.Batch | mysite/static/js/sw.js:25 | A successful addAll stores exactly the manifest URLs, each with its own fetched response. |
| ServiceWorker.BatchCovers | mysite/static/js/sw.js:21-27 | After a successful addAll, every manifest path is in the cache. |
| ServiceWorker.Purged | mysite/static/js/sw.js:32-38 | After the purge, only CACHE_NAME can remain, and it remains exactly when it was there. |
| ServiceWorker.PurgeIdempotent | mysite/static/js/sw.js:32-38 | Purging twice leaves the same names as purging once. |
| ServiceWorker.PurgedAtMostOne | mysite/static/js/sw.js:32-38 | With distinct names, at most the single generation CACHE_NAME survives. |
| ServiceWorker.CacheStorage.Open | mysite/static/js/sw.js:23 | `caches.open` creates an empty generation at the end of the name list only when the name is new. |
| ServiceWorker.CacheStorage.Put | mysite/static/js/sw.js:53 | `cache.put` overwrites the URL's entry in that one generation, only for GET requests and responses other than 206. |
| ServiceWorker.CacheStorage.AddAll | mysite/static/js/sw.js:25 | All responses are stored when every fetch resolved ok and none is partial (206); otherwise nothing changes. |
| ServiceWorker.CacheStorage.Delete | mysite/static/js/sw.js:36 | `caches.delete` removes the name and its cache, and keeps the other names in order. |
| ServiceWorker.Install | mysite/static/js/sw.js:21-28 | CACHE_NAME is opened. It gains the whole manifest if every asset was fetched ok and none is partial; otherwise it gains nothing. No other generation changes. |
| ServiceWorker.Activate | mysite/static/js/sw.js:30-42 | The names become the purge of the old names. Only CACHE_NAME can remain, and it is kept if present. The kept caches are unchanged. |
| ServiceWorker.PurgeOne | mysite/static/js/sw.js:33-37 | One step of the map over `keyList`: the name is deleted unless it is CACHE_NAME, and the purge extends by one name. |
| ServiceWorker.PurgeStep | mysite/static/js/sw.js:33-37 | Deleting the next non-current name from the partly purged list gives the purge of one more name. |
| ServiceWorker.HandleFetch | mysite/static/js/sw.js:44-65 | Network-first with a response: the response is returned and a copy is written to CACHE_NAME, whatever its status. Network-first with a network error: the cache match is returned, and nothing is written. Cache-first: nothing is written, a hit is returned without the network, and a miss goes to the network. |
| ServiceWorker.OfflineAfterInstall | mysite/static/js/sw.js:5-27 | After a successful install, a cache-first GET for a manifest path is answered from the cache without the network. |
| ServiceWorker.OfflineAfterNetworkFirst | mysite/static/js/sw.js:48-57 | A page or API GET fetched once is still answered when the network later fails, unless its response was a partial one the cache refused. |
| ServiceWorker.StaticAssetsDistinct | mysite/static/js/sw.js:5-19 | The manifest lists no path twice. |
| LegacyStorage.LegacyJournal.StoredEntries | js/storage.js:6 | An absent key reads as the empty list. |
| LegacyStorage.LegacyJournal.DeleteEntry | js/storage.js:4-16 | Every entry with the id is removed, the rest keep their order, and the list is written back. Deleting an absent id leaves the list unchanged. |
| LegacyStorage.LegacyJournal.SaveEntry | js/storage.js:19-35 | Exactly one new entry, with no source field, goes in at index 0. The existing entries keep their order. |
| LegacyStorage.SaveThenDeleteRestores | js/storage.js:4-35 | Saving an entry with a fresh id and then deleting it restores the list. |
| LegacyStorage.DeleteIdempotent | js/storage.js:9 | A second delete of the same id changes nothing. |
| LegacyStorage.DeletesCommute | js/storage.js:9 | Two deletes give the same list in either order. |
| NavLinks.MarkActive | mysite/static/js/script.js:52-59 | Every link whose href equals the current path gains 'active'. All other links are left unmodified. |
| NavLinks.AtMostOneActive | mysite/static/js/script.js:50-59 | With distinct hrefs, at most one link is marked. Exactly one is marked when the current path is among the hrefs. |
| SiteNav.NormalizePath | mysite/static/js/script.js:45-48 | At most one trailing '/' is removed. '', '/' and paths ending in 'index.html' become '/'. Any other result is the path minus that slash, and is non-empty. |
| SiteNav.HomePaths | mysite/static/js/script.js:45-48 | A path counts as home exactly when it is '', '/' or '//', or ends in 'index.html' or 'index.html/'. |
| SiteNav.NavHrefsReachable | mysite/static/js/script.js:13-16 | Every menu href, with or without a trailing slash, normalises to itself, and '/index.html' normalises to '/'. |
| SiteNav.NavHrefsDistinct | mysite/static/js/script.js:13-16 | The four hrefs are distinct. |
| SiteNav.OneActiveLink | mysite/static/js/script.js:50-59 | For every pathname, at most one menu link is active. Exactly one is active when the normalised path is a menu href. |
| SiteNav.HighlightActivePage | mysite/static/js/script.js:43-60 | Exactly the links whose href equals the normalised path gain 'active'. |
| SiteNav.NewMenu | mysite/static/js/script.js:9-20 | The inserted menu's links are the four hrefs, in order, none of them active. |
| SiteNav.Page.LoadNavigation | mysite/static/js/script.js:2-40 | If a nav exists or there is no placeholder, nothing changes. Otherwise one menu is inserted, the theme toggle is moved after it, and exactly the link for the current path is active. |
| SiteNav.LoadNavigationTwice | mysite/static/js/script.js:4-6 | Running `loadNavigation` twice inserts the menu at most once. |
| LegacyNav.CurrentPage | js/script.js:33-34 | The page is the last path segment, or 'index.html' when that is empty. It never contains '/'. |
| LegacyNav.LastSegmentOfFile | js/script.js:33 | The last segment of dir + '/' + name is name. |
| LegacyNav.PageOfPath | js/script.js:33-34 | A file under any directory is recognised by its name, and a path ending in '/' is 'index.html'. |
| LegacyNav.NavHrefsDistinct | js/script.js:8-11 | The four hrefs are distinct. |
| LegacyNav.OneActiveLink | js/script.js:37-46 | For every pathname, at most one link is active. Exactly one is active when the page name is a menu href. |
| LegacyNav.HighlightActivePage | js/script.js:30-47 | Exactly the links whose href equals the page name gain 'active'. The others are left unmodified. |

## Left out

- HTML rendering is not modelled: `displayAllEntries`, `displaySavedEntries`, the nav HTML template, confirm dialogs, alerts, console logging and event-listener wiring are DOM and UI.
- `exportAllEntries` is not modelled: it is a Blob download, which is browser I/O.
- js/browser.js (clipboard) and the theme switchers are not modelled: they are browser APIs and class toggling.
- `insertNavigation` in js/script.js is not modelled: it is DOM insertion without a guard. Only its highlighting is modelled.
- backend/save_entry.py is not modelled: it is an interactive console script.
- The Flask page routes are not modelled: `render_template` and `jsonify` are framework wrappers.
- The real fetch, localStorage, file system and Cache Storage become values. The network's outcome is a parameter.
- `Date.now()`, `toLocaleDateString`/`toLocaleTimeString` and Python's `datetime` become parameters.
- JSON parsing and serialisation are not modelled: entries are stored as sequences.
- JournalStorage.JournalStorageManager.GetLocalEntries: malformed stored JSON, on which the source throws, is not representable.
- JournalStorage.Normalize: requires a numeric id. `parseInt` returning NaN is not modelled.
- JournalStorage.JournalStorageManager.DeleteEntry: takes the id already parsed, and does not model NaN.
  - For 'python', only the request is modelled. The answer affects only an alert or a refresh.
- ServiceWorker.NetworkFirst: takes the Accept header as a string. A missing header, on which `.includes` throws, is not modelled.
- ServiceWorker.HandleFetch: the un-awaited `cache.put` is modelled as finished before the response is returned.
  - Caches are keyed by URL. Vary headers and opaque responses are not modelled. Partial (206) responses are modelled only as refused by `cache.put` and `cache.addAll`; the rejected put promise leaves no trace.
  - The put for a non-GET request rejects in the source. The model writes nothing and keeps no trace of the rejection.
- ServiceWorker.Activate: the `caches.delete` calls run concurrently under `Promise.all`. The model deletes them one by one in `keyList` order, which ends in the same state.
  - `clients.claim()` and `event.waitUntil` are lifecycle plumbing.
- ServiceWorker.Install: a failed install also rejects `waitUntil`, which keeps the old worker in charge. Only the effect on Cache Storage is modelled.
- ReflectionsApi.LoadReflections: only a missing file and `json.JSONDecodeError` are modelled. Other read errors, such as a permission error, a directory in place of the file or bytes that are not UTF-8, are not caught by the source and end the request with a server error; the model has no case for them.
- ReflectionsApi.ReflectionsServer.AddReflection: only JSON-object bodies are modelled.
  - A request that is not JSON, or whose JSON is malformed, is refused by `request.get_json()` (415 or 400 in current Flask).
  - Valid JSON that is not an object (a list, a string, `null`) reaches `data.get` or `data["content"]` and fails with 500.
- ReflectionsApi.ReflectionsServer.DeleteReflection: takes any integer id. Flask's `<int:...>` converter matches only non-negative ids, and other URLs get a routing 404 that is not modelled.
  - Record ids that `int()` cannot convert are not modelled: ids are integers or absent.
