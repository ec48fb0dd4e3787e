# PlexSearch search-and-cache core, modelled in Dafny

PlexSearch is a command-line tool that looks up a movie or show on a Plex media
server. It checks for an exact title match first. On request it then tries fuzzy
matching, which runs against a local snapshot of the catalogue that is kept for
six hours. Otherwise it falls back to a raw server search. This project models
the logic of `main.py` that decides what is searched, what is cached and what is
shown. The server, the cache file, the clock and the similarity scorer become
inputs.

Modules, leaf to root:

- `Wrappers`: `Option` (Python's `None`) and `Result` (a call that returned or raised).
- `Text`: `str.strip()` and `str.lower()` as `Normalize`, and `str(n)` as `DecimalString`.
- `Seqs`: `FilterMap`, the "loop, keep some, append a record" pattern, and its characterisation.
- `Dicts`: an insertion-ordered string-keyed dict, as Python's `dict` behaves.
- `Plex`: item and section handles with optional attributes, the requests (`Call`), and a `Service` that answers them.
- `CacheStore`: the snapshot, `load_cache`, the TTL test, and the `refresh_cache` rebuild.
- `ExactSearch`: `search_exact`, meaning the scoped search, the unscoped retry and the normalised-title filter.
- `FuzzySearch`: `search_fuzzy`, meaning candidate selection, thresholding and the stable descending sort.
- `Orchestrator`: `run_search`, the choice between exact, fuzzy and raw outcomes, with the display cap of 20.
- `Scenarios`: worked examples with a single cached film.

Every method that talks to the server also returns the list of requests it made.
This is how the model states "no server call on a cache hit" and "no raw search in
fuzzy mode".

The model follows the code on three points a reader might expect otherwise:
- Fuzzy results carry no library title.
- The cache file is written directly, not by write-then-replace.
- A stored cache whose `updated` field is missing counts as updated at time 0.

## Model

| member | source | states |
|---|---|---|
| CacheStore.LoadCache | main.py:43-50 | a missing or unparsable cache file gives the canonical empty cache `{"updated": 0, "libraries": {}}`; a parsed file is returned as stored |
| CacheStore.ProjectAll | main.py:72-80 | a section's records are one per item, in enumeration order, each holding the item's title, year, type and ratingKey |
| CacheStore.RefreshCache | main.py:58-91 | a fresh cache (`IsFresh`: `now - updated < 6h`, missing `updated` = 0) is returned unchanged with no server call when not forced; `force` always lists the sections; a failed listing returns the loaded cache; otherwise the result is the rebuilt dict stamped `now`, after one listing call per section |
| CacheStore.BuildLibrariesKeys | main.py:70-88 | the rebuilt dict has each key once, and its keys are exactly `str(key)` of the sections whose enumeration succeeded |
| CacheStore.BuildLibrariesEntry | main.py:81-85 | a successful section is stored under `str(key)` with its own title, type and item records, unless a later successful section has the same key |
| CacheStore.FailedSectionIgnored | main.py:86-88 | removing a section whose enumeration raised leaves the rebuilt dict unchanged, so a failure does not affect the other sections |
| CacheStore.BuildLibrariesInOrder | main.py:70-85 | with distinct section keys, the rebuilt dict is one entry per successful section, in listing order |
| CacheStore.RefreshThenReuse | main.py:58-91 | after a forced refresh at `t1` whose listing succeeds, a second, unforced refresh at `t2` with `t2 - t1` under the TTL that loads the saved cache returns that same rebuilt cache and makes no server call |
| Text.TrimStart | main.py:95 | the result is the suffix of the input that starts at its first non-whitespace character, whitespace being `IsSpace`, the set of characters for which `str.isspace()` holds |
| Text.TrimEnd | main.py:95 | the result is the prefix of the input that ends at its last non-whitespace character |
| Text.StripUntrimmed | main.py:95 | `strip()` leaves a string without whitespace at either end unchanged |
| Text.NormalizeTrimmed | main.py:95 | a normalised string has no whitespace at either end |
| Text.NormalizeIdempotent | main.py:122 | normalising (`Strip`, then `Lower`, which applies `LowerChar` to each character, as every `strip().lower()` of the search code does) a normalised string changes nothing |
| Text.DecimalStringInjective | main.py:81 | different section numbers give different cache keys `str(key)` |
| Dicts.Get | main.py:127 | `d.get(k)` is present exactly when `k` is a key, and then it is `k`'s value |
| Dicts.Put | main.py:81 | `d[k] = v` appends a new key at the end, keeps a present key in place, and leaves every other entry where it was |
| Dicts.PutGet | main.py:81 | after `d[k] = v`, `k` gives `v` and every other key gives what it gave before |
| Dicts.PutDistinct | main.py:81 | assignment keeps every key at most once |
| Seqs.FilterMapSpec | main.py:109-118 | the filtered records are one per kept element, built from it, each kept element once, in input order |
| Seqs.FilterMapFewer | main.py:138 | a filter that keeps no more elements than another yields no more records |
| ExactSearch.SearchAttempt | main.py:96-108 | the first search is section-scoped, or server-wide for movies when no section is given; an unscoped retry is made exactly when the first search raised; the results are those of the last search made, and none when that one raised too |
| ExactSearch.SearchExact | main.py:94-119 | returns the searches made and the results of the successful search whose normalised title equals the normalised query, in order; every result matches the query |
| ExactSearch.ExactMatchesCharacterised | main.py:109-119 | there is exactly one exact-match record per search result whose `strip().lower()` title equals the normalised query, it carries that result's fields, and order is preserved |
| FuzzySearch.CollectCandidates | main.py:125-132 | the candidates are the items of section `str(id)`, or of every section in dict order; a section id that is not cached gives none |
| FuzzySearch.KeepMatches | main.py:133-145 | the scoring loop keeps, in candidate order, one match per candidate with a non-empty title whose score reaches the threshold; every kept match has a non-empty title and a score of at least the threshold |
| FuzzySearch.SearchFuzzy | main.py:121-146 | the result is the stable descending sort of the thresholded candidates; every match has a non-empty title and a score of at least the threshold; scores never increase; an uncached section gives an empty result |
| FuzzySearch.FuzzyMatchesCharacterised | main.py:133-145 | one match per candidate with a non-empty title scoring at least the threshold, carrying its fields and score, each such candidate once, in candidate order |
| FuzzySearch.ThresholdMonotone | main.py:138 | raising the threshold never increases the number of fuzzy matches |
| FuzzySearch.SortByScorePermutes | main.py:146 | the sort `SortByScore`, an insertion sort built from `Insert`, only reorders: the output is a permutation of the input |
| FuzzySearch.SortByScoreSorted | main.py:146 | the sort's output has non-increasing scores |
| FuzzySearch.SortByScoreStable | main.py:146 | for every score, the matches with that score keep their relative order, as Python's stable `sorted(..., reverse=True)` does |
| FuzzySearch.InsertStable | main.py:146 | inserting into a ranked list keeps equal-score matches in their original order |
| Orchestrator.Capped | main.py:153 | the displayed slice `[:20]` is a prefix of at most 20 elements, and the whole list when it is shorter |
| Orchestrator.Decide | main.py:162-190 | exact hits win and are all shown; otherwise fuzzy mode ends either fuzzy-found with the first 20 ranked matches or fuzzy-empty; otherwise the raw answer gives the first 20 results, "no results" or the failure |
| Orchestrator.RunSearch | main.py:162-190 | the outcome is `Decide` of the exact, fuzzy and raw answers; the requests are those of the exact search, plus one unscoped search exactly when there was no exact hit and fuzzy mode is off |
| Scenarios.ExactScenario | main.py:94-119 | `"Jurassic Park "` with no section makes one movie search and finds exactly the one film |
| Scenarios.FuzzyScenario | main.py:121-146 | searching section 1 for the film's own title at threshold 80 returns the film alone, with the score of identical strings |
| Scenarios.FuzzyScenarioBelowThreshold | main.py:138 | a partial title that scores below 90 finds nothing at threshold 90 |
| Scenarios.SevenHoursIsStale | main.py:28 | a cache stamped seven hours ago is stale under the six-hour TTL |

## Left out

- Connection and configuration (`load_dotenv`, `PLEX_TOKEN`, `PlexServer`, `sys.exit`), logging, `argparse`, the interactive loop and `KeyboardInterrupt`: these are bootstrap and front-end code.
- Printing: the text of each outcome, and the fallbacks from `title` to `name`, `tag` and `<unknown>` in `print_search_results_from_server`. The model stops at which outcome is reached and which elements are shown.
- Remote calls: `sections()`, `section.all()`, `sectionByID(...).search` and `plex.search` are answers of a `Service` value. The server is taken not to change between calls within one query, so the exact-search retry and the raw search get the same answer.
- Cache file I/O: `read_text` and `json.loads` become a `CacheFile` value (missing, unparsable, or a parsed cache). `save_cache` is not modelled: a failed write is only logged (main.py:52-56), and the next `load_cache` then reads the old file, or none.
- CacheStore.RefreshThenReuse: assumes `save_cache` succeeded, so that the second refresh loads exactly the cache the first one rebuilt; when the write fails, the second refresh sees the old file instead.
- A parsed file of another shape is not modelled. Python raises at two points on such a file. A top-level value that is not an object (`[]`, `null`, `"x"`) or an `updated` that is not a number raises in `refresh_cache` at the TTL test (main.py:61), whenever the refresh is not forced. A missing `libraries` key or a section without `items` raises later, in `search_fuzzy`.
- A stored `libraries` list with a repeated key is not modelled: `json.loads` keeps only the last value for a repeated key, so a parsed dict never holds one. The model's `Stored` case does not exclude it, and for such a list `Get` would find the first entry and `AllItems` would list both.
- Clock: `now` is an integer parameter instead of the float `time.time()`.
- Fuzzy scoring: `fuzz.token_sort_ratio` is an abstract `Scorer` with values in [0, 100]. That its score ignores token order is a property of that library and is not proved here.
- Text.Normalize: lower-cases only ASCII and Latin-1 capitals; Python's `str.lower()` covers all of Unicode. Stripping uses Python's full `str.isspace()` set.
- ExactSearch.SearchExact: a result whose `title` is missing or `None` is treated as having title `""`. In Python a `None` title raises at `.strip()` (main.py:111). A missing title raises at `r.title` (main.py:113) when the normalised query is empty.
- FuzzySearch.SearchFuzzy: the `cache is None` default path (main.py:123-124) is not modelled, because `run_search` always passes a cache. A cached section stored as an empty dict, which `if lib:` would treat as absent, is not modelled either.
