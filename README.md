# bmhmovies view logic in Dafny

This project models the self-contained logic inside `movies/views.py` of the
bmhmovies Django site, and proves properties of that model. The logic covers:

- **Title heuristics.** `extract_episode_number` gives a `(season, episode)`
  sort key from three regular-expression searches over the lower-cased
  title. `extract_movie_order_number` gives the value of a leading
  `<digits>.` token, or 9999.
- **Request-header classifiers.** `detect_device_name` guesses the device
  from the User-Agent. `get_client_ip` returns the first X-Forwarded-For hop
  or the remote address.
- **Install tracking.** `track_install`, `track_uninstall` and
  `reset_install_data` run a per-device state machine over InstallTracker
  records. Each record has an `install_count` in {0, 1} and a
  `deleted_count` that only grows.
- **Listing order.**
  - `playlist_detail` looks at the first five titles and then sorts stably,
    either by order number or by `(season, episode)`.
  - `category_detail` filters by a case-insensitive query, makes the same
    first-five check, and then sorts either the movies by order number or
    all entries newest first.

Modules:

| file | module | contents |
|---|---|---|
| `wrappers.dfy` | `Wrappers` | `Option`; Python truthiness and `or ""` on optional strings |
| `ascii.dfy` | `Ascii` | `str.lower`, `str.strip`, `in`, `int()` on digit runs, the classes `\d`, `\s`, `\w` (ASCII) |
| `title_order.dfy` | `TitleOrder` | regular expressions as per-position matchers plus a leftmost search; the two title heuristics |
| `title_order_examples.dfy` | `TitleOrderExamples` | the heuristics on concrete titles |
| `request_headers.dfy` | `RequestHeaders` | `detect_device_name`, `get_client_ip` |
| `install_tracking.dfy` | `InstallTracking` | transitions on the tracker store, and the class `InstallRegistry` that performs them in place |
| `stable_sort.dfy` | `StableSort` | `list.sort(key=...)`: a reference stable sort and an in-place array sort proved equal to it |
| `listing.dfy` | `Listing` | the first-five scan, the query filter, and the two page orders |

### How the regular expressions are modelled

Each regular expression is modelled in two parts:

- `MatchAt(pat, t, i)` is what the backtracking engine returns when it tries
  the pattern at position `i`.
- `SearchFrom` returns the match at the leftmost position where the pattern
  matches. This is `re.search`.

The contract of `MatchAt` states, in both directions, when a match exists.
`\s` is Python's ASCII whitespace: 9 to 13, 28 to 32. `\w` is letters,
digits and `_`. `\b` before and after a digit run means no word character
next to it.

`int()` on a captured digit run is `ParseInt`. CPython refuses a run of more
than 4300 digits with `ValueError`, and each `except ValueError: pass` then
keeps the default (season 1, episode 9999, order number 9999). A season
match whose number is refused still triggers the episode fallback, because
the match object is still truthy.

`ExtractEpisodeNumber` and `ExtractMovieOrderNumber` carry no `ensures` of
their own. What they compute is stated by the lemmas listed below. This keeps
their callers' proofs small.

### Where the code and its description differ

The model follows the code in these places:

- **Standalone-number fallback** (lines 46-54). It runs whenever a season
  marker matched and the episode is still 9999. That includes an explicit
  `e9999`, not only titles without an episode marker.
- **Repeated install** (lines 279-281). An install of an already-active
  device also overwrites `device_name`, not only `last_action`.
- **Uninstall of an unknown device** (line 324). The response carries no
  `total_active_installs`. `UninstallSucceeded` therefore holds an
  `Option<nat>`.

## Model

| member | source | states |
|---|---|---|
| Ascii.Lower | movies/views.py:24 | `str.lower` on ASCII: same length, each character lower-cased, no upper-case letter left |
| Ascii.Contains | movies/views.py:240-247 | the `in` test holds exactly when the pattern stands at some position of the text |
| Ascii.Strip | movies/views.py:68 | `str.strip()`; its meaning is stated by `Ascii.StripSpec` (and the two halves by `TrimStartSpec`, `TrimEndSpec`) |
| Ascii.StripSpec | movies/views.py:68 | `strip()` keeps a middle slice of the title: only whitespace before and after it, and it begins and ends with non-whitespace |
| Ascii.TrimStartSpec | movies/views.py:68 | the left half of `strip()`: drops exactly the leading whitespace run, and the result starts with non-whitespace |
| Ascii.TrimEndSpec | movies/views.py:68 | the right half of `strip()`: drops exactly the trailing whitespace run, and the result ends with non-whitespace |
| Ascii.DigitsValueShowNat | movies/views.py:71 | the digit value (`DigitsValue`) of `str(n)` is `n` for every `n`, whatever its length; `int()` with its digit limit is stated by `ParseIntShowNat` |
| Ascii.ParseIntShowNat | movies/views.py:34 | `int()` on a digit string: `int(str(n)) == n` while `str(n)` has at most 4300 digits (CPython's default `int_max_str_digits`), and `ValueError` beyond it (lines 34, 42, 52, 71) |
| TitleOrder.DigitsAfterSpace | movies/views.py:31 | `\s*(\d+)` at a position: where the digits start if the pattern matches there, and no digit after any whitespace-only gap if it does not |
| TitleOrder.MatchAt | movies/views.py:31-49 | a marker or standalone-number match at a position: a match exists exactly when the pattern allows one, with its group boundaries and word-boundary conditions |
| TitleOrder.MarkerMatchAt | movies/views.py:31 | `s(?:eason)?\s*(\d+)` (and the `e` pattern at line 39) tried at a position: a match starts with the letter, has only the word's rest and whitespace before its digits, and is missing only when no such gap is followed by a digit |
| TitleOrder.MarkerDigits | movies/views.py:39 | the backtracking between `(?:pisode)?` and the bare letter: the digits found follow an allowed gap, and when none is found no allowed gap ends at a digit |
| TitleOrder.NumberMatchAt | movies/views.py:49 | `\b(\d+)\b` tried at a position: a whole digit run with no word character on either side, and missing exactly when every digit run from there is glued to a word character |
| TitleOrder.SearchFrom | movies/views.py:31-49 | `re.search`: the match returned is at the leftmost matching position, and no earlier position matches |
| TitleOrder.SearchIsLeftmost | movies/views.py:31-49 | the search finds nothing exactly when no position matches; otherwise it returns the match at the first matching position |
| TitleOrder.RemoveAll | movies/views.py:48 | `str.replace(target, '')`: never longer; at least one target shorter when the target occurs; unchanged when it does not occur |
| TitleOrder.FallbackEpisode | movies/views.py:46-54 | the fallback episode is the first standalone number left after deleting every copy of the season match, or 9999 if there is none or `int()` refuses it |
| TitleOrder.SeasonIsFirstMarker | movies/views.py:31-36 | the season is the number after the leftmost season marker, or 1 when `int()` refuses it (the `except ValueError: pass` at 35-36) |
| TitleOrder.WithoutSeasonMarker | movies/views.py:27-44 | without a season marker: season 1, and the episode is the first episode marker's number (9999 when `int()` refuses it) or 9999 without one, with no fallback |
| TitleOrder.ExplicitEpisodeKept | movies/views.py:39-47 | an explicit episode number that `int()` accepts and that is not 9999 is the result |
| TitleOrder.FallbackWhenNoEpisode | movies/views.py:46-54 | with a season marker and an episode still at 9999 (no marker, an explicit 9999, or a number `int()` refuses), the episode is the fallback number |
| TitleOrder.ExtractEpisodeNumber | movies/views.py:18-56 | the (season, episode) key; its meaning is stated by `SeasonIsFirstMarker`, `WithoutSeasonMarker`, `ExplicitEpisodeKept`, `FallbackWhenNoEpisode` and `EpisodeNumberIgnoresCase` |
| TitleOrder.ExtractMovieOrderNumber | movies/views.py:62-74 | the order number; its meaning is stated by `OrderNumberCases`, `OrderNumberOfDigits` and `OrderNumberOfNumberedTitle` |
| TitleOrder.EpisodeNumberIgnoresCase | movies/views.py:23-24 | titles differing only in letter case have the same key |
| TitleOrder.OrderNumberCases | movies/views.py:62-74 | after `strip()`: a title opening with digits followed by '.' gets their value when there are at most 4300 of them and 9999 when there are more; every other title, None and "" included, gets 9999 |
| TitleOrder.OrderNumberOfDigits | movies/views.py:68-74 | leading whitespace, a digit run, '.' and anything gives the run's `int()` value, leading zeros allowed, or 9999 when `int()` refuses the run |
| TitleOrder.OrderNumberOfNumberedTitle | movies/views.py:62-74 | leading whitespace, then `str(n)` within the digit limit, then '.', then anything, gives `n` |
| TitleOrderExamples.CompactMarkers | movies/views.py:18-56 | "S01E03" gives (1, 3) |
| TitleOrderExamples.SpelledOutMarkers | movies/views.py:18-56 | "Season 2 Episode 5" gives (2, 5) |
| TitleOrderExamples.NoMarkers | movies/views.py:26-28 | "random title" gives (1, 9999) |
| TitleOrderExamples.MarkerInsideWord | movies/views.py:31 | the season marker also fires inside a word: "this 3" gives (3, 9999) |
| TitleOrderExamples.ExplicitNoEpisodeFallsBack | movies/views.py:47-52 | an explicit `e9999` still takes the fallback: "s1 e9999 7" gives (1, 7) |
| TitleOrderExamples.NumberedTitle | movies/views.py:68-71 | "10. Title" has order number 10 |
| TitleOrderExamples.NumberWithoutDot | movies/views.py:68-74 | "10 Title" has order number 9999 |
| TitleOrderExamples.UnnumberedTitle | movies/views.py:68-74 | "Title" has order number 9999 |
| TitleOrderExamples.MissingTitle | movies/views.py:23-28 | a None title gives order number 9999 and key (1, 9999) |
| RequestHeaders.DetectDeviceName | movies/views.py:237-249 | one of the five names; each is returned exactly when its case-insensitive check is the first, in priority order, to succeed |
| RequestHeaders.WindowsBeforeAndroid | movies/views.py:240-243 | a user agent naming both Windows and Android is Windows |
| RequestHeaders.FirstField | movies/views.py:212 | `split(",")[0]`: a prefix with no comma, ending at the first comma or at the end |
| RequestHeaders.FirstFieldOfJoined | movies/views.py:212 | the first field of `first + "," + rest` is `first` |
| RequestHeaders.GetClientIp | movies/views.py:208-213 | a present, non-empty X-Forwarded-For gives its text before the first comma (untrimmed); otherwise REMOTE_ADDR, possibly None |
| RequestHeaders.ClientIpIsFirstHop | movies/views.py:210-212 | behind proxies the address is the first hop of the list |
| InstallTracking.CountActiveBound | movies/views.py:285 | the active-install count never exceeds the number of records |
| InstallTracking.ResolveDeviceName | movies/views.py:259 | a non-empty device name in the payload is kept as given; an empty or missing one is replaced by exactly the `DetectDeviceName` guess for the request's user agent (first matching rule in its Windows, Android, iOS, Mac order), which is one of the five names |
| InstallTracking.InstallMessage | movies/views.py:264-282 | the install reply; its meaning is stated by `InstallMessageNamesAction` |
| InstallTracking.InstallMessageNamesAction | movies/views.py:264-282 | each of the three replies is given exactly when the record's last action becomes "install", "reinstall" or "install (re-open)" respectively |
| InstallTracking.AfterInstall | movies/views.py:264-282 | a new device gets (1, 0, name, user agent, "install"); a device at 0 becomes 1 with "reinstall"; a device at 1 keeps its counts with "install (re-open)"; the name is always set; no other record changes; valid stores stay valid, with the device at 1 |
| InstallTracking.AfterUninstall | movies/views.py:312-318 | a device at 1 drops to 0, its deleted count rises by one, and its last action becomes "uninstall"; otherwise the store is unchanged; no other record changes; validity is kept |
| InstallTracking.ActiveAfterInstall | movies/views.py:264-285 | installing adds exactly the device to the active set, so the count rises by one unless it was already active |
| InstallTracking.ActiveAfterUninstall | movies/views.py:312-320 | uninstalling removes exactly the device from the active set, so the count falls by one if it was active |
| InstallTracking.DeletedCountNeverDecreases | movies/views.py:264-318 | neither transition drops a record or lowers a deleted count; an install leaves all deleted counts as they were |
| InstallTracking.UninstallIdempotent | movies/views.py:313-318 | a second uninstall of the same device changes nothing |
| InstallTracking.InstallUninstallReinstall | movies/views.py:254-324 | install, uninstall, install of an unknown device ends at install count 1, deleted count 1, "reinstall", with the last name, and leaves other records alone |
| InstallTracking.InstallRegistry.ActiveCount | movies/views.py:285 | `filter(install_count=1).count()`, at most the number of records |
| InstallTracking.InstallRegistry.TrackInstall | movies/views.py:254-292 | a falsy device id gives "Device ID missing" and no change; otherwise the store takes the install transition, and the reply carries the action message, the resolved name and the new active count |
| InstallTracking.InstallRegistry.TrackUninstall | movies/views.py:302-324 | a falsy device id gives "Device ID is required" and no change; an unknown id is acknowledged with no total and no change; a known id takes the uninstall transition and the reply carries the new active count |
| InstallTracking.InstallRegistry.ResetInstallData | movies/views.py:357-360 | every record is deleted, no device is active, and the reset message is returned |
| InstallTracking.ReinstallScenario | movies/views.py:254-324 | on a fresh table, install, uninstall, install leaves the device at (1, 1) with "reinstall", and the replies report totals 1, 0, 1 |
| StableSort.SortBy | movies/views.py:141-143 | `list.sort(key=...)` as insertion of each element after every element with a key not greater; its meaning is stated by `SortSorted`, `SortPerm`, `SortStable` and `SortByIsUnique` |
| StableSort.SortSorted | movies/views.py:141-143 | the sorted list is in non-decreasing key order and keeps its length |
| StableSort.SortPerm | movies/views.py:141-143 | the sorted list is a permutation of the input |
| StableSort.SortStable | movies/views.py:175-179 | for every key, the elements with that key keep their input order |
| StableSort.SortedUnique | movies/views.py:141-143 | two key-ordered lists that agree on the elements of every key are equal |
| StableSort.SortByIsUnique | movies/views.py:141-143 | the stable sort is the only key-ordered arrangement that keeps the input order among equal keys, so it is what `list.sort` produces |
| StableSort.SortInPlace | movies/views.py:141-143 | sorting the array in place leaves exactly the stable sort of its old contents |
| Listing.RecencyRankReversesTime | movies/views.py:175-179 | ascending on the negated time is descending on `created_at`, and an entry with no time (`datetime.min`) is never ranked ahead of another entry |
| Listing.HasNumericOrder | movies/views.py:134-139 | the loop over `movies[:5]` with `break` finds an order number exactly when one of the first five titles has one |
| Listing.OnlyFirstFiveDecide | movies/views.py:135 | only the first five titles decide the sort |
| Listing.PlaylistDetail | movies/views.py:134-143 | the playlist's movies end up in the playlist page order, sorted in place |
| Listing.PlaylistOrder | movies/views.py:134-143 | the playlist page order; its meaning is stated by `PlaylistOrderPerm`, `PlaylistByOrderNumber` and `PlaylistByEpisode` |
| Listing.PlaylistOrderPerm | movies/views.py:141-143 | a playlist page lists exactly the playlist's movies |
| Listing.PlaylistByOrderNumber | movies/views.py:140-141 | with a numbered title among the first five: ascending order numbers, equal numbers in stored order |
| Listing.PlaylistByEpisode | movies/views.py:142-143 | otherwise: ascending by season, then by episode, equal keys in stored order |
| Listing.MatchesQuery | movies/views.py:160 | `query.lower() in title.lower()` holds exactly when the lower-cased query occurs in the lower-cased title |
| Listing.FilterMovies | movies/views.py:159-160 | the title filter; its meaning is stated by `MoviesMatchingQuery` |
| Listing.FilterPlaylists | movies/views.py:161 | the playlist-name filter; its meaning is stated by `PlaylistsMatchingQuery` |
| Listing.MoviesMatchingQuery | movies/views.py:159-160 | a falsy query keeps all movies; otherwise the kept movies sit in the input at increasing positions, and those positions are exactly the ones whose title contains the query ignoring case |
| Listing.PlaylistsMatchingQuery | movies/views.py:161 | the same for playlist names: exactly the matching playlists, in stored order |
| Listing.FilterPositions | movies/views.py:160 | the list comprehension keeps exactly the elements that pass the test, at increasing positions of the input |
| Listing.CategoryDetail | movies/views.py:155-179 | the entries returned are the category page order |
| Listing.CategoryOrder | movies/views.py:155-179 | the category page order; its meaning is stated by `CategoryOrderPerm`, `CategoryByRecency` and `CategoryByOrderNumber` |
| Listing.CategoryOrderPerm | movies/views.py:155-173 | a category page lists exactly the filtered movies and filtered playlists |
| Listing.CategoryByRecency | movies/views.py:175-179 | with no numbered title among the first five filtered movies, entries run newest first (missing times last), and equal times keep their order: movies before playlists, each in stored order |
| Listing.CategoryByOrderNumber | movies/views.py:164-173 | otherwise the movies come first in ascending order-number order, movies with equal numbers in their filtered stored order, then the filtered playlists unchanged |

## Left out

- Django ORM queries, `get_object_or_404`, `render`, `redirect` and template contexts are framework I/O. Query results appear as sequences in their stored order.
- The `home` view (movies/views.py:80-123) and `movie_detail` (movies/views.py:202-205) are not modelled: they are ORM queries and rendering. `home` has its own newest-first sort of the same shape as `category_detail`.
- `Paginator.get_page` (movies/views.py:103-110, 185-192) is a library call. The model returns the whole ordered list, not one page of 24.
- `json.loads` and the mapping of exceptions to 400 and 500 replies (movies/views.py:294-297, 326-329) are not modelled. The payload arrives already parsed, as an optional device id and an optional device name. `InstallFailed` and `UninstallFailed` stand for the 400 replies for a missing id.
- Non-string JSON values for `device_id` or `device_name` (numbers, lists) are not modelled; both are optional strings.
- Clock reads are not modelled: `updated_at` and `download_time` are not kept.
- `download_movie` logging and the dashboard aggregates (movies/views.py:216-234, 333-353) are ORM inserts and counts.
- The `staff_member_required`, `csrf_exempt` and `require_POST` decorators are not modelled.
- Concurrent install and uninstall requests are out of scope: the model is sequential and has no read-modify-write race.
- movies/models.py is not part of this model, so the InstallTracker field defaults are not either. `track_install` sets every modelled field of a new record itself.
- Unicode behaviour of `str.lower`, `str.strip`, `\d`, `\s`, `\w` and `\b` is restricted to ASCII.
- `name__icontains` is the database's case-insensitive match. `FilterPlaylists` uses the same ASCII lower-casing as the title filter.
- `created_at` is a whole number of microseconds since `datetime.min` (the resolution of Python datetimes), with time zones already resolved. `None` maps to 0, the earliest time, as `datetime.min` does.
- CPython's Timsort is represented by an insertion sort. `StableSort.SortByIsUnique` shows that any stable sort gives the same result.
- The `except ValueError` branches after `int(...)` (movies/views.py:35-36, 43-44, 53-54, 72-73) are modelled by CPython's default limit of 4300 digits (`Ascii.ParseInt`). A limit changed through `sys.set_int_max_str_digits` or `PYTHONINTMAXSTRDIGITS`, and CPython releases without the limit (before 3.11, 3.10.7, 3.9.14, 3.8.14 and 3.7.14), are not modelled; they differ from the model only on digit runs longer than 4300.
- TitleOrder.RemoveAll: states the length bounds, and that a text without the target is unchanged. It does not state which characters remain; the full deletion is its body.
