# Weather lookup service — functional model

A Dafny model of the pure logic of a small weather web service (FastAPI server
`main.py` plus the browser script `static/script.js`). A visitor submits a
city. The server asks the Open-Meteo geocoder for it, fetches the forecast for
the first hit and reshapes the two replies. It appends `(city, user_id)` to a
search log and sets the `last_city` and `user_id` cookies. It also serves
autocomplete suggestions and per-city search counts.

In the model, the two upstream services are total functions in an `Upstream`
value (geocode by name and count, forecast by coordinates). Every handler
returns the list of upstream requests it made, so "no upstream call" is a
statement about that list. The SQLite table is a `seq<Row>` that a search
returns extended. `os.urandom(16)` is a 16-byte parameter. JSON numbers the
service never computes with (temperatures, coordinates, …) are carried as
opaque `Num` literals.

Modules, one per file:

- `Wrappers`: `Option`.
- `Provider`: the geocoder and forecast payloads, `Call`, `Upstream`.
- `Hex`: `bytes.hex()` and its inverse.
- `Weather`: `get_weather_data`.
- `Search`: `search_weather`: the visitor id, 404, 200 or 500, the log append, the cookies.
- `Session`: a browser threading its cookie jar through several searches.
- `Autocomplete`: `/cities/autocomplete`.
- `Ranking` and `Stats`: `/stats`. `IsStatsOf` is the query's meaning and leaves the tie order open. `GetStats` is one answer it admits, built by grouping and then an insertion sort that places each entry before entries of no larger count, so ties keep first-appearance order.
- `Client`: `trim`, the `input` and `keypress` guards, `getWeatherDescription`, the error fallback, the rendered header.
- `Scenarios`: the `test_stats` scenario.

A `user_id` cookie that is present but empty is replaced by a fresh token (`if not user_id`), not reused; the model follows the code here.

A resolving city with a character at or above U+0100 — any Cyrillic name, such as `Москва` — is not answered with 200. The row is committed first (main.py:97-103). Then `set_cookie` (main.py:106) fails: `http.cookies` escapes only code points below 256, and Starlette encodes the `Set-Cookie` header as Latin-1. The uncaught exception becomes a plain-text 500 without cookies. The page's `response.json()` (static/script.js:86) then throws, so the browser's parse-error message is shown. The handler's condition also covers a `user_id` cookie with such a character, but none can arrive: Starlette decodes the `Cookie` header as Latin-1 and `http.cookies` unquoting yields only code points below 256, so in practice only the city triggers the 500. The model follows the code. Starlette and Python's `http.cookies` are not part of this model; `Search.Latin1` states the condition they impose.

`city` is a required form field (`Form(...)`), so the framework answers a missing or empty one with 422 before the handler runs. `SearchWeather` therefore requires a non-empty city, and every row it stores has a non-empty city and visitor id.

## Model

| member | source | states |
|---|---|---|
| `Provider.HasResults` | main.py:49 | `data.get("results")` is truthy, as main.py:49 and main.py:121 test it, exactly when the reply has at least one hit: a missing, null or empty `results` is falsy |
| `Provider.CountryOrEmpty` | main.py:62 | `.get("country", "")`, as main.py:62 and main.py:126 use it: the hit's country when present, `""` when absent |
| `Hex.Encode` | main.py:87 | `bytes.hex()` gives two characters per byte, all from `0-9a-f` |
| `Hex.DecodeEncode` | main.py:87 | decoding the hex text of some bytes gives those bytes back |
| `Hex.EncodeInjective` | main.py:87 | distinct byte strings give distinct hex tokens |
| `Weather.Take` | main.py:65-67 | `s[:n]` is the first `min(n, len(s))` entries of `s`, never padded |
| `Weather.Reshape` | main.py:60-68 | the result takes name and country from the hit (country `""` when absent), passes `current` through, and cuts each hourly series to its own first 24 entries |
| `Weather.FullDayCut` | main.py:64-68 | each of the three hourly series (`time`, `temperature_2m`, `weather_code`) that has 24 or more entries comes back as exactly its first 24 entries |
| `Weather.GetWeatherData` | main.py:43-69 | the result is "not found" exactly when the geocoder (count 1) has no results; then only the geocoder was called; otherwise the forecast is requested at the first hit's coordinates and reshaped |
| `Search.VisitorId` | main.py:86-87 | the visitor id is the cookie when it is present and non-empty; otherwise it is a 32-digit lower-case hex token that decodes to the 16 random bytes |
| `Search.SearchWeather` | main.py:79-109 | the status is 404 exactly when the city does not resolve, and 500 exactly when it resolves but the city or the visitor id has a code point of 256 or more; a 404 carries `{"error": "Город не найден"}`, sets no cookie and leaves the log as it was; a 200 or a 500 appends exactly the row `(city, visitor id)`, both non-empty, after the unchanged earlier rows; a 200 carries the weather result and sets `last_city` (2592000 s) and `user_id` (31536000 s); a 500 carries `Internal Server Error` and sets no cookie |
| `Search.UnwritableCityKeepsRow` | main.py:97-107 | a resolving city that cannot be written as a cookie still has its row stored, and the answer is a plain-text 500 without cookies |
| `Search.FreshIdsDiffer` | main.py:86-87 | two cookie-less searches with different random bytes get different visitor ids |
| `Session.ReceiveSearch` | main.py:105-107 | after a 200 the browser holds `user_id` = the visitor id and `last_city` = the city; after a 404 or a 500 its cookies are unchanged |
| `Session.ReplayAppends` | main.py:89-103 | over a session the log only grows: earlier rows are kept, and one row is added per request that resolves, whether it is answered 200 or 500 |
| `Session.ReplayKeepsVisitor` | main.py:86-87 | once the browser holds a usable `user_id`, every later row carries it and the cookie keeps it |
| `Session.ReplaySingleVisitor` | main.py:86-107 | all rows one browser adds in a session share one visitor id, even when it starts without a cookie, provided every city can be written as a cookie |
| `Autocomplete.Label` | main.py:126 | the suggestion name is the hit's name, then `", "`, then its country or `""` |
| `Autocomplete.Suggest` | main.py:111-131 | a query shorter than 2 gives `[]` with no upstream call; otherwise there is exactly one geocoder call with count 5 and one suggestion per hit, in provider order, with that hit's label and coordinates |
| `Autocomplete.SuggestEmpty` | main.py:113-122 | the answer is empty exactly when the query is shorter than 2 or the geocoder has no results |
| `Ranking.Insert` | main.py:142 | inserting adds exactly one copy of the entry |
| `Ranking.InsertSorted` | main.py:142 | inserting into a list ordered by non-increasing count keeps it ordered |
| `Ranking.InsertDistinct` | main.py:141 | inserting an entry for a new city keeps cities distinct and adds that city |
| `Ranking.SortByCount` | main.py:142 | the result is a permutation of its input, ordered by non-increasing count; distinct cities stay distinct |
| `Ranking.SortedPermutationCounts` | main.py:142 | two count-ordered permutations of the same entries have the same count at every position |
| `Stats.IsStatsOf` | main.py:137-143 | what `GROUP BY city ORDER BY count DESC` returns: the logged cities, each exactly once, each with its row count, ordered by non-increasing count, so as many entries as distinct logged cities; the order among equal counts is left open |
| `Stats.Dedup` | main.py:141 | the distinct cities of the log, each once |
| `Stats.Group` | main.py:139-141 | one entry per logged city, cities distinct, each count equal to that city's number of rows |
| `Stats.GetStats` | main.py:133-145 | each logged city appears exactly once with its row count, ordered by non-increasing count; the counts sum to the log length |
| `Stats.StatsSumToLogLength` | main.py:139-141 | in any answer of the query, the counts add up to the number of logged rows |
| `Stats.StatsUpToTies` | main.py:142 | two answers of the query for one log hold the same entries and the same count at every position, so they differ only among equal counts |
| `Client.Trim` | static/script.js:15 | the trimmed text is a slice of the input with white space on both sides of it and none at its own ends |
| `Client.TrimUnique` | static/script.js:15 | whenever the input is white space, then text with no white space at its ends, then white space, trimming gives that text |
| `Client.TrimIdempotent` | static/script.js:57 | trimming a trimmed string changes nothing |
| `Client.TrimEmpty` | static/script.js:57-58 | the trimmed text is empty exactly when the input is all white space |
| `Client.Utf16Length` | static/script.js:17 | JavaScript's `length` of a text lies between its number of characters and twice that |
| `Client.Utf16LengthBmp` | static/script.js:17 | JavaScript's `length` equals the character count exactly when every character lies in the Basic Multilingual Plane |
| `Client.OnInput` | static/script.js:13-25 | suggestions are requested, with the trimmed text, exactly when the trimmed text is at least 2 UTF-16 units long; otherwise the list is hidden |
| `Client.InputQueryReachesGeocoder` | static/script.js:17-24 | a query the page requests reaches the geocoder exactly when it is not a single character outside the Basic Multilingual Plane; such a query passes the page's guard (2 units) but not the server's `len(q) < 2` (main.py:113), and gets `[]` with no call |
| `Client.AstralQueryMissesGeocoder` | static/script.js:17-24 | for `😀` alone the page requests suggestions, and the server answers `[]` without calling the geocoder |
| `Client.OnKeyPress` | static/script.js:55-63 | Enter searches exactly when the input is not all white space, and it searches the trimmed text, which is non-empty |
| `Client.WeatherDescription` | static/script.js:139-168 | each of the 24 provider codes maps to its table label, which is not the fallback; every other code maps to `Неизвестно`; the result is never empty |
| `Client.DescriptionsDistinct` | static/script.js:140-165 | no two table codes share a label |
| `Client.ErrorText` | static/script.js:88-89 | the message is the server's `error` when it is present and non-empty, otherwise `Не удалось получить данные о погоде` |
| `Client.Render` | static/script.js:86-108 | a body that is not JSON shows the browser's parse error; the weather is shown exactly when the response is OK, under the header `city + ", " + country`; otherwise a non-empty message is shown: the body's `error` if it is non-empty, the fixed fallback if the body has none or it is empty |
| `Client.SearchShown` | static/script.js:86-108 | an unknown city shows `Город не найден`; a known one shows its weather headed by the same label its suggestion has, unless the city or visitor id cannot be written as a cookie, when the parse error is shown |
| `Scenarios.CitiesInOrder` | test_main.py:111-113 | when every request resolves, the new rows hold the submitted cities in submission order |
| `Scenarios.ReplayTestSearches` | test_main.py:100-113 | the four searches of the test, with `user_id=test_user`, log exactly London, Paris, London, New York for `test_user` |
| `Scenarios.TestStats` | test_main.py:115-119 | any answer of the stats query for that log has three entries, `London` with 2 first, then Paris and New York with 1 in either order |
| `Scenarios.TestStatsAnswer` | test_main.py:115-119 | the model's own stats answer for that log starts with `London`, 2 |
| `Scenarios.UnwritableCitySplitsVisitor` | main.py:86-107 | two searches for `Москва` from a browser without `user_id` both store a row, each under its own fresh id, and leave the browser without cookies |
| `Scenarios.TestStatsOrder` | test_main.py:115-119 | the model's own stats answer for that log is London 2, Paris 1, New York 1: the tie keeps first-appearance order |

## Left out

- HTTP transport: URL construction, the `timezone=auto` and variable lists of the forecast request, and the city being interpolated into the URL without encoding. The upstream services are plain functions of the parameters that vary.
- Upstream failures that raise: DNS and connection errors, a body that is not JSON, and missing keys — a hit without `name`, `latitude` or `longitude` (main.py:53, 61, 126-128), a forecast without `current` or `hourly`. Every payload in the model is well-formed. A non-2xx reply is not an error in itself (there is no `raise_for_status()`): a JSON body without `results` is the model's `GeoPayload(None)`, so it gives 404 or `[]` like a city that is not found.
- A JSON `null` country. Python's `get` would return `None`, giving `"None"` in a suggestion and `null` in a result. The model only knows a present or an absent country.
- SQLite: connections, commits, `CREATE TABLE IF NOT EXISTS` (`init_db`), the auto-increment id and `CURRENT_TIMESTAMP`. A row is `(city, user_id)`. Storage errors are not modelled.
- The tie order of `ORDER BY count DESC`, which SQL leaves undefined. `IsStatsOf` admits every order; `GetStats` keeps first-appearance order, which SQLite does not promise.
- Randomness: `os.urandom(16)` is the `entropy` parameter. The chance that two tokens collide is not modelled, only that different bytes give different tokens.
- FastAPI routing, form parsing (a missing or empty `city` is the framework's 422), cookie transport (the quoting `http.cookies` applies to a value such as `New York`; the Latin-1 failure is modelled, see above), static files, the uvicorn entry point, and the `home` landing page (Jinja templating of the `last_city` cookie).
- Search.SearchWeather: Python versions that also reject control characters in a cookie value would answer 500 for such a city too; the model only knows the code-point limit of 256, which holds on every version.
- Concurrency between requests: each search is one atomic step on the log.
- The DOM, the 300 ms debounce, click-outside handling, clicking a suggestion or a stats entry, `loadSearchStats` rendering, the hourly-forecast rendering loop, `Math.round` and date formatting.
- Lone UTF-16 surrogates, which a JavaScript string can hold, are not characters in the model.
- Client.Trim: white space is a fixed set (the ASCII spaces, NBSP, BOM, LS, PS) rather than every Unicode `Zs` character JavaScript's `trim` removes.
- Client.Render: it requires an OK response to carry a weather body, as the server guarantees. The script's behaviour on an OK response without one (a TypeError, caught and shown) is not modelled.
