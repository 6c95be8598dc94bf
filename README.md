# QuickLink URL shortener: a Dafny model of the server core

QuickLink turns a long URL into a six-character short code and redirects visitors of
`/<code>` to the original URL while counting clicks. This project models the server side
of that mapping:

- `wrappers.dfy` — `Option`, the model of a row-or-`null` result.
- `utils.dfy` (module `Utils`) — the helpers of `server/src/utils.ts`:
  - `ValidateUrl` is written over an injected URL parser. The parser returns the
    `protocol` it found, or `None` where `new URL` would throw.
  - `GenerateShortCode` is one draw from an injected source of candidates. Its only promise
    is a length of 6.
  - `SanitizeUrl` is modelled as a plain string function. Its regular expression
    `/^https?:\/\//i` becomes `HasHttpScheme`.
- `database.dfy` (module `Database`) — the `urls` table and the class `UrlDatabase`.
  - The SQLite file is replaced by a field `rows: seq<UrlRecord>` kept in rowid order.
  - The AUTOINCREMENT counter is the field `nextId`.
  - The schema's rules form the class invariant `Valid()`: `shortCode` is UNIQUE, and ids
    are 1, 2, 3, … in insertion order.
  - Each query is a function on the rows, and each method is proved against it.
- `server.dfy` (module `Server`) — the handlers that `server/src/index.ts` registers:
  - `Shorten` handles `POST /api/shorten`.
  - `Resolve` handles `GET /:code`.
  - `CatchAll` is the `GET *` route decision.
  - Responses are values: `Json(status, payload)`, `Redirect(301, location)` or
    `IndexPage`.
  - `DrawCode` is the collision-retry `do … while` loop of the shorten handler.

Lengths are JavaScript lengths. `.length` counts UTF-16 code units, so `Utf16Length`
counts a character outside the Basic Multilingual Plane twice. It is used for the length-6
test on codes, the length-7 test on catch-all paths and the generator's promise.

The retry loop is modelled as written. It draws up to ten candidates. It stops early only
when a candidate is free and fewer than ten attempts have been made. After ten attempts it
answers 500 even when the tenth candidate was free. So only candidates 1–9 can ever be
stored. `DrawCode`, `Shorten` and `TenthCandidateIrrelevant` state this bound exactly.

## Model

| member | source | states |
|---|---|---|
| `Utils.Utf16Length` | server/src/index.ts:77 | JavaScript's length of a string lies between its number of characters and twice that |
| `Utils.Utf16LengthOfBmp` | server/src/index.ts:77 | for text without astral characters (every ASCII code) JavaScript's length is the character count |
| `Utils.Utf16LengthConcat` | server/src/index.ts:111 | JavaScript's length of a concatenation is the sum of the lengths |
| `Utils.GenerateShortCode` | server/src/utils.ts:18-22 | every generated code has length 6 |
| `Utils.ValidateUrl` | server/src/utils.ts:6-13 | true exactly when parsing succeeds with protocol `http:` or `https:`; false whenever parsing fails |
| `Utils.StartsWithIgnoringCase` | server/src/utils.ts:28 | true exactly when the string is at least as long as the pattern and, after ASCII lower-casing of both, each character of the pattern equals the string's character at the same place |
| `Utils.HasHttpScheme` | server/src/utils.ts:28 | a string that passes the scheme test is at least seven characters long |
| `Utils.HasHttpSchemeSpelledOut` | server/src/utils.ts:28 | the scheme test `/^https?:\/\//i` holds exactly when the string starts with `h`, `t`, `t`, `p` in any case, then an optional `s` in any case, then exactly `://` |
| `Utils.SanitizeUrl` | server/src/utils.ts:27-32 | the result always begins, in any case, with `http://` or `https://`; a URL that already does is returned unchanged, any other gets `https://` in front; the input is always the result's suffix |
| `Utils.SanitizeUrlIdempotent` | server/src/utils.ts:27-32 | sanitising twice equals sanitising once |
| `Database.HasCodeAt` | server/src/database.ts:68-79 | a code is present exactly when some row carries it |
| `Database.UniqueCodesPairwise` | server/src/database.ts:32 | under the UNIQUE constraint no two rows share a `shortCode` |
| `Database.UniqueCodesAppend` | server/src/database.ts:32 | appending a row whose code is absent keeps the constraint and adds exactly that code |
| `Database.IdsFromAt` | server/src/database.ts:31 | with AUTOINCREMENT and no deletions the row at position i has id first + i |
| `Database.IdsFromAppend` | server/src/database.ts:31 | the row appended with the next id keeps the numbering |
| `Database.FindByCode` | server/src/database.ts:68-79 | finds a row exactly when the code is present, and the row found carries that code |
| `Database.FindByCodeIsTheRow` | server/src/database.ts:68-79 | under the UNIQUE constraint the row found is the one row with that code |
| `Database.FindByOriginalUrl` | server/src/database.ts:81-92 | a row found carries that URL; None exactly when no row does |
| `Database.FindByOriginalUrlAfterAppend` | server/src/database.ts:55-66 | a URL stored for the first time is found again as the row just inserted |
| `Database.Incremented` | server/src/database.ts:94-105 | same number of rows; each row with the code has clicks + 1, every other row is unchanged; no-op when the code is absent |
| `Database.IncrementedKeepsSchema` | server/src/database.ts:94-105 | the set of codes, the UNIQUE constraint and the id numbering survive an increment |
| `Database.IncrementedTouchesOneRow` | server/src/database.ts:94-105 | under the UNIQUE constraint exactly the row with the code gains one click and every other row is untouched |
| `Database.ClicksAfterIncrements` | server/src/database.ts:94-105 | n increments of a code raise its row's clicks by exactly n and change nothing else in it |
| `Database.InsertByCreated` | server/src/database.ts:107-118 | inserting into a newest-first listing keeps it ordered and adds exactly that row |
| `Database.OrderByCreatedDesc` | server/src/database.ts:107-118 | the listing is ordered by `createdAt` non-increasing and is a permutation of the rows |
| `Database.UrlDatabase.constructor` | server/src/database.ts:16-37 | the table starts empty, valid, with the next id 1 |
| `Database.UrlDatabase.Create` | server/src/database.ts:55-66 | fails exactly when the code is present and then changes nothing; otherwise appends one row (next id, that code, that URL, 0 clicks, the given time) and keeps the schema's rules |
| `Database.UrlDatabase.GetByShortCode` | server/src/database.ts:68-79 | returns the row with that code, or None exactly when there is none; changes nothing |
| `Database.UrlDatabase.GetByOriginalUrl` | server/src/database.ts:81-92 | returns the first row in rowid order with that URL, or None exactly when there is none; changes nothing |
| `Database.UrlDatabase.IncrementClicks` | server/src/database.ts:94-105 | the new table is the increment of the old one; the schema's rules and the id counter are kept |
| `Database.UrlDatabase.GetAllUrls` | server/src/database.ts:107-118 | returns every row exactly once, newest first |
| `Server.FirstFree` | server/src/index.ts:50-53 | the first attempt in a range whose candidate is free, every earlier one being taken, or the bound when all are taken |
| `Server.FirstFreeIs` | server/src/index.ts:50-53 | any attempt with all earlier candidates taken and its own free (or at the bound) is the first free one |
| `Server.TenthCandidateIrrelevant` | server/src/index.ts:50-57 | two sources that agree on the first nine candidates give the same outcome: the tenth never matters |
| `Server.DrawCode` | server/src/index.ts:46-53 | 1 to 10 attempts; the last candidate drawn is the result; every earlier one was taken; ten attempts exactly when the first nine are all taken; fewer than ten only with a free code |
| `Server.ShortUrl` | server/src/index.ts:40 | the short URL is the base URL, then `/`, then the code, and each part can be cut back out by position |
| `Server.Shorten` | server/src/index.ts:24-70 | missing, non-string or empty `url`: 400, table unchanged; rejected by the validator: 400, unchanged; URL already stored: that row's code, unchanged; first nine candidates all taken: 500, unchanged; otherwise exactly one row (first free candidate, URL, 0 clicks) is added with a code absent before, and `shortUrl` is base + "/" + code |
| `Server.Resolve` | server/src/index.ts:73-96 | length ≠ 6: 404, unchanged; unknown code: 404, unchanged; known code: 301 to its row's URL, that row's clicks + 1, every other row and the id counter unchanged |
| `Server.CatchAll` | server/src/index.ts:104-116 | the answer is always the client page or a JSON 404 error; a path under `/api/` gets 404 "API endpoint not found"; any other path of `/` and length 7 gets 404 "Short code not found"; the client page is served exactly to every remaining path |
| `Server.CatchAllRefusesCodePaths` | server/src/index.ts:104-116 | a path of `/` and a six-unit code is never answered with the client page |
| `Server.CatchAllRefusesApiPaths` | server/src/index.ts:104-108 | an unmatched `/api/` path is a 404 "API endpoint not found" |
| `Server.LookupByUrlThenCode` | server/src/index.ts:37-43 | under the UNIQUE constraint the code stored for a URL leads back to a row with that URL |
| `Server.RoundTrip` | server/src/index.ts:50-91 | after a successful shorten, redirecting the code taken from `shortUrl` yields a 301 to the original URL |
| `Server.ShortenTwice` | server/src/index.ts:37-43 | shortening a URL again after a success returns the same response and leaves the table (and every click count) as it was; the table between the two calls is the old one with at most one row added at the end |

## Left out

- Express wiring is not modelled: CORS, JSON body parsing, static files, `listen`,
  logging and the generic error middleware. Only the decisions inside the handlers are
  modelled.
- `GET /api/health` is not modelled. It only reports the clock.
- Route order and matching are not modelled. `Resolve` and `CatchAll` take the code or
  path their route would be given.
- The `catch` blocks of the handlers (500 "Internal server error") are not modelled.
  The in-memory table cannot fail. In the sequential model `db.create` inside the
  shorten handler cannot hit the UNIQUE constraint, because its code was just checked
  absent.
- SQLite, the data directory, asynchronous callbacks and `close` are not modelled. The
  table is the in-memory sequence. `CURRENT_TIMESTAMP` is a clock value (`now`) supplied
  by the caller.
- The WHATWG `URL` parser is a foreign library. It appears only as the injected
  `UrlParser`.
- The randomness and alphabet of `nanoid`, and the combination count in its comment, are
  not modelled. The generator is an injected `CodeSource` that gives one candidate per
  attempt number.
- Concurrency between requests is not modelled. This includes the check-then-insert
  races on codes and URLs. The model is sequential.
- `Database.UrlDatabase.GetAllUrls`: SQLite leaves the order of rows with equal
  `createdAt` unspecified. The model keeps rowid order for them.
- `Database.UrlDatabase.GetByOriginalUrl`: the model and its contract return the first
  match in rowid order. A query with no `ORDER BY` and no index on `originalUrl` scans the
  table, so in practice this is the row it returns, but SQLite does not promise it.
  `Server.Shorten`'s contract for a URL already stored relies on this choice.
- Integer width is not modelled. `clicks` and `id` are unbounded naturals. In SQLite they are
  64-bit integers, and the Node binding reads them as JavaScript numbers, exact only up to
  2^53.
- `Database.UrlDatabase.constructor`: the model always starts with an empty table. The source
  opens `data/urls.db` with `CREATE TABLE IF NOT EXISTS`, so rows survive a restart. The
  handlers' contracts need only `Valid()`, which any table this program builds with no
  deletions satisfies.
- `Server.Resolve` does not model what `res.redirect` does to the location, such as
  URL-encoding it in the `Location` header.
- The client (`client/src/App.tsx`, `client/src/components/Toast.tsx`) is not part of this
  model.
