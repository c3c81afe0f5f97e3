# Threat feed core, modelled in Dafny

This project models the NVD threat-feed path of an AI patch-optimisation dashboard.

On the server, one HTTP call fetches recent CVEs from the NVD 2.0 API. The response's
vulnerabilities are mapped to feed items:
- the trimmed id;
- the publication time;
- the English-first description;
- the newest-first CVSS base score.

Each item is normalised into a stored row: the score is clamped, scaled by ten and rounded, and the severity band is derived from it. The rows are then reconciled into a `cves` table keyed by `cveId`. Two endpoints sit on top:
- `GET /api/threat-feed/latest` serves the newest rows, from the cache or after a live fetch;
- `POST /api/threat-feed/refresh` re-fetches and reports how many rows were inserted and updated.

Seeding fills an empty table at start-up.

On the client:
- a hook builds the query string and the cache key, and classifies replies into data or an error message;
- the triage page filters rows by severity and minimum score, sorts them newest first, counts the ticked severities, resets the filters and toggles a row open or closed.

Modules, one file each:

- `Wrappers` (`Option`).
- `Text`: the JavaScript string built-ins the code relies on. These are `trim`, `String(n)` for integers, `indexOf`, `includes`, `replace` with its `$` patterns, `split`, `join` and ASCII `toLowerCase`.
- `Json`: parsed JSON values and `Number(...)` coercion.
- `Scoring`: `severityFromScore`, `safeNumber`, `pickDescription`, `extractCvssBaseScore`, and the clamp, scale and round.
- `Schema`: the `cves` row.
- `NvdFeed`: the response shape, the fetch outcome and the item mapping.
- `Storage`: the `DatabaseStorage` class over a `map` with its looping upsert and newest-first read.
- `ApiContract`: request validators, response shapes and `buildUrl`.
- `Routes`: normalisation, seeding and the two handlers, as methods over the store.
- `ClientHooks`: the client data hooks.
- `ThreatFeedPage`: the page's pure logic.

The network, the clock and the host's parsers are parameters:
- the NVD call is a function from the request (its page size) to an `UpstreamReply`: unreachable, or a status and a body that did or did not parse;
- `new Date(s).getTime()` and `Number(s)` on strings are the two fields of `Parsers`, and the model assumes nothing about them. The one exception is `ClientHooks.ServerReadsClientQuery`, which requires the host to read decimal integers back (the predicate `ClientHooks.ReadsDecimalIntegers`).

Scores are exact reals and timestamps are integers (milliseconds).

Two consequences of the code are worth stating outright:
- **Repeated ids.** A batch that names a new `cveId` twice counts two inserts, because server/storage.ts:25 counts batch items, not distinct ids. This is `Storage.RepeatedNewIdCountsTwice`.
- **Missing `published`.** An entry without `published` gets the epoch (server/routes.ts:115). That is a finite time, so the filter at server/routes.ts:128 keeps the entry. This is `NvdFeed.MissingPublishedIsKept`.

## Model

| member | source | states |
|---|---|---|
| Scoring.SeverityFromScore | server/routes.ts:18-23 | Critical iff score >= 9.0, High iff 7.0 <= score < 9.0, Medium iff 4.0 <= score < 7.0, Low iff score < 4.0: total, each band exactly |
| Scoring.SeverityMonotone | server/routes.ts:18-23 | a higher score never gets a lower band |
| Scoring.SafeNumber | server/routes.ts:25-28 | the coerced number when it is finite, the fallback otherwise |
| Scoring.FindWanted | server/routes.ts:32-33 | `find`: the index of the first wanted entry, none wanted before it; None only when no entry is wanted |
| Scoring.PickDescription | server/routes.ts:30-35 | "" for an absent or empty list; else the trimmed text of the first English entry with a string value; failing that of the first entry with a string value; failing that ""; never surrounded by whitespace |
| Scoring.ExtractCvssBaseScore | server/routes.ts:37-59 | the loop over the preference list with its early return computes the base score the specification function defines |
| Scoring.NewestQualifyingScoreWins | server/routes.ts:40-55 | the first of V40, V31, V30, V2 whose value is a non-empty array with a finite `arr[0].cvssData.baseScore` decides, whatever the older sets hold |
| Scoring.NoQualifyingScoreIsZero | server/routes.ts:47-58 | when no preferred set qualifies (missing, empty, or a non-finite first score) the score is 0 |
| Scoring.Clamp | server/routes.ts:144 | the result lies in [0, 10] and equals the score inside that range |
| Scoring.Round | server/routes.ts:147 | `Math.round`: the integer within half of x, halves rounding up |
| Scoring.ScoreX10 | server/routes.ts:144-147 | the stored fixed-point score is in [0, 100]; divided by ten it is at most 0.05 above the clamped score and strictly less than 0.05 below it, so a tie such as 0.25 is stored as 3 (rounded up) |
| Scoring.ScoreX10Exact | server/routes.ts:144-147 | a score with one decimal place in [0, 10] is stored exactly |
| Scoring.SeverityMatchesStoredScore | server/routes.ts:144-148 | for such a score the stored severity is the band of the stored value read back |
| Scoring.SeverityCanDisagreeWithRoundedScore | server/routes.ts:144-148 | with two decimals they can differ: 8.96 is stored as 90 (Critical when read back) with severity High |
| NvdFeed.PageSize | server/routes.ts:76 | `min(max(limit, 1), 200)`: always in [1, 200], the limit itself inside that range |
| NvdFeed.PublishedAt | server/routes.ts:114-115 | an absent or blank `published` is the epoch; otherwise the result is the date parser's reading of the trimmed text |
| NvdFeed.MapEntry | server/routes.ts:112-128 | an entry is dropped iff its trimmed id is empty or its date is invalid; a kept item has the trimmed non-empty id, the parsed time, the picked description, the metrics (or {}) and their base score |
| NvdFeed.MapOne | server/routes.ts:109-128 | one vulnerability yields at most one item, with a clean id |
| NvdFeed.MapVulnerabilities | server/routes.ts:107-128 | never more items than vulnerabilities, every id non-empty and trimmed |
| NvdFeed.MapVulnerabilitiesAppend | server/routes.ts:109-128 | mapping works entry by entry and keeps upstream order |
| NvdFeed.MissingPublishedIsKept | server/routes.ts:114-128 | an entry with an id and no or blank `published` is kept, at time 0 |
| NvdFeed.DroppedExactly | server/routes.ts:109-128 | an entry is dropped exactly when it has no `cve`, a blank id, or a non-blank date that does not parse |
| NvdFeed.FetchNvdRecentCves | server/routes.ts:74-131 | succeeds iff the host answered with an OK status and a JSON body, and then the items are exactly the mapped vulnerabilities (none when `vulnerabilities` is not an array); an unreachable host, a non-OK status and an unparsable body each fail with their own message; a failure message is never empty |
| NvdFeed.BadStatusMessageNamesStatus | server/routes.ts:97 | the non-OK message identifies the status: equal messages mean equal statuses |
| Storage.LastWith | server/storage.ts:44-55 | the row a batch id ends with is a batch row with that id |
| Storage.LastWithIsLast | server/storage.ts:44-55 | a row no later row shares an id with is the one that wins |
| Storage.FirstWith | server/storage.ts:28-40 | the row chosen for an id is a batch row with that id |
| Storage.FirstWithIsFirst | server/storage.ts:28-40 | a row no earlier row shares an id with is the one the insert stores for its id |
| Storage.Upserted | server/storage.ts:28-55 | the table after an upsert keeps every old key and adds exactly the batch ids |
| Storage.CountNew | server/storage.ts:25 | the insert count never exceeds the batch size |
| Storage.UpsertedSnoc | server/storage.ts:44-55 | one more batch row overwrites its id and nothing else |
| Storage.CountNewAllPresent | server/storage.ts:23-26 | rows whose ids are all stored count no insert |
| Storage.CountNewNonePresent | server/storage.ts:23-26 | into a table holding none of the batch ids every row counts as inserted |
| Storage.UpsertedKeyedById | server/storage.ts:28-31 | the table keeps at most one row per id, each stored under its own `cveId` |
| Storage.UpsertedFrame | server/storage.ts:28-55 | rows outside the batch are unchanged; a batch id holds the batch's last row for it, with no field of the old row merged in |
| Storage.UpsertTwice | server/storage.ts:18-55 | upserting the same batch again leaves the table as it was and reports no inserts |
| Storage.RepeatedNewIdCountsTwice | server/storage.ts:25 | a batch naming the same new id twice reports two inserts |
| Storage.DatabaseStorage.constructor | server/storage.ts:61 | the model's store starts with an empty, valid table. The source's accessor holds no state and reads a persistent table, so every handler contract is stated for any valid store |
| Storage.DatabaseStorage.NewestOf | server/storage.ts:12 | a stored id whose row is at least as new as every other candidate |
| Storage.DatabaseStorage.GetLatestCves | server/storage.ts:11-13 | `min(limit, size)` distinct rows from the table, newest first, none left out newer than any returned; reads only |
| Storage.DatabaseStorage.CountInserted | server/storage.ts:18-26 | the count of batch rows whose id the table did not hold, repeats included; reads only |
| Storage.DatabaseStorage.BulkInsert | server/storage.ts:28-40 | adds exactly the new ids and keeps every stored row as it was; a newly added id holds the batch's first row with that id |
| Storage.DatabaseStorage.UpdateEach | server/storage.ts:44-55 | overwrites each batch id with its rows in turn, the last one winning |
| Storage.DatabaseStorage.UpsertCves | server/storage.ts:15-58 | an empty batch changes nothing and reports (0, 0); otherwise the table becomes `Upserted`, inserted counts ids absent before the call, and inserted + updated is the batch size |
| ApiContract.SourceNamed | shared/routes.ts:31 | only "nvd" and "cache" are sources |
| ApiContract.LimitIssue | shared/routes.ts:30 | the limit is accepted iff it is an integer in [1, 200]; otherwise the first issue is NaN, then non-integer, then below 1, then above 200 |
| ApiContract.ParseLatestQuery | shared/routes.ts:28-33 | the query passes iff a present limit passes and a present source is a source name; the parsed fields are present exactly when given and equal what was given |
| ApiContract.ParseRefreshBody | shared/routes.ts:42-44 | a non-object fails at the root naming its type; an object without limit passes; a present limit passes with its value or fails at path "limit" with its first issue |
| ApiContract.RefreshBodyRoundTrip | shared/routes.ts:42-44 | a valid body serialised as JSON parses back to itself |
| ApiContract.SubstituteParam | shared/routes.ts:64-66 | a key whose placeholder does not occur leaves the url unchanged |
| ApiContract.BuildUrl | shared/routes.ts:57-70 | the loop over the entries computes the entry-order substitution; no params returns the path |
| ApiContract.NoParamsKeepsPath | shared/routes.ts:57-69 | an empty parameter list returns the path |
| ApiContract.AbsentPlaceholderIgnored | shared/routes.ts:64 | a parameter whose placeholder does not occur has no effect on the result |
| ApiContract.LiteralValueSubstituted | shared/routes.ts:65 | a value without `$` replaces the first `:key` literally |
| ApiContract.LaterPlaceholderSurvives | shared/routes.ts:65 | for any value, only the first occurrence is replaced: a later `:key` is still there, shifted by the length of the text inserted for the first (the value with its `$` patterns expanded) |
| ApiContract.ReplacementPatternInValue | shared/routes.ts:65 | a value `$&` stands for the placeholder itself, so `:id` stays |
| Routes.Normalise | server/routes.ts:143-153 | id, time and metrics kept; score x10 in [0, 100], at most 0.05 above the clamped score and strictly less than 0.05 below it (halves round up); severity is the clamped score's band; an empty description becomes the placeholder, and the description is never empty |
| Routes.NormaliseAll | server/routes.ts:143-153 | one row per item, in order |
| Routes.NormaliseExactForTenths | server/routes.ts:144-148 | a one-decimal score is stored exactly, with the matching band |
| Routes.NormaliseCriticalExample | server/routes.ts:144-150 | 9.8 with an English description is stored as 98, Critical, with that description |
| Routes.SeedThreatFeedIfEmpty | server/routes.ts:133-155 | a non-empty store is untouched; a failed fetch changes nothing; otherwise the empty store receives the normalised items of a fetch of 25 |
| Routes.EffectiveQuery | server/routes.ts:164-166 | the limit is always in [1, 200]; an invalid query falls back to 25 and cache; a valid one uses its fields, with 25 and cache for missing ones |
| Routes.HandleLatest | server/routes.ts:163-192 | never 400; source nvd with a failed fetch answers 502 with the message and "nvd" and leaves the store alone; otherwise 200 with the newest `limit` rows, read after upserting the live items when the source is nvd |
| Routes.HandleRefresh | server/routes.ts:194-228 | an invalid body answers 400 with the first issue's message and dotted path; a failed fetch answers 502; both leave the store alone; otherwise the store is upserted and 200 reports inserted, updated and total = batch size, all non-negative |
| Routes.RejectedLimitNamesField | server/routes.ts:220-224 | a rejected limit is reported in field "limit" |
| Routes.NonObjectBodyHasEmptyField | server/routes.ts:220-224 | a body that is not an object is reported with an empty field path |
| ClientHooks.BuildQueryString | client/src/hooks/use-threat-feed.ts:14-21 | "" without input or without parameters, otherwise it starts with "?" |
| ClientHooks.QueryStringRoundTrip | client/src/hooks/use-threat-feed.ts:14-21 | reading the query string back gives exactly the parameters set: `limit` when it is a number, `source` when it is set |
| ClientHooks.ServerReadsClientQuery | client/src/hooks/use-threat-feed.ts:31-32 | a valid query sent this way reaches the latest handler unchanged |
| ClientHooks.ThreatFeedLatestKey | client/src/hooks/use-threat-feed.ts:23-25 | a 3-element key starting with the latest path |
| ClientHooks.RefreshInvalidatesEveryLatestQuery | client/src/hooks/use-threat-feed.ts:68-70 | the refresh invalidation key is a prefix of every latest key |
| ClientHooks.LatestKeyIdentifiesQuery | client/src/hooks/use-threat-feed.ts:23-25 | two inputs share a key iff they ask for the same parameters |
| ClientHooks.LatestKeyMatchesRequest | client/src/hooks/use-threat-feed.ts:24-32 | two inputs share a key iff they request the same query string |
| ClientHooks.UpstreamOutcome | client/src/hooks/use-threat-feed.ts:34-37 | a 502 body that carries a message is always an error, whose text is that message, or "Upstream error" when the message is empty; only a data body fails the upstream error schema |
| ClientHooks.ClassifyLatest | client/src/hooks/use-threat-feed.ts:34-41 | success iff OK with data, returning it; any 502 is read by the upstream error schema, whatever its body; other non-OK statuses give the fixed latest message |
| ClientHooks.ClassifyRefresh | client/src/hooks/use-threat-feed.ts:60-66 | success iff OK with non-negative counts, returning them; any 502 is read by the upstream error schema, whatever its body; other non-OK statuses give the fixed refresh message |
| ClientHooks.LatestRequestUrl | client/src/hooks/use-threat-feed.ts:32 | the URL starts with the latest path and is exactly it when there is no query string |
| ClientHooks.LatestQueryFn | client/src/hooks/use-threat-feed.ts:30-42 | one request to the latest path followed by the query string; succeeds iff that reply is OK with data, returning the data; a 502 is read as an upstream error; other non-OK statuses give the fixed latest message |
| ClientHooks.RefreshMutationFn | client/src/hooks/use-threat-feed.ts:51-66 | an invalid limit fails client-side before any request. Otherwise one request is sent, whose body is the validated limit as JSON. It succeeds iff that reply is OK with valid counts, returning them; a 502 is read as an upstream error; other non-OK statuses give "Failed to refresh threat feed" |
| ClientHooks.SentRefreshBodyIsAccepted | client/src/hooks/use-threat-feed.ts:52-57 | the body the client sends always passes the server's validation |
| ClientHooks.FetchFailureShownVerbatim | client/src/hooks/use-threat-feed.ts:34-37 | every upstream failure message reaches the user unchanged, never as "Upstream error" |
| ClientHooks.BadRequestMessageNotShown | client/src/hooks/use-threat-feed.ts:64 | a 400 from refresh shows the fixed client message, not the server's |
| ClientHooks.HandlerCountsAccepted | client/src/hooks/use-threat-feed.ts:66 | the counts the refresh handler reports pass the client's schema |
| ThreatFeedPage.ScoreFromX10 | client/src/pages/ThreatFeedPage.tsx:28-30 | x10 / 10 clamped into [0, 10] |
| ThreatFeedPage.StoredScoreReadsBack | client/src/pages/ThreatFeedPage.tsx:28-30 | a stored score reads back within 0.05 of the clamped original |
| ThreatFeedPage.StoredScoreReadsBackExactly | client/src/pages/ThreatFeedPage.tsx:28-30 | a one-decimal score reads back exactly |
| ThreatFeedPage.SelectedAmong | client/src/pages/ThreatFeedPage.tsx:96 | the ticked severities of a list, no others |
| ThreatFeedPage.SelectedSevCount | client/src/pages/ThreatFeedPage.tsx:95-98 | at most 4; 4 iff every box is ticked; 0 iff none is |
| ThreatFeedPage.ResetFilters | client/src/pages/ThreatFeedPage.tsx:102-104 | minimum 0, every severity ticked, count 4: the state the page opens with |
| ThreatFeedPage.KeepPassing | client/src/pages/ThreatFeedPage.tsx:89-91 | exactly the passing rows, each as often as given |
| ThreatFeedPage.InsertByDate | client/src/pages/ThreatFeedPage.tsx:92 | inserting into a newest-first list keeps it sorted and adds exactly the row |
| ThreatFeedPage.SortNewestFirst | client/src/pages/ThreatFeedPage.tsx:92 | sorted by `publishedAt` descending and a permutation of its input |
| ThreatFeedPage.Filtered | client/src/pages/ThreatFeedPage.tsx:79-93 | newest first, every row passes both filters, and each passing row of the data appears as often as it was received and no other row appears |
| ThreatFeedPage.UnknownSeverityNeverShown | client/src/pages/ThreatFeedPage.tsx:85-90 | a row whose severity is missing or not a label in any letter case never shows |
| ThreatFeedPage.SeverityMatchIgnoresCase | client/src/pages/ThreatFeedPage.tsx:85-90 | a ticked label matches in any letter case |
| ThreatFeedPage.AllPassingShown | client/src/pages/ThreatFeedPage.tsx:79-93 | when every row passes, all are shown |
| ThreatFeedPage.ResetShowsEveryStoredRow | client/src/pages/ThreatFeedPage.tsx:79-104 | after a reset every stored row is shown, whatever its score, as often as it was received |
| ThreatFeedPage.Toggle | client/src/pages/ThreatFeedPage.tsx:445 | flips the expanded state of that row and of no other |
| ThreatFeedPage.ToggleTwice | client/src/pages/ThreatFeedPage.tsx:432-445 | toggling a row twice shows every row as before |

## Left out

- The HTTP call itself is not modelled. Its URL, headers and the 14-day publication window are computed from the clock (server/routes.ts:75-91). The call is a function parameter returning the outcome.
- JSON parsing, `Date` parsing and `Number(string)` are not modelled; they are given. JSON bodies arrive already parsed. The two string parsers are the `Parsers` parameter.
- Zod and drizzle internals are not modelled. The schemas are the validators in `ApiContract`. The SQL is the map update it performs. The first-pass `onConflictDoUpdate` writes each column back to itself, so only its insertion of new ids is kept (`BulkInsert`).
- Repeated ids in a batch follow the upsert's loop semantics: the last row wins and every repeat is counted. The model does not capture that real Postgres would likely reject such a bulk insert.
- Concurrency is not modelled: racing requests, and the async interleaving of the handlers with the store.
- The auto-refresh timer, react-query caching and `staleTime`, toasts and animation are view plumbing and are not modelled.
- `coerceDate` is not modelled. Its fallback to the current time is nondeterministic. Timestamps are taken to be valid integers, so the page sorts on `publishedAt` directly.
- `DashboardOverview` is not part of this model, and neither is the other React view code.
- ThreatFeedPage.SortNewestFirst: ties in `publishedAt` keep their input order, by construction of the insertion. That stability is not stated as a contract.
- Storage.DatabaseStorage.GetLatestCves: for rows with equal `publishedAt`, the database's order among them is not fixed by the query. The model promises only the non-increasing order and the newest-first choice of rows.
- NaN and the infinities are collapsed into None. Consequently, a refresh `limit` of the string "Infinity" reports the NaN issue, while zod would report the non-integer one.
- `String(n)` is modelled for integers only. `buildUrl` parameter values are strings or integers.
- Only ASCII letters are lower-cased by `toLowerCase` in the model. Severity labels are ASCII.
- Form encoding of the query string is not modelled. The parameters the client sets are digits, `-` and ASCII letters, which it leaves unchanged.
- Parameter order in `buildUrl` is the order of the given list. JavaScript's `Object.entries` ordering rules (integer-like keys first) are not modelled.
- Express query values are taken to be strings. Repeated keys (arrays) and nested objects are not modelled.
- Malformed payloads on which the source throws are not represented. In the model, a vulnerability is always an object whose `cve` may be absent. The source throws on these inputs:
  - a `null` entry in `vulnerabilities` (`v.cve`, server/routes.ts:110);
  - a JSON body that is `null` (`data.vulnerabilities` is read at server/routes.ts:107, outside the `try`), which the model treats as a body without `vulnerabilities` and fetches no items from;
  - a `descriptions` value that is not an array (`desc.find`, server/routes.ts:32);
  - a `null` description entry (`d.lang`, server/routes.ts:32).
  In each case the exception escapes `fetchNvdRecentCves`. It stops start-up when it happens during seeding, which is awaited at server/routes.ts:161. In either handler it escapes the handler uncaught (server/routes.ts:169, server/routes.ts:199 and server/routes.ts:226); what the host then does with it is not part of this model.
- `id` and `published` values that are not strings are not modelled: those fields are optional strings here. Likewise, description `value` fields are strings or absent.
- A `metrics` value that is not an object is not modelled: `metrics` is an optional map here. The source stores such a value (a number, an array, `false`) as it is (server/routes.ts:117), and its score extraction gives 0 for it.
- Client-side transport failures are not modelled. The server reply is a total function that always returns one of the three typed bodies. So two error paths of the hooks have no counterpart in the model:
  - `fetch` itself rejecting, for example with "Failed to fetch" (client/src/hooks/use-threat-feed.ts:32, :53);
  - `res.json()` throwing on a body that is not JSON, such as an HTML 502 page from a proxy (client/src/hooks/use-threat-feed.ts:35, :40, :61, :66).

  In both cases the query or mutation fails with the host's own error message.
- Routes.HandleRefresh: the `"Invalid request"` fallback for a zod error with no issues cannot happen (a zod error always has one), so it is not represented. Errors from the store itself, which the handler rethrows, are left out with the database.
- Scores are exact reals, so IEEE floating-point rounding in `score * 10` and `x10 / 10` is not modelled.
