# Comedy listings: query handlers and listing page, modelled in Dafny

This project models the in-repository behaviour of a comedy-show listings site:

- `GET /api/shows` reads `limit`, `offset`, `city`, `date` and `comedian`.
  It describes one read of the `shows` table, joined with each show's venue and its performers' comedians.
  The read keeps only upcoming shows from now on, optionally within one calendar day, ascending by date, over rows `[offset, offset + limit - 1]`.
  The handler then keeps only the shows with a performer whose comedian name contains `comedian`, ignoring case, and answers `{ data, count }`.
- `GET /api/venues` reads `limit`, `offset`, `city` and `search`.
  It describes a read of `venues` ordered by name, with a case-insensitive pattern condition on the city and one on the name for each parameter that is given, and answers `{ data, count }`.
- The shows listing page keeps four filter strings, a 1-based page number with a page size of 12, the listed shows, a loading flag and an error.
  Its handlers (search, reset, previous, next, fetch) change that state. Each fetch sends a query string that the shows handler reads back.

The hosted data store is not modelled as code. Each handler takes it as a function parameter (`db`) from a query description to an outcome.
What a response guarantees is proved under the stated assumption that the store honours the description (`Honours`).

Modules: `Wrappers` (Option), `Text` (ASCII case and substring search), `Decimal` (`parseInt` and `toString` on integers),
`SearchParams` (`URLSearchParams`), `Http` (query outcome and JSON envelope), `Database` (the record types),
`Like` (PostgreSQL `ILIKE`), `ShowsRoute`, `VenuesRoute`, `ShowsPage`.

## Model

| member | source | states |
|---|---|---|
| `Text.Lower` | src/app/api/shows/route.ts:52 | `toLowerCase` keeps the length and lowers every character in place (ASCII) |
| `Text.ContainsIgnoringCaseIgnoresCase` | src/app/api/shows/route.ts:52 | upper- or lower-casing either the text or the query never changes whether the query is contained, ignoring case |
| `Decimal.ParseInt` | src/app/api/shows/route.ts:7-8 | `parseInt` gives NaN exactly when no digit follows the optional sign |
| `Decimal.NatToString` | src/app/shows/page.tsx:32-33 | `toString` of a non-negative integer below 1e21 (where JavaScript still writes it in plain decimal) is a non-empty run of digits without a leading zero |
| `Decimal.ParseIntOfNatToString` | src/app/shows/page.tsx:32-33 | `parseInt(n.toString())` gives back `n` for every non-negative integer `n` that a double holds exactly in plain decimal (below 2^53) |
| `SearchParams.Get` | src/app/api/shows/route.ts:6-11 | `get` is `null` exactly when the name is absent, and otherwise the value at the name's first position |
| `SearchParams.GetAfterAppend` | src/app/shows/page.tsx:31-37 | after `append`, a name already present keeps its first value, the appended name yields the new value, and other names are unaffected |
| `Http.Envelope` | src/app/api/shows/route.ts:57 | the body carries the data unchanged; `count` is its length, or 0 when data is `null` |
| `ShowsRoute.NextDay` | src/app/api/shows/route.ts:33-35 | the end of the day window lies after its start |
| `ShowsRoute.ReadParams` | src/app/api/shows/route.ts:6-11 | `limit` is 10 and `offset` 0 when missing or empty, else `parseInt` of the value; `city`, `date`, `comedian` are `get`'s results |
| `ShowsRoute.BuildQuery` | src/app/api/shows/route.ts:13-39 | the read covers rows `[offset, offset + limit - 1]`; it admits exactly the upcoming shows from now on, within `[start, NextDay(start))` when a date is given; it carries the venue-city condition exactly when `city` is non-empty |
| `ShowsRoute.FilterByComedian` | src/app/api/shows/route.ts:50-54 | a show is kept exactly when it was fetched and has a performer with a comedian whose name contains the query, ignoring case; so a show with no performers or no comedians is dropped; never more shows than fetched |
| `ShowsRoute.HandleGet` | src/app/api/shows/route.ts:4-64 | invalid date or a thrown read gives 500 "Internal server error"; a read error gives 500 with its message; otherwise `{ data, count }` of the post-filtered rows; the read sent is the one `BuildQuery` describes |
| `ShowsRoute.FilterIsSubsequence` | src/app/api/shows/route.ts:48-55 | the filter only drops shows: the output is an order-preserving subsequence of the fetched rows |
| `ShowsRoute.FilterKeepsDateOrder` | src/app/api/shows/route.ts:25 | a page fetched in ascending date order stays in ascending date order after the filter |
| `ShowsRoute.FilterIgnoresQueryCase` | src/app/api/shows/route.ts:52 | upper- or lower-casing the `comedian` query never changes which shows are kept |
| `ShowsRoute.NameCaseIgnored` | src/app/api/shows/route.ts:52 | upper-casing a comedian's name never changes whether it matches |
| `ShowsRoute.PostFilter` | src/app/api/shows/route.ts:48-55 | `filteredData` is `null` exactly when the fetched data is; without a non-empty `comedian` it is the data unchanged; otherwise it keeps exactly the fetched shows with a matching comedian, never more of them |
| `ShowsRoute.PostFilterPassesThrough` | src/app/api/shows/route.ts:48-49 | without a non-empty `comedian`, or with `null` data, the rows are returned unchanged |
| `ShowsRoute.ResponseGuarantees` | src/app/api/shows/route.ts:23-57 | if the store honours the read, every returned show is upcoming, not before now, on the requested day, and matches `comedian` when given; the rows are date-ordered and a subsequence of the page; `count <= limit` |
| `Like.Escape` | src/app/api/venues/route.ts:18-24 | escaping never shortens a text and leaves a text without `%`, `_` or backslash unchanged |
| `Like.EscapedContainsPattern` | src/app/api/venues/route.ts:18-24 | a text matches `'%' + escaped(s) + '%'` under ILIKE exactly when it contains `s`, ignoring case |
| `VenuesRoute.ReadParams` | src/app/api/venues/route.ts:6-10 | `limit` is 10 and `offset` 0 when missing or empty, else `parseInt` of the value; `city` and `search` are `get`'s results |
| `VenuesRoute.ContainsPatternAsWritten` | src/app/api/venues/route.ts:19-23 | the pattern `%${s}%` with `s` inserted unescaped; `WildcardSearchMatchesWithoutSubstring` shows it is not containment for `s = "_"`, and `PatternsAgreeWithoutSpecials` that it is the escaped pattern for texts without `%`, `_` or backslash |
| `VenuesRoute.ContainsPattern` | src/app/api/venues/route.ts:18-24 | a text matches the pattern built for `s` exactly when it contains `s`, ignoring case |
| `VenuesRoute.WildcardSearchMatchesWithoutSubstring` | src/app/api/venues/route.ts:22-24 | with the pattern as written, `search = "_"` admits the name "Ab", which does not contain `_` |
| `VenuesRoute.PatternsAgreeWithoutSpecials` | src/app/api/venues/route.ts:18-24 | for a text without `%`, `_` or backslash, the written pattern and the escaped one coincide |
| `VenuesRoute.BuildQuery` | src/app/api/venues/route.ts:12-24 | the read covers rows `[offset, offset + limit - 1]`; it has the city pattern `%city%` exactly when `city` is non-empty and the name pattern `%search%` exactly when `search` is, both when both are, each text inserted unescaped; it admits exactly the venues whose city and name match those patterns under ILIKE, and, when neither text holds `%`, `_` or backslash, exactly the venues whose city and name contain them, ignoring case |
| `VenuesRoute.EscapedQuery` | src/app/api/venues/route.ts:12-24 | the corrected read: same range, and it admits exactly the venues whose city and name contain the given texts, ignoring case, whatever characters they hold |
| `VenuesRoute.EscapedQueryAgrees` | src/app/api/venues/route.ts:18-24 | when neither text holds `%`, `_` or backslash, the corrected read is the read the handler sends |
| `VenuesRoute.HandleGet` | src/app/api/venues/route.ts:4-39 | a read error gives 500 with its message; a thrown read gives 500 "Internal server error"; otherwise `{ data, count }` of the rows; the read sent is the one `BuildQuery` describes |
| `VenuesRoute.ResponseGuarantees` | src/app/api/venues/route.ts:15-32 | if the store honours the read, every returned venue's city and name match `%city%` and `%search%` under ILIKE; when those texts hold no `%`, `_` or backslash, they contain them, ignoring case; and `count <= limit` |
| `ShowsPage.BuildRequest` | src/app/shows/page.tsx:31-37 | the query string has `limit` 12 and `offset (page - 1) * 12`; it has `city`, `date` and `comedian` exactly when the filter is non-empty; the shows handler reads it back as exactly those values |
| `ShowsPage.RouteReadsRequest` | src/app/shows/page.tsx:32-37 | the shows handler reads the page's parameters as page size 12, offset `(page - 1) * 12` (a non-negative multiple of 12) and the non-empty filters |
| `ShowsPage.ShowsPage.constructor` | src/app/shows/page.tsx:12-24 | the page starts loading, with no shows, no error, empty filters and page 1 |
| `ShowsPage.ShowsPage.EditSearchQuery` | src/app/shows/page.tsx:115 | typing sets the search text and nothing else; the page stays valid |
| `ShowsPage.ShowsPage.SelectCity` | src/app/shows/page.tsx:129 | choosing a city sets the city filter and nothing else; the page stays valid |
| `ShowsPage.ShowsPage.SelectDate` | src/app/shows/page.tsx:150 | choosing a date sets the date filter and nothing else; the page stays valid |
| `ShowsPage.ShowsPage.HandleSearch` | src/app/shows/page.tsx:57-61 | search goes to page 1 and sets the comedian filter to the search text; city and date are unchanged |
| `ShowsPage.ShowsPage.ResetFilters` | src/app/shows/page.tsx:63-69 | all four filter strings become empty and the page 1; the result does not depend on the prior state, so resetting twice equals resetting once |
| `ShowsPage.ShowsPage.PreviousPage` | src/app/shows/page.tsx:292-293 | on page 1, where Previous is disabled, the page stays 1; otherwise it goes back one; the page stays at least 1; Previous ends up disabled exactly when it started on page 1 or 2 |
| `ShowsPage.ShowsPage.NextPage` | src/app/shows/page.tsx:304 | Next goes forward one page, after which Previous is enabled |
| `ShowsPage.ShowsPage.PreviousDisabled` | src/app/shows/page.tsx:293 | Previous is disabled on page 1; when it is enabled, `Math.max(1, currentPage - 1)` is the page before |
| `ShowsPage.ShowsPage.NextDisabled` | src/app/shows/page.tsx:305 | Next is disabled exactly when fewer than 12 shows are listed |
| `ShowsPage.ShowsPage.PaginationShown` | src/app/shows/page.tsx:192-289 | the controls are shown only when not loading, with at least one show, and with no error or an error whose message is empty (`!error` is true for the empty string) |
| `ShowsPage.ShowsPage.BeginFetch` | src/app/shows/page.tsx:26-37 | starting a fetch sets loading and clears the error; the request is read by the handler as page size 12, offset `(page - 1) * 12` and the non-empty filters |
| `ShowsPage.ShowsPage.CompleteFetch` | src/app/shows/page.tsx:40-50 | success replaces the shows with the body's data, or `[]` if absent; a non-ok response sets "Failed to fetch shows" and keeps the shows; a thrown error sets its message, or "An error occurred"; loading ends in every case; after success Next is disabled exactly when the body held fewer than 12 shows; the controls are shown exactly when shows are listed and either the response succeeded with `!error` before or the thrown error's message was empty |
| `ShowsPage.ShowsPage.FetchShows` | src/app/shows/page.tsx:26-51 | one fetch that settles before the next: the request, then the state the answer leaves; after success the controls are shown exactly when shows are listed and Next is disabled exactly when fewer than 12 came back; after a non-ok response they are hidden; after a thrown error they stay shown only if its message is empty and shows are listed |

The page's derived values are the functions `PreviousDisabled` (page is 1), `NextDisabled` (fewer than 12 shows listed) and
`PaginationShown` (not loading, `!error`, at least one show); see src/app/shows/page.tsx:192, 289, 293, 305.
`!error` is JavaScript truthiness: an error whose message is the empty string counts as no error (`ErrorHidden`).
Every method of the `ShowsPage` class keeps `Valid()`, which says `currentPage >= 1` and the page size is 12.

## Left out

- Query execution by the hosted database client: each handler takes the store as a parameter. What a response guarantees is proved only under `Honours`, the assumption that the store returns admitted rows within the requested range (and, for shows, in date order).
- ShowsRoute.Satisfies: the equality on the joined venue's city is recorded in the description but taken to restrict nothing, because whether the store applies it to the top-level rows is not known here.
- Date parsing (`new Date(date)`): a parameter `parseDate` whose `None` stands for an invalid date; `toISOString` on it throws, which gives the 500 answer.
- ShowsRoute.NextDay: the next day is `start` plus 24 hours. Local-time `setDate` across a daylight-saving change is not modelled.
- Decimal.NatToString: integers are unbounded, while JavaScript numbers are doubles. `toString` switches to exponential form from 1e21 (`"1e+21"`), and integer precision is lost above 2^53. The model takes page numbers and offsets below those bounds.
- Decimal.ParseInt: it handles an optional sign and leading decimal digits. Leading whitespace, the `0x` prefix and digits beyond 2^53 precision are not modelled.
- Text.Lower: ASCII case only. Unicode case mapping is not modelled, and neither is the locale the database uses for `ILIKE`.
- Percent-encoding of the query string is taken as the identity.
- `formatDate`, `formatTime` and all rendering markup, apart from the three derived values above; src/app/page.tsx is static markup.
- `fetch`, `await` and `useEffect`: which state changes trigger a fetch is not modelled. `BeginFetch` and `CompleteFetch` may be interleaved, and then the last response to settle wins, as in the page.
- The thrown error when a comedian row has no `name` is not modelled: the record type makes `name` mandatory.
- PostgREST's reading of `*` in a `like`/`ilike` value as `%` is not modelled: `Like.ILike` treats `*` as an ordinary character, so `EscapedQuery` does not escape it.
- The `name` ordering of venues (database collation) is not modelled; no guarantee about venue order is stated.
- Numeric columns (`capacity`, prices) are integers; fractional values are not modelled.
- `Profile`, `UserFollow`, `UserFavorite` and the `*WithStats` types are never read, so they are not declared.

## Findings

| source | as written | input that shows it | evidently intended | confidence | as-written member | corrected member |
|---|---|---|---|---|---|---|
| src/app/api/venues/route.ts:18-24 | the `city` and `search` texts go unescaped into `%...%`, so `_`, `%` and backslash in them act as wildcards or escapes | `search = "_"` admits a venue named "Ab" | venues whose name (city) contains the text, ignoring case | medium; not executed | `VenuesRoute.WildcardSearchMatchesWithoutSubstring` | `VenuesRoute.EscapedQuery` |

`VenuesRoute.BuildQuery` and `VenuesRoute.HandleGet` model the pattern as written, so their containment guarantee holds only for texts without `%`, `_` or backslash. `VenuesRoute.EscapedQuery` is the corrected read, built with `VenuesRoute.ContainsPattern`. For texts without those characters, the two reads are the same (`VenuesRoute.PatternsAgreeWithoutSpecials`, `VenuesRoute.EscapedQueryAgrees`).
