# Election results dashboard: verified model of the server and panel logic

This project models, in Dafny, the core of a Next.js dashboard that shows
election results per region. The dashboard aggregates votes per polling
station and per candidate, serves a station breakdown at
`GET /api/stations`, renders a self-refreshing results panel, and lets an
administrator rename regions, candidates and stations. It also defines a
server-side TTL cache class with a singleton instance, but no route or query
calls it (the query functions are wrapped only in React's `cache`), so that
class is modelled on its own.

The model covers five parts, one module each:

- `Cache` (cache.dfy): the `DataCache` class. It has a mutable map from key
  to entry. `Get` serves an entry while it is fresh (strictly before
  `expiresAt`). Otherwise it fetches, stores the fresh value for 60 000 ms,
  and falls back to the stale value when the fetch fails. `Clear` and
  `ClearAll` forget one key or every key.
- `ElectionData` (election_data.dfy): the station breakdown loop
  (`GetStationResultsByRegion`). It builds a per-station table from
  candidate id to count, where the last row wins, sums the table into the
  station total, and emits one count per region candidate, defaulting to 0.
  It also gives the region-wide SQL aggregate (`GetElectionResultsByRegion`)
  as a pure specification: one row per candidate, its total summed over all
  of that candidate's vote rows, in non-increasing order of totals. The
  query fixes no order between ties, so any such ordering is admitted.
- `StationsRoute` (stations_route.dfy): the route's validation. It follows
  JavaScript `parseInt(s, 10)` prefix parsing. It then chooses between 400
  "Region ID is required", 400 "Invalid region ID", 200 and 500, and decides
  whether the `Cache-Control` header is sent.
- `RegionResultsView` (region_results.dfy): the results panel. It coerces a
  `number | string | other` vote total to a count, sums the grand total, and
  marks rows elected by position (`index < total_representatives ?? 6`). It
  also has the countdown from 90 to a refresh and the `m:ss` label.
- `AdminRouter` (admin.dfy): the `updateFieldName` mutation. The input
  schema runs first. The handler then rejects any field but `name` and the
  votes table, and sets the name of one row in one of three tables. The
  tables are maps from primary key to record.

Three shared modules support them. `JsText` (js_text.dfy) gives the
JavaScript string semantics the code relies on: white space, `parseInt`,
integer `Number(...)`, decimal `toString` and `padStart`. `Schema`
(schema.dfy) gives the four table records. `Wrappers` (wrappers.dfy)
holds `Option` and `Result`.

Effects are parameters:

- The clock reading and the settled outcome of the cache's fetch function
  are arguments of `Cache.DataCache.Get`.
- Database query results are input sequences, in query order.
- The station-breakdown query the route calls is a function argument of
  `StationsRoute.Get`.
- The database tables the admin mutation writes are fields of
  `AdminRouter.Database`.

## Model

| member | source | states |
|---|---|---|
| Cache.StateOf | src/server/cache.ts:20 | an entry is fresh strictly before `expiresAt`; at `expiresAt` it is stale |
| Cache.DataCache.constructor | src/server/cache.ts:10-12 | a new cache is empty and every entry expires one `refreshInterval` (60 000 ms) after its timestamp |
| Cache.DataCache.Get | src/server/cache.ts:15-42 | a fresh entry is returned without a fetch and the map is unchanged. Otherwise the fetch is made. On success the key maps to `{fresh, now, now + 60000}` and the fresh value is returned. On failure the stale data is returned with the map unchanged, or the error propagates when there is no entry. Other keys are never touched. After a store the key is fresh exactly on `[now, now + 60000)`. The entry-timing invariant is kept |
| Cache.DataCache.Clear | src/server/cache.ts:45-47 | removes exactly `key` (a no-op when absent) and keeps every other entry as it was |
| Cache.DataCache.ClearAll | src/server/cache.ts:50-52 | empties the map, so every key is absent and its next `Get` fetches |
| ElectionData.VotesAtStation | src/server/data-cache.ts:69-71 | a row is fetched for a station exactly when it is a vote row with that station id |
| ElectionData.CountOrZero | src/server/data-cache.ts:94 | definition of `candidateVotes[candidate.id] ?? 0`; properties in `CandidateVotesFor` and `NoRowMeansZero` |
| ElectionData.StationEntry | src/server/data-cache.ts:89-96 | definition of one station entry; properties in `StationResultsShape`, `NoRowMeansZero`, `LastRowDecidesCount`, `TotalCoversEmitted` and `TotalEqualsEmitted` |
| ElectionData.VoteTable | src/server/data-cache.ts:77-80 | the table has a key exactly for each candidate id occurring in the station's rows |
| ElectionData.LastWriteWins | src/server/data-cache.ts:77-80 | the table holds the count of the last row for that candidate |
| ElectionData.CandidateVotesFor | src/server/data-cache.ts:92-95 | one cell per region candidate, in candidate order, holding the table's count or 0 when the candidate has no entry |
| ElectionData.SumOfValues | src/server/data-cache.ts:83-86 | the loop's total equals the sum of the table's values |
| ElectionData.StationTotalIsTableSum | src/server/data-cache.ts:77-86 | the sum of the table's values equals an independent sum that counts, for each candidate, only its last row |
| ElectionData.FillVoteTable | src/server/data-cache.ts:77-80 | the in-place `forEach` fill produces the last-row-wins table |
| ElectionData.GetStationResultsByRegion | src/server/data-cache.ts:52-102 | the loop pushes exactly the specified station entries, in station order |
| ElectionData.StationResults | src/server/data-cache.ts:66-99 | one entry per region station |
| ElectionData.StationResultsShape | src/server/data-cache.ts:54-98 | entry i is for station i, and each entry has exactly one cell per region candidate, for that candidate, in candidate order |
| ElectionData.NoRowMeansZero | src/server/data-cache.ts:94 | a region candidate without a vote row at the station gets count 0 |
| ElectionData.LastRowDecidesCount | src/server/data-cache.ts:69-94 | with several rows for a candidate at a station, the last in query order gives its count |
| ElectionData.TotalCoversEmitted | src/server/data-cache.ts:83-95 | with distinct candidate ids and non-negative counts, the station total is at least the sum of the emitted counts |
| ElectionData.TotalEqualsEmitted | src/server/data-cache.ts:83-95 | when every row at the station belongs to a region candidate, the station total equals the sum of the emitted counts |
| ElectionData.EntryIgnoresOtherStations | src/server/data-cache.ts:69-71 | vote rows of other stations do not change a station's entry |
| ElectionData.RowsAffectOnlyTheirStation | src/server/data-cache.ts:68-74 | adding vote rows for one station leaves every other station's entry unchanged |
| ElectionData.CandidateTotal | src/server/data-cache.ts:38-41 | definition of `COALESCE(SUM(vote_count), 0)` over a candidate's vote rows; properties in `ElectionResultsRows` and `NoRowsTotalZero` |
| ElectionData.SortByVotesDesc | src/server/data-cache.ts:44 | the result is ordered by total non-increasing and is a permutation of its input |
| ElectionData.GetElectionResultsByRegion | src/server/data-cache.ts:31-47 | the rows are the per-candidate totals, sorted non-increasingly and forming a permutation of the grouped rows |
| ElectionData.ElectionResultsRows | src/server/data-cache.ts:38-43 | any admissible result has one row per region candidate, and each row's total is the sum over that candidate's vote rows |
| ElectionData.ElectionResultsOncePerCandidate | src/server/data-cache.ts:40-43 | with distinct candidate ids, each candidate's row appears exactly once |
| ElectionData.NoRowsTotalZero | src/server/data-cache.ts:38-41 | a candidate without vote rows totals 0 (the left join and `COALESCE`) |
| ElectionData.ElectionResultsSum | src/server/data-cache.ts:38-44 | the totals of any admissible result add up to all votes cast for the region's candidates |
| StationsRoute.ValidateRegionId | src/app/api/stations/route.ts:14-30 | accepts exactly a parameter whose `parseInt` is a positive integer and passes on that integer. An absent or empty parameter is "Region ID is required"; any other rejection is "Invalid region ID" |
| StationsRoute.Get | src/app/api/stations/route.ts:10-47 | the status is 200, 400 or 500; 400 exactly when validation fails, and a 400's body is `{error}` with validation's own message ("Region ID is required" or "Invalid region ID"); the `Cache-Control` header is present exactly when the status is not 500 |
| StationsRoute.MissingRegionId | src/app/api/stations/route.ts:16-21 | an absent or empty parameter gives 400 "Region ID is required" with the header |
| StationsRoute.NoQueryOnBadRequest | src/app/api/stations/route.ts:16-33 | a 400 response does not depend on the station query at all |
| StationsRoute.QueryOnlyForParsedId | src/app/api/stations/route.ts:23-39 | any response other than 400 comes from querying the parsed id, with 200 on success and 500 "Failed to fetch station results" without the header on failure |
| StationsRoute.DecimalPrefixAccepted | src/app/api/stations/route.ts:23-25 | a positive decimal followed by a non-digit tail is accepted as that number |
| StationsRoute.NegativeRejected | src/app/api/stations/route.ts:25-30 | a negative number is rejected as invalid |
| StationsRoute.ZeroRejected | src/app/api/stations/route.ts:25-30 | zero is rejected as invalid |
| StationsRoute.NonNumericRejected | src/app/api/stations/route.ts:23-30 | a parameter starting with a character that is not white space, sign or digit is invalid |
| StationsRoute.AbcRejected | src/app/api/stations/route.ts:23-30 | "abc" is invalid |
| StationsRoute.AbcAnswered | src/app/api/stations/route.ts:23-30 | `GET` with "abc" answers 400 `{error: "Invalid region ID"}` with the `Cache-Control` header, whatever the query would return |
| StationsRoute.MinusFiveRejected | src/app/api/stations/route.ts:25-30 | "-5" is invalid |
| StationsRoute.TwelveAbcAccepted | src/app/api/stations/route.ts:23 | "12abc" is accepted as region 12 |
| StationsRoute.PaddedDecimalAccepted | src/app/api/stations/route.ts:23-25 | leading white space of any length before a positive decimal (" 7") still gives that id |
| JsText.ParseInt | src/app/api/stations/route.ts:23 | definition of `parseInt(s, 10)`; properties in `ParseIntOfDecimal`, `ParseIntOfNegativeDecimal`, `ParseIntSkipsWhitespace` and the `StationsRoute` examples |
| JsText.ParseIntOfDecimal | src/app/api/stations/route.ts:23 | `parseInt` reads back the decimal text of any natural number, whatever non-digit text follows |
| JsText.ParseIntOfNegativeDecimal | src/app/api/stations/route.ts:23 | `parseInt` reads a minus sign and decimal digits as the negated number |
| JsText.ParseIntSkipsWhitespace | src/app/api/stations/route.ts:23 | leading white space does not change what `parseInt` reads |
| JsText.StringToNumber | src/app/_components/AutoRefreshRegionResults.tsx:84 | definition of `Number(s)` on integer text; properties in `StringToNumberOfDecimal` and `RegionResultsView.NonNumericTextCountsZero` |
| JsText.StringToNumberOfDecimal | src/app/_components/AutoRefreshRegionResults.tsx:83-85 | `Number` reads back the decimal text of any integer |
| RegionResultsView.GetTotalVotes | src/app/_components/AutoRefreshRegionResults.tsx:79-88 | definition; properties in `CountAsTextReadsBack` and `NonNumericTextCountsZero` |
| RegionResultsView.TotalVotes | src/app/_components/AutoRefreshRegionResults.tsx:90-92 | definition of the reduce; properties in `TotalVotesOfDelivered` and `GrandTotalIsRegionVotes` |
| RegionResultsView.CountAsTextReadsBack | src/app/_components/AutoRefreshRegionResults.tsx:79-86 | a count handed over as its decimal text is read back unchanged |
| RegionResultsView.NonNumericTextCountsZero | src/app/_components/AutoRefreshRegionResults.tsx:83-87 | "12abc" (which `Number` rejects), "" and a non-number non-string all count 0 |
| RegionResultsView.TotalVotesOfDelivered | src/app/_components/AutoRefreshRegionResults.tsx:90-92 | the reduced grand total equals the sum of the query's totals, whether they arrive as numbers or as text |
| RegionResultsView.GrandTotalIsRegionVotes | src/app/_components/AutoRefreshRegionResults.tsx:90-92 | the panel's grand total is the number of votes cast for the region's candidates |
| RegionResultsView.RepresentativeCount | src/app/_components/AutoRefreshRegionResults.tsx:95 | definition of `total_representatives ?? 6`; properties in `RepresentativeDefaults` and `ElectedCount` |
| RegionResultsView.IsRepresentative | src/app/_components/AutoRefreshRegionResults.tsx:96 | definition; properties in `TableRowsProperties` and `ElectedCount` |
| RegionResultsView.TableRows | src/app/_components/AutoRefreshRegionResults.tsx:128-154 | one table row per result |
| RegionResultsView.TableRowsProperties | src/app/_components/AutoRefreshRegionResults.tsx:96-147 | ranks are 1..n in result order; each row shows its coerced count; a row is elected exactly when its index is below the representative count, so the elected rows form a prefix; with no positive grand total every percentage is "0.00%" |
| RegionResultsView.ElectedCount | src/app/_components/AutoRefreshRegionResults.tsx:95-147 | exactly `min(n, representativeCount)` rows are elected, and none for a count of 0 or less |
| RegionResultsView.RepresentativeDefaults | src/app/_components/AutoRefreshRegionResults.tsx:95 | a missing region or a null count gives 6, while an explicit 0 stays 0 |
| RegionResultsView.Render | src/app/_components/AutoRefreshRegionResults.tsx:51-159 | the loading view shows exactly while loading with no results; the table shows exactly when there are results, and then its header names the given region (`{region?.name} Results`) and it holds `Top {representativeCount}` with the region's count (default 6), the `m:ss` countdown label and exactly the rows `TableRows` builds, one per result |
| RegionResultsView.CountdownTick | src/app/_components/AutoRefreshRegionResults.tsx:40-45 | definition of the updater; properties in `CountdownCycle`, `RefreshEveryNinetyTicks` and `Countdown.OnInterval` |
| RegionResultsView.CountdownCycle | src/app/_components/AutoRefreshRegionResults.tsx:15-47 | from 90, after k firings the countdown is `90 - k mod 90`, within 1..90, and exactly `k div 90` refreshes have fired |
| RegionResultsView.RefreshEveryNinetyTicks | src/app/_components/AutoRefreshRegionResults.tsx:39-46 | the k-th firing refreshes exactly when k is a multiple of 90 |
| RegionResultsView.Countdown.OnInterval | src/app/_components/AutoRefreshRegionResults.tsx:39-46 | a value above 1 decreases by one, and a value of 1 or less triggers one refresh and resets to 90. The countdown stays within 1..90 and the refresh count matches the firings |
| RegionResultsView.CountdownLabel | src/app/_components/AutoRefreshRegionResults.tsx:111 | definition of the `m:ss` label; properties in `LabelReadsBack`, `LabelAtStart` and `LabelNearRefresh` |
| RegionResultsView.LabelReadsBack | src/app/_components/AutoRefreshRegionResults.tsx:111 | the label is the decimal minutes (`countdown div 60`), a colon, then two digits whose value is `countdown mod 60` |
| RegionResultsView.LabelAtStart | src/app/_components/AutoRefreshRegionResults.tsx:111 | the starting countdown of 90 shows "1:30" |
| RegionResultsView.LabelNearRefresh | src/app/_components/AutoRefreshRegionResults.tsx:111 | 5 seconds shows "0:05", with the seconds padded by "0" |
| AdminRouter.ParseTableName | src/server/api/routers/admin.ts:9 | definition of the table-name enum; properties in `ParseInput` |
| AdminRouter.ParseInput | src/server/api/routers/admin.ts:8-13 | accepts exactly a known table name with a non-empty new value, passing the fields through. Each issue is reported exactly when its rule fails |
| AdminRouter.UpdateRow | src/server/api/routers/admin.ts:30-45 | the row with the id is updated and every other row is kept, with the same key set |
| AdminRouter.UnknownIdChangesNothing | src/server/api/routers/admin.ts:30-33 | an id that matches no row leaves the table unchanged |
| AdminRouter.UpdateRowIdempotent | src/server/api/routers/admin.ts:29-46 | applying the same idempotent update twice equals applying it once |
| AdminRouter.Database.constructor | src/server/api/routers/admin.ts:4 | a store built from tables whose rows sit under their own ids satisfies the invariant the mutation relies on |
| AdminRouter.Database.UpdateFieldName | src/server/api/routers/admin.ts:19-55 | a field other than `name` fails with "Only the name field can be edited" before the table is looked at. The votes table fails with "Votes table doesn't have a name field". Neither changes anything. Otherwise only the chosen table changes, by renaming the row with that id (other fields and rows kept), and the call succeeds even when no row matches |
| AdminRouter.RenameTwice | src/server/api/routers/admin.ts:19-55 | two identical `updateFieldName` calls return the same result (success for the `name` field of regions, candidates or stations, else the handler's error) and leave the tables as one call does: only the chosen table is renamed once, votes untouched |
| AdminRouter.MessagesDistinct | src/server/api/routers/admin.ts:24-51 | the three errors the handler throws carry three different texts |
| AdminRouter.Database.Mutate | src/server/api/routers/admin.ts:8-55 | input the schema rejects (including an empty new value) reaches no table. Accepted input goes to the handler: the call succeeds exactly for the `name` field of regions, candidates or stations, otherwise it fails with the handler's error, whose text is "Only the name field can be edited" or "Votes table doesn't have a name field". On success only the chosen table changes, by renaming the row with that id; failures change nothing |

## Left out

- Floating point: counts, totals and ids are unbounded integers. Percentages (`toFixed(2)`), `toLocaleString` and the float precision of large numbers are not modelled.
- RegionResultsView.GetTotalVotes: `Number` on text is modelled for optionally signed decimal integers only; fractions, exponents, hexadecimal, `Infinity` and similar literals are read as NaN (so counted 0) rather than as their value.
- JsText.ParseInt: huge digit strings become exact integers instead of rounded doubles. For a positive id the accept or reject outcome is the same.
- JsText.NatToDecimal: `toString` switches to exponent notation from 10^21; the model always writes plain digits.
- Non-integer ids: the admin schema's `z.number()` also admits fractions, which would match no row. The model's ids are integers.
- Ties in the SQL `ORDER BY total_votes DESC` are left open: `GetElectionResultsByRegion` is one admissible order (insertion order among equals), and the lemmas hold for every admissible order.
- React `cache` per-request memoization, the database driver and SQL evaluation: query results are input sequences and tables are maps.
- Concurrency: concurrent `get` calls on one key (a cache stampede) and async interleavings. Each `Get` is one atomic step.
- HTTP caching semantics of `s-maxage` and `stale-while-revalidate`: only whether the header is present is modelled.
- Logging (`console.warn`, `console.error`).
- The refresh spinner, `router.refresh()` and the one-second `setTimeout`. `handleRefresh` is counted, not run.
- AdminRouter.Database.UpdateFieldName: a table keyed by id holds at most one row per id, so several rows sharing an id are not modelled. The handler's `default` branch ("Invalid table name") cannot be reached once the schema has accepted the table name, so no path produces it.
- Page layouts, the field-name editor UI, the stations page's client fetch, and the second and third countdown components: these are rendering and browser plumbing. Their countdown copies follow the same rule as `Countdown.OnInterval`.
