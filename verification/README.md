# ventas-crud front end in Dafny

This project models the browser front end of a small point-of-sale app. The front end records sales ("ventas") in a form and sends them through a proxy to a spreadsheet script. A sale whose send fails is kept in a local queue and re-sent later. A records view ("registros") fetches a date range of past sales, filters them, pages through them and exports them as CSV.

The model is functional. Each operation is a Dafny function or method over immutable datatypes. Whatever the browser would supply is an input:

- the outcome of a network request (`Api.Transport`, `Api.Fetched`);
- the refreshed list after a send (`Ventas.Refresh`);
- whether a local-storage write succeeds (`writable`);
- clock readings (`Utils.DateTime`, millisecond stamps) and the random part of a request id;
- the page's set of section ids;
- the engine's parsing of date strings of no recognised shape (function parameters).

Modules follow the source files:

| module | models |
|---|---|
| `Text` | the string built-ins the code relies on: `String(n)`, `padStart(2,'0')`, `split`, `join`, `trim`, `includes`, the CSV `"`-doubling, and `<=` on strings |
| `JsValues` | JSON-shaped values with JavaScript truthiness, `||`, `?.`, indexing and `String(v)` |
| `Config` | the constants of js/core/config.js and the script/proxy addresses |
| `Ui` | the alert banner's messages |
| `Seqs` | order-preserving subsequences and filters |
| `Sales` | the sale record and its ids |
| `Utils` | js/core/utils.js: date and time stamps, the display date, the pending-sales store |
| `Api` | js/core/api.js: the list URL, response classification, row padding, the send request and the reachability probe |
| `Ventas` | js/sections/ventas.js: building a sale, the server/local merge, the pending queue, the retry pass, the initial load and the optimistic submit |
| `Registros` | js/sections/registros.js: row mapping, filters, the date-range filter, date and time cells, pagination, CSV export and the search |
| `App` | js/app.js: the online flag and section switching |

Behaviours worth knowing that the contracts pin down:

- **Merge.** The merge keeps the first sale of each id and the server's copy wins. Its output is the deduplicated server list followed by the local sales the server does not have.
- **Retry pass.** The retry pass leaves exactly the unconfirmed sales queued, in order. A send answered "success" but flagged `isDuplicate` counts as unconfirmed, so that sale stays queued. The submit path ignores `isDuplicate`.
- **Queue after an accepted send.** An accepted send whose list re-fetch throws still queues the sale, so the next retry pass sends it again.
- **Going offline.** The gateway's probe never rejects. Going offline is therefore silent, and the warning branch of the shell's `checkConnection` cannot be reached with it.
- **Blank price.** With a blank price field, `precio` becomes 0 but `precioFinal` becomes NaN, because the fallback parses the price field again without the `|| 0` default.
- **Settlement state.** A record whose settlement cell is blank counts as "No". Every state other than 'liquidado' filters for "No".

## Model

| member | source | states |
|---|---|---|
| `Text.Trim` | js/sections/ventas.js:158-160 | `trim()` keeps a contiguous slice of its input |
| `Text.TrimDropsOnlySpace` | js/sections/ventas.js:158-160 | everything `trim()` drops is white space, and what it keeps neither starts nor ends with white space |
| `Ventas.CreateVentaFromForm` | js/sections/ventas.js:153-169 | text fields trimmed; `precio` is the parsed price, and 0 when that is 0 or NaN; a blank final price falls back to the parsed price field; id, timestamp, date and time come from the clock readings |
| `Ventas.PrecioFinalFallback` | js/sections/ventas.js:161-164 | with a blank final price, it equals the price when the price parses; otherwise the price is 0 and the final price NaN |
| `Ventas.KeepFirst` | js/sections/ventas.js:175-189 | the reference merge: no repeated id, ids are exactly the input ids outside `seen`, an order-preserving subsequence of the input |
| `Ventas.AppendUnseen` | js/sections/ventas.js:176-181 | one pass of the merge loop appends exactly the reference merge of its source and records the source's ids |
| `Ventas.MergeAndDeduplicateVentas` | js/sections/ventas.js:171-192 | the two-loop merge equals the reference merge: distinct ids, every id of server ++ local, a subsequence of server ++ local, the deduplicated server list first |
| `Ventas.KeepFirstAppend` | js/sections/ventas.js:175-189 | deduplicating a concatenation is deduplicating the second part against the first part's ids |
| `Ventas.KeepFirstDistinct` | js/sections/ventas.js:176-189 | a list with distinct ids, none already seen, passes through unchanged |
| `Ventas.MergeServerWins` | js/sections/ventas.js:175-189 | the merge is the deduplicated server list followed by the local sales whose id the server lacks; a merged sale with a server id is a server sale |
| `Ventas.MergeIdsExactlyOnce` | js/sections/ventas.js:176-189 | every id of server ++ local occurs in the merge exactly once and no other id occurs |
| `Ventas.MergeIdempotent` | js/sections/ventas.js:171-192 | merging a merged list with no local sales gives it back |
| `Ventas.HasNearDuplicate` | js/sections/ventas.js:267-271 | true exactly when some queued sale has the same product and reference and a timestamp less than 60000 ms away |
| `Ventas.SavePendingVenta` | js/sections/ventas.js:263-277 | a near-duplicate leaves the store unchanged; otherwise the stored queue becomes the old queue plus the sale; other keys never change |
| `Ventas.NearDuplicateSuppressed` | js/sections/ventas.js:267-276 | two failed submissions of one product and reference within a minute leave one queued entry |
| `Ventas.RetryPartition` | js/sections/ventas.js:235-253 | the still-queued and the synced sales are order-preserving subsequences of the queue that together make up its sales as a multiset; a sale is synced when its send was confirmed and queued otherwise |
| `Ventas.RetryExtremes` | js/sections/ventas.js:235-253 | no confirmations keep the whole queue; all confirmed empties it |
| `Ventas.DuplicateSuccessStaysPending` | js/sections/ventas.js:241 | a "success" answer flagged `isDuplicate` is not a confirmation |
| `Ventas.ProcessPendingVentas` | js/sections/ventas.js:226-261 | an empty queue changes nothing; otherwise queue and store become exactly the unconfirmed sales in order; the count alert and list refresh happen only when something synced, and a failed refresh throws |
| `Ventas.LoadInitialData` | js/sections/ventas.js:81-108 | the retry pass runs exactly when the fetch succeeded, the shell is online and the stored queue is non-empty; a failed fetch shows the stored queue with an error alert; without the retry the merge is shown; with it, queue and store hold exactly the unconfirmed sales, the merge stays when nothing synced, the re-fetched list is shown after a sync, and a re-fetch that throws shows the stored queue with the sync alert followed by the error alert |
| `Ventas.RetryOnLoad` | js/sections/ventas.js:94-107 | the retry pass under the load's `catch`: queue and store become the unconfirmed sales; no sync keeps the shown list and raises nothing; a sync shows the re-fetched list with the count alert, or, when the re-fetch throws, the stored queue with the count alert and the error alert |
| `Ventas.HandleFormSubmit` | js/sections/ventas.js:110-136 | the sale goes to the head of the list first; only an accepted send whose refresh succeeds replaces the list; every other outcome queues the sale through `savePendingVenta`; a send that throws shows the offline notice, a non-success answer the saved-locally warning, and an accepted send whose refresh throws shows success then the offline notice; the in-memory queue is untouched |
| `Ventas.OfflineSaleThenSync` | js/sections/ventas.js:131-133 | a sale whose send threw becomes the only queued entry, and a retry pass that confirms it empties the queue |
| `Ventas.AcceptedButRefreshFailedQueues` | js/sections/ventas.js:119-133 | an accepted send whose list refresh throws still queues the sale |
| `Utils.FormatDateLocal` | js/core/utils.js:12-17 | the stamp splits on '-' into the year, the padded 1-based month and the padded day; for four-digit years it has the YYYY-MM-DD shape and its fields read back as the date's |
| `Utils.FormatTimeLocal` | js/core/utils.js:19-21 | five characters HH:MM whose fields read back as the hours and minutes |
| `Utils.FormatDisplayDate` | js/core/utils.js:23-31 | a falsy value has no date; a string's '-' parts are reordered day/month/year, a missing part rendering "undefined"; any other value is an invalid date |
| `Utils.DisplayOfLocalDate` | js/core/utils.js:12-31 | a local date stamp is redisplayed as padded day/padded month/year, DD/MM/YYYY for four-digit years |
| `Utils.GetPendingVentas` | js/core/utils.js:33-41 | no key or an unreadable entry gives the empty queue |
| `Utils.SavePendingVentas` | js/core/utils.js:43-49 | a successful write reads back as the list written; a failed write changes nothing; other keys are untouched |
| `Utils.SaveOverwrites` | js/core/utils.js:43-49 | the store holds one whole list: a later write replaces an earlier one |
| `Api.EncodeUriComponent` | js/core/api.js:38 | the encoding is made only of unreserved characters and `%` escapes each followed by two hex digits |
| `Api.DecodeEncodeAscii` | js/core/api.js:38 | decoding the encoding of an ASCII text gives the text back |
| `Api.DateParam` | js/core/api.js:41 | a falsy date renders as "", a non-empty string as itself |
| `Api.QueryParams` | js/core/api.js:38-42 | always `target=`; both dates when either is given, else none |
| `Api.QueryParameters` | js/core/api.js:37-42 | the query after the base splits on '&' back into exactly those parameters, `target` first, and the target decodes back when ASCII |
| `Api.FetchWithTimeout` | js/core/api.js:9-35 | success exactly when the response is ok, declares JSON and parses; a non-ok status is an HTTP error; a non-JSON answer carries the first 100 characters of its text (all of it when shorter); timeouts and network failures are errors |
| `Api.NotJsonSnippet` | js/core/api.js:25-28 | the non-JSON error keeps the whole body exactly when it has at most 100 characters; a longer body is cut to its first 100 |
| `Api.ResponseRows` | js/core/api.js:50-52 | usable exactly when the body is truthy and its `data` is an array; otherwise the invalid-format error |
| `Api.EnvelopeRows` | js/core/api.js:50-52 | a body `{..., data: rows}` with an array `data` reads back as exactly those rows, whatever its other fields |
| `Api.PadRow` | js/core/api.js:55-58 | throws exactly for null, undefined or a short string; an array keeps its cells and is filled with "" up to length 8 |
| `Api.PadRowIdempotent` | js/core/api.js:55-58 | padding a padded row changes nothing |
| `Api.PadRows` | js/core/api.js:54-59 | succeeds exactly when every row pads; keeps the row count; every row padded and non-null |
| `Api.FetchVentas` | js/core/api.js:37-60 | fetch errors propagate; a bad shape is the invalid-format error; it succeeds exactly when the fetch succeeds, the shape is right and every row can be padded, and then gives one padded row per row of `data`; a row that cannot be padded is the row type error |
| `Api.SendVentaRequest` | js/core/api.js:62-80 | a POST to the proxy whose body carries the sale and `_uniqueId`, with `X-Request-ID` equal to that id and `Target-URL` the script address |
| `Api.UniqueIdParts` | js/core/api.js:65 | the unique id splits on '-' into the millisecond stamp and the random part |
| `Api.CheckConnection` | js/core/api.js:82-93 | true exactly when the probe fetch succeeded; timeouts and network failures give false, never a throw |
| `Api.ProbeAgreesWithList` | js/core/api.js:46-93 | given the same request outcome, the probe fails exactly when the list fetch fails for a reason other than the shape of its rows |
| `Registros.CellIsoDate` | js/sections/registros.js:92-129 | null dates are dropped; DD/MM/YYYY becomes YYYY-MM-DD; YYYY-MM-DD passes through |
| `Registros.DisplayBranch` | js/sections/registros.js:110-113 | the split-and-pad branch computes the YYYY-MM-DD rewriting, and no string has both date shapes |
| `Registros.DisplayIsoRoundTrip` | js/sections/registros.js:110-113 | the rewriting of DD/MM/YYYY gives an ISO date that converts back to the original |
| `Registros.FilterRowsByDate` | js/sections/registros.js:91-133 | throws exactly when some row is null; otherwise the row-by-row filter equals one `Filter` pass with the date condition `DateKeeps` |
| `Registros.DateFilterKeeps` | js/sections/registros.js:91-133 | when the filter does not throw, each row occurs in the result exactly as often as in the input if its date is in range and not at all otherwise, in input order |
| `Registros.FiltrarPorFechaEnFrontend` | js/sections/registros.js:84-134 | non-arrays give no rows; for arrays, throws exactly when some row is null, and otherwise keeps every copy of each row whose date is in range, in order, and nothing else |
| `Registros.DisplayAndIsoFilterAlike` | js/sections/registros.js:109-117 | a DD/MM/YYYY date and its YYYY-MM-DD form are kept or dropped alike |
| `Registros.IsoOrderIsCalendarOrder` | js/sections/registros.js:132 | on YYYY-MM-DD strings the string comparison is calendar order by year, month, day |
| `Registros.FormatDate` | js/sections/registros.js:136-160 | falsy gives "-"; DD/MM/YYYY is unchanged; a calendar YYYY-MM-DD from year 1000 becomes a DD/MM/YYYY that converts back to it |
| `Registros.IsoDisplayRoundTrip` | js/sections/registros.js:146-159 | reordering YYYY-MM-DD as DD/MM/YYYY converts back to the original |
| `Registros.CalendarYearText` | js/sections/registros.js:150-159 | a year from 1000 up is printed back exactly as it was read |
| `Registros.FormatDateAgreesWithDisplay` | js/sections/registros.js:146-159 | for calendar dates from year 1000 the records view and the sales view display the same string |
| `Registros.FormatTime` | js/sections/registros.js:162-168 | falsy gives "-"; HH:MM:SS is unchanged; anything else goes to the engine |
| `Registros.MapRow` | js/sections/registros.js:218-228 | a null row throws; otherwise columns 0-5 are kept, date and time formatted, and settlement is the cell or "No" when falsy, so never falsy |
| `Registros.PaddedRowTime` | js/sections/registros.js:162-168 | through the list fetch's padding and the row mapping, a row too short to hold a time shows "-", and an HH:MM:SS time is shown as sent |
| `Registros.MapRows` | js/sections/registros.js:218-228 | succeeds exactly when no row is null, with one record per row |
| `Registros.MapRowsPointwise` | js/sections/registros.js:218-228 | record k of a successful mapping is the mapping of row k, so order is kept |
| `Registros.AplicarFiltrosLocales` | js/sections/registros.js:362-382 | page 1; the result is one `Filter` pass with both conditions: each record occurs exactly as often as in the records if it passes both filters and not at all otherwise, in order; with no filters, all records |
| `Registros.TwoPassesOnePass` | js/sections/registros.js:363-375 | the product pass followed by the state pass, each skipped when its filter is empty, equals one pass with `MatchesFilters` |
| `Registros.FiltersKeepMatching` | js/sections/registros.js:363-375 | the two passes keep an order-preserving subsequence of the records holding every record that matches both filters and only those |
| `Registros.ToggleProducto` | js/sections/registros.js:60-78 | a selected product is removed; a new one is added only below 3; at the cap, a warning and no change; the set never exceeds 3 |
| `Registros.ToggleProductoTwice` | js/sections/registros.js:60-71 | adding a product and clicking it again restores the filters |
| `Registros.ToggleEstado` | js/sections/registros.js:72-78 | the active state clears to ''; any other value becomes the state; products untouched; filters re-applied |
| `Registros.ToggleEstadoTwice` | js/sections/registros.js:72-78 | clicking one state entry twice re-applies the original filters exactly when no state, or that same state, was selected before |
| `Registros.OnFilterClick` | js/sections/registros.js:54-79 | product clicks toggle the product, state clicks toggle the state, other entries only re-apply the filters |
| `Registros.RemoveChip` | js/sections/registros.js:425-431 | a product chip drops that product, a state chip clears the state, then the filters apply |
| `Registros.ChipUndoesClick` | js/sections/registros.js:54-79 | removing the chip of a product just added below the cap, or of a state picked when none was selected, gives back the view with the original filters applied |
| `Registros.LimpiarFiltros` | js/sections/registros.js:243-259 | no records, no change; otherwise dates and filters cleared, all records shown, page 1 |
| `Registros.LimpiarIsApplyingNoFilter` | js/sections/registros.js:243-259 | clearing shows exactly what applying no filter shows |
| `Registros.PageRows` | js/sections/registros.js:261-266 | at most 10 rows: the slice from (p-1)*10 to p*10, clamped to the list |
| `Registros.TotalPages` | js/sections/registros.js:294 | zero exactly for no records; otherwise the least page count that holds them all |
| `Registros.PagesCoverRecords` | js/sections/registros.js:264-266 | every record is on exactly one page in range, at position k % 10 of page k / 10 + 1 |
| `Registros.PaginationControls` | js/sections/registros.js:293-299 | previous disabled exactly on page 1 or below; next disabled exactly when no record lies beyond the page |
| `Registros.CambiarPagina` | js/sections/registros.js:315-323 | with records the page stays in 1..total and moves by delta when that stays in range; with none it is 0 |
| `Registros.CsvHeaderColumns` | js/sections/registros.js:331-333 | the header line has eight columns and no line break |
| `Registros.CsvCells` | js/sections/registros.js:334-344 | a line exists exactly when product, reference and description (default "") are strings; eight cells, the three text cells quoted |
| `Registros.ReadQuotedFieldsJoin` | js/sections/registros.js:337-339 | quoted fields joined by commas read back as exactly those fields, whatever quotes or commas they hold |
| `Registros.CsvRowReadBack` | js/sections/registros.js:335-344 | after an id with no comma, a CSV line's three quoted fields read back as product, reference and description |
| `Registros.ExportToCSV` | js/sections/registros.js:325-348 | nothing to export gives the warning; a record with a non-string text field throws; otherwise the header line, a line break, and the records' lines (one per record) joined by line breaks |
| `Registros.ExportLines` | js/sections/registros.js:332-348 | without line breaks in the data the text splits into the header and one line per record in order |
| `Registros.FiltrarRegistros` | js/sections/registros.js:195-241 | no start date, only a warning; otherwise the list is requested for start to end-or-start; a failed fetch or null row keeps the view with an error alert; else the rows become the records and the filters apply |
| `Registros.SearchQuery` | js/sections/registros.js:196-211 | the search query carries the start date and the end date, or the start date again when the end is blank |
| `Registros.SearchSettlementDefault` | js/sections/registros.js:227 | after a search every record's settlement is truthy |
| `App.CheckConnection` | js/app.js:94-109 | a resolved probe sets the flag, with the reconnection notice exactly on offline to online; a rejection takes an online shell offline with one warning; the flag is returned |
| `App.GoingOfflineIsSilent` | js/app.js:96-101 | with the gateway's probe, going offline raises no notice |
| `App.NoticesCountRises` | js/app.js:97-101 | over a run of probes, one reconnection notice per offline-to-online change and no other; the flag ends as the last probe said |
| `App.ShowSection` | js/app.js:56-83 | the current section changes to `id` exactly when the page has it; the old section's hide hook fires regardless; the show hook fires only for an existing section with a manager |
| `App.ShowSectionIdempotent` | js/app.js:70-74 | showing a section twice leaves the state as showing it once |
| `App.Init` | js/app.js:34-38 | from the initial online state with no section: probe, then the sales section; a failed probe drops the flag silently, only a rejection warns |
| `App.InitNeverRestores` | js/app.js:34-38 | start-up never raises the reconnection notice; a resolved probe leaves the flag and notices of a one-probe run from the initial state; showing the sales section again changes nothing |

## Left out

- Floating point. Numbers are integers or NaN. Prices, `calcularTotales` sums, `calcularPrecioFinal`'s `toFixed` and `formatCurrency`'s `Intl` formatting are not modelled.
- Ventas.CreateVentaFromForm: `parseFloat` is the parameter `parse`, and its text-to-number rules are not modelled.
- Registros.FormatDate: a YYYY-MM-DD string naming no real day (month 13, 31 April) is rolled over by `Date.UTC`. Here such strings go to the engine parameter `other` instead.
- Registros.FormatTime: the numeric-timestamp, `Date`-parse and loose "H:M:S" branches depend on the local timezone and engine parsing, so they are the parameter `other`.
- Registros.CellIsoDate: cells of neither date shape go through the engine parameter `parse`. `Date` objects cannot arrive in JSON, so that branch takes no input of its own.
- Utils.SavePendingVentas: the store holds the sales themselves. The JSON round trip, in which `JSON.stringify` turns a NaN price into null, is not modelled.
- Utils.GetPendingVentas: a stored text that parses to something other than a list is not distinguished from a list.
- Request outcomes: `fetch`, the `AbortController` timer and `response.json()` are inputs (`Api.Transport`). Timeouts are the `TimedOut` outcome.
- `Date.now()` and `Math.random()`: id, timestamp and `_uniqueId` parts are parameters.
- Record lists. `fetchVentas` resolves to an object `{data: rows}`, while js/sections/ventas.js uses that result as a list of sales (lines 86-92, 124, 258). As written, the merge would call `forEach` on an object and throw, so `loadInitialData` always ends in its error branch. The model takes the server list and the refreshed lists as sales lists (`ServerSales`, `Refreshed`), which is what the code evidently intends. The records view unwraps `data` correctly and is modelled as written.
- Ids: the merge compares ids by value. The `Set` in the source compares object and array ids by identity, but ids are numbers in practice.
- Strings are sequences of code points, not UTF-16 units. Order and `encodeURIComponent` therefore agree with the engine only for text in the Basic Multilingual Plane. Lone surrogates, on which the engine's `encodeURIComponent` throws, are not modelled.
- `Api.PadRow`: objects with a numeric `length` property are treated as having none.
- DOM and presentation: rendering of tables and chips, the loading overlay, focus and form reset, the header title, the alert banner's timing, and the CSV download through a Blob and an anchor.
- Event wiring and the 30-second connection poll: each handler is modelled as one call. Overlapping asynchronous calls (a submit during a retry) are not modelled. The code has no in-flight guard.
- A reconnection does not trigger the pending retry, and the retry has no in-flight guard. The model follows the code: `App.CheckConnection` only sets the flag and raises notices, and the retry runs only from `Ventas.LoadInitialData`.
- `App.ShowSection`: a menu button without `data-target` (a null id) is not modelled.
- Sections and managers other than sales and records (references, settlements) beyond their hook sets in `App.ShowSection`.
