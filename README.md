# CMS formulary fetch: a Dafny model

This project models three parts of a small tool that fetches Medicare
prescription-drug formulary records from the CMS data API:

- **Request URL builder.** `fetch_formulary_data` requests
  `https://data.cms.gov/data-api/v1/dataset/<dataset id>/data`. It adds
  `size` and then `offset` as query parameters, each only when it is given.
  The query string is added only when at least one parameter is present.
  The model also covers the outcome of a request: the server is a parameter,
  and every kind of failure ends the process with status 1.
- **CSV header and rows** (`export_to_csv`). An empty record list exports
  nothing. Otherwise the header is the sorted union of the field names of all
  records, followed by one row per record in input order. A field a record
  lacks gets an empty cell.
- **Florida MAPD batch** (`fetch_florida_mapd.main`). For each organisation
  in a fixed list, the batch requests pages of 1000 records at offsets 0,
  1000, 2000, and so on. It keeps what the local filter matches, and it stops
  on an empty page, on a short page, or once the offset reaches 5000. It then
  exports the combined matches once, as CSV, when there are any.

Modules:

- `Wrappers` holds `Option`.
- `Text` holds decimal rendering and parsing, the code-point order Python
  uses to sort strings, and split/join.
- `FormularyFetch` models `formulary_fetch.py`.
- `FetchFloridaMapd` models `fetch_florida_mapd.py`.

The server is a function from request URL to `Response`. The batch's page at
offset `o` is therefore the answer to `RequestUrl(Some(1000), Some(o))`.
`filter_local` is an uninterpreted parameter. It either returns its matches
or raises an ordinary exception. Its definition is not part of this model.

**A failed fetch aborts the whole batch.** The per-organisation handler
(`fetch_florida_mapd.py:75-77`) prints "Error fetching data for {org}" and
moves on to the next organisation, so it was evidently written to catch fetch
errors. It never sees them. A failed fetch calls `sys.exit(1)`
(`formulary_fetch.py:55`, `:58` and `:61`), and the `SystemExit` this raises
is not an `Exception`, so `except Exception` lets it through. The whole batch
then ends and nothing is exported. The model follows the code: a failed fetch
gives `Aborted` and then `BatchAborted` (see `BatchAbortsIffFetchFails`). Only
an ordinary exception, here one raised by the filter, skips an organisation
(`Skipped`). A skipped organisation contributes nothing, not even the matches
from its earlier pages.

## Model

| member | source | states |
|---|---|---|
| `FormularyFetch.RequestUrl` | formulary_fetch.py:33-43 | Every URL starts with the fixed endpoint. The URL is exactly the bare endpoint, with no `?`, if and only if both `size` and `offset` are absent. |
| `FormularyFetch.RequestUrlShape` | formulary_fetch.py:36-43 | The exact URL for each of the four argument combinations. `size` comes before `offset`, joined by `&`, and each value is rendered in decimal. A value of 0 still appears. |
| `FormularyFetch.RequestUrlRoundTrip` | formulary_fetch.py:36-43 | Decoding a request URL gives back the `(size, offset)` it was built from. Each parameter is present exactly when it was given, with its value, and `size` is before `offset`. |
| `Text.IntRoundTrip` | formulary_fetch.py:43 | The decimal rendering `urlencode` applies to an integer parameter can be parsed back to the same integer, negative values included. |
| `Text.NatToDecimal` | formulary_fetch.py:43 | A non-negative integer renders as a non-empty string of digits with no leading zero. |
| `FormularyFetch.FetchFormularyData` | formulary_fetch.py:45-61 | A request yields the records of the server's response to `RequestUrl(size, offset)` when that response is a body. An HTTP error, a URL error or any other failure ends the process with status 1. |
| `FormularyFetch.UnionKeysMembership` | formulary_fetch.py:77-79 | A field name is in the accumulated `fieldnames` set if and only if some record has that field. |
| `FormularyFetch.InsertSorted` | formulary_fetch.py:80 | Inserting a name into a strictly ascending list keeps it strictly ascending, and its elements become the old ones plus the new name. |
| `FormularyFetch.SortedStrings` | formulary_fetch.py:80 | `sorted(fieldnames)` is strictly ascending in code-point order and holds exactly the names of the set. |
| `FormularyFetch.SortedUnique` | formulary_fetch.py:80 | Only one strictly ascending sequence has a given set of names, so the header is fully determined by the records. |
| `FormularyFetch.Row` | formulary_fetch.py:89-91 | A row has one cell per header column. Each cell is the record's value for that column, or `""` when the record lacks the field. |
| `FormularyFetch.ExportToCsv` | formulary_fetch.py:64-94 | An empty record list exports nothing. Otherwise the export has a strictly ascending header equal to the union of all field names, and exactly one row per record, in input order. |
| `FormularyFetch.HeaderIsKeyUnion` | formulary_fetch.py:77-80 | A name is in the exported header if and only if some record has that field, so every record's fields fit the header. |
| `FormularyFetch.RowRoundTrip` | formulary_fetch.py:89-91 | Reading a written row back under its header gives every header field. Each value is the record's own value, or `""` when the record lacks the field. |
| `FormularyFetch.CsvRoundTrip` | formulary_fetch.py:76-91 | Reading back the i-th row of an export gives a record with every header field. It equals the i-th record on each of that record's fields and is `""` on the fields the record lacks. |
| `FetchFloridaMapd.FetchOrganization` | fetch_florida_mapd.py:43-72 | The per-organisation `while True` loop yields the outcome and the requested offsets the reference definition `RunFrom` gives from offset 0, where the page at offset `o` is the fetch of `RequestUrl(Some(1000), Some(o))` (`Pages(server)`). |
| `FetchFloridaMapd.RequestedOffsets` | fetch_florida_mapd.py:45-70 | From offset `o`, the loop requests at least one page. The offsets requested are `o`, `o + 1000`, `o + 2000`, and so on, and all of them are below 5000. |
| `FetchFloridaMapd.AtMostFiveFetches` | fetch_florida_mapd.py:46-70 | An organisation gets between one and five fetches. The i-th fetch is at offset `1000 * i`, which is below 5000. |
| `FetchFloridaMapd.RunTrace` | fetch_florida_mapd.py:49-70 | Every requested page except the last was fetched, had at least 1000 records, was matched by the filter, and was below the cap. The last page does not meet all of these conditions. The run aborts exactly when the last fetch failed, and it is skipped exactly when the filter raised on the last page. |
| `FetchFloridaMapd.CollectedIsConcatenation` | fetch_florida_mapd.py:47-57 | A completed organisation's records are the filter's matches on every non-empty page it fetched, concatenated in fetch order. |
| `FetchFloridaMapd.EmptyPageStops` | fetch_florida_mapd.py:52-53 | An empty page ends the run with nothing collected, whatever the filter does, so the filter is never consulted on it. |
| `FetchFloridaMapd.ShortPageStops` | fetch_florida_mapd.py:56-63 | A non-empty page shorter than 1000 has its matches collected and ends the run after that one fetch. |
| `FetchFloridaMapd.FullPagesReachCap` | fetch_florida_mapd.py:65-70 | When every page is full and matched, the loop requests offsets 0, 1000, 2000, 3000 and 4000, then stops at the cap. |
| `FetchFloridaMapd.ShortPageEndsRun` | fetch_florida_mapd.py:61-65 | Started at page m, when pages m to k-1 are full and matched and page k is short, the run makes exactly one fetch per page from m to k and then stops. For example, from page 0, pages of sizes 1000, 1000 and 400 give three fetches. |
| `FetchFloridaMapd.BatchStep` | fetch_florida_mapd.py:40-77 | One organisation step of the outer loop. A failed fetch aborts the batch. Otherwise the organisation's outcome and contribution are appended, and the rest follows. |
| `FetchFloridaMapd.RunBatch` | fetch_florida_mapd.py:38-88 | The batch runs the organisations in list order and gives the reference outcome `BatchOver`. It exports once, on the combined list, if and only if the batch finished with a non-empty list. The export is the CSV export of that list. |
| `FetchFloridaMapd.BatchAbortsIffFetchFails` | fetch_florida_mapd.py:43-77 | The batch aborts if and only if some organisation's run hits a failed fetch. `SystemExit` is not caught per organisation. |
| `FetchFloridaMapd.FinishedReports` | fetch_florida_mapd.py:40-77 | A finished batch has one report per organisation, in list order, and each report is that organisation's own outcome. Its results concatenate what each report contributes. |
| `FetchFloridaMapd.ContributionInPlace` | fetch_florida_mapd.py:73-77 | Each organisation's contribution sits in the results between the contributions of the organisations before and after it. A skipped organisation contributes nothing, even matches from pages it had already processed. |
| `FetchFloridaMapd.NoDeduplication` | fetch_florida_mapd.py:18-26 | A record collected under two organisations, such as the overlapping aliases `UHC` and `United`, appears at least twice in the combined results. |

## Left out

- The HTTP request itself is not modelled. This covers `urlopen`, the User-Agent header, the 30-second timeout, UTF-8 decoding and `json.loads`. The server is a parameter from URL to response, so the model cannot capture a server that answers the same URL differently at different times.
- A response body that parses to something other than a JSON array is not modelled: a body is always a list of records.
- The diagnostic printing on each exit path and all progress messages on the error stream are left out.
- Field values are strings. A `null` value, which `DictWriter` writes as an empty cell, is not modelled.
- Byte-level CSV quoting and escaping, opening and closing the output file, choosing between a file and standard output, and the fixed output name `florida_mapd_formulary.csv` are left out. These belong to the `csv` library and to I/O.
- An export whose file cannot be opened or written is not modelled.
- The argparse command line and the JSON output through `json.dumps` (`formulary_fetch.py:97-140`) are thin library wrappers and are left out.
- `filter_local` has no semantics here. `formulary_fetch.py` as it stands (lines 1-144) defines no `filter_local`, so the import at `fetch_florida_mapd.py:14` would fail when the module loads. The model assumes some definition exists and takes it as a parameter that either returns its matches or raises; no organisation or state matching rule is stated.
- `SortedStrings` stands for Python's built-in `sorted`. It reaches its result by insertion, whereas the library uses its own algorithm; only the result, a strictly ascending list of the same names, is modelled.
- Only decimal rendering of integer parameters is modelled for `urlencode`. Its percent-encoding of other characters is left out, because both parameters are integers.
