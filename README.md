# Delivery price calculator core, modelled in Dafny

The source is a single-page tool (`app.py`). Given a destination address, it
geocodes the address and asks a truck-routing service for a path. It prices the
distance from a banded tariff, formats the trip duration, and logs a record of
the calculation to a CSV file and a remote worksheet. This project models the
deterministic core of that page and proves properties of it:

- **Tariff** (`tariff.dfy`): `compute_tariff` over an explicit `TariffTable`.
  The source keeps this table in module globals that it reassigns from the
  sidebar. There are four inclusive bands, tried in ascending order, and the
  first one that matches wins. Beyond zone 4 the price is zone 4's price plus
  the rate times the distance past the **zone 2** breakpoint. The map legend
  (`app.py:170`) also says "extra from zone 2 km", so this base is kept as
  written.
- **Duration** (`duration.dfy`): `human_duration` over `nat`. Two divmods by 60
  give hours, minutes and seconds, rendered as `"Hh Mm Ss"`, `"Mm Ss"` or
  `"Ss"`. Its partner is a reader for those strings. Reading the output back
  gives the original number of seconds.
- **Geocode** (`geocode.dfy`): the query `q` is composed from the address, the
  postal code and the city. The answer is selected from the provider's decoded
  JSON body (`json.dfy`): the first item, the access point field by field with
  the position as fallback, and the title with the address as fallback.
- **Route** (`route.dfy`): the first route's first section, its summary, and
  its polyline. The polyline decoder is a function parameter that may fail.
- **Record** (`record.dfy`): the 29-name column list and the projection of a
  record onto it, with `""` for missing fields.
- **CSV sink** (`csv_log.dfy`): a `CsvFile` object (an existence flag and its
  rows). `LogToCsv` appends the header only when the file did not exist before
  the call, then one data row.
- **Worksheet sink** (`sheet_log.dfy`): a `Spreadsheet` object (worksheet name
  to rows). `AppendToGsheet` creates a missing worksheet with the header, adds
  the header when row 1 reads back empty, then appends the data row.

The following are function parameters, because the page gets them from outside:
the HTTP answers of both services (a status code plus a decoded `Json` body),
the request function used by `GeocodeAddress`, and the polyline decoder.

Three details of the source that the model keeps:

- The record schema has 29 columns (`app.py:64-73`).
- An access point missing `lat` or `lng` falls back to the position for that
  field only (`app.py:94-95`).
- A missing title defaults to the typed `address`, not to `q` (`app.py:98`).

Python's `KeyError`, `TypeError`, `IndexError` and `AttributeError` on a body
of the wrong shape all end in the page's generic error message. The model
reports all of them as one `Malformed` error.

## Model

| member | source | states |
|---|---|---|
| `Tariff.ComputeTariff` | app.py:131-142 | At any distance up to the zone 4 breakpoint, the price is one of the four flat prices. |
| `Tariff.ZoneOf` | app.py:131-139 | The band is the first zone whose inclusive breakpoint the distance does not exceed, or "beyond zone 4" when it exceeds all four. |
| `Tariff.ZoneOfUnique` | app.py:131-139 | That first-match characterisation determines the band. |
| `Tariff.TariffIsPriceOfZone` | app.py:131-142 | First match wins: the price is the flat price of the distance's band, or the overage beyond all bands, for any table, ordered or not. |
| `Tariff.OverageExactlyBeyondAllZones` | app.py:140-142 | The overage applies exactly when the distance exceeds all four breakpoints, and it is then zone 4's price plus (d − zone 2 km) × rate. |
| `Tariff.AscendingBands` | app.py:131-142 | With ascending breakpoints, each band is the interval (z(i−1), z(i)], inclusive at the top, and above z4 the overage applies. |
| `Tariff.ShadowedZoneNeverSelected` | app.py:131-139 | A zone whose breakpoint is not above an earlier zone's is never selected. Out-of-order breakpoints silently shadow later bands. |
| `Tariff.TariffMonotone` | app.py:131-142 | With ascending breakpoints, non-decreasing prices and a non-negative rate, a longer distance never costs less. |
| `Tariff.OverageMonotone` | app.py:140-142 | The overage grows with the distance, and equals zone 4's price at the zone 2 breakpoint. |
| `Tariff.DefaultTableExamples` | app.py:44-53 | With the default table: 25 km costs 90, each breakpoint keeps its own band's price, and 20.5 km costs 85.5. |
| `Duration.NatToString` | app.py:147-149 | The decimal rendering of an int has only digits, and a leading zero only for zero itself. |
| `Duration.DigitsValueOfNatToString` | app.py:147-149 | The rendered digits denote the number. |
| `Duration.Decompose` | app.py:145-146 | The two divmods give h, m, s with h·3600 + m·60 + s = n, m < 60 and s < 60. |
| `Duration.DecomposeUnique` | app.py:145-146 | Those are the only h, m, s with minutes and seconds below 60. |
| `Duration.HumanDuration` | app.py:144-149 | The text always ends with the seconds field. |
| `Duration.HumanDurationUnits` | app.py:147-149 | An hours field appears exactly when n ≥ 3600, and a minutes field exactly when n ≥ 60. |
| `Duration.HumanDurationRoundTrip` | app.py:144-149 | Reading the formatted duration back gives n. |
| `Duration.RenderParses` | app.py:147-149 | Each of the three shapes reads back as h·3600 + m·60 + s. |
| `Duration.HumanDurationExamples` | app.py:144-149 | 45 → "45s", 125 → "2m 5s", 3725 → "1h 2m 5s", 3600 → "1h 0m 0s". |
| `Geocode.GeocodeQuery` | app.py:77-81 | The address is a prefix of `q`. The length of `q` adds 2 + the length of each optional part that is present and non-empty. |
| `Geocode.QueryIsJoin` | app.py:77-81 | For every input, `q` is the address, then ", " + postal code when it is present and non-empty, then ", " + city when it is present and non-empty. |
| `Geocode.QueryComponents` | app.py:77-81 | When the postal code and city hold no comma, splitting `q` on commas gives the address's own pieces (commas in the address are allowed), then the postal code, then the city, each present part once and in that order. With a comma-free address, the pieces are exactly the present parts. |
| `Geocode.SplitAppend` | app.py:77-81 | Splitting `x + "," + y` on commas gives the pieces of `x` followed by the pieces of `y`. |
| `Geocode.SplitJoin` | app.py:77-81 | Splitting on commas undoes joining with commas when no part holds one. |
| `Geocode.SelectGeocode` | app.py:84-89 | A non-200 status, and only that, is a transport error. On a 200 object body, a missing or empty `items` is `NotFound`, exactly then. |
| `Geocode.SelectItem` | app.py:89-99 | An item can fail only as malformed. |
| `Geocode.GeocodeAddress` | app.py:75-99 | The status of the one request, made for the composed query, decides the transport error. |
| `Geocode.FirstItemOnly` | app.py:87-89 | Only `items[0]` matters. The items after it and the rest of the body never change the answer. |
| `Geocode.ItemAccepted` | app.py:89-98 | An item is accepted exactly when it has a position with `lat` and `lng`, and its access list is absent, empty or starts with an object. The position is then returned unchanged, and the title is the item's own title or, when it has none, the input address. |
| `Geocode.AccessFallsBackToPosition` | app.py:92-97 | With no access list, or an empty one, the access point equals the position. |
| `Geocode.AccessFieldByField` | app.py:92-97 | With a non-empty access list, each of `lat` and `lng` comes from `access[0]` when present, and from the position otherwise. |
| `Geocode.TitleDefaultsToAddress` | app.py:98 | For any accepted item without a title, whatever its access list, the whole call returns the input address as the title, not the composed query. |
| `Route.DecodePoly` | app.py:101-105 | A decoder failure is `InvalidPolyline`, and is one only then. Otherwise the decoded points are returned. |
| `Route.SelectRoute` | app.py:117-123 | A non-200 status, and only that, is a transport error. On a 200 object body, a missing or empty `routes` is `NoRoute`, exactly then. |
| `Route.SelectSection` | app.py:123-129 | A first route can fail only as malformed or as an invalid polyline. |
| `Route.FirstRouteFirstSection` | app.py:121-123 | Only `routes[0].sections[0]` matters. Later routes and later sections never change the answer. |
| `Route.SectionFields` | app.py:123-129 | From a well-formed section, the length and duration come from its summary and the points from its decoded polyline. A decoder failure gives `InvalidPolyline` instead of a result. |
| `Route.MalformedBeforeDecoding` | app.py:123-128 | An empty `sections` list is malformed, not `NoRoute`. A section without a polyline is malformed before any decoding. |
| `Record.Project` | app.py:192 | One value per column, in column order: the record's value, or `""` when the record lacks the field. |
| `Record.FieldNamesDistinct` | app.py:64-73 | The 29 column names are pairwise distinct. |
| `Record.ReadRow` | app.py:189-193 | A row read back against a header has exactly the header's names as keys. |
| `Record.ReadRowAt` | app.py:189-193 | Against a header of distinct names, each name reads back the value in its own column. |
| `Record.ProjectReadBack` | app.py:189-193 | Reading a written data row back against the header gives every column's value or `""`, and no other key. |
| `Record.ProjectEqualIff` | app.py:192 | Two records give the same data row exactly when they agree (with `""` for missing) on every column. |
| `Record.ProjectIgnoresOtherKeys` | app.py:192 | Keys outside the column list are dropped. |
| `CsvLog.CsvFile.LogToCsv` | app.py:185-193 | The file exists afterwards. Its rows are the old rows, then the header if and only if the file did not exist, then the record's data row. |
| `CsvLog.LogAppendsOnly` | app.py:187-193 | Earlier rows are a prefix of the new ones. One row is added (two on a fresh file, the first being the header), and the last row is the data row. |
| `CsvLog.LogAllToMissingFile` | app.py:185-193 | Logging n records to a missing path gives the header once, then the n data rows in order. |
| `CsvLog.LogAllToExistingFile` | app.py:187-193 | On an existing file each call adds only its data row, never a header. |
| `CsvLog.LogTwiceToMissingFile` | app.py:185-193 | Two calls on a fresh path leave the header plus two data rows. |
| `SheetLog.TrimTrailingEmpty` | app.py:214 | Reading a row back drops only its trailing empty cells. |
| `SheetLog.TrimmedEmptyIffBlank` | app.py:214-215 | A row reads back as empty exactly when all its cells are empty. |
| `SheetLog.Spreadsheet.HasWorksheet` | app.py:208-210 | The lookup succeeds exactly when a worksheet of that name exists. |
| `SheetLog.Spreadsheet.AddWorksheet` | app.py:211 | Creates an empty worksheet and changes nothing else. |
| `SheetLog.Spreadsheet.RowValues` | app.py:214 | Returns row 1's cells, empty exactly when the row is missing or blank. |
| `SheetLog.Spreadsheet.AppendRow` | app.py:218 | Appends one row after the last one and changes nothing else. |
| `SheetLog.Spreadsheet.OpenOrCreate` | app.py:208-212 | A missing worksheet is created, holding only the header. An existing one is unchanged. |
| `SheetLog.Spreadsheet.EnsureHeader` | app.py:213-216 | The header is appended exactly when row 1 reads back empty. |
| `SheetLog.Spreadsheet.AppendToGsheet` | app.py:205-218 | The worksheet becomes `AfterAppend` of its old rows, or of none if it was missing. Every other worksheet is untouched. |
| `SheetLog.AppendShape` | app.py:208-218 | One call keeps the old rows as a prefix. It adds the header at most once, exactly when the worksheet was missing or row 1 was blank, and ends with the data row. |
| `SheetLog.NewWorksheetGetsHeaderFirst` | app.py:209-212 | A missing or empty worksheet ends with the header in row 1 and the data row in row 2. |
| `SheetLog.AppendAllWithHeader` | app.py:214-218 | Once row 1 holds a header, each later call appends only its data row. |
| `SheetLog.AppendAllToMissingWorksheet` | app.py:208-218 | n calls on a missing worksheet give the header once, then the n data rows in order. |

## Left out

- The page itself (`app.py:220-369`): the sidebar inputs, the result display, and building the record dict from the results. This is presentation. Its checks (missing API key, empty spreadsheet key, default worksheet name) are not modelled.
- The folium map, the zone circles and the legend HTML (`app.py:151-172`): rendering only.
- The HTTP requests themselves: URLs, query parameters other than `q`, the fixed vehicle profile sent to the router, timeouts, and the response text in error messages (`app.py:82-85`, `108-119`). A non-200 status is modelled as an error carrying the status.
- Decoding the response body as JSON (`r.json()`): the body arrives already decoded. A body that is not JSON is not modelled.
- `pl.decode` (`app.py:103`): a foreign library call whose body is not shown. It is the `Decoder` parameter, which may fail.
- The API key, service-account credentials, client authorisation and `open_by_key` (`app.py:19-38`, `195-207`): external configuration and services.
- Directory creation, file modes and the UTF-8 byte-order mark (`app.py:180-188`). The CSV file is modelled as an existence flag plus rows. Quoting and escaping of CSV cells are not modelled.
- The worksheet cell-value interpretation (`RAW` versus `USER_ENTERED`) and the grid size given to `add_worksheet`. Those belong to the remote service.
- SheetLog.Spreadsheet.AppendRow: models appending as "after the last stored row". The remote service appends after the last non-empty table row, so when a worksheet's rows are all blank the two positions can differ.
- Failures of the sinks themselves: `LogToCsv` and `AppendToGsheet` always succeed in the model. In the source, `open` (`app.py:188`) and the remote worksheet calls (`app.py:209-218`) can raise, and the page turns that into a warning (`app.py:336-337`, `349-350`). Those I/O and service errors are outside the model.
- `madrid_now_iso` (`app.py:174-178`): depends on the clock and the time zone.
- Float arithmetic: distances, prices and rates are exact `real`s. The rounding of distance and price to two decimals, the `int()`/`float()` casts of the sidebar values (`app.py:267-268`, `294`, `312`), and the text rendering of non-string record values are not modelled. Record values are taken as already rendered text.
- Duration.HumanDuration: takes a `nat`. The source's `int()` truncation of a fractional duration, and Python's floor divmod for a negative one, are not modelled.
- Route.SelectRoute and Geocode.SelectGeocode: these return the provider's coordinate, length, duration and title values unchanged, as `Json`, and do not check their types. The source does not check them either.
