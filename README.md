# Map view dashboard: verified model of its decision logic

The dashboard overlays a choropleth of per-region scores for one metro area
(MSA) with markers for the sites on a monday.com board. This project models the
three pieces of it that make decisions, and proves what they promise:

- **Board fetch and projection** (`MondayLocations.dfy`, from
  `map_view_app/src/monday_locations.py`). `GetMondayLocations` is the cursor
  loop. The first request carries a null cursor. After that, each request carries
  the cursor that the previous page handed out, and the loop stops at the first
  null cursor. The items are accumulated in a sequence. The projection
  (`Project`) turns the items into the `name`/`stage`/`lat`/`lng` columns, and
  each name becomes `stage + ":" + name`. The remote API is the function
  `Respond` over a `Board`, which is either missing or a finite chain of pages.
- **View selection** (`ViewSelection.dfy`, from `create_plot` in
  `map_view_app/src/app.py` and `map_view_app/src/older_version.py`). These are
  pure functions. They cover the sentinel check, MSA selection, span, the
  two-level zoom, the strict open-rectangle filter and the midpoint centre.
  Coordinates are `real`.
- **Module-level state of the two scripts** (`Dashboard.dfy`). It holds the two
  7-entry stage-to-colour tables. `LocationFrame.AssignColour` assigns the
  colour column in place, and a stage missing from the table gets a missing
  colour (`None`). `MsaOptions` gives the sorted, duplicate-free dropdown
  options.

`StringOrder.dfy` models Python's ordering on `str`, which `sorted` uses.
`Wrappers.dfy` holds `Option` and `Result`.

One behaviour is modelled as the code has it rather than as one might expect:

- A board that exists but has no items might be expected to give an empty
  table. In the code, `zip(*[])` cannot be unpacked into four names and raises
  (monday_locations.py:38-41). The model gives `Failure(NothingToUnpack)`.

## Model

| member | source | states |
|---|---|---|
| `MondayLocations.GetMondayLocations` | map_view_app/src/monday_locations.py:5-54 | A missing board gives the empty frame after exactly one request, which carries a null cursor. For an existing board, the result is the projection of all pages' items concatenated in request order. The number of requests equals the number of pages, which is 1 + the number of non-null cursors. Request k (k ≥ 1) carries exactly the non-null cursor of page k-1. The loop terminates. |
| `MondayLocations.NextRequestGetsNextPage` | map_view_app/src/monday_locations.py:29-35 | On a valid board, every page except the last hands out a cursor. Sending that cursor returns the following page. |
| `MondayLocations.FlattenAppend` | map_view_app/src/monday_locations.py:34 | Accumulating two runs of pages gives the first run's items followed by the second run's. |
| `MondayLocations.FlattenAt` | map_view_app/src/monday_locations.py:24-35 | Item i of page k sits at position (items of pages before k) + i. Pages keep their order, and each page's items stay contiguous and in order. |
| `MondayLocations.NonNullCursorsOfValid` | map_view_app/src/monday_locations.py:29 | A run of n pages that all hand out a cursor contributes n non-null cursors. |
| `MondayLocations.RequestsOfValidBoard` | map_view_app/src/monday_locations.py:25-35 | A board with p pages hands out p - 1 non-null cursors. So the request count is 1 + the number of non-null cursors. |
| `MondayLocations.ExtractRows` | map_view_app/src/monday_locations.py:38-41 | The comprehension succeeds iff every item has a status value and a location value. Row i then holds item i's name, first status text and first location's lat/lng. Otherwise the error names the first unreadable item. The status is read before the location. |
| `MondayLocations.Labels` | map_view_app/src/monday_locations.py:44 | The label list has the length of the stage list, and label i is `stage[i] + ":" + name[i]`. |
| `MondayLocations.Project` | map_view_app/src/monday_locations.py:38-52 | No items gives `NothingToUnpack`. The result is a table exactly when there are items and all of them are readable. All four columns then have length equal to the number of items. Position i of `stage`, `lat` and `lng` comes from item i, and `name[i] == stage[i] + ":" + rawName[i]`. Otherwise the error names the first unreadable item. |
| `ViewSelection.Select` | map_view_app/src/older_version.py:42-48 | Boolean-mask selection keeps exactly the rows satisfying the mask, each as many times as it occurs in the input (equal multisets restricted to the mask). The result is an order-preserving subsequence of the input and is no longer than it. |
| `ViewSelection.SelectRegions` | map_view_app/src/older_version.py:42 | The selected regions are exactly those whose msa equals the chosen value, in table order, with duplicate rows kept as often as they occur. With no value chosen, none are selected. |
| `ViewSelection.Span` | map_view_app/src/app.py:47 | The span is ≥ both the latitude range and the longitude range, and equals one of them. |
| `ViewSelection.Zoom` | map_view_app/src/app.py:49 | The zoom is always 8 or 9. It is 8 iff span > 0.5, so a span of exactly 0.5 gives 9. |
| `ViewSelection.ZoomMonotone` | map_view_app/src/app.py:49 | A wider span never gives a higher (closer) zoom. |
| `ViewSelection.ZoomOfBounds` | map_view_app/src/older_version.py:44-46 | The zoom is 8 iff the latitude range or the longitude range exceeds 0.5. |
| `ViewSelection.FilterPoints` | map_view_app/src/older_version.py:48 | Every kept point satisfies minLon < lon < maxLon and minLat < lat < maxLat. Every input point strictly inside is kept, as many times as it occurs. The kept points are an order-preserving subsequence of the input and are no more numerous than it. |
| `ViewSelection.BoundaryPointsDropped` | map_view_app/src/app.py:51 | No kept point lies on any edge of the box. |
| `ViewSelection.CentreOf` | map_view_app/src/app.py:58 | The centre is equidistant from both bounds on each axis (the per-axis midpoint). It lies within the bounds whenever min ≤ max. |
| `ViewSelection.CreatePlot` | map_view_app/src/app.py:42-58 | No figure is drawn iff the value is the sentinel `-- Select MSA --`. Otherwise the figure's regions are exactly those of the chosen MSA, in order and with their multiplicities. With an envelope, the zoom is 8 iff a range exceeds 0.5 (else 9), the centre is the midpoint, and the markers are exactly the points strictly inside, in order and with their multiplicities. Without one (an empty selection, NaN bounds), the zoom is 9, there is no centre and no marker. |
| `ViewSelection.NewYorkScenario` | map_view_app/src/older_version.py:39-55 | Take an envelope of (-74.2, 40.5, -73.7, 40.9). Its span is 0.5, so the zoom is 9. The site at (40.7, -73.9) is kept and the one at (40.7, -75.0) is dropped. The two NYC regions are selected and the centre is (40.7, -73.95). |
| `Dashboard.AppColourTable` | map_view_app/src/app.py:9-15 | Each of the 7 stages maps to its listed rgb string. Every other stage maps to missing. |
| `Dashboard.OlderColourTable` | map_view_app/src/older_version.py:9-15 | Each of the 7 stages maps to its listed rgb string in the older table (e.g. Churned → `rgb(255, 0, 0)`). Every other stage maps to missing. |
| `Dashboard.TablesRecolourEveryStage` | map_view_app/src/older_version.py:8-15 | The two tables have the same 7 keys and give every stage a different colour. |
| `Dashboard.StageColour` | map_view_app/src/app.py:22 | One value of `Series.map(cmap)`: a stage in the table gets its colour, and any other stage gets a missing value, not an error. |
| `Dashboard.ColourColumn` | map_view_app/src/app.py:22 | The colour column has one entry per row. Entry i is present iff stage i is in the table, and it is then that stage's colour. |
| `Dashboard.SameMissingColours` | map_view_app/src/older_version.py:20 | Both versions leave the colour missing at exactly the same rows. |
| `Dashboard.LocationFrame.constructor` | map_view_app/src/older_version.py:19 | A frame holds four equally long columns and no colour column yet. |
| `Dashboard.LocationFrame.AssignColour` | map_view_app/src/older_version.py:20 | Afterwards the colour column is the stage column mapped through the table. The other columns are unchanged. |
| `Dashboard.LocationFrame.MarkersCarryStageColour` | map_view_app/src/older_version.py:20-48 | After the colour column is assigned from a table, every marker the view draws from the frame's rows carries its own stage's colour from that table (or missing). |
| `Dashboard.Insert` | map_view_app/src/app.py:24 | Inserting into a strictly sorted list keeps it strictly sorted and adds exactly the new element, unless it is already present. |
| `Dashboard.SortedUnique` | map_view_app/src/app.py:24 | The result is strictly increasing and has exactly the elements of the input. |
| `Dashboard.MsaOptions` | map_view_app/src/app.py:24 | The options are strictly increasing and are exactly the MSAs present in the geometry table. There are no more of them than regions. |
| `Dashboard.OptionsAreDistinct` | map_view_app/src/older_version.py:21 | No MSA is offered twice. |
| `Dashboard.OptionsIgnoreRegionOrder` | map_view_app/src/app.py:24 | Two geometry tables with the same set of MSAs give the same options, whatever the order or multiplicity of their rows. |
| `StringOrder.Less` | map_view_app/src/app.py:24 | Python's `<` on `str`, as `sorted` uses it: the first differing character decides, and a proper prefix comes first. |
| `StringOrder.LessIrreflexive` | map_view_app/src/app.py:24 | No string is below itself. |
| `StringOrder.StrictlySortedUnique` | map_view_app/src/app.py:24 | A strictly sorted list of strings is determined by its set of elements. |
| `StringOrder.LessTransitive` | map_view_app/src/app.py:24 | Python's string order is transitive. |
| `StringOrder.LessTotal` | map_view_app/src/app.py:24 | Any two distinct strings are ordered one way or the other. |

## Left out

- HTTP and JSON (monday_locations.py:6-7, 14-17, 31-33). `Respond` takes the place of the POST and its decoded answer. The API key, the headers and the endpoint are not modelled.
- MondayLocations.GetMondayLocations: requires `ValidBoard`. This is the API's promise that the pages form a finite chain with distinct cursors and a null cursor at the end. The loop only terminates under that promise. A server that breaks it makes the source loop forever or fail at `['boards'][0]`, and the model does not cover either outcome.
- The 500-item page limit (monday_locations.py:10). It is a promise of the server, not behaviour of the code.
- Missing `name`, `text`, `lat` or `lng` keys, and null values in them. Only an empty status list or an empty location list (the `[0]` index failing) is modelled as an error.
- The `print` of the board-not-found message (monday_locations.py:21). It is output only.
- Credential lookup (monday_api_connection.py). It branches on the platform and calls a secrets manager, which are foreign calls.
- The Postgres loader (geospatial_data.py), and the parquet and CSV reads (app.py:18, older_version.py:18-19). These are I/O. The `LocationFrame` constructor stands for the CSV read.
- The envelope of the selected geometries (app.py:46, older_version.py:43). It is a geometry library call, so `CreatePlot` takes the bounds as an input.
- ViewSelection.CreatePlot: for an empty selection (the dropdown's initial `None`, or an MSA with no region) the envelope has no bounds. The model takes the four NaN bounds that current geometry libraries give, so every comparison is false: zoom 9, no markers, and a NaN centre shown as `None`. Older libraries give an empty bounds tuple instead, and the four-way unpack at app.py:46 raises; that outcome is not modelled. Nothing ties the `envelope` argument to the selected regions' geometry. Polygons are not modelled, and the choropleth's attribute is reduced to `geoscore`.
- Dash layout, callback wiring, `run_server`, and the Plotly choropleth and scatter rendering. These are UI. `Figure` records only the data passed to them.
- IEEE float rounding. Coordinates are `real`, so the comparisons and midpoints are exact.
- The undefined name `r` at app.py:51. It is not reproduced: the filter runs over records with a `lon` field, as in older_version.py:48.
- The `lng` column that monday_locations.py:51 produces against the `lon` that the filter reads. The model does not reproduce this mismatch either.
- app.py:21-22 on a missing board. Indexing `stage` of the column-less frame raises. The model does not join the fetched table to the colour assignment; `LocationFrame` is built from columns.
