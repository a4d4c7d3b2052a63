# Companies in Spain — a verified model of the record store and the map logic

`spanish_companies.py` is a desktop registry of companies, each tagged with
a sector, a province, an autonomous community (region), coordinates and a
link to its staff page. The companies are stored in an SQLite table
`empresas`. They are listed in a table and plotted on a map of the Spanish
provinces. Clicking the map selects a company or zooms into a province.

This project models the logic underneath the window and proves what it
promises:

- `common.dfy`: SQL cells (`NULL`, text or number) and `Option`.
- `provinces.dfy`: the `PROVINCIAS` reference table (province to region and
  reference coordinates) and the `datos and datos[0]` region lookup.
- `forms.dfy`: Python's `str.strip()`, the form check `_validate` and the
  address `_open_link` hands to the browser.
- `schema.dfy`: the `empresas` table as a set of columns plus rows keyed by
  id, and the startup migration `init_db` as a function on tables.
- `ordering.dfy`: the order `ORDER BY nombre` sorts by (NULL first, then
  numbers, then text by code point).
- `store.dfy`: the database as a class (`Database`) whose methods run the
  startup migration step by step and implement `get_all`, `insert_empresa`,
  `delete_empresa`, `update_empresa` and the add / save / delete buttons.
- `geometry.dfy`: the geodata rows (`NAME_2`, polygon), the
  point-in-province scan `_provincia_en_punto` and the padded zoom box
  `_bbox_provincia`.
- `markers.dfy`: which records become clickable markers under the current
  axis limits, and the nearest-marker scan of a click.
- `mapview.dfy`: the map panel as a class (`MapPanel`) holding the zoom
  (`_zoomed_prov`) and the plotted markers (`_empresa_data`), with
  `_on_map_click`, `_reset_zoom` and the redraw.

The SQLite engine is modelled by its effect on the table. Where SQLite would
reject a statement (a missing table, or a column the statement names that
does not exist), the model's operation leaves the table as it was and returns
`false` or `None`; the program raises an exception there instead (see
"## Left out"). Coordinates are exact
`real` numbers. The geometry library's point-in-polygon test is a parameter
of the geodata.

In these places the code may surprise a reader; the model follows the code:

- `update_empresa` on an id that does not exist changes nothing and reports
  nothing.
- `insert_empresa` returns nothing. The new id is only visible in the table.
- A double-click outside the axes is ignored like any click there, because
  the axes test comes first.
- A province whose `NAME_2` is the empty string is never zoomed into, because
  of the `if prov:` test.

## Model

| member | source | states |
|---|---|---|
| Provinces.Provincias | spanish_companies.py:26-80 | an entry of the table has reference coordinates exactly when it has a region |
| Provinces.RegionFor | spanish_companies.py:170-171 | the lookup gives a region exactly when the name is in `PROVINCIAS` with a non-empty region, and then gives that region |
| Provinces.FormRegion | spanish_companies.py:405-412 | the region field shows the region of the chosen province, and is empty exactly when the lookup gives none |
| Provinces.OnlyOtraHasNoRegion | spanish_companies.py:26-80 | among the names in the table, "Otra" is the only one without a region |
| Provinces.CoordinatesWithRegion | spanish_companies.py:26-80 | an entry has reference coordinates exactly when it has a region |
| Provinces.RegionIsCommunity | spanish_companies.py:26-80 | every region the lookup gives is one of the 19 autonomous communities and cities |
| Provinces.RegionExamples | spanish_companies.py:26-80 | Madrid gives Madrid, Bizkaia gives Pais Vasco, "Otra" and an unknown name give nothing |
| Forms.TrimStart | spanish_companies.py:578 | the result is a suffix of the input, only whitespace is removed, and it does not start with whitespace |
| Forms.TrimEnd | spanish_companies.py:578 | the result is a prefix of the input, only whitespace is removed, and it does not end with whitespace |
| Forms.Strip | spanish_companies.py:578 | `strip()` gives a string no longer than the input with no whitespace at either end |
| Forms.StripHasTrimmedEnds | spanish_companies.py:578 | `strip()` leaves no whitespace at either end |
| Forms.StripIsTrimmedSlice | spanish_companies.py:578 | `strip()` gives the slice of the input between whitespace-only margins |
| Forms.StripEmptyIffAllSpace | spanish_companies.py:578 | `strip()` gives the empty string exactly when the input is all whitespace |
| Forms.StripTrimmed | spanish_companies.py:578 | `strip()` leaves a string without whitespace at its ends unchanged |
| Forms.StripIdempotent | spanish_companies.py:578 | stripping twice is stripping once |
| Forms.Validate | spanish_companies.py:591-598 | a form is accepted exactly when the name and the province are both non-empty; a missing name is reported before a missing province |
| Forms.NormalizeLink | spanish_companies.py:637-644 | nothing is opened exactly when the stripped link is empty; whatever is opened starts with "http" |
| Forms.NormalizeLinkShape | spanish_companies.py:637-644 | a blank link opens nothing; any other link opens an address that starts with "http" and has no whitespace at its ends |
| Forms.NormalizeLinkPrefix | spanish_companies.py:642-643 | "https://" is put before the stripped link exactly when it does not start with "http" |
| Forms.NormalizeLinkIdempotent | spanish_companies.py:638-643 | normalising the opened address again changes nothing |
| Forms.NormalizeLinkPassesBareHost | spanish_companies.py:642 | the bare host "httpbin.org" is opened as it is, with no web scheme |
| Forms.SecurePrefixShape | spanish_companies.py:643 | "https://" before a non-empty trimmed link gives a trimmed address with a web scheme |
| Forms.NormalizeLinkWithSchemeFixed | spanish_companies.py:642-643 | with the scheme test, a trimmed address that has a web scheme is opened unchanged |
| Forms.NormalizeLinkWithSchemeShape | spanish_companies.py:637-644 | with the scheme test, a blank link opens nothing, every opened address has a web scheme, and normalising it again changes nothing |
| Forms.NormalizeLinkAgreesWithScheme | spanish_companies.py:642-643 | the written test and the scheme test differ only on links that start with "http" but have no web scheme |
| Schema.AddColumn | spanish_companies.py:161-162 | `ALTER TABLE ADD COLUMN` is only issued for a column the table lacks; it adds that one column and keeps every row id and the table's shape |
| Schema.CopyColumn | spanish_companies.py:165 | `UPDATE empresas SET provincia = ciudad` gives every row's target cell the row's source cell, keeping columns and ids |
| Schema.FillRegions | spanish_companies.py:167-175 | the region loop keeps the columns, every row id and the table's shape |
| Schema.LegacyTable | spanish_companies.py:159-175 | the legacy step adds exactly `provincia` and `comunidad` and keeps every row id |
| Schema.Migrate | spanish_companies.py:140-201 | startup fails exactly on a legacy table that already has `comunidad`; the rows after it are those on disk, and none for a new table |
| Schema.RegionCell | spanish_companies.py:169-174 | a province cell gets the region text when the lookup gives one, and NULL otherwise |
| Schema.MigrateKeepsIds | spanish_companies.py:155-183 | startup neither adds nor removes a row |
| Schema.MigrateRowSteps | spanish_companies.py:159-183 | one row after the guarded steps: the legacy step when `ciudad` is present and `provincia` absent, then `latitud` and `longitud` each when absent |
| Schema.RowStepsDescribed | spanish_companies.py:159-183 | those steps leave every old cell, copy `ciudad` into `provincia`, look up `comunidad`, and make every other new cell NULL |
| Schema.MigrateDescribed | spanish_companies.py:140-201 | a completed startup adds exactly the guarded columns, keeps every id and every old cell, and sets the new cells as the legacy rule says |
| Schema.MigrateWellFormed | spanish_companies.py:140-201 | after startup every row has exactly the table's columns |
| Schema.MigrateLegacy | spanish_companies.py:159-175 | after the legacy step, `provincia` equals the old `ciudad` and `comunidad` is its region, or NULL for "Otra" and unknown names |
| Schema.MigrateIdempotent | spanish_companies.py:155-183 | running startup again on what a completed run left changes neither the columns nor any row |
| Schema.MigrateDuplicateRegionColumn | spanish_companies.py:159-163 | a legacy table that already has `comunidad` gets only a NULL `provincia` column, after which the `ALTER TABLE` fails; the next run leaves `provincia` NULL |
| Schema.MigrateLegacyExamples | spanish_companies.py:159-175 | startup on a legacy table with a Madrid row and an unknown-town row completes; Madrid gets region Madrid, and the unknown town is copied into `provincia` and gets a NULL region |
| Ordering.TextLeTotal | spanish_companies.py:208 | any two names are comparable in the `ORDER BY` text order |
| Ordering.TextLeTransitive | spanish_companies.py:208 | the text order is transitive |
| Ordering.TextLeAntisymmetric | spanish_companies.py:208 | two texts that are each at most the other are equal |
| Ordering.CellLeTotal | spanish_companies.py:208 | any two name cells are comparable (NULL, then numbers, then text) |
| Ordering.CellLeTransitive | spanish_companies.py:208 | the cell order is transitive |
| Ordering.CellLeAntisymmetric | spanish_companies.py:208 | two cells that are each at most the other are equal |
| Store.RecordOf | spanish_companies.py:205-208 | the listed record carries the row's id and, in `SELECT` order, its seven columns |
| Store.NewRow | spanish_companies.py:217-220 | an inserted row has exactly the table's columns, and NULL in every column the `INSERT` does not name |
| Store.Overwrite | spanish_companies.py:235-238 | an updated row keeps its columns, and every column the `UPDATE` does not name keeps its cell |
| Store.RecordOfNewRow | spanish_companies.py:214-223 | reading back an inserted row gives exactly the seven inserted values |
| Store.RecordOfOverwrite | spanish_companies.py:232-241 | reading back an updated row gives exactly the seven written values; the other columns keep their cells |
| Store.InsertByNameSorted | spanish_companies.py:208 | inserting a record into a name-sorted list keeps it sorted and adds exactly that record |
| Store.RecordsAddRow | spanish_companies.py:203-212 | a row under a new id adds exactly its record to the listing |
| Store.ListsRowsStep | spanish_companies.py:203-212 | listing one more row keeps the result sorted and adds that row |
| Store.ReadForm | spanish_companies.py:577-589 | the form yields values exactly when both coordinates parse; name, region and link are stripped, sector and province are kept, and the coordinates are the parsed numbers |
| Store.FormInsertRoundTrip | spanish_companies.py:577-610 | a form whose coordinates parse, once inserted, is listed as typed: stripped name, region and link, the chosen sector and province, the parsed latitude and longitude |
| Store.FormSaveRoundTrip | spanish_companies.py:577-624 | a form whose coordinates parse, once saved over a row, is listed as typed, field by field |
| Store.Database.FillRegionsInPlace | spanish_companies.py:165-175 | the per-row loop sets every row's `comunidad` as the region rule says and changes nothing else |
| Store.Database.LegacyStep | spanish_companies.py:159-175 | the legacy step leaves the table the migration's legacy rule describes |
| Store.Database.Open | spanish_companies.py:186-198 | the database opens as found; a file without the table has no `AUTOINCREMENT` counter, so the counter is 0 |
| Store.Database.InitDb | spanish_companies.py:140-201 | the table on disk becomes the migration of the old one; the counter and the issued ids are kept, and a newly created table starts with counter 0 and no issued ids, so its first row gets id 1 |
| Store.Database.GetAll | spanish_companies.py:203-212 | every row, exactly once, sorted by `nombre`; nothing when the table or a selected column is missing |
| Store.Database.Insert | spanish_companies.py:214-223 | exactly one new row, under an id never issued before, holding the form's values |
| Store.Database.Delete | spanish_companies.py:225-230 | removes exactly the row with that id, and nothing when there is none |
| Store.Database.Update | spanish_companies.py:232-241 | overwrites the seven columns of exactly that row; with no such row the table is unchanged and nothing is reported |
| Store.Database.Add | spanish_companies.py:600-610 | the outcome is bad coordinates, the first missing field, or done; done inserts exactly the form's row when the current columns exist; otherwise the table and the counter are unchanged; the columns never change |
| Store.Database.Save | spanish_companies.py:612-624 | the outcome is no selection, bad coordinates, the first missing field, or done; done overwrites the selected row, if it exists, when the current columns exist; otherwise the table is unchanged; the columns and the counter never change |
| Store.Database.Remove | spanish_companies.py:626-635 | the outcome is no selection, cancelled, or done; done removes exactly the selected row when the table exists, and otherwise nothing changes; the columns and the counter never change |
| Geometry.VertexBounds | spanish_companies.py:424 | the bounds hold every vertex, and each side touches a vertex |
| Geometry.TotalBounds | spanish_companies.py:421-424 | bounds exist exactly when a row of that name has a non-empty geometry, and they hold every vertex of every such row |
| Geometry.TotalBoundsTight | spanish_companies.py:424 | each side of those bounds lies on a vertex of a row of that name, so they are the smallest such box |
| Geometry.Margin | spanish_companies.py:425-426 | the margin is the larger of 15% of the extent and 0.2 |
| Geometry.Pad | spanish_companies.py:425-427 | each side moves out by that axis's margin |
| Geometry.PadMargins | spanish_companies.py:425-427 | the zoom box leaves at least 0.2 and at least 15% of the extent on every side, equally on both sides of an axis |
| Geometry.BboxProvincia | spanish_companies.py:419-427 | there is a zoom box exactly when geodata is loaded and a row of that name has a geometry |
| Geometry.BboxHoldsProvince | spanish_companies.py:419-427 | every vertex of the province lies inside its zoom box, at least 0.2 from each edge |
| Geometry.BboxSidesAtVertices | spanish_companies.py:419-427 | each side of the zoom box lies exactly its axis's margin beyond a vertex of the province |
| Geometry.BboxSmallest | spanish_companies.py:419-427 | padding any box that holds every vertex of the province gives a box that holds the zoom box |
| Geometry.FirstHit | spanish_companies.py:434-438 | the index of the first row whose geometry contains the point; none when no row does |
| Geometry.ProvinceAt | spanish_companies.py:429-438 | a name exactly when geodata is loaded and some geometry contains the point; it is the name of the first such row in file order |
| Geometry.ScanProvinces | spanish_companies.py:429-438 | the loop returns the name `ProvinceAt` specifies |
| Geometry.FirstHitIsFirst | spanish_companies.py:434-438 | a containing row with no containing row before it is the one found |
| Geometry.ProvinceAtSkipsMissingGeometry | spanish_companies.py:436 | a row without a geometry is never matched, whatever the containment test says |
| Markers.MarkerOf | spanish_companies.py:501-504 | a record has a marker exactly when both coordinates are set, and the marker carries its id, name and coordinates |
| Markers.VisibleMarkers | spanish_companies.py:496-520 | every marker lies inside the closed axis limits, and there are at most as many markers as records |
| Markers.VisibleAppend | spanish_companies.py:501-520 | filtering a concatenation filters each part, in order |
| Markers.VisibleSound | spanish_companies.py:501-520 | every marker is that of a record with both coordinates inside the limits |
| Markers.VisibleComplete | spanish_companies.py:501-520 | every record with both coordinates inside the limits has its marker |
| Markers.VisibleKeepsOrder | spanish_companies.py:501-520 | markers keep the order of the `get_all` listing |
| Markers.Dist | spanish_companies.py:552 | the squared distance is never negative, and is zero at the marker's own position |
| Markers.Nearest | spanish_companies.py:549-556 | no marker for an empty list; otherwise a closest marker with no earlier marker as close |
| Markers.NearestUnique | spanish_companies.py:549-555 | only one index is the earliest closest marker |
| Markers.ScanNearest | spanish_companies.py:549-555 | the loop keeps the marker `Nearest` specifies, and `min_dist` is its squared distance |
| Markers.Picked | spanish_companies.py:556 | a selected id is that of the nearest marker, which lies within squared distance 0.05 |
| Markers.PickedIffNear | spanish_companies.py:556 | a click selects a company exactly when some marker lies within squared distance 0.05 |
| MapView.Effect | spanish_companies.py:541-573 | a click outside the axes is ignored; a selection is the picked marker of a single click; a zoom is into a named province, other than the current zoom, under a single click away from every marker; a reset comes from a double-click or a click in the zoomed province |
| MapView.After | spanish_companies.py:564-573 | the zoom changes only on a redraw, and after a redraw it is set exactly when the click zoomed into a province |
| MapView.Limits | spanish_companies.py:447-487 | the fixed frame without geodata or zoom, and the province's zoom box when zoomed |
| MapView.OutsideAxesIgnored | spanish_companies.py:541-543 | a click outside the axes does nothing and keeps the zoom |
| MapView.DoubleClickResets | spanish_companies.py:544-546 | a double-click in the axes sets the whole-country view and redraws |
| MapView.MarkerClickKeepsZoom | spanish_companies.py:548-564 | a click within the pick radius of a marker selects the nearest marker's company and keeps the zoom |
| MapView.NoProvinceKeepsZoom | spanish_companies.py:566-567 | a click away from every marker and every province keeps the zoom |
| MapView.ProvinceClickToggles | spanish_companies.py:566-572 | a click in a province returns to the whole-country view when that province is the zoom, and zooms into it otherwise |
| MapView.ClickKeepsZoomBox | spanish_companies.py:541-573 | after any click the zoom is none or a province with a zoom box |
| MapView.ClickTwiceReturns | spanish_companies.py:566-572 | two clicks in the same province zoom in and then back out |
| MapView.ZoomHidesOutsideCompany | spanish_companies.py:501-506 | a company outside the zoom box is not a marker while zoomed, and is one again in the whole-country view |
| MapView.OverviewExample | spanish_companies.py:496-520 | in the whole-country view a Madrid company is a marker, while a Las Palmas company and one without coordinates are not |
| MapView.MapPanel.constructor | spanish_companies.py:254-270 | start-up shows the whole country, with the markers of the listing inside that frame |
| MapView.MapPanel.Redraw | spanish_companies.py:491-520 | the markers become exactly the visible markers of the listing under the current limits |
| MapView.MapPanel.ResetZoom | spanish_companies.py:537-539 | the zoom becomes none and the markers are redrawn for the whole-country frame |
| MapView.MapPanel.OnMapClick | spanish_companies.py:541-573 | the effect and the new zoom follow the click rules; the map is redrawn exactly when the zoom is reset or set |

## Left out

- The tkinter window and matplotlib drawing are not modelled: the list widget, colours, the legend, the Canary Islands inset, labels and message boxes. Only the axis limits and the marker list that clicks use are modelled.
- The shapefile download and loading (`_ensure_shapefile`, `load_geodata`) are not modelled. The geodata is a parameter, `None` when loading failed.
- The geometry library's point-in-polygon test is a parameter of the geodata. Its geometry is not modelled.
- SQLite is modelled by its effect on one table. Not modelled: SQL text, connections, `PRAGMA` output order, case-insensitive column names, and the `NOT NULL` constraints. The form always supplies `nombre`, `latitud` and `longitud`.
- Store.Database.GetAll: rows whose names compare equal may come out in any order. SQLite's order among equal names is not specified either.
- `float()` parsing of the coordinate fields is not modelled. The form carries its result as an optional number.
- Floating-point rounding is not modelled. Coordinates, distances and margins are exact reals.
- Markers.MarkerOf: a text value stored in `latitud` or `longitud` is not modelled. The form never stores one, and the source's comparison would raise.
- Geometry.BboxProvincia: a province whose rows all have empty geometries gets no box. In the source, `total_bounds` gives NaN in that case. The zoom never names such a province, because the point scan skips empty geometries.
- `webbrowser.open` is not modelled. Only the address it would receive is modelled.
- The selection of the clicked company in the list widget (`tree.selection_set`, `_on_select`) is not modelled. The click returns the company id.
- The order of `NOMBRES_PROVINCIAS` in the drop-down is not modelled.
- Legacy tables whose other columns carry constraints the current form does not fill are not modelled.
- The click tolerance is a squared distance of 0.05 in map units at every zoom level, so it shrinks on screen when zoomed out. The model keeps the constant as written.
- SQLite errors are not modelled as exceptions. Where the program's statement raises `sqlite3.OperationalError`, the model leaves the table unchanged and reports `false` or `None`. For the legacy table that already has `comunidad`, the exception at line 163 escapes `init_db` and `App.__init__` (line 254), so the program does not start. Schema.Migrate reports this run as failed (`ok` false) and keeps the table the executed statements left.
- Schema.CopyColumn: SQLite's column type affinity is not modelled. A number in a legacy `ciudad` is copied into `provincia TEXT` as the number, where SQLite stores its text form. Schema.MigrateLegacy is stated for that copy. The region lookup gives NULL for a number and for its text form alike, so `comunidad` is unaffected.
- Markers.Dist: the contract states that the squared distance is non-negative and zero at the marker. It does not state that zero occurs only there.

## Findings

| source | as written | input that shows it | evidently intended | confidence | as-written member | corrected member |
|---|---|---|---|---|---|---|
| spanish_companies.py:642 | `link.startswith("http")` decides whether a scheme is present | the link `httpbin.org` is opened as it is, with no scheme | put "https://" before any link that does not start with "http://" or "https://" | not executed; medium | Forms.NormalizeLinkPassesBareHost | Forms.NormalizeLinkWithSchemeShape |
