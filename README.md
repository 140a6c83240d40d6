# Postcode to primary substation lookup, modelled in Dafny

The system answers "which electricity primary substation serves this UK
postcode?". A batch pipeline (`data-processing/process_data.py`) reads the
substation boundary files of the distribution network operators and a
postcode CSV, joins them spatially and writes two artifacts: chunk files that
group postcodes by outward code (the lookup table) and `substations.json`
(per-substation details). Two post-passes
(`simplify_substations.py`, `simplify_substations_aggressive.py`) shrink
`substations.json` below the 25 MB hosting limit by simplifying and rounding
the boundary geometries. The browser client (`public/app.js`) normalizes the
typed postcode, loads the chunk for its outward code on demand, shows the
substation, the sorted and paginated list of its loaded postcodes, and
autocomplete suggestions from the chunks already loaded.

The model is split into modules that follow that structure:

- `Text`, `Sorting`: JavaScript's `\s` whitespace removal, ASCII upper-casing,
  Python's `{n:04d}` padding, code-point order and a sort proved to produce an
  ordered permutation.
- `Postcode`: `normalizePostcode`, `formatPostcode` and the outward-code
  pattern `^[A-Z]{1,2}\d{1,2}[A-Z]?` shared by the client and the pipeline.
- `Client`: the chunk cache (`postcodeLookup`) as a class whose methods update
  it, the search, the substation list, the autocomplete collector (nested
  loops with early exit), and the pagination arithmetic of JavaScript's
  `slice` and `Math.ceil`.
- `SourceLoader`: the operator registry, the column probing of
  `load_substation_data` with its ID/name fallbacks, `load_all_substations`
  and the postcode CSV filter.
- `LookupBuilder`: `create_postcode_lookup` (chunks keyed by outward code,
  last row wins) and `create_substation_details` (sorted lists and counts).
- `GeoJson`: JSON values, Python's iteration over them, and
  `round_coords`/`round_coordinates`.
- `Simplifier`: both scripts' rewrite loops, the aggressive field whitelist,
  the size test and the file decisions of each script's main block, the
  three files being fields of a class.

Everything the model cannot see is a parameter: the chunk a `fetch` would
return, the file reader and reprojection of geopandas, the file-existence
test, the CSV reader, shapely's simplifier, Python's `round`, and the size of
the written JSON file. An exception is an `Option`/`Result` error value.

Three facts about the code shape the model. The aggressive pass simplifies
with tolerance 0.001 and rounds to 4 decimals, the same as the first pass
(simplify_substations_aggressive.py:56-57). The postcode CSV is the first
file the directory listing yields, unsorted (data-processing/process_data.py:189-196). A
substation's postcode list is sorted but duplicates are kept
(data-processing/process_data.py:299, 315).

## Model

| member | source | states |
|---|---|---|
| Text.StripSpaces | public/app.js:186 | the result has no whitespace; a single character is dropped exactly when it is whitespace; a whitespace-free string is unchanged; and with `StripSpacesAppend` (removal distributes over concatenation) this fixes the result as the non-whitespace characters in order |
| Text.StripSpacesKeeps | public/app.js:186 | a character survives exactly when it occurs in the input and is not whitespace |
| Text.Pad4RoundTrip | data-processing/process_data.py:136 | reading the zero-padded `{i:04d}` digits back gives i |
| Text.Pad4Injective | data-processing/process_data.py:136 | two different row numbers never pad to the same digits |
| Sorting.Sort | public/app.js:297 | the result is ordered by code point and is a permutation of the input, of the same length |
| Sorting.SortedPermutationsEqual | data-processing/process_data.py:315 | two ordered permutations of the same postcodes are equal, so the sorted list does not depend on the join's row order |
| Postcode.Compact | public/app.js:385 | the query is the input's non-whitespace characters, in order, each upper-cased: no whitespace and no lower-case letter; a compact upper-case input is unchanged; it is empty exactly when the input is all whitespace |
| Postcode.Normalize | public/app.js:184-192 | removing whitespace gives back the compact form; under five characters no space is added; otherwise exactly one space, before the last three characters |
| Postcode.NormalizeIdempotent | public/app.js:184-192 | normalizing a normalized postcode changes nothing |
| Postcode.Format | public/app.js:325-332 | a postcode with a space comes back unchanged; otherwise one space is inserted before the last three characters and removing it gives the input back |
| Postcode.FormatKeepsNormalized | public/app.js:325-332 | the list shows a normalized postcode of five or more characters exactly as the search spelled it |
| Postcode.FormatCompactIsNormalize | public/app.js:187-189 | on a compact postcode of five or more characters formatting and normalizing agree |
| Postcode.Outward | public/app.js:197 | a match has the outward-code shape and is a prefix of the input |
| Postcode.OutwardIsLongestShapedPrefix | public/app.js:197-198 | there is no match exactly when no prefix has the shape, and the match is the longest prefix that has it |
| Postcode.OutwardIdempotent | data-processing/process_data.py:266 | the outward code of an outward code is itself |
| Postcode.OutwardExample | public/app.js:196 | N15 5QA and N155QA are keyed under N15, SW1A 1AA under SW1A |
| Client.ChunkMembersExact | public/app.js:287-291 | a key is collected from a chunk exactly when it is a key of that chunk whose entry names the substation |
| Client.InSubstationExact | public/app.js:285-292 | the collected list holds exactly the postcodes that some loaded chunk assigns to the substation |
| Client.RearrangedListExact | public/app.js:297 | any rearrangement of the collected list, the sorted one included, holds exactly the assigned postcodes |
| Client.MatchingSound | public/app.js:399-401 | every collected match is one of the scanned keys and starts with the query once whitespace is removed |
| Client.Take | public/app.js:411 | the first min(n, length) elements: a prefix of the list of exactly that length |
| Client.SuggestionsSound | public/app.js:394-411 | at most ten suggestions, each a loaded postcode that starts with the query |
| Client.FullPrefixDecides | public/app.js:402-405 | once ten matches are found in a prefix of the keys, the rest of the keys cannot change the first ten |
| Client.StopDecides | public/app.js:402-405 | stopping inside a chunk with ten matches gives exactly the first ten matches of all loaded keys |
| Client.ChunkCache.constructor | public/app.js:10 | the cache starts empty |
| Client.ChunkCache.LoadChunk | public/app.js:75-99 | a cached area is answered from the cache and nothing changes; a failed fetch returns nothing and stores nothing; a fetched chunk is stored under its area, appended to the load order, and returned |
| Client.ChunkCache.FindSubstationForPostcode | public/app.js:195-215 | no outward code means no fetch and no result; otherwise the cache gains at most the area's chunk and the result is that chunk's entry for the exact postcode, if any |
| Client.ChunkCache.HandleSearch | public/app.js:152-181 | an input that normalizes to nothing is rejected with no lookup, and only such an input is; a found postcode is the normalized input, stored in the chunk of its outward code with the returned entry; a postcode reported not found is in no loaded chunk; the cache changes exactly as the lookup's chunk load changes it |
| Client.ChunkCache.PostcodesInSubstation | public/app.js:278-298 | the result is sorted, is a permutation of the postcodes assigned to the substation in iteration order, and holds exactly the postcodes a loaded chunk assigns to it |
| Client.ChunkCache.Autocomplete | public/app.js:384-411 | under three non-whitespace characters there are no suggestions; otherwise the first ten loaded keys, in iteration order, that start with the query, each a loaded postcode |
| Client.SliceIndex | public/app.js:304 | a slice index ends up between 0 and the length, an in-range index is kept and one past the end is clamped |
| Client.PageItems | public/app.js:301-304 | page p shows the postcodes from index (p - 1) * 100 on, at most 100, and none past the end |
| Client.TotalPages | public/app.js:312 | the pages hold all n postcodes, the last page is not empty, and there are no pages exactly when there are no postcodes |
| Client.PagesUpToPrefix | public/app.js:302-304 | the first k pages are the first k * 100 postcodes, or all of them |
| Client.PagesPartitionList | public/app.js:301-315 | reading every page in turn shows the whole list exactly once, in order |
| Client.EnabledClickStaysInRange | public/app.js:314-315 | with the controls shown, a click on an enabled button lands on a page between 1 and the last, and that page is not empty |
| Client.ResultsList.constructor | public/app.js:12-13 | the list starts empty on page 1 |
| Client.ResultsList.Show | public/app.js:238-243 | the list becomes the substation's loaded postcodes, sorted, shown from page 1 |
| Client.ResultsList.ChangePage | public/app.js:335-337 | the page moves by the direction and the list is unchanged |
| GeoJson.RoundScalar | simplify_substations.py:33 | a number is rounded by `round`, a boolean (a Python int) becomes a number, and anything else raises |
| GeoJson.RoundCoords | simplify_substations.py:29-33 | on success the input is a non-empty list and the result a list of the same length whose elements are the roundings of the input's elements |
| GeoJson.RoundCoordsKeepsShape | simplify_substations.py:29-33 | rounding keeps the nesting: the same number of rings, positions and coordinates |
| GeoJson.RoundCoordsRoundsEveryLeaf | simplify_substations.py:29-33 | every scalar of the result is the rounding of the scalar at the same place in the input |
| GeoJson.Elements | simplify_substations.py:31 | iterating a list yields its elements and iterating a number, boolean or null raises |
| GeoJson.RoundRings | simplify_substations.py:36 | each ring of the result is the rounding of the ring at the same place |
| GeoJson.RoundPolygons | simplify_substations.py:38 | each polygon of the result is the ring-by-ring rounding of the polygon at the same place |
| GeoJson.RoundCoordinates | simplify_substations.py:24-40 | it raises on a value without `type`; a type other than Polygon or MultiPolygon comes back unchanged; otherwise the same keys come back and only `coordinates` may change |
| GeoJson.PositionRounds | simplify_substations.py:29-33 | a non-empty list of numbers always rounds |
| GeoJson.RingRounds | simplify_substations.py:29-33 | a non-empty list of such positions always rounds |
| GeoJson.RingListRounds | simplify_substations.py:36 | a list of such rings always rounds ring by ring |
| GeoJson.PolygonRounds | simplify_substations.py:35-36 | a Polygon whose coordinates are a list of such rings always rounds |
| GeoJson.MultiPolygonRounds | simplify_substations.py:37-38 | a MultiPolygon whose coordinates are a list of such ring lists always rounds |
| GeoJson.WellFormedGeometryRounds | simplify_substations.py:24-40 | a geometry with a `type`, and with well-formed coordinates when it is a Polygon or MultiPolygon, never makes the rounding raise |
| GeoJson.PolygonRoundingKeepsShape | simplify_substations.py:35-36 | a Polygon keeps its rings and positions and every coordinate is rounded |
| GeoJson.MultiPolygonRoundingKeepsShape | simplify_substations.py:37-38 | a MultiPolygon keeps its polygons, rings and positions and every coordinate is rounded |
| GeoJson.SimplifyGeometry | simplify_substations.py:11-22 | the simplified geometry, or the input itself when simplification raises |
| SourceLoader.AsStr | data-processing/process_data.py:122 | `astype(str)` keeps a value's text and turns a None cell into "None" |
| SourceLoader.FirstPresent | data-processing/process_data.py:120-124 | no column is chosen exactly when no candidate is a column; a chosen candidate is a column and every earlier candidate is not |
| SourceLoader.Probe | data-processing/process_data.py:127-131 | the probing loop with its break chooses the first candidate that is a column |
| SourceLoader.NameProbeSeesFileColumns | data-processing/process_data.py:110-124 | the columns added before the name probe cannot be chosen, so the file's own columns decide the name |
| SourceLoader.ProbedColumn | data-processing/process_data.py:119-131 | one cell per row: all None when no candidate was found, otherwise each row's value of the found column as `astype(str)` renders it |
| SourceLoader.SyntheticId | data-processing/process_data.py:136 | the operator id, an underscore, then the row number zero-padded to at least four digits |
| SourceLoader.SyntheticIdsDistinct | data-processing/process_data.py:136 | different rows get different synthetic ids |
| SourceLoader.Ids | data-processing/process_data.py:126-136 | one id per row: the synthetic ids when the probed column is all None or all 'None', otherwise each row's value of the found column |
| SourceLoader.Names | data-processing/process_data.py:138-141 | one name per row: the ids when the probed name column is all None or all 'None', otherwise each row's value of the found column |
| SourceLoader.Standardized | data-processing/process_data.py:109-145 | one row per feature, carrying the operator's metadata, the feature's geometry and the chosen id |
| SourceLoader.StandardizedRows | data-processing/process_data.py:109-145 | every row carries the operator's metadata and its own geometry; its id is the found column's value, or synthetic when the probed id column is all missing; its name is the found name column's value, or its id when that column is all missing |
| SourceLoader.SyntheticIdsUnique | data-processing/process_data.py:133-136 | when every probed id is missing, row i gets the synthetic id for i and no two rows share an id |
| SourceLoader.IdProbeAsWrittenStopsAtPlaceholder | data-processing/process_data.py:126-131 | as written, the id probe can only choose `primary_floc`, `id` or its own placeholder |
| SourceLoader.PlaceholderAdded | data-processing/process_data.py:110-126 | the table the id probe sees as written: the metadata columns and `substation_id` added, every row's `substation_id` missing, the geometry kept |
| SourceLoader.SiteIdIgnoredAsWritten | data-processing/process_data.py:126-136 | as written, a file whose ids are in `site_id` gets the placeholder chosen and synthetic ids |
| SourceLoader.SiteIdKeptAsIntended | data-processing/process_data.py:117-131 | the corrected probe chooses `site_id` and keeps the file's id |
| SourceLoader.OwnIdOverwrittenAsWritten | data-processing/process_data.py:126-136 | as written, a file whose ids are in its own `substation_id` column has that column overwritten before the probe reads it and gets synthetic ids |
| SourceLoader.OwnIdKeptAsIntended | data-processing/process_data.py:117-131 | the corrected probe reads the file's own `substation_id` and keeps its id |
| SourceLoader.LoadSubstationData | data-processing/process_data.py:93-152 | None when reading or reprojection fails; otherwise the standardized rows, each carrying the operator's metadata |
| SourceLoader.ConcatSize | data-processing/process_data.py:174 | the combined table has as many rows as the loaded tables together |
| SourceLoader.CombinedRowsCarryRegistryMetadata | data-processing/process_data.py:159-176 | every combined row carries the metadata of some registry entry |
| SourceLoader.LoadAllSubstations | data-processing/process_data.py:155-178 | it fails, with the fixed message, exactly when no table loaded; otherwise the loaded tables concatenated in registry order |
| SourceLoader.DropMissingExact | data-processing/process_data.py:205-209 | a point is kept exactly when some row has that postcode with both coordinates present |
| SourceLoader.DropMissingAppend | data-processing/process_data.py:206 | the filter keeps row order: filtering two runs of rows in turn gives the two filtered runs in turn |
| SourceLoader.DropMissingShrinks | data-processing/process_data.py:206 | dropping rows never adds any |
| SourceLoader.LoadPostcodeData | data-processing/process_data.py:181-224 | no CSV file or a failed read gives None; otherwise exactly the rows of the first file with both coordinates present, in file order and with duplicates kept |
| LookupBuilder.Matched | data-processing/process_data.py:263 | exactly the input rows that have a substation: every kept row comes from the input and has one, every such input row is kept |
| LookupBuilder.MatchedAppend | data-processing/process_data.py:263 | the filter keeps row order: filtering two runs in turn gives the two filtered runs in turn |
| LookupBuilder.UniqueOutwards | data-processing/process_data.py:266-270 | every outward code of the rows occurs exactly once and nothing else occurs |
| LookupBuilder.ChunkForExact | data-processing/process_data.py:270-285 | a postcode is in the chunk of key k exactly when k is a code and some row for the postcode has outward code k |
| LookupBuilder.ChunkForLastWins | data-processing/process_data.py:273-285 | a chunk's entry for a postcode comes from the last row carrying it |
| LookupBuilder.ChunkPostcodesHaveItsOutward | data-processing/process_data.py:266-273 | every postcode in a chunk has that chunk's outward code, and the chunk of the NaN key is empty |
| LookupBuilder.RejectedPostcodeInNoChunk | data-processing/process_data.py:266-271 | a postcode the pattern rejects is in no chunk |
| LookupBuilder.CreatePostcodeLookup | data-processing/process_data.py:254-288 | one chunk per distinct outward code of the matched rows, holding that code's rows |
| LookupBuilder.LookupServesEveryMatchedPostcode | data-processing/process_data.py:254-288 | a postcode with an outward code is in its chunk exactly when a matched row has it, with the last such row's substation and coordinates |
| LookupBuilder.GroupExact | data-processing/process_data.py:299 | a substation's group holds exactly the postcodes joined to it |
| LookupBuilder.DetailOfCountsSortedList | data-processing/process_data.py:306-317 | an entry's list is its substation's postcodes sorted, its count is the list's length, a substation without postcodes gets an empty list and 0, and the metadata is the row's |
| LookupBuilder.DetailsKeys | data-processing/process_data.py:304-310 | there is an entry exactly for each substation id among the rows |
| LookupBuilder.DetailsLastWins | data-processing/process_data.py:306-317 | each entry is built from the last substation row with its id |
| LookupBuilder.DetailListsExact | data-processing/process_data.py:299-317 | every entry lists exactly the postcodes joined to its substation, sorted and counted |
| LookupBuilder.CreateSubstationDetails | data-processing/process_data.py:291-320 | the loop builds the details table, one entry per substation id |
| Simplifier.GeometryField | simplify_substations.py:54-56 | the rewritten field is present, and it is `boundary` exactly when the record has one |
| Simplifier.Rewritten | simplify_substations.py:54-64 | a record without geometry is unchanged; otherwise the rewrite fails exactly when rounding raises, and on success only the geometry field changes, to the rounded simplification |
| Simplifier.RewriteOne | simplify_substations.py:54-64 | the loop body computes the rewrite of one record |
| Simplifier.SimplifyRecords | simplify_substations.py:52-67 | the run aborts exactly when some record's rewrite raises; otherwise every record is rewritten, none added or lost, and the count is the number of records with a geometry |
| Simplifier.SimplifyLeavesOtherFields | simplify_substations.py:52-64 | a record without geometry passes through unchanged and the others keep every field other than the geometry |
| Simplifier.Trimmed | simplify_substations_aggressive.py:47-50 | exactly the whitelisted fields are kept, with their values, and `postcodes` is gone |
| Simplifier.Trim | simplify_substations_aggressive.py:47-50 | the deletion loop leaves exactly the trimmed record |
| Simplifier.RewriteSucceeds | simplify_substations.py:54-64 | a record whose simplified geometry is well formed is rewritten without raising |
| Simplifier.FirstPassCompletes | simplify_substations.py:52-67 | when every record's simplified geometry is well formed, no record's rewrite raises, so the first pass does not crash |
| Simplifier.TrimKeepsGeometry | simplify_substations_aggressive.py:47-53 | trimming to the whitelist keeps the geometry field and its value |
| Simplifier.AggressivePassCompletes | simplify_substations_aggressive.py:45-59 | under the same condition, no trimmed record's rewrite raises, so the aggressive pass does not crash |
| Simplifier.AggressiveRecords | simplify_substations_aggressive.py:45-59 | the run aborts exactly when some trimmed record's rewrite raises; otherwise every record is trimmed and rewritten |
| Simplifier.AggressiveKeepsWhitelistedFields | simplify_substations_aggressive.py:45-59 | each output record has exactly its whitelisted fields, no postcode list, and the values of the fields other than the geometry |
| Simplifier.FitsLimitExact | simplify_substations.py:109-110 | the megabyte test is the same as at most 26214400 bytes |
| Simplifier.DataDir.constructor | simplify_substations.py:91-93 | the three files start as given |
| Simplifier.DataDir.RunFirstPass | simplify_substations.py:90-117 | without substations.json nothing changes; otherwise the backup becomes a copy of it; the run crashes exactly when some record's rewrite raises, leaving substations.json and the simplified file as they were; a rewrite that fits the limit replaces substations.json, one that does not is kept as the simplified file beside the unchanged original |
| Simplifier.DataDir.RunAggressive | simplify_substations_aggressive.py:79-93 | the backup is read when present, else substations.json; with neither nothing changes; the run crashes exactly when some trimmed record's rewrite raises, leaving substations.json as it was; otherwise the trimmed and rewritten result is written over substations.json; the backup is never touched |

## Left out

- The DOM, Leaflet map, `fetch` and `Promise.all` in `loadNearbyChunks`, the feedback form and the CSV export of `public/app.js` are browser I/O; the fetched chunk is a parameter of the cache's methods.
- `Client.Chunk` does not force a chunk's key list to match its entries; readers look a key up only after checking it, as the client would get `undefined`.
- JavaScript's `toUpperCase` and Python's `\d` are Unicode-aware; the model upper-cases ASCII letters and treats only ASCII digits as digits.
- SourceLoader.LoadSubstationData: probes the file's own columns for the id (the corrected probe of "## Findings"), so a file whose ids sit in `site_id`, `Sub_ID`, `SUBSTATION_ID` or its own `substation_id` keeps them, where process_data.py:126-136 gives such a file synthetic ids; `LoadAllSubstations`, `CreatePostcodeLookup` and `CreateSubstationDetails` inherit this.
- JavaScript's `length` and `slice` (public/app.js:187, 189, 331 and 387) count UTF-16 code units; the model counts characters, which agrees on the Basic Multilingual Plane.
- JavaScript's `sort` compares UTF-16 code units and Python's `sorted` code points; the model compares characters, which agrees on the Basic Multilingual Plane.
- Numbers in JSON are reals: integers and floats are not told apart, and `round` is a parameter, so floating-point rounding is not modelled.
- geopandas reading, reprojection and the spatial join, shapely's simplifier and the JSON encoding of geometries are parameters of the model.
- JSON objects are maps, so key order in the written files is not modelled.
- File I/O, the byte size of the written JSON and the parsing of malformed JSON are parameters or left out; a script that crashes leaves the files it has not yet written as they were.
- The aggressive script's `simplify_geometry` and `round_coordinates` (simplify_substations_aggressive.py:9-32) are the same as the first script's, so both scripts use the one `GeoJson` definition.
- The first pass of a re-run copies the current substations.json over the backup, as the code does.
- `save_outputs`, `main`, `check_coverage.py`, `check_postcode.py` and `debug_substations.py` write or print reports and are not part of this model.
- A row with a missing `PCDS` value is kept by the CSV filter, which drops only missing coordinates; the model's postcode is always a string.
- Client.EnabledClickStaysInRange: states only clicks on enabled buttons; a direct call of `changePage` can leave the range, which `ChangePage` allows.

## Findings

| source | as written | input that shows it | evidently intended | confidence | as-written member | corrected member |
|---|---|---|---|---|---|---|
| data-processing/process_data.py:126-131 | the all-None `substation_id` column is created before the id probe, and `substation_id` is the third id candidate, so the probe stops at the placeholder and the later candidates are never reached | a file whose only id column is `site_id` (one row, `site_id` = "S1"): the as-written probe picks the placeholder and the row gets the synthetic id ENWL_0000 | the probe looks at the file's own columns, picks `site_id` and keeps "S1"; `LoadSubstationData` uses this corrected probe | not executed | SourceLoader.SiteIdIgnoredAsWritten | SourceLoader.SiteIdKeptAsIntended |
| data-processing/process_data.py:126-128 | `substation_id` is assigned None before the probe, overwriting a `substation_id` column the file already had, and the probe then reads that overwritten column | a file whose only id column is its own `substation_id` (one row, `substation_id` = "X1"): the as-written probe picks `substation_id`, reads only "None" and the row gets ENWL_0000 | the file's own `substation_id` is read and "X1" is kept; `LoadSubstationData` uses this corrected probe | not executed | SourceLoader.OwnIdOverwrittenAsWritten | SourceLoader.OwnIdKeptAsIntended |
