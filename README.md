# Railway-station property-price pipeline, modelled in Dafny

This project models the record-level rules of a batch pipeline of pandas
scripts. The pipeline studies how opening a railway station changes local
property prices. The scripts do the following:

- label Price Paid sales in seven study towns by treatment period;
- compute, for each sale, the distance to the nearest station that existed in
  the year of sale;
- attach Nomis business counts, nearest-station records and Code-Point Open
  coordinates through left merges with default values;
- clean the NaPTAN stop register into one row per active railway station;
- filter price outliers with manual caps and an interquartile window;
- add interaction dummies;
- colour and size the sales for an interactive map.

Tables are sequences of records. Every record keeps the columns a script does
not touch in a generic `rest` field. A missing cell is `None`. A date is a
(year, month, day) triple ordered lexicographically. Quantities that a library
computes are parameters of the model:

- geodesic distance;
- quantiles and the median;
- the British National Grid to WGS84 conversion;
- `to_datetime` / `to_numeric` with `errors='coerce'`, as functions returning
  an `Option`.

Modules:

- `Frames`: tables as sequences, order-preserving filters, and the left merge
  with its one-to-one case.
- `Text`: the string operations the scripts use.
- One module per script:
  - `PricePeriods`: `clean_price_data.py`
  - `NearestStation`: `distance_merge_price.py`
  - `BusinessMerge`: `merge_price_nomis.py`
  - `StationInfo`: `real_price_with_station_info.py`
  - `CodePoint`: `merge_codepoint_latlon.py`
  - `Naptan`: `clean_naptan_data.py`
  - `Outliers`: `Outliner_cleaned.py`
  - `Interactions`: `create_interaction_features.py`
  - `MapLayers`: `map_interactive.py`

Python semantics that the model writes out:

- `str.upper`, `str.lower` and `str.strip` use ASCII letters and the
  whitespace set of `str.isspace`.
- `astype(str)` turns a missing cell into the text `nan`.
- A comparison with a missing value is false.
- `isin` on a missing value is false.
- `drop_duplicates` treats two missing names as equal.
- `Series.replace(dict)` makes a single lookup, with no chaining.
- `melt` lists all rows of the first year column first, then the next column.
- `fillna` after a merge also fills empty cells of rows that did match.

The in-place parts of the scripts are imperative Dafny:

- the coordinate-cleaning loop over both frames (`NearestStation.Frame`);
- the per-row `apply` calls (`AddRailwayPeriod`, `AddDistanceColumn`);
- the loop that reads the Code-Point folder (`ReadCodePointFolder`);
- the loop that builds the map features (`BuildFeatures`).

Each of these methods is proved against a specification function.

## Model

| member | source | states |
|---|---|---|
| Frames.ToNumeric | scripts/distance_merge_price.py:15-16 | `to_numeric(errors='coerce')` leaves no text behind: a number stays itself, a missing cell stays missing, a text becomes the number it parses to, or missing when it does not parse |
| Frames.BeforeIsStrictTotalOrder | scripts/clean_price_data.py:42 | the lexicographic date order used for the cutoffs is irreflexive, transitive and total |
| Frames.Filter | scripts/clean_price_data.py:31-33 | a boolean-mask selection keeps exactly the rows satisfying the mask |
| Frames.FilterIsSubsequence | scripts/clean_price_data.py:31-33 | the selected rows keep their original order |
| Frames.FilterMultiset | scripts/clean_price_data.py:31-33 | a selection keeps each satisfying row as often as it occurs and drops every other row |
| Frames.LeftJoin | scripts/real_price_with_station_info.py:17-22 | `merge(how='left')`: every left row appears, each output row pairs a left row with a matching right row or with none (the rest of the contract is in the three lemmas below) |
| Frames.LeftJoinPairsEveryMatch | scripts/real_price_with_station_info.py:17-22 | every left row is paired with every right row whose key matches, each pair its own output row |
| Frames.LeftJoinAppend | scripts/real_price_with_station_info.py:17-22 | the merge of two concatenated left tables is the merge of the first followed by the merge of the second: left order is kept |
| Frames.LeftJoinOne | scripts/real_price_with_station_info.py:17-22 | the pairs of one left row are its matches in right-table order, or that row alone with no match |
| Frames.LeftJoinOneToOne | scripts/merge_price_nomis.py:52-57 | with unique right keys the left merge keeps the row count and order, and pairs each row with its unique match or none |
| Frames.UniqueKeysSameRow | scripts/merge_price_nomis.py:52-57 | with unique right keys, two right rows with the same key are the same row |
| Text.Strip | scripts/merge_price_nomis.py:23 | `str.strip()` yields a contiguous slice of the text with no whitespace at either end |
| Text.StripRemovesOnlySpace | scripts/merge_price_nomis.py:23 | everything `str.strip()` removes, before and after the slice it keeps, is whitespace |
| Text.StripIdempotent | scripts/merge_price_nomis.py:23-24 | stripping twice equals stripping once |
| Text.StripPadded | scripts/map_interactive.py:17 | stripping a trimmed text with one space on each side gives the text back |
| Text.RemoveChar | scripts/real_price_with_station_info.py:13 | `str.replace(" ", "")` leaves no space, keeps every other character, in order |
| Text.RemoveCharCounts | scripts/real_price_with_station_info.py:13 | `str.replace(" ", "")` keeps every other character exactly as often as it occurs, and no space |
| Text.ReplaceChar | scripts/map_interactive.py:17 | `str.replace("–", "-")` replaces every occurrence and nothing else, keeping the length |
| Text.ReplaceCharSplit | scripts/map_interactive.py:17 | the one occurrence between two parts free of it is replaced, the parts are kept |
| Text.Upper | scripts/clean_price_data.py:18 | `str.upper()` keeps the length and leaves no lower-case letter |
| PricePeriods.Standardize | scripts/clean_price_data.py:17-21 | the town is the upper-cased text of the cell (so no lower-case letter); the date is the parse of the cell, missing when the cell is; the year exists exactly when the date parsed, and is the date's year |
| PricePeriods.StandardizeAll | scripts/clean_price_data.py:17-21 | one standardised record per input record, in order |
| PricePeriods.SelectTargetTowns | scripts/clean_price_data.py:24-33 | exactly the records whose upper-cased town is one of the seven study towns, in file order |
| PricePeriods.AssignPeriod | scripts/clean_price_data.py:36-51 | the label is one of five; `Unknown` iff the date is missing or the town is not a study town; `Pre`/`Post` iff a core town with a date, with `Pre` iff strictly before its cutoff; control labels iff a control town with a date |
| PricePeriods.OpeningDayIsPost | scripts/clean_price_data.py:41-46 | the cutoff day itself is labelled `Post` |
| PricePeriods.PostIsMonotone | scripts/clean_price_data.py:41-46 | for a core town, every date on or after a `Post` date is `Post` |
| PricePeriods.AddRailwayPeriod | scripts/clean_price_data.py:53 | one label per record, equal to `assign_period` of its town and date, every other field unchanged |
| PricePeriods.CleanPriceData | scripts/clean_price_data.py:17-53 | output row i is the i-th study-town record, in file order, labelled with `assign_period` of its town and date; as many rows as study-town records; labels are in the label set and `Unknown` exactly for a missing date |
| NearestStation.CoerceCoordinates | scripts/distance_merge_price.py:14-17 | after coercion only rows with both coordinates numeric remain, every such row remains, in order, as often as it occurs |
| NearestStation.Frame.CoerceAndDropInvalid | scripts/distance_merge_price.py:15-17 | the frame's rows are replaced in place by their coerced, filtered rows |
| NearestStation.CleanBothFrames | scripts/distance_merge_price.py:14-17 | the loop cleans both frames in place, each independently |
| NearestStation.PrepareProperties | scripts/distance_merge_price.py:20-23 | the number of kept properties is the number of rows whose date parses |
| NearestStation.PreparedPropertyOrigin | scripts/distance_merge_price.py:20-23 | every kept property comes from a row whose date parses, with that year and the row's position and columns |
| NearestStation.PreparedPropertyKept | scripts/distance_merge_price.py:20-23 | every row whose date parses yields a kept property with its year, position and columns |
| NearestStation.PrepareStations | scripts/distance_merge_price.py:26-27 | the number of kept stations is the number of rows whose creation year coerces to a number; every kept station comes from such a row, with that year and the row's position |
| NearestStation.PreparedStationKept | scripts/distance_merge_price.py:26-27 | every row whose creation year coerces to a number yields a kept station with that year, its position and its columns |
| NearestStation.ValidStations | scripts/distance_merge_price.py:35 | exactly the stations whose creation year is at most the year of sale |
| NearestStation.MinDistance | scripts/distance_merge_price.py:40-48 | `None` iff there is no station or the geodesic distance to some station raises; otherwise every distance is defined, the result is a lower bound on each and some station attains it |
| NearestStation.NearestStationDistance | scripts/distance_merge_price.py:30-48 | `None` iff no station existed by that year or the distance to one that did raises; otherwise the minimum distance over the stations that did, attained by one of them |
| NearestStation.LaterStationIrrelevant | scripts/distance_merge_price.py:35 | a station opened after the year of sale changes nothing wherever it is inserted |
| NearestStation.NearestIsMonotoneInYear | scripts/distance_merge_price.py:35-48 | for fixed coordinates a later year never gives a larger distance, and loses its distance only to a station opened in between whose distance raises |
| NearestStation.NearestIsNonNegative | scripts/distance_merge_price.py:42-45 | with a distance function that is non-negative wherever defined, the result is non-negative |
| NearestStation.AddDistanceColumn | scripts/distance_merge_price.py:52 | one distance per property, in order, each equal to the nearest-station distance of that row |
| NearestStation.DistanceMergePrice | scripts/distance_merge_price.py:14-52 | both frames cleaned in place; one distance per kept property |
| BusinessMerge.Melt | scripts/merge_price_nomis.py:18 | every melted row carries one of the year headers (its shape is stated by MeltLength and MeltCell) |
| BusinessMerge.MeltLength | scripts/merge_price_nomis.py:18 | the melt of n year columns over r rows has n·r rows |
| BusinessMerge.MeltCell | scripts/merge_price_nomis.py:18-19 | row j·r+i of the melt carries district i, year header j and the cell at (i, j) |
| BusinessMerge.MeltYears | scripts/merge_price_nomis.py:18 | every melted row carries one of the year headers |
| BusinessMerge.MeltHasBadYear | scripts/merge_price_nomis.py:18-20 | a melted year fails to parse iff some year header fails and the table has a row |
| BusinessMerge.NormalizeBusiness | scripts/merge_price_nomis.py:20-24 | fails iff some year header is not an integer; otherwise keeps every row with its year parsed and district normalised |
| BusinessMerge.CanonicalDistrict | scripts/merge_price_nomis.py:23-24 | the normalised district is the upper-cased stripped text, so it has no lower-case letter and no whitespace at either end |
| BusinessMerge.CanonicalDistrictIdempotent | scripts/merge_price_nomis.py:23-24 | normalising twice equals normalising once |
| BusinessMerge.CorrectDistrict | scripts/merge_price_nomis.py:27-49 | a listed district becomes its target, any other is unchanged |
| BusinessMerge.CorrectionIsSinglePass | scripts/merge_price_nomis.py:36-37 | AYLESBURY VALE becomes BUCKINGHAMSHIRE, not CHERWELL, which a second pass would give |
| BusinessMerge.PrepareProperty | scripts/merge_price_nomis.py:14-49 | the district is the corrected normalised district; the date is the parse of the cell, missing when the cell is; the year exists iff the date parsed, and is its year |
| BusinessMerge.PrepareAll | scripts/merge_price_nomis.py:14-49 | one prepared property per input row, in order |
| BusinessMerge.FillCount | scripts/merge_price_nomis.py:59-63 | the count is never missing: 0 without a match or when the matched cell is empty, the matched count otherwise |
| BusinessMerge.MergeCounts | scripts/merge_price_nomis.py:52-63 | every property appears, every output row comes from a property, and no count is missing |
| BusinessMerge.MergeCountsOneToOne | scripts/merge_price_nomis.py:52-63 | with unique (district, year) keys the row count and order are kept; a property whose key matches business row b gets b's count, or 0 if b's cell is empty; an unmatched property gets 0 |
| BusinessMerge.MergePriceNomis | scripts/merge_price_nomis.py:13-63 | fails iff a year header is not an integer (and the table has a row); otherwise every input property appears prepared in the output, every output row is a prepared input property, and no count is missing |
| BusinessMerge.PropertyIsMerged | scripts/merge_price_nomis.py:14-57 | every input property appears, prepared, in the merged table |
| BusinessMerge.MergedIsProperty | scripts/merge_price_nomis.py:14-57 | every merged row carries a prepared input property |
| StationInfo.CleanPostcode | scripts/real_price_with_station_info.py:13-14 | the key has no space and no lower-case letter |
| StationInfo.CleanPostcodeIdempotent | scripts/real_price_with_station_info.py:13-14 | cleaning a cleaned postcode changes nothing |
| StationInfo.CleanPostcodeIgnoresSpace | scripts/real_price_with_station_info.py:13-22 | a space anywhere does not change the join key |
| StationInfo.CleanPostcodeIgnoresCase | scripts/real_price_with_station_info.py:13-22 | letter case does not change the join key |
| StationInfo.CleanPostcodeSplit | scripts/real_price_with_station_info.py:13-14 | around one non-space character, the key is the key of the text before it, that character upper-cased, and the key of the text after it |
| StationInfo.FillStation | scripts/real_price_with_station_info.py:25-30 | unmatched rows get `NO_STATION`, creation year -1, distance -1000 and no position; matched rows get the station's position, name, year and 1000 × km, and the same sentinel for each of those cells that is empty |
| StationInfo.MergeStationInfo | scripts/real_price_with_station_info.py:13-33 | every property appears and every output row comes from a property |
| StationInfo.MergeStationInfoOneToOne | scripts/real_price_with_station_info.py:17-30 | with unique station keys: same row count and order; row i is filled from the station its key matches (name, position, year, 1000 × km), or with the sentinels when it matches none |
| StationInfo.StationJoinOneToOne | scripts/real_price_with_station_info.py:17-30 | with unique station keys the merge pairs row i with property i and with a station iff one matches, and output row i is that pair filled |
| StationInfo.MatchedStationRow | scripts/real_price_with_station_info.py:17-30 | a property matching station s is filled from s |
| StationInfo.UnmatchedStationRow | scripts/real_price_with_station_info.py:17-30 | a property matching no station gets `NO_STATION`, -1 and -1000 |
| CodePoint.ReadFile | scripts/merge_codepoint_latlon.py:17-19 | a file reads iff it parses and has a column 3; it then yields columns 0, 2, 3 of each record; a failure names the file |
| CodePoint.ReadAll | scripts/merge_codepoint_latlon.py:14-20 | reading the csv files never gives the empty-concat error (its outcome is stated by ReadAllSucceeds, ReadAllReportsFirstFailure and ReadAllFailureStops) |
| CodePoint.ReadAllSucceeds | scripts/merge_codepoint_latlon.py:14-22 | reading succeeds iff every file reads, and then yields the concatenation of their records in file order |
| CodePoint.ReadAllReportsFirstFailure | scripts/merge_codepoint_latlon.py:14-20 | a failed read reports the failure of one of the files |
| CodePoint.ReadAllFailureStops | scripts/merge_codepoint_latlon.py:14-20 | once a read fails, later files change nothing |
| CodePoint.CombineCodePoint | scripts/merge_codepoint_latlon.py:14-22 | `pd.concat([])` fails exactly when no file name ends in `.csv` (what it yields otherwise: RecordIsCombined, CombinedIsRecord, CombineKeepsEveryRecord) |
| CodePoint.ReadNext | scripts/merge_codepoint_latlon.py:14-20 | one turn of the reading loop: a non-csv file changes nothing, a readable csv file adds one frame, an unreadable one decides the folder's outcome |
| CodePoint.ReadFailureIsFinal | scripts/merge_codepoint_latlon.py:14-20 | once the csv files read so far fail, the folder fails the same way |
| CodePoint.ReadEnd | scripts/merge_codepoint_latlon.py:22 | after the last file the collected frames give the folder's outcome, the empty-concat error when there are none |
| CodePoint.ReadCodePointFolder | scripts/merge_codepoint_latlon.py:12-22 | the loop over the listing yields the combined table, the first failure, or the empty-concat error |
| CodePoint.RecordIsCombined | scripts/merge_codepoint_latlon.py:18-22 | on success one record of a csv file is in the table |
| CodePoint.CombinedIsRecord | scripts/merge_codepoint_latlon.py:18-22 | on success one row of the table is a record of a csv file |
| CodePoint.CombineKeepsEveryRecord | scripts/merge_codepoint_latlon.py:18-22 | on success every record of every csv file is in the table, and nothing else |
| CodePoint.NormalizePostcode | scripts/merge_codepoint_latlon.py:39-40 | the postcode is the upper-cased, space-free form of the stripped text, so it has no space, no lower-case letter and no whitespace at either end |
| CodePoint.NormalizePostcodeIdempotent | scripts/merge_codepoint_latlon.py:39-40 | normalising twice equals normalising once |
| CodePoint.AddLonLat | scripts/merge_codepoint_latlon.py:25-29 | one converted row per record, with the converter's longitude and latitude |
| CodePoint.NotnaRemovesNothing | scripts/merge_codepoint_latlon.py:39-43 | the `notna` filter after `astype(str)` keeps every row |
| CodePoint.DropPostcode | scripts/merge_codepoint_latlon.py:46-47 | a merged row keeps the property; it has no coordinates when unmatched, the matched record's Easting, Northing, longitude and latitude otherwise |
| CodePoint.MergeLatLon | scripts/merge_codepoint_latlon.py:39-47 | every normalised property row survives the left merge (row-by-row contents: MergedRowsOrigin, MergeLatLonOneToOne) |
| CodePoint.MergedRowsOrigin | scripts/merge_codepoint_latlon.py:46-47 | each merged row comes from a property; unmatched rows have no latitude or longitude; a latitude comes from a Code-Point row with the same postcode; a row whose postcode some record shares carries one such record's Easting, Northing, longitude and latitude |
| CodePoint.MergeLatLonOneToOne | scripts/merge_codepoint_latlon.py:39-47 | with unique normalised Code-Point postcodes the merge keeps the row count and order, and row i carries property i with the coordinates of the record whose postcode it shares |
| CodePoint.MergeLatLonIsJoin | scripts/merge_codepoint_latlon.py:39-47 | the merge is the left join of all normalised property rows with the postcode column dropped |
| CodePoint.GeoJoinOneToOne | scripts/merge_codepoint_latlon.py:46 | with unique normalised Code-Point postcodes the join keeps one pair per property, in order |
| CodePoint.UniqueGeoKeys | scripts/merge_codepoint_latlon.py:40-46 | unique normalised postcodes are unique merge keys |
| CodePoint.MatchedGeoRow | scripts/merge_codepoint_latlon.py:46-47 | with unique postcodes, a property whose postcode matches record g carries g's Easting, Northing, longitude and latitude |
| CodePoint.MissingCoordinateCells | scripts/merge_codepoint_latlon.py:54 | the reported figure counts missing cells, at most two per row |
| CodePoint.RowsMissingCoordinates | scripts/merge_codepoint_latlon.py:55 | the number of rows missing a coordinate, at most the row count |
| CodePoint.RowsAndCells | scripts/merge_codepoint_latlon.py:54-55 | rows ≤ cells ≤ 2 × rows |
| CodePoint.CellsAreNotRows | scripts/merge_codepoint_latlon.py:54-55 | one row without coordinates is reported as 2 |
| CodePoint.NoCodePointMeansAllMissing | scripts/merge_codepoint_latlon.py:46-54 | with no Code-Point rows every row misses both coordinates and the figure is twice the row count |
| CodePoint.MergeCodePointLatLon | scripts/merge_codepoint_latlon.py:12-55 | fails exactly as reading the folder fails, with the same kind and file; otherwise the merge of the converted table, keeping every property, with both the cell count line 54 computes and the row count line 55 announces |
| Naptan.AddCreationYear | scripts/clean_naptan_data.py:10-11 | a creation year exists iff the timestamp is present and parses, and is then the parsed date's year |
| Naptan.ActiveIgnoresCase | scripts/clean_naptan_data.py:14-16 | `ACTIVE` and `Act` pass the status test, `inactive` does not |
| Naptan.DropDuplicateNames | scripts/clean_naptan_data.py:26 | no two kept rows share a name and the kept rows are in input order (keep-first: DedupeKeepsFirst, DedupeKeepsEveryName) |
| Naptan.DedupeNamesUnique | scripts/clean_naptan_data.py:26 | no two kept rows share a name |
| Naptan.NamesUniqueCons | scripts/clean_naptan_data.py:26 | a row whose name is new can be put in front of rows with unique names |
| Naptan.DedupeKeepsEveryName | scripts/clean_naptan_data.py:26 | a row whose name is not yet seen keeps a row of that name |
| Naptan.DedupeKeepsFirst | scripts/clean_naptan_data.py:26 | the row kept for a name is its first row |
| Naptan.DedupeIsSubsequence | scripts/clean_naptan_data.py:26 | de-duplication keeps rows in order |
| Naptan.CleanNaptan | scripts/clean_naptan_data.py:7-26 | station names are unique in the output (rows, order and first-kept: the four lemmas below) |
| Naptan.CleanNaptanRows | scripts/clean_naptan_data.py:7-23 | every kept station has a position and an opening year and comes from an RSE/RLY stop with status active/act in any case |
| Naptan.CleanNaptanKeepsEveryName | scripts/clean_naptan_data.py:22-26 | every name that survives the filters keeps a row |
| Naptan.CleanNaptanKeepsFirst | scripts/clean_naptan_data.py:22-26 | the row kept for a name is the first filtered row with that name |
| Naptan.CleanNaptanIsSubsequence | scripts/clean_naptan_data.py:7-26 | the output follows the register's order |
| Outliers.UpperTown | scripts/Outliner_cleaned.py:12 | the town is the upper-cased town, missing stays missing, other columns unchanged |
| Outliers.ApplyCaps | scripts/Outliner_cleaned.py:12-21 | kept rows have all three values, price < 2,000,000 and distance < 20,000 (strict); every such row is kept, in order, as often as it occurs |
| Outliers.InWindow | scripts/Outliner_cleaned.py:24-28 | a missing value is never between the fences; a value between the quartiles always is (the fences: FencesAreInclusive) |
| Outliers.QuartileRangePasses | scripts/Outliner_cleaned.py:24-28 | with Q1 ≤ Q3 every value from Q1 to Q3 passes |
| Outliers.FencesAreInclusive | scripts/Outliner_cleaned.py:24-28 | both fences pass when Q1 ≤ Q3, nothing beyond them does |
| Outliers.IqrFilter | scripts/Outliner_cleaned.py:31-36 | a row is kept iff all three values lie in their windows computed on the capped table; order kept; as many rows as pass |
| Outliers.IqrFilterIsThreeMasks | scripts/Outliner_cleaned.py:31-36 | the combined mask equals the three masks applied in turn, all computed on the capped table |
| Outliers.RemoveOutliers | scripts/Outliner_cleaned.py:11-36 | a row is kept iff it passes the caps and its upper-cased form lies in all three interquartile windows of the capped table; order kept; as many rows as pass |
| Interactions.ParseBusinessCount | scripts/create_interaction_features.py:9 | commas are removed before parsing; a missing cell stays missing |
| Interactions.CommaIgnored | scripts/create_interaction_features.py:9 | a thousands separator does not change the parsed count |
| Interactions.Coerce | scripts/create_interaction_features.py:8-12 | a price or distance is the number in the cell, the parse of its text, or missing; a missing or unparsable count becomes 0 |
| Interactions.AddFeatures | scripts/create_interaction_features.py:17-23 | product column; `near_station` iff distance < 2000; `business_dense` iff count > median; `target_area` iff both |
| Interactions.BitAnd | scripts/create_interaction_features.py:23 | `&` on 0/1 values is 1 iff both are 1 |
| Interactions.NearStationIsStrict | scripts/create_interaction_features.py:21-23 | a distance of exactly 2000 is not near |
| Interactions.TargetAreaMonotone | scripts/create_interaction_features.py:21-23 | moving closer never loses `near_station` or `target_area` |
| Interactions.CreateInteractionFeatures | scripts/create_interaction_features.py:8-23 | output row i is built from the i-th row with price and distance; each output row carries the product column, `near_station` iff distance < 2000, `business_dense` iff count > the median of the kept rows, `target_area` iff both |
| Interactions.FeaturesOfRows | scripts/create_interaction_features.py:17-23 | each feature row is the feature row of one kept row |
| Interactions.OnlyPriceAndDistanceDrop | scripts/create_interaction_features.py:12-14 | a row with price and distance is kept whatever its count, with count 0 if unparsable |
| MapLayers.NormalizePeriod | scripts/map_interactive.py:17 | the normalised group name has no en dash |
| MapLayers.Standardize | scripts/map_interactive.py:12-17 | the row is kept as read; the date is the parse of the cell, missing when the cell is; the group name is normalised |
| MapLayers.CleanMapRows | scripts/map_interactive.py:11-17 | a row is kept iff it has all six fields and a parsed date with year in 2005..2025 inclusive; kept rows have no en dash in the group and come from the input, in order, as many as pass |
| MapLayers.ColorGroup | scripts/map_interactive.py:28-35 | blue iff `Pre → Post`, `Pre` or `Post`; green iff `Control-Station`; orange iff `Control-NoStation`; gray otherwise |
| MapLayers.LabelBackground | scripts/map_interactive.py:37-44 | blue background iff a treated group, green iff `Control-Station`, orange iff `Control-NoStation`, gray otherwise |
| MapLayers.BackgroundFollowsColor | scripts/map_interactive.py:28-44 | two groups share a background iff they share a marker colour |
| MapLayers.NormalizeDashed | scripts/map_interactive.py:17 | a trimmed name with one en dash between two parts becomes the parts joined by a hyphen |
| MapLayers.EnDashNormalised | scripts/map_interactive.py:17 | `Control–Station` with an en dash becomes `Control-Station` |
| MapLayers.EnDashIsGreen | scripts/map_interactive.py:17-35 | `Control–Station` with an en dash is coloured green |
| MapLayers.PaddingNormalised | scripts/map_interactive.py:17-35 | one space on each side of a trimmed name changes neither its normal form nor its colour |
| MapLayers.DashReplacementKeepsTrimmed | scripts/map_interactive.py:17 | replacing the en dash keeps a trimmed name trimmed |
| MapLayers.NormalPeriodIsFixed | scripts/map_interactive.py:17 | a trimmed name without an en dash is unchanged |
| MapLayers.NormalizePeriodIdempotent | scripts/map_interactive.py:17 | normalising twice equals normalising once |
| MapLayers.LabelsAreNormal | scripts/map_interactive.py:17 | the five period labels pass through the normalisation unchanged |
| MapLayers.PeriodColours | scripts/map_interactive.py:17-35 | every period label gets its intended colour: `Pre`/`Post` blue, `Control-Station` green, `Control-NoStation` orange, `Unknown` gray |
| MapLayers.SizeTier | scripts/map_interactive.py:54-62 | the size is 3, 5, 7 or 9; 3 iff price ≤ q1; 9 iff above all three |
| MapLayers.SizeIsMonotone | scripts/map_interactive.py:54-62 | with q1 ≤ q2 ≤ q3 the size never decreases with the price |
| MapLayers.SizeBands | scripts/map_interactive.py:54-62 | with ordered quartiles, 5 iff q1 < price ≤ q2 and 7 iff q2 < price ≤ q3 |
| MapLayers.SizeOf | scripts/map_interactive.py:54-62 | a missing price compares false everywhere and gets size 9 |
| MapLayers.SampleSize | scripts/map_interactive.py:20 | a town contributes min(its row count, 2000) rows |
| MapLayers.FeatureOf | scripts/map_interactive.py:53-80 | a marker has the row's longitude, latitude and date, one of the four legend colours (blue iff a treated group) and a radius of 3, 5, 7 or 9 (9 for a missing price) |
| MapLayers.FeaturesOfDatedRows | scripts/map_interactive.py:47-91 | with every date present there is one feature per row, carrying that row's position, date, colour and size |
| MapLayers.BuildFeatures | scripts/map_interactive.py:47-91 | the loop yields the features of the sample in order, skipping rows without a date |
| MapLayers.MapInteractive | scripts/map_interactive.py:11-91 | for a town sample of the cleaned rows, one feature per sampled row, with its position, colour, size against the cleaned quartiles and date |

## Left out

- CSV reading and writing, `os.makedirs`, `os.listdir` and every `print`
  summary are file-system and console I/O. The folder listing is an input
  sequence of files, in listing order.
- Geodesic distance is a parameter, a function of the two positions that
  gives `None` where the library raises (a latitude outside [-90, 90], a
  non-finite coordinate); which inputs make it raise is not modelled.
- The pyproj EPSG:27700 to EPSG:4326 conversion is a parameter.
- Text parsing by `to_datetime` and `to_numeric` is a parameter returning an
  `Option`.
- Quantiles and the median are parameters applied to the column they are
  computed from. Winsorisation and `log1p` (`scripts/Outliner_cleaned.py:38-46`,
  `scripts/create_interaction_features.py:18`) are floating-point library
  numerics and are not modelled.
- Floating point in general: prices, distances and counts are reals, so NaN
  appears only as a missing value.
- `MapLayers.IsTownSample`: only what line 20 promises of its random draw is
  stated: rows of the cleaned table, none drawn more often than it occurs,
  none without a town, and per town the sample count. Which rows
  `random_state=42` picks is not modelled.
- The folium map, the popup HTML and the later marker loops
  (`scripts/map_interactive.py:82-176`) are not modelled. A feature keeps
  position, time, colour and radius.
- `Text.Upper`, `Text.Lower`: case mapping covers ASCII letters only, not
  Unicode case folding.
- `NearestStation.NearestStationDistance`: ties between equally near stations
  are not distinguished, since only the distance is returned.
- The exploratory, regression, counterfactual and plotting scripts, and
  `postcode_with_nearest_station.py` and `real_price.py`, are not part of this
  model.

## Findings

| source | as written | input that shows it | evidently intended | confidence | as-written member | corrected member |
|---|---|---|---|---|---|---|
| scripts/merge_codepoint_latlon.py:54-55 | `isna().sum().sum()` over Latitude and Longitude, printed as "Properties missing lat/lon: N rows" | one merged row with neither coordinate: the message reports 2 rows | the number of property rows missing a coordinate (1 here) | not executed; follows from pandas summing per-column counts | CodePoint.MissingCoordinateCells (with CodePoint.CellsAreNotRows) | CodePoint.RowsMissingCoordinates (with CodePoint.RowsAndCells; reported by CodePoint.MergeCodePointLatLon) |
