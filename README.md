# vegetation-restoration-monitoring: response tabulation in Dafny

This project models the two functions of `vegrestoretools` that turn remote-sensing
service responses into tables, plus the evaluation-script lookup beside them.
It proves what those tables hold.

- `FisToDataframe` (`rs_tools.py`) walks a list of Sentinel Hub FIS (Feature Info
  Service) responses.
  - Each response maps channel names to lists of statistics records.
  - A `C0` record becomes a five-cell row: the parsed date, then `min`, `max`,
    `mean` and `stDev`.
  - A `C1` record becomes a one-cell cloud row holding its mean.
  - A record of any other channel becomes a one-cell snow row holding its mean.
  - The three lists are glued side by side by position (`pd.concat(axis=1)`).
- `EvalScripts` (`rs_tools.py`) returns the fixed evaluation script for a known
  algorithm-and-sensor name.
- `GeeArrayToDf` (`gee_tools.py`) turns an Earth Engine `getRegion` array into a
  table. In order:
  - row 0 becomes the header;
  - longitude, latitude, time and the bands are selected;
  - rows with a missing selected cell are dropped;
  - the bands are coerced to numbers, and text that does not parse becomes missing;
  - a `datetime` column is derived from `time`;
  - `time`, `datetime` and the bands are kept.

## Files and modules

- `frames.dfy`, module `Frames`, holds the shared parts:
  - the pandas frame, seen as column labels plus rows of cells;
  - a cell: `Missing` (None/NaN), a number, text, or a point in time;
  - the Python exceptions, as an `Error` datatype in a `Result`;
  - label lookup (`IndexOf`) and boolean-mask positions (`Positions`).
- `rs_tools.dfy`, module `RsTools`:
  - `FisToDataframe` is a method with the source's three nested loops and its
    three accumulator lists.
  - It is proved equal to the functional specification `FisTable`.
  - `FisTable` is defined by routing every record through `Feed`.
  - `EvalScripts` is a function.
- `gee_tools.dfy`, module `GeeTools`:
  - `GeeArrayToDf` is a method that rebinds its frame step by step, like the
    source, and coerces the bands in a loop.
  - It is proved equal to the specification `RegionTable`.
  - The lemmas after that state what a returned table holds.

Each foreign call is a function-valued parameter, so every result is stated for
any behaviour of the parser:

- `sentinelhub.time_utils.parse_time` is `parseTime`;
- the string parsing of `pd.to_numeric` is `numeric`;
- the per-value conversion of `pd.to_datetime(unit='ms')` is `toDatetime`.

A Python exception is an `Err` value naming its kind:

- `KeyError` for a missing dict key or column label;
- `IndexError` for `iloc[0]` on an empty frame;
- `UnboundLocalError` for a local variable that was never assigned;
- a `parse_time` failure;
- the `TypeError` that `pd.to_numeric` raises when a repeated label hands it a
  frame rather than a column;
- a `pd.to_datetime` failure.

### Rows of every response are kept

- `data`, `clm_data` and `snw_data` are created once, before the loop over
  responses (`rs_tools.py:27-29`).
- They are never cleared.
- `output_df` is rebuilt from all of them after each response (`rs_tools.py:60-65`).

So the returned table holds the rows of every response, not only the last.
`EveryResponseCounts` and `ResponsesInOrder` state this.

## Model

| member | source | states |
|---|---|---|
| Frames.IndexOf | vegrestoretools/gee_tools.py:30 | selecting a label finds nothing exactly when it is absent; otherwise it finds the first column carrying that label |
| Frames.Positions | vegrestoretools/gee_tools.py:30 | the rows a boolean mask keeps: in bounds, flagged, strictly increasing (order kept), and every flagged row is among them |
| Frames.UniqueIndex | vegrestoretools/gee_tools.py:34 | a label that occurs once selects the column where it occurs |
| RsTools.StatCells | vegrestoretools/rs_tools.py:43-44 | the statistics lookups succeed exactly when the record has `basicStats` holding every key; the cells are those values in key order |
| RsTools.StatCellsStopsAtError | vegrestoretools/rs_tools.py:43-44 | once a lookup raises, the later columns are never looked up: the error is the first failing lookup's |
| RsTools.KindOf | vegrestoretools/rs_tools.py:40-54 | `C0` feeds the band-ratio list, `C1` the cloud list, and every other channel the snow list |
| RsTools.BasicStat | vegrestoretools/rs_tools.py:44-56 | `stat['basicStats'][key]` succeeds exactly when `basicStats` exists and holds the key, giving its value. Otherwise it is a KeyError naming `basicStats` or the key, whichever lookup misses first. |
| RsTools.DataRow | vegrestoretools/rs_tools.py:22-45 | a `C0` record yields a row exactly when it has a date that parses and `basicStats` with min, max, mean and stDev; the row is the parsed date, then min, max, mean, stDev in that order |
| RsTools.BuildDataRow | vegrestoretools/rs_tools.py:42-45 | the row-building loop (date first, then one append per statistics column) returns exactly the `C0` row, or the first lookup's error |
| RsTools.MeanRow | vegrestoretools/rs_tools.py:48-57 | a `C1` or snow record yields a row exactly when `basicStats['mean']` exists; the row is that single mean |
| RsTools.Route | vegrestoretools/rs_tools.py:37-57 | dispatching one record succeeds exactly when its row, chosen by channel, can be built |
| RsTools.RouteRows | vegrestoretools/rs_tools.py:40-57 | dispatching a record appends its row to the list of its channel kind and leaves the other two lists unchanged |
| RsTools.Feed | vegrestoretools/rs_tools.py:33-57 | processing records in order, stopping at the first error, adds exactly one row per record when it succeeds |
| RsTools.Combine | vegrestoretools/rs_tools.py:60-65 | the concatenated table has the seven labels date, min, max, mean, stDev, clm_mean, snw_mean and as many rows as the longest list |
| RsTools.FisTable | vegrestoretools/rs_tools.py:33-67 | an empty response list fails with `output_df` unbound; a returned table has the seven concatenated labels |
| RsTools.FisToDataframe | vegrestoretools/rs_tools.py:1-67 | the nested loops over responses, channels and records, with lists that are never reset and the table rebuilt after each response, return exactly `FisTable`, or the first error raised |
| RsTools.FeedOkIff | vegrestoretools/rs_tools.py:33-57 | processing records succeeds if and only if every record's row can be built |
| RsTools.FeedAppends | vegrestoretools/rs_tools.py:27-57 | processing records keeps each list's earlier rows and appends one row per record of that kind, equal to that record's row, in record order |
| RsTools.OfKindAppend | vegrestoretools/rs_tools.py:33-37 | the records of one kind in a concatenation are those of the first part, then those of the second |
| RsTools.StatCountIsOfKind | vegrestoretools/rs_tools.py:27-57 | the records of a kind are as many as the stats in channels of that kind, summed over all responses |
| RsTools.EntriesAppend | vegrestoretools/rs_tools.py:27-37 | the records of two response lists are those of the first list followed by those of the second: nothing is reset between responses |
| RsTools.GroupIsSlots | vegrestoretools/rs_tools.py:27-57 | starting from empty lists, each list holds exactly the rows of the records of its kind, in order |
| RsTools.FisTableRows | vegrestoretools/rs_tools.py:60-65 | the returned table has as many rows as the largest per-kind record count; row i is the i-th data row, the i-th cloud mean and the i-th snow mean, matched by position alone and padded with missing cells |
| RsTools.FisTableOkIff | vegrestoretools/rs_tools.py:33-67 | a table is returned if and only if the response list is not empty and every record's row can be built |
| RsTools.EveryResponseCounts | vegrestoretools/rs_tools.py:27-65 | each response, not only the last, contributes its rows: the table has at least as many rows as any one response has records of one kind |
| RsTools.StatCountCovers | vegrestoretools/rs_tools.py:27-33 | the total over all responses is at least the count of any one response |
| RsTools.ResponsesInOrder | vegrestoretools/rs_tools.py:33-37 | rows are ordered by response, then channel, then record: splitting the response list splits each kind's records the same way |
| RsTools.EvalScripts | vegrestoretools/rs_tools.py:84-91 | a script is returned exactly for `Sentinel_2_NDVI` and `Landsat_8_NDVI`; any other name fails with `evalscript` unbound |
| RsTools.EvalScriptsBands | vegrestoretools/rs_tools.py:84-89 | the two names return their exact script strings; the Sentinel-2 script uses B08 and B04 and returns CLM and SNW; the Landsat-8 script uses B05 and B04 |
| GeeTools.Locate | vegrestoretools/gee_tools.py:30 | the wanted columns are found exactly when every label is in the header; each position is that label's first column; a failure is a KeyError naming an absent wanted label |
| GeeTools.Select | vegrestoretools/gee_tools.py:30 | `df[names]` succeeds exactly when every label is a column. It fails with a KeyError naming an absent label. The result has the labels in the order named, and each cell comes from that label's first column in the same row. |
| GeeTools.DropMissing | vegrestoretools/gee_tools.py:30 | `dropna` keeps the columns; every kept row is a row of the frame with no missing cell, and every such row is kept |
| GeeTools.ToNumeric | vegrestoretools/gee_tools.py:34 | `to_numeric(errors='coerce')` on one cell: text that parses becomes that number, text that does not becomes missing without raising, and any other cell is unchanged |
| GeeTools.CoerceColumn | vegrestoretools/gee_tools.py:34 | coercing a column changes the cells of that column only, each by `ToNumeric`, and keeps the labels and row count |
| GeeTools.ToDatetime | vegrestoretools/gee_tools.py:37 | the conversion is all-or-nothing: it succeeds exactly when every row's value converts, and each stamp is the conversion of its own row's value |
| GeeTools.Assign | vegrestoretools/gee_tools.py:37 | `df[label] = col` reuses the column with that label or appends one. In each full row the column holds the new value, and every other cell is unchanged. |
| GeeTools.RegionTable | vegrestoretools/gee_tools.py:23-42 | the whole call fails on its header exactly when the array is empty. A returned table is labelled time, datetime and the bands, has at most len(arr) - 1 rows, and each row has 2 + N cells. |
| GeeTools.Kept | vegrestoretools/gee_tools.py:26-30 | `dropna` keeps at most as many rows as the array has data rows, each with every selected cell present |
| GeeTools.GeeArrayToDf | vegrestoretools/gee_tools.py:1-42 | the method is equal to `RegionTable` for all inputs. It takes header row 0, selects, drops, coerces each band in a loop, assigns the datetime column and selects the output columns. |
| GeeTools.CoerceStep | vegrestoretools/gee_tools.py:33-34 | coercing the next band extends the coerced prefix of every row by that band and touches no other cell |
| GeeTools.SelectThenDrop | vegrestoretools/gee_tools.py:26-30 | selecting the wanted labels from the data rows and dropping incomplete rows gives the rows the mask keeps, restricted to the wanted columns |
| GeeTools.RepeatedLabel | vegrestoretools/gee_tools.py:30-34 | a band that repeats a wanted label makes the call fail with a TypeError |
| GeeTools.DistinctWanted | vegrestoretools/gee_tools.py:30-34 | once no band repeats a label, the wanted labels are pairwise distinct |
| GeeTools.KeptTime | vegrestoretools/gee_tools.py:33-37 | coercing the bands leaves each row's time cell as it was in the array |
| GeeTools.DatetimeFails | vegrestoretools/gee_tools.py:37 | one kept row whose time does not convert makes the whole call fail |
| GeeTools.AssignDatetime | vegrestoretools/gee_tools.py:37 | assigning `datetime` overwrites a column with that label or appends one; the labels stay distinct and the other cells are unchanged |
| GeeTools.OutputRow | vegrestoretools/gee_tools.py:37-40 | for one row, the final selection is time, then datetime, then the coerced bands; a band named `datetime` holds the derived value |
| GeeTools.OutputColumns | vegrestoretools/gee_tools.py:40 | the output labels select time, the datetime column, then each band's column |
| GeeTools.Finish | vegrestoretools/gee_tools.py:37-40 | assigning the datetime column and then selecting the output columns gives exactly the specified table |
| GeeTools.SelectedRows | vegrestoretools/gee_tools.py:37-40 | row by row, the selected output cells are the specified output rows |
| GeeTools.SurvivorsMember | vegrestoretools/gee_tools.py:27-30 | a row survives if and only if it is a data row whose longitude, latitude, time and band cells are all present |
| GeeTools.SurvivorsAppend | vegrestoretools/gee_tools.py:30 | surviving rows keep their relative order: filtering a concatenation concatenates the filtered parts |
| GeeTools.SurvivorsAreKept | vegrestoretools/gee_tools.py:26-30 | the rows `dropna` keeps are exactly those of the independent row filter `Survivors` |
| GeeTools.KeptStep | vegrestoretools/gee_tools.py:30 | one more data row adds itself to the kept rows exactly when its selected cells are all present |
| GeeTools.RegionTableRows | vegrestoretools/gee_tools.py:26-40 | a returned table has 2 + N columns named time, datetime and the bands. It has one row per survivor, in order, at most len(arr) - 1 of them. Row k has the survivor's time (present), the datetime derived from that time alone, then each band coerced. |
| GeeTools.SurvivorRow | vegrestoretools/gee_tools.py:33-40 | the output row of one surviving row: its time unchanged, the datetime of that time, the coerced bands |
| GeeTools.RegionTableErrors | vegrestoretools/gee_tools.py:26-34 | an empty array fails on its header (IndexError) and only then. A KeyError happens exactly when a wanted label is absent, and it names such a label. A TypeError happens exactly when every label is present but the wanted labels repeat. |
| GeeTools.RegionTableDatetimeError | vegrestoretools/gee_tools.py:30-37 | once the labels are found and distinct, the call fails on the datetime conversion exactly when some surviving row's time does not convert |
| GeeTools.UnselectedColumnsIgnored | vegrestoretools/gee_tools.py:30 | cells in unselected columns never change the result: same header and same selected cells give the same table or the same error |
| GeeTools.SameSelectedRows | vegrestoretools/gee_tools.py:30-40 | rows that agree on the selected cells convert alike and give the same output rows |
| GeeTools.UnparsedBandSurvives | vegrestoretools/gee_tools.py:30-34 | the filter runs before the coercion: a complete data row whose band text does not parse is itself one of the surviving rows. Its output row has the same time and a missing cell for that band. |

## Left out

- The FIS and Earth Engine services that produce the inputs. These are network
  clients; the model takes their responses as values.
- `parse_time`, the string parsing of `pd.to_numeric`, and `pd.to_datetime` with
  `unit='ms'` are foreign code. Each is an arbitrary function-valued parameter,
  so nothing is assumed about what they accept.
  - `pd.to_datetime` is all-or-nothing over the column. One value that does not
    convert fails the call.
- Floating point:
  - statistics and band values are mathematical reals, and no arithmetic is done on them;
  - NaN and None are the single `Missing` cell;
  - pandas dtype inference is not modelled.
- `pd.concat` padding of shorter frames with missing cells is taken as pandas'
  documented behaviour. It is not derived from pandas.
- A response dict is a sequence of channel items in its iteration order.
  Uniqueness of dict keys is not enforced, so the model also covers sequences
  that repeat a channel name.
- Repeated labels in the header row of a `getRegion` array are left out. pandas
  would select every column with that label; the model selects the first.
- The unused counter `i = 0` (`rs_tools.py:35`) and the commented-out Landsat
  script (`rs_tools.py:88`) have no effect and are not modelled.
- Cloud and snow filtering, grouping and averaging, and bounding-box
  construction are not part of this model.
- GeeTools.Locate: the error contract says the KeyError names an absent wanted
  label. It does not say that label is the first absent one, which is what the
  function computes. pandas' own message lists every absent label.
- GeeTools.RegionTableErrors: the same weakening. The KeyError is stated to name
  some absent wanted label, not all of them.
