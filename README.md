# AquiferPulse ASI — a Dafny model

AquiferPulse turns three monthly per-basin signals into an Aquifer Stress Index (ASI) and serves it over HTTP. The signals are GRACE terrestrial water storage anomaly (`twsa`), ERA5 soil moisture (`sm`) and IMERG rainfall (`rain`, or a rain deficit `rain_def`). This project models the two halves of its core:

- **The batch pipeline** (`scripts/compute_asi.py`):
  - which source frames are usable;
  - the outer merge on (basin, month);
  - per-basin population z-scores and the sign rule between `rain_z` and `rain_def_z`;
  - the weight-renormalised composite and its classification;
  - the sort by (basin, month);
  - choosing the latest month that has coverage;
  - joining that month onto the basin geometries.
- **The query layer** (`app/main.py`):
  - `_r`;
  - the latest snapshot with its all-`no-data` fallback;
  - `geojson_for_date`;
  - the ranking (`asi_top10`) and the summary (`asi_summary`);
  - the three scans of `asi_table.csv`: latest date, date range and history.

Modules, one per file:

| module | models |
|---|---|
| `Wrappers` | `Option` and `Result` |
| `Text` | `str.strip`, `str.lower`, `str.split`, and Python's string order |
| `Dates` | `_to_month` (month truncation), `%Y-%m-%d` formatting, and the `strptime` month normalisation of the query layer |
| `Numbers` | `round(x, 3)` (round half to even) and `float()` on decimal numerals |
| `Stats` | mean, population variance and the z-score of `_z_by_basin` |
| `Scoring` | weights, thresholds, `_classify` and the renormalised composite |
| `Features` | GeoJSON features and their properties |
| `Frames` | the raw sources, frame selection and the outer merge |
| `Table` | the sort, the per-row scores and the output rows |
| `Snapshot` | coverage selection and the snapshot join of `main` |
| `Compute` | `main` end to end |
| `Query` | CSV rows, `_r` and the HTTP errors |
| `Geojson` | `latest_geojson` and `geojson_for_date` |
| `Ranking` | `asi_top10` |
| `Summary` | `asi_summary` |
| `Scans` | `asi_latest_date`, `asi_date_range` and `asi_history` |

Files and other foreign code become parameters:

- The parsed CSV inputs become `RawTable` values.
- The parsed `asi_table.csv` becomes an `Option<seq<CsvRow>>` (`None` when the file does not exist).
- The prebuilt latest snapshot becomes an `Option<seq<Feature>>`.
- The basin geometries become an `array<Feature>`, updated in place as the source's `p.update` does.
- `numpy`'s square root becomes a function parameter `sqrt` constrained by `IsSqrt`.
- Numbers are exact reals.

The model follows the code where it departs from the repository's documented intent:

- **The composite uses `rain_z`** (`scripts/compute_asi.py:97-101`), weighted 0.2 like the other rainfall terms. It never uses `rain_def_z`.
- **The persisted table is not rounded** (`scripts/compute_asi.py:116-118`). Rounding to three decimals happens only in `_r`, when a value is joined onto a feature or served.
- **A month parameter is judged on its first seven characters only** (`app/main.py:69`). Anything after them is ignored, so "2021-07-garbage" is accepted. Python's `strptime` also accepts a one-digit month ("2021-7"). `Dates.NormaliseMonth` models both.
- **A missing `basin_id` column fails with a 500.** When a row of the requested month lacks a `basin_id` column, `r["basin_id"]` raises `KeyError` (`app/main.py:81`), which FastAPI turns into an internal error.

## Model

| member | source | states |
|---|---|---|
| Dates.ToMonth | scripts/compute_asi.py:25-27 | a date parses exactly when it is `YYYY-MM-DD` or `YYYY-MM`, and its month start formats back to the same `YYYY-MM` |
| Dates.SameMonthSamePrefix | scripts/compute_asi.py:25-27 | two parsable dates fall in the same month iff their first seven characters agree |
| Dates.ToMonthFormat | scripts/compute_asi.py:117 | parsing the `%Y-%m-%d` rendering of a month start gives that month back |
| Dates.NormaliseMonth | app/main.py:68-72 | it fails (the 400) exactly when `date[:7]` is neither `YYYY-MM` nor `YYYY-M` with a year from 1 and a month from 1 to 12; otherwise it is the first day of that month, written `YYYY-MM-DD` as the table writes dates |
| Dates.ShortMonthPadded | app/main.py:69 | a one-digit month `YYYY-M` gives the same target as `YYYY-0M` |
| Dates.NormaliseFirstSeven | app/main.py:69 | only the first seven characters of the parameter decide the month |
| Dates.MonthAndFirstDayAgree | app/main.py:68-70 | `YYYY-MM` and `YYYY-MM-01` both normalise to `YYYY-MM-01` |
| Dates.NormaliseIdempotent | app/main.py:68-70 | normalising a normalised date changes nothing |
| Dates.NormaliseTableDate | scripts/compute_asi.py:117 | every date the pipeline writes is accepted by the query layer as its own month |
| Stats.VarianceZeroIff | scripts/compute_asi.py:31-32 | the population variance is non-negative, and zero exactly when all values are equal |
| Stats.ZScorePresentIff | scripts/compute_asi.py:29-33 | a z-score exists iff the value is present and the basin's values are not all equal |
| Stats.StandardScoresCentred | scripts/compute_asi.py:32 | the standard scores of a non-constant basin have mean zero |
| Scoring.Classify | scripts/compute_asi.py:35-39 | `no-data` iff the ASI is missing; `alert` iff ASI <= -1.0; `watch` iff -1.0 < ASI <= -0.5; `normal` above that |
| Scoring.ClassifyMonotone | scripts/compute_asi.py:35-39 | severity never increases as the ASI increases |
| Scoring.ClassifyBoundaries | scripts/compute_asi.py:16 | -1.0 is `alert` and -0.5 is `watch`: both tiers are closed at the top |
| Scoring.LabelInjective | scripts/compute_asi.py:36-39 | the four class labels are distinct |
| Scoring.Negate | scripts/compute_asi.py:88 | negation keeps a missing score missing and a present one adds to zero with its negation |
| Scoring.CompositeIsWeightedMean | scripts/compute_asi.py:96-106 | the zero-filled weighted sum divided by the present weights is the weighted mean over the present components only |
| Scoring.ComponentSums | scripts/compute_asi.py:103-105 | the masked weight sum and the zero-filled numerator equal those of the present components |
| Scoring.CompositeMissingIff | scripts/compute_asi.py:106 | the ASI is missing iff all three scores are missing |
| Scoring.CompositeBetween | scripts/compute_asi.py:96-106 | the ASI lies between any bounds that hold for every present score |
| Scoring.CompositeAllPresent | scripts/compute_asi.py:15 | with all three scores present the ASI is `0.4 t + 0.4 s + 0.2 r` |
| Scoring.CompositeWithoutRain | scripts/compute_asi.py:96-106 | without rainfall the weights renormalise to 1/2 and 1/2 |
| Scoring.CompositeSingle | scripts/compute_asi.py:96-106 | a single present score is the ASI itself |
| Frames.RainColumn | scripts/compute_asi.py:60-65 | `rain` is chosen when the IMERG table is non-empty and has it; `rain_def` only when `rain` is absent; otherwise no rain column |
| Frames.Harmonise | scripts/compute_asi.py:51-52 | a frame keeps every row, with its basin, its month and its signal's cell |
| Frames.CollectFrames | scripts/compute_asi.py:47-72 | fails with no usable source exactly when no frame qualifies, fails when IMERG lacks its key columns, and otherwise returns the usable frames in grace, era5, imerg order |
| Frames.UsableFramesSpec | scripts/compute_asi.py:50-69 | each signal is in the frame list iff its source is usable; no signal appears twice; each frame is its source harmonised |
| Frames.OuterMerge | scripts/compute_asi.py:77 | the merged keys are the union of both sides; the new signal comes from the frame and every other signal is unchanged, or missing on new keys |
| Frames.MergeStep | scripts/compute_asi.py:76-77 | one outer merge keeps the merged invariant of all frames so far |
| Frames.MergedTableMerged | scripts/compute_asi.py:75-77 | folding outer merges over frames with distinct signals yields a table that is the union of all keys, each slot read from its frame |
| Frames.MergeKeepsRows | scripts/compute_asi.py:75-77 | every row of every frame survives the merge with its value in its signal's slot |
| Frames.UnionKeysMember | scripts/compute_asi.py:77 | a key is in the merged table iff it is in some frame |
| Frames.LookupUnique | scripts/compute_asi.py:77 | with unique keys a frame's row is found again by its key |
| Frames.MergeFrames | scripts/compute_asi.py:74-77 | the merge loop computes the merged table: all keys of all frames, each signal from its frame, absent signals missing |
| Table.SortKeys | scripts/compute_asi.py:111 | the keys come out strictly ordered by (basin_id, date), each key exactly once |
| Table.SortedUnique | scripts/compute_asi.py:111 | there is only one strictly sorted order of a set of keys |
| Table.InsertSorted | scripts/compute_asi.py:111 | inserting a key keeps the sequence strictly sorted and adds exactly that key |
| Table.KeyLessTransitive | scripts/compute_asi.py:111 | the (basin_id, date) order is transitive |
| Table.KeyLessTotal | scripts/compute_asi.py:111 | any two different keys are ordered one way or the other |
| Table.ScoreTable | scripts/compute_asi.py:79-108 | the i-th output row is the scored row of the i-th key |
| Table.ScoredRowsOrdered | scripts/compute_asi.py:111 | rows scored from sorted keys are in (basin_id, date) order |
| Table.RainSign | scripts/compute_asi.py:86-94 | `rain_def_z == -rain_z` on every row; the source column is standardised and the other is its negation; both are missing without a rain column |
| Table.RowAsi | scripts/compute_asi.py:96-108 | each row's ASI is the weighted mean of its present scores, missing iff all are, and its class is `_classify` of it |
| Table.ZPresentIff | scripts/compute_asi.py:29-33 | a row's score is present iff its value is and its basin's values for that signal are not all equal |
| Table.BasinValuesHas | scripts/compute_asi.py:33 | a row's own value is among its basin's values |
| Table.ScoreLocal | scripts/compute_asi.py:33 | a row's scores depend only on its own basin's rows: changing another basin changes nothing |
| Compute.UsableFramesUnique | scripts/compute_asi.py:47-69 | frames cut from sources with unique keys have unique keys and distinct signals |
| Compute.MergedKeepsAll | scripts/compute_asi.py:75-77 | every value of every usable frame is in the merged table under its key |
| Compute.SourceTableSpec | scripts/compute_asi.py:47-77 | the merged table's keys are the union of the usable frames', and each source value sits in its slot |
| Compute.MergeSources | scripts/compute_asi.py:47-77 | the two fatal errors exactly as `CollectFrames`; otherwise the merged table of the usable frames and the rain column |
| Compute.BuildTable | scripts/compute_asi.py:47-111 | the two fatal errors exactly; otherwise rows in (basin_id, date) order, one per merged key and no other, each the scored row of its key |
| Compute.ScoredRowKeys | scripts/compute_asi.py:111-116 | the output rows carry the sorted keys in order |
| Compute.ComputeAsi | scripts/compute_asi.py:41-146 | it fails with a missing key column or with no usable source exactly in BuildTable's cases, and then the geometries are untouched; otherwise the table is ordered by (basin, month), has one row per merged key with that key's scores, and each feature is joined with the coverage month's rows |
| Snapshot.LatestMonth | scripts/compute_asi.py:125 | the chronologically greatest month among the eligible rows, and none iff no row is eligible |
| Snapshot.CoverageMonthSpec | scripts/compute_asi.py:121-125 | the latest month with a numeric ASI when one exists; otherwise the latest month at all; none iff no row has a month |
| Snapshot.LatestRows | scripts/compute_asi.py:126 | exactly the rows of the chosen month |
| Snapshot.MonthString | scripts/compute_asi.py:127 | the month start as `%Y-%m-%d`, none for no month |
| Snapshot.ById | scripts/compute_asi.py:131 | one entry per basin id of the rows, each a row of that basin |
| Snapshot.RoundScoreNegate | scripts/compute_asi.py:139-140 | rounding keeps `rain_def_z == -rain_z` in the snapshot |
| Snapshot.JoinUnmatched | scripts/compute_asi.py:144-146 | a basin without a row gets the latest month, missing scores and `no-data` |
| Snapshot.JoinMatched | scripts/compute_asi.py:136-143 | a matched basin gets its row's ASI within 0.0005, its class label, a name (falling back to the basin id) and opposite rain scores |
| Snapshot.JoinDate | scripts/compute_asi.py:127-146 | every joined feature carries the chosen month's date |
| Snapshot.JoinSnapshot | scripts/compute_asi.py:131-146 | every feature's properties are replaced by the join with its row, nothing else changes |
| Text.Strip | app/main.py:35 | the result has no surrounding whitespace and is the input with only whitespace removed from both ends |
| Text.StripIdempotent | app/main.py:135 | stripping twice is stripping once |
| Text.SplitJoin | app/main.py:135 | joining the pieces of a split with the separator gives the string back |
| Text.LexTransitive | app/main.py:177 | Python's string `<` is transitive |
| Text.LexTotal | app/main.py:191-192 | Python's string `<` is total |
| Numbers.Round3 | app/main.py:37 | `round(x, 3)` is a multiple of 0.001 within 0.0005 of x |
| Numbers.Round3Idempotent | app/main.py:37 | rounding a rounded value changes nothing |
| Numbers.Round3Monotone | app/main.py:37 | rounding keeps order |
| Numbers.Round3Odd | app/main.py:37 | rounding commutes with negation (round half to even) |
| Numbers.ParseDecimalDigits | app/main.py:37 | `float()` reads a zero-padded numeral and its negation as that number |
| Query.Get | app/main.py:79 | `row.get(column)` is present iff the column exists and the field holds a value |
| Query.R | app/main.py:31-39 | None for null, for blank/"none"/"nan" in any case and padding, and for text `float()` rejects; otherwise the value within 0.0005 |
| Query.RIdempotent | app/main.py:31-39 | `_r` of an `_r` result is that result |
| Query.RWholeNumber | app/main.py:31-39 | a field holding a whole number is read as that number |
| Query.RNumeral | app/main.py:35-37 | a numeral is not blank and is read as its rounded value |
| Query.NoHistory | app/main.py:212 | 404 whose detail is "No history for basin_id=" followed by the id |
| Geojson.LatestSnapshot | app/main.py:42-57 | the prebuilt snapshot when there is one; otherwise one feature per basin |
| Geojson.LatestFallbackNoData | app/main.py:51-57 | the fallback keeps every basin's shape and name and sets no date, missing scores and `no-data` |
| Geojson.LatestGeojson | app/main.py:42-57 | returns the latest snapshot; the geometries are changed only on the fallback and are then what is returned |
| Geojson.MonthRows | app/main.py:75-80 | every kept row is a table row whose date equals the target, and every such row is kept |
| Geojson.MonthRowsInOrder | app/main.py:75-80 | the k-th kept row is the k-th row of the month in table order, and there are as many as the month has |
| Geojson.CsvById | app/main.py:81 | one entry per basin id among the rows, each a row of that basin |
| Geojson.LastIndexFor | app/main.py:81 | the last row matching the month and basin, or none iff no row does |
| Geojson.ByIdIsLastRow | app/main.py:81 | the dict comprehension keeps the last row of each basin |
| Geojson.DateSnapshot | app/main.py:59-99 | on success, one feature per basin |
| Geojson.DateSnapshotErrors | app/main.py:64-72 | 404 when the table is missing, checked before the 400 for an unparsable date; any other error comes from a month row without a basin_id column |
| Geojson.MonthFormsAgree | app/main.py:67-70 | `YYYY-MM` and `YYYY-MM-01` give the same answer |
| Geojson.FirstSevenDecide | app/main.py:69 | characters after the seventh do not change the answer |
| Geojson.DateSnapshotShape | app/main.py:84-98 | every feature keeps its shape and carries the normalised month |
| Geojson.DateSnapshotUnmatched | app/main.py:96-98 | a basin with no row that month gets missing scores and `no-data` |
| Geojson.DateSnapshotMatched | app/main.py:87-95 | a basin gets its last row's scores through `_r`, its class as written and a name |
| Geojson.CollectMonthRows | app/main.py:75-80 | the reading loop collects exactly the month's rows |
| Geojson.GeojsonForDate | app/main.py:59-99 | answers the month's snapshot; on success the geometries are that snapshot, on error untouched |
| Geojson.Collection | app/main.py:136 | no date, or an empty one, means the latest snapshot; any other date means the month's snapshot |
| Geojson.FeaturesFor | app/main.py:136 | answers the collection the endpoint ranks or summarises |
| Ranking.RankId | app/main.py:143 | the basin id when present and non-empty, the feature id otherwise |
| Ranking.Entry | app/main.py:142-148 | an entry's ASI is `_r` of the feature's numeric ASI |
| Ranking.Candidates | app/main.py:137-148 | every entry is that of a feature with a numeric ASI, and every such feature has its entry |
| Ranking.CandidatesInOrder | app/main.py:137-148 | the k-th entry is the entry of the k-th feature with a numeric ASI, one per such feature |
| Ranking.ParseClasses | app/main.py:135 | the wanted classes are exactly the non-empty stripped comma-separated pieces (both directions), and each is non-empty, comma-free and stripped |
| Ranking.KeepClasses | app/main.py:149-150 | no filter for an empty set; otherwise only entries whose class is wanted, all of them, each kept at most as often as it occurs |
| Ranking.KeepClassesInOrder | app/main.py:149-150 | the k-th kept entry is the k-th entry that passes the filter, one per such entry |
| Ranking.SortByAsi | app/main.py:151 | sorted by ASI and a permutation of its input |
| Ranking.SortStable | app/main.py:151 | entries with equal ASI keep their order |
| Ranking.RankedTies | app/main.py:133-152 | the returned entries with a given ASI are a prefix of the filtered candidates with that ASI, in feature order |
| Ranking.Take | app/main.py:152 | a prefix of at most `max(0, limit)` entries, all of them when there are fewer |
| Ranking.RankedSpec | app/main.py:133-152 | at most `max(0, limit)` entries, ascending ASI, only numeric features, only wanted classes when any is named |
| Ranking.RankedSmallest | app/main.py:151-152 | a kept entry left out means the list is full and every shown ASI is at most its ASI |
| Ranking.RankFeatures | app/main.py:137-152 | the candidate loop, filter, sort and cut compute the ranking |
| Ranking.Top10 | app/main.py:133-152 | the collection's errors pass through; otherwise its ranking |
| Summary.ClassOf | app/main.py:157 | the class, `no-data` when absent |
| Summary.BumpSpec | app/main.py:158 | one more occurrence adds one to exactly that class's count |
| Summary.TallySpec | app/main.py:158 | `Counter` counts each class exactly, has one entry per class present and no other, and the counts sum to the number of features |
| Summary.AsOf | app/main.py:159-161 | the first truthy date, none iff no feature has one |
| Summary.Asis | app/main.py:162-164 | exactly the numeric ASI values of the features |
| Summary.MinOf | app/main.py:165 | `min` is one of the values and at most each of them |
| Summary.MaxOf | app/main.py:165 | `max` is one of the values and at least each of them |
| Summary.SummarySpec | app/main.py:155-165 | counts add up and count each class exactly; min and max are missing together exactly when no ASI is numeric, and otherwise are ASI values bounding all of them |
| Summary.FallbackSummary | app/main.py:51-57 | the fallback collection counts every basin as `no-data` and has no date and no ASI range |
| Summary.Summarise | app/main.py:154-165 | the collection's errors pass through; otherwise its summary |
| Scans.LatestUnique | app/main.py:166-178 | the latest date is unique |
| Scans.LatestDate | app/main.py:166-178 | 404 iff the table is missing; none iff no row has a non-empty date; otherwise one of the dates and not below any other |
| Scans.Day | app/main.py:188 | the first ten characters of the stripped date, or all of it when shorter |
| Scans.ExtremesSpec | app/main.py:184-192 | the running extremes are missing together, missing iff every day so far is empty, and otherwise the least and greatest non-empty days |
| Scans.RangeOrdered | app/main.py:191-192 | the minimum is never above the maximum |
| Scans.DateRange | app/main.py:179-193 | 404 iff the table is missing; both bounds none iff every day is empty; otherwise the least and greatest non-empty days |
| Scans.Positions | app/main.py:203-204 | the matching rows' positions, increasing, each matching, none left out |
| Scans.EntriesAt | app/main.py:203-210 | the k-th entry is built from the k-th matching row |
| Scans.History | app/main.py:196-213 | 404 on a missing table; `No history` iff no row matches; otherwise one entry per matching row in table order, even when all its values are missing |

## Left out

- File I/O is left out. `_read_csv`, `read_text`, `to_csv`, `write_text`, `Path.exists` and `json.loads` become parameters (an absent file is `None`). A corrupt `asi_latest.geojson` is treated as absent.
- FastAPI routing is left out. So are the `/` and `/health` routes, the legacy aliases, CORS and the `print` logging: they carry no computation of the core.
- Parsing with pandas and `csv` is assumed done. The model starts from rows of strings and optional reals. Date formats other than `YYYY-MM[-DD]` parse as a missing month.
- Dates.ToMonth: accepts every year from 1 to 9999. pandas turns timestamps outside its range (1677-09-21 to 2262-04-11) into `NaT`, so for such dates the model keeps a month where pandas has a missing one.
- Dates.ToMonth: parses each cell on its own. pandas 2 infers one format for the whole column from its first non-null value, so in a column that mixes `YYYY-MM` and `YYYY-MM-DD` the cells of the other form become `NaT`; the model gives them their month.
- A feature whose `"properties"` is JSON `null` is not modelled: `Props` always holds a properties object. In the source `setdefault` then returns `None` and the next `p.get` or `p.update` raises (`scripts/compute_asi.py:133-134`, `app/main.py:54-55` and `app/main.py:85-86`).
- Floating point is left out; every number is an exact real. `round` is round-half-to-even on the exact value, and `float()` reads plain decimal numerals only (no exponent, `inf`, `nan` or underscores).
- The square root is a parameter constrained by `IsSqrt`.
- Frames.MergeFrames: assumes each source has at most one row per (basin, month), via `UniqueKeys`. With duplicates pandas pairs every row with every row; the model keeps the first.
- Stats.StandardScoresCentred: proves that the scores have mean zero. That the scores have population variance one is not proved.
- Query.RWholeNumber: is stated for non-negative whole numbers only. The negative case is not proved about `_r`, although `ParseDecimalDigits` covers it for `float()`.
- Whitespace, letters and digits are ASCII. Unicode whitespace, Unicode case folding and Unicode digits in `strip`, `lower` and `strptime` are not modelled.
- `strftime` of years below 1000 is not modelled: years are written with four digits.
- JSON types beyond null, string and number are left out. A boolean ASI (which Python's `isinstance(.., int)` accepts) and an explicit `null` class are not distinguished from their absent forms.
- `str()` of a non-string `basin_id` is not modelled: basin ids are strings already, or absent (`"None"`).
- Summary.SummarySpec: does not state the order of the `Counter` entries (first appearance), only their content.
- The 500 for a month row without a `basin_id` column is modelled as an error value (`InternalError`). FastAPI's handling is not modelled.
- The summation order of floating sums in `std` and `mean` is not modelled, because sums over exact reals do not depend on it.
