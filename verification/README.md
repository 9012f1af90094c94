# India art, culture and tourism dashboard: loader logic in Dafny

The dashboard (`app.py`, `combined_analysis.py`) and its two upload scripts
(`data_uploader.py`, `upload_missing_data.py`) read survey tables about Indian
monuments, geological sites and tourism from Snowflake. When the warehouse is not
available they fall back to local CSV files. This project models the data
handling in those fall-backs and loaders. It does not model the UI.

- **Site classification** (`SiteClassifier`): `classify_site`, the keyword
  classifier for National Geological Monument names. It is written out
  identically in `app.py` and `upload_missing_data.py`.
- **Tourism harmonisation** (`Tourism`): `load_local_tourism_data` and the
  `except` branch of `load_tourism_stats` are two copies of one procedure. It
  turns the 2019–2021 table and the 2016–2018 table into one table with the
  columns STATE, DOMESTIC_VISITORS, FOREIGN_VISITORS, YEAR and MONTH. This
  module also holds the year-range filter of the statistics page.
- **Monuments clean-up** (`Monuments`): drop the "Total" row, rename the columns
  positionally, and map four state names to their canonical spelling.
- **Gender counts** (`GenderTourism`): rename the five columns, then derive one
  count column per percentage column, `round(total * pct / 100)`. pandas rounds
  halves to the even neighbour.
- **Geological sites** (`GeologicalSites`): rename, title-case STATE, add
  SITE_TYPE. It also holds the state/type filter of the site directory.
- **Snowflake configuration and connection** (`SnowflakeConfig`):
  `check_snowflake_config` and the branches of `get_snowflake_connection`.
- **Local fallback of the combined analysis** (`LocalFallback`):
  - `try_read_csv` with its chain of encodings;
  - the dataset key derived from a file name;
  - the dictionary the file loops build;
  - the per-year tabs.
- **Uploader** (`Uploader`): the column-name normalisation and the file→table
  loop of `data_uploader.py`.

Supporting modules:
- `Tables` is the slice of pandas DataFrame behaviour the loaders use.
  - A table is an ordered list of column names plus rows.
  - A row is a map from column name to cell.
  - A failing pandas call becomes an `Err`: a `KeyError` for an absent column,
    a `ValueError` for a rename of the wrong width, an exception from a cell of
    the wrong kind.
- `Strings` holds Python's `lower`, `upper`, `strip`, `title`, `in`, `replace` and `join`.
- `Seqs` holds order-preserving filtering, the shape of `df[mask]` and of a
  filtered dict comprehension.
- `Wrappers` holds `Option`.

Parts of the program outside Dafny's reach are passed in as function parameters:
- file existence;
- CSV parsing under an encoding;
- the Snowflake connector;
- `write_pandas`.

Each operation has a partner property that ties it to an independent
description:
- a reference row-by-row description of the output (`ExpectedRows`, `CountsRow`, `LoadedRow`);
- an if-and-only-if for when it fails;
- idempotence;
- a rule-table reading of a chain of `if`s.

`get_snowflake_connection` contains a dead branch. Its region loop runs only for
an account without a '.'. Such an account has already taken the "modern account
format" branch, because the test for "snowflakecomputing.com" also needs a '.'.
So the loop over `us-east-1`, … is unreachable. `RegionProbeUnreachable` proves
this, and `ProbeRegions` models the loop on its own.

## Model

| member | source | states |
|---|---|---|
| SiteClassifier.ClassifySiteLabels | india_art_culture_2/app.py:108-118 | every name receives one of the five labels, and different categories never share a label |
| SiteClassifier.FossilTakesPrecedence | india_art_culture_2/app.py:109-110 | a name containing "fossil" in any letter case is a Fossil Site, whatever other keywords it holds |
| SiteClassifier.FirstMatchWins | india_art_culture_2/app.py:109-116 | each label is returned exactly when its keyword group occurs in the lower-cased name and no earlier group does |
| SiteClassifier.OtherIffNoKeyword | india_art_culture_2/app.py:117-118 | the default label is returned exactly when none of the ten keywords occurs |
| SiteClassifier.ClassifyIgnoresCase | india_art_culture_2/app.py:109-116 | lower-casing or upper-casing a name does not change its label |
| SiteClassifier.ClassifyByRules | india_art_culture_2/upload_missing_data.py:109-119 | the upload script's copy, read as "first keyword group that matches gives the label, else the default", agrees with the dashboard's classifier on every name |
| Strings.ContainsIffOccurs | india_art_culture_2/app.py:109 | Python's `term in s` holds exactly when some window of `s` equals `term` |
| Tourism.YearBlockSpec | india_art_culture_2/app.py:41-44 | a year's block succeeds exactly when the table has the three columns it selects, and then holds one renamed, year-tagged row per source row |
| Tourism.StackYearsSpec | india_art_culture_2/app.py:40-53 | stacking fails exactly when some year lacks one of its columns; otherwise the blocks appear in the order of the year list |
| Tourism.HarmoniseSucceedsIff | india_art_culture_2/app.py:30-53 | harmonisation succeeds exactly when the first table has "Sl. No." and the State/Domestic/Foreign columns of 2019–2021, and the second has the States/DTV/FTV columns of 2016–2018 |
| Tourism.RevisedColumnsRequired | india_art_culture_2/app.py:49-50 | a second table without the "2018 (Revised)" DTV or FTV column makes the load fail |
| Tourism.UnrevisedNamesUnused | india_art_culture_2/app.py:49-50 | the unrevised "2018 - DTV"/"2018 - FTV" names are never read |
| Tourism.HarmoniseRows | india_art_culture_2/app.py:27-64 | the output has columns STATE, DOMESTIC_VISITORS, FOREIGN_VISITORS, YEAR, MONTH; its rows are the first table's non-"Total" rows for 2019, 2020 and 2021, then the second table's rows for 2016, 2017 and 2018, each with STATE stripped and MONTH 1; there are 3·kept + 3·second rows |
| Tourism.HarmonisedRowInvariants | india_art_culture_2/app.py:156-158 | the harmonised table is well formed, and every row has exactly the five columns, a YEAR in 2016..2021, MONTH 1, and a STATE that is NaN or a string with no whitespace at either end |
| Tourism.FilterYearRange | india_art_culture_2/app.py:642-645 | the year filter fails exactly when YEAR is absent or some YEAR is a string |
| Tourism.FilterYearRangeKeeps | india_art_culture_2/app.py:642-645 | the filter keeps exactly the rows whose YEAR lies in the chosen range, every copy of each, in their original order |
| Tourism.FullYearRangeKeepsAll | india_art_culture_2/app.py:634-645 | with the slider spanning 2016..2021, the filtered table is the whole harmonised table |
| Strings.StripIdempotent | india_art_culture_2/app.py:59 | stripping a stripped state name changes nothing |
| Strings.Strip | india_art_culture_2/app.py:59 | `str.strip()` returns a window of the string whose ends are not whitespace, with only whitespace cut around it |
| Monuments.MapStateName | india_art_culture_2/app.py:82 | the replacement maps strings to strings and leaves every non-string cell unchanged |
| Monuments.MapStateNameChangesExactlyKeys | india_art_culture_2/app.py:76-82 | a cell is changed exactly when it is one of the four listed state spellings |
| Monuments.MapStateNameIdempotent | india_art_culture_2/upload_missing_data.py:14-20 | applying the mapping twice is the same as applying it once |
| Monuments.CleanMonumentsSucceedsIff | india_art_culture_2/app.py:73-75 | the clean-up fails with a missing-column error when "Sl.No" is absent, and with a length mismatch when the table does not have three columns; otherwise it succeeds |
| Monuments.CleanMonumentsRows | india_art_culture_2/app.py:74-82 | the cleaned table has SL_NO, STATE, MONUMENTS and one row per non-"Total" row, carrying that row's cells with the state name mapped |
| Monuments.TotalRowRemoved | india_art_culture_2/upload_missing_data.py:10 | exactly the rows marked "Total" are dropped; every copy of every other row is kept, in its order |
| Monuments.CleanStatesIdempotent | india_art_culture_2/upload_missing_data.py:20 | mapping the state names of a cleaned table again changes nothing |
| GenderTourism.RoundHalfEven | india_art_culture_2/app.py:95 | `.round()` gives an integer within one half of its argument, and the even one on a tie |
| GenderTourism.RoundHalfEvenUnique | india_art_culture_2/app.py:95 | exactly one integer meets that description |
| GenderTourism.RoundMonotone | india_art_culture_2/app.py:95 | rounding keeps order |
| GenderTourism.CountNearShare | india_art_culture_2/app.py:95 | each count is within one half of total × pct / 100, and even on a tie |
| GenderTourism.CountExample | india_art_culture_2/app.py:95 | 1000 arrivals at 60% give 600; at 0.05% give 0 (0.5 rounds down to even); at 0.15% give 2 (1.5 rounds up to even) |
| GenderTourism.CountBounds | india_art_culture_2/app.py:95 | a percentage between 0 and 100 of a non-negative total gives a count between 0 and the total |
| GenderTourism.CountsSumNearTotal | india_art_culture_2/app.py:94-95 | when the three percentages add up to 100, the three counts add up to within 1.5 of the total |
| GenderTourism.CountsNeedNotSum | india_art_culture_2/app.py:94-95 | the counts are rounded independently and need not add up to the total: 3 arrivals split 50/50/0 give 2 + 2 + 0 = 4 |
| GenderTourism.CountColumnNames | india_art_culture_2/upload_missing_data.py:58-59 | `col.replace('_PCT', '_COUNT')` names the derived columns MALE_COUNT, FEMALE_COUNT and NOT_REPORTED_COUNT |
| GenderTourism.CountOf | india_art_culture_2/app.py:95 | a row's count exists exactly when its total and its percentage are numbers; otherwise the column fails as not numeric |
| GenderTourism.DeriveCountsWrongWidth | india_art_culture_2/app.py:93 | a table that does not have five columns fails at the rename with a length mismatch |
| GenderTourism.DeriveCountsSucceedsIff | india_art_culture_2/app.py:93-95 | a five-column table yields its counts exactly when every total and percentage cell is a number |
| GenderTourism.DeriveCountsFailsOnNonNumber | india_art_culture_2/app.py:95 | once the width is right, the only possible failure is a cell that is not a number |
| GenderTourism.DeriveCountsRows | india_art_culture_2/app.py:92-96 | the result has the five renamed columns followed by the three count columns; each row carries its source cells and the three rounded counts |
| GeologicalSites.SiteTypeOf | india_art_culture_2/app.py:119 | SITE_TYPE can be computed exactly when the site name is a string, and it is always one of the five labels |
| GeologicalSites.LoadGeologicalSitesWrongWidth | india_art_culture_2/app.py:106 | a table that does not have three columns fails at the rename with a length mismatch |
| GeologicalSites.LoadGeologicalSitesSucceedsIff | india_art_culture_2/app.py:105-120 | a three-column table loads exactly when every site name is a string |
| GeologicalSites.LoadGeologicalSitesFailsOnName | india_art_culture_2/app.py:119 | once the width is right, the only possible failure is a site name that is not a string |
| GeologicalSites.LoadGeologicalSitesShape | india_art_culture_2/app.py:106-120 | a loaded table has SL_NO, STATE, SITE_NAME, SITE_TYPE and one row per source row |
| GeologicalSites.LoadGeologicalSitesRows | india_art_culture_2/app.py:105-120 | each loaded row carries its source cells, with STATE title-cased and SITE_TYPE the classification of the site name |
| GeologicalSites.LoadedStatesTitled | india_art_culture_2/upload_missing_data.py:106 | title-casing a loaded state name again changes nothing |
| Strings.TitleAt | india_art_culture_2/app.py:107 | `str.title()` upper-cases exactly the letters that start a word and lower-cases every other letter; other characters stay |
| Strings.TitleIdempotent | india_art_culture_2/app.py:107 | title-casing a title-cased string changes nothing |
| GeologicalSites.FilterSites | india_art_culture_2/app.py:583-587 | the directory lists exactly the sites matching the chosen state and type ("All States"/"All Types" match everything), every copy of each, in their original order |
| GeologicalSites.FilterSitesAll | india_art_culture_2/app.py:583-587 | with both "All" choices the directory lists every site |
| SnowflakeConfig.MissingFrom | india_art_culture_2/combined_analysis.py:28-31 | the missing list holds exactly the keys whose setting is None or empty, in key order |
| SnowflakeConfig.MissingVarsSpec | india_art_culture_2/combined_analysis.py:26-31 | a configuration key is listed as missing exactly when its setting is unset, and the list follows the key order |
| SnowflakeConfig.CheckConfigSpec | india_art_culture_2/combined_analysis.py:33-58 | the check passes exactly when all six settings are set; the status table then has five rows, none of them the password, each showing its value with a check mark |
| SnowflakeConfig.MissingPasswordMessage | india_art_culture_2/combined_analysis.py:33-34 | when only the password is unset (None or empty), the error names exactly "password" |
| SnowflakeConfig.ProbeRegions | india_art_culture_2/combined_analysis.py:88-108 | the region loop connects exactly when some `account.region` connects, and then with the first region in list order that does |
| SnowflakeConfig.RegionProbeUnreachable | india_art_culture_2/combined_analysis.py:70-87 | no configuration reaches the region loop |
| SnowflakeConfig.GetConnectionSpec | india_art_culture_2/combined_analysis.py:60-124 | an incomplete configuration gives no connection; an account without '.' takes the modern branch; a connection exists exactly when the configuration is complete and the account string itself connects |
| LocalFallback.TryEncodings | india_art_culture_2/combined_analysis.py:227-239 | the encodings are tried in order; only a decode error moves on; a table results exactly when the last encoding tried parsed |
| LocalFallback.TryEncodingsFinds | india_art_culture_2/combined_analysis.py:229-237 | a table results exactly when some encoding parses and every encoding before it raised a decode error |
| LocalFallback.TryReadCsv | india_art_culture_2/combined_analysis.py:227-239 | the loop returns the table the encoding chain describes, or None |
| LocalFallback.LatinEndsTheChain | india_art_culture_2/combined_analysis.py:229-234 | since latin1 decodes every byte, at most utf-8 and latin1 are ever tried; iso-8859-1 and cp1252 are never reached |
| LocalFallback.DatasetKey | india_art_culture_2/combined_analysis.py:272 | a dataset key contains no '-' and no upper-case letter |
| LocalFallback.DatasetKeyOfCsv | india_art_culture_2/combined_analysis.py:306 | for a file name ending in its only ".csv", the key is the stem lower-cased with '-' turned into '_' |
| LocalFallback.ReplaceSuffixNoBorder | india_art_culture_2/combined_analysis.py:272 | `replace('.csv', '')` on a name whose only ".csv" is its ending removes exactly that ending |
| LocalFallback.Store | india_art_culture_2/combined_analysis.py:273 | assigning to a dictionary key keeps an existing key in its place with the new value, appends a new key, and leaves the other entries alone |
| LocalFallback.LoadedUpToKeys | india_art_culture_2/combined_analysis.py:267-273 | after the loop, a key is present exactly when some present, readable, non-empty file produced it |
| LocalFallback.LoadedUpToValues | india_art_culture_2/combined_analysis.py:301-307 | each entry holds the table of the last file whose name produced its key |
| LocalFallback.LoadKeyed | india_art_culture_2/combined_analysis.py:301-307 | the file loop yields distinct keys, exactly the keys produced, each holding its last writer's table |
| LocalFallback.YearTab | india_art_culture_2/combined_analysis.py:509 | a year tab keeps exactly the entries whose key contains the year, in dictionary order |
| LocalFallback.YearTabKeys | india_art_culture_2/combined_analysis.py:509 | a year tab of a dictionary has distinct keys, and they are exactly the dictionary's keys that contain the year |
| Uploader.NormaliseChar | india_art_culture_2/data_uploader.py:30 | a normalised character is never a space, '-' or a lower-case letter, and every other character is kept |
| Uploader.NormaliseColumn | india_art_culture_2/data_uploader.py:30-31 | the normalised name is the stripped name, character by character, with letters upper-cased and ' ' and '-' turned into '_' |
| Uploader.NormalisedShape | india_art_culture_2/data_uploader.py:30-31 | a normalised name has no space, no '-', no lower-case letter and no whitespace at either end |
| Uploader.NormaliseIdempotent | india_art_culture_2/data_uploader.py:30-31 | normalising a normalised name changes nothing |
| Uploader.ProcessSpec | india_art_culture_2/data_uploader.py:21-53 | a file is reported missing exactly when it is absent, a read failure exactly when it is present but unreadable, and uploaded exactly when `write_pandas` succeeds; what is written carries the normalised column names |
| Uploader.LoadDataToSnowflake | india_art_culture_2/data_uploader.py:13-53 | the loop writes one log entry per file of the file→table map, in map order, each decided by that file alone |
| Uploader.MissingFileSkipped | india_art_culture_2/data_uploader.py:52-53 | a missing file is logged as not found and changes nothing for the other files |

## Left out

- The Streamlit and Plotly user interface: pages, widgets, charts, warnings, info messages. The
  status table of `check_snowflake_config` is modelled as data.
- The Snowflake connector, `pd.read_sql`, the SQL `CREATE TABLE`/`INSERT` statements of
  `upload_missing_data.py` and `upload_to_snowflake`, and `write_pandas`. Connecting and writing
  are function parameters, so their outcomes are arbitrary.
- The primary path of every `load_*` function, which queries the warehouse. Only the local
  fallbacks are modelled.
- CSV parsing and file-system access: `pd.read_csv` is a parameter returning a table or a
  decode/other error, and `os.path.exists` is a parameter.
- Floating point: numbers are exact rationals, so float artefacts in `total * pct / 100` are
  not modelled. NaN is a cell of its own (`Missing`), and `.astype(int)` on it fails as not numeric.
- GenderTourism.Count: `.astype(int)` yields numpy int64, so a count beyond 2^63 - 1 wraps in the
  source. The model's integers are unbounded. Visitor totals are far below that bound.
- Unicode case mapping: `lower`, `upper` and `title` act on ASCII letters only. Other characters
  are treated as uncased. `strip` uses Python's full whitespace set.
- Tourism.StripValue and GeologicalSites.TitleValue: a non-string cell becomes NaN, as the
  pandas `.str` accessor does. An all-non-string column that makes pandas raise is not
  distinguished.
- Tables.SetColumns requires distinct new names. Every rename in the program uses distinct
  literal names.
- Tourism.HarmoniseRows: `int(year)` on the year strings is replaced by the constant
  (string, number) pairs the loops use.
- `load_all_data`: the art-forms file and the heritage dictionary loop
  (combined_analysis.py:243-247, 276-286) are not modelled. They use the same `try_read_csv`
  and keep-if-non-empty step as the modelled tourism and parliament loops, but with fixed keys.
- `load_all_data`: the festivals JSON (combined_analysis.py:250-255) is not modelled. It is read with
  `open` and `json.load`, without `try_read_csv` and without an empty check. A failure there, or
  anywhere else in the function, reaches the outer handler (combined_analysis.py:311-313). That
  handler makes `load_all_data` return None, so one bad festivals file discards every dataset,
  including the tourism and parliament dictionaries `LocalFallback.LoadKeyed` describes.
  `LoadKeyed` describes the loops on the path where no exception escapes.
- The "All Years" tab and the dashboards' analytics (grouping, sorting, percentages for
  charts) are not modelled.
- `data_loader.py` and the `utils/` modules are not part of this model.
- The data files' contents are not modelled. Survey tables are arbitrary tables, and the
  properties hold for every input.
- Two places where the code is narrower than its own comments suggest:
  - Of the 2018 columns, only the " (Revised)" names are read (`Tourism.RevisedColumnsRequired`).
  - In the encoding chain utf-8, latin1, iso-8859-1, cp1252, latin1 never raises a decode
    error, so the last two encodings are never tried (`LocalFallback.LatinEndsTheChain`).
