# quick_data_profiling in Dafny

This is a model of the decision logic of the quick data profiling tool, a command-line
program that reads a CSV or Excel file and writes an HTML profile of it. The model covers:

- **Loader**: the input-format dispatch of `load_data`. The path's suffix picks the CSV
  reader (`.csv`, checked first) or the Excel reader (`.xlsx`, `.xls`). Any other path ends
  the process with status 1.
- **Columns**: the column classification of `generate_report`.
  - Integer, floating, complex and timedelta columns are numeric
    (`select_dtypes(include=[np.number])`), including the nullable `Int64` and `Float64`
    families.
  - Object and category columns are categorical.
  - Boolean (numpy or nullable), datetime and other columns (strings, periods, intervals)
    are in neither list.
  - Both lists keep the table's column order.
- **Artifacts**: the image plan.
  - One `images/hist_<col>.png` per numeric column and one `images/bar_<col>.png` per
    categorical column, in column order.
  - `images/correlation_matrix.png` exactly when there are at least two numeric columns.
  - `images/missing_values.png` always.
- **Report**: the `encoded_images` map and the classification-dependent fields of
  `report_data`. Chart images are stored under their file name (`os.path.basename`, POSIX
  rules), in the order of the `histograms + bar_charts` loop, so a later name overwrites an
  earlier one. They are followed by the correlation entry when there is one and the
  missing-values entry.
- **Cli**: the argument check of `main`. With fewer than two `argv` entries it exits with
  status 1. Otherwise `argv[1]` is the data file and any later entries are ignored.
- **Scenarios**: small tables worked through the whole of `generate_report`, for arbitrary
  column labels.

A table is its ordered list of `(label, kind)` columns. Of its rows, only their number
matters: a frame with no rows or no columns makes the missing-values heatmap raise an
uncaught error, so the run ends with status 1 and writes no report (`Cli.Run`). No other
modelled decision depends on the rows. A '/' in the label of a charted column ends the run
the same way: the chart path names a directory under `images` that does not exist, so
`savefig` raises. Process exits are values (`Exit(1)`), not effects.
The base64 text of an image is I/O, so an `encoded_images` entry records the path of the
file whose bytes would be encoded. `Cli.Run` takes the columns and the row count of the
table the chosen reader returns as parameters.

The documented usage says the program takes exactly one positional argument. The code only
rejects a missing argument and ignores any further ones. The model follows the code
(`Cli.ExtraArgumentsIgnored`).

## Model

| member | source | states |
|---|---|---|
| Loader.SelectReader | quick_data_profiling/quick_data_profiling.py:32-38 | every path either selects a reader or exits with status 1; no other exit status is possible |
| Loader.CsvPathSelectsCsv | quick_data_profiling/quick_data_profiling.py:32-33 | any path ending in `.csv` is read by the CSV reader |
| Loader.ExcelPathSelectsExcel | quick_data_profiling/quick_data_profiling.py:34-35 | any path ending in `.xlsx` or `.xls` is read by the Excel reader |
| Loader.SupportedIffKnownSuffix | quick_data_profiling/quick_data_profiling.py:32-38 | a reader is chosen if and only if the path is some stem followed by `.csv`, `.xlsx` or `.xls`; every other path gives exactly `Exit(1)` |
| Loader.DispatchReadsOnlyTail | quick_data_profiling/quick_data_profiling.py:32-35 | two paths that agree on their last five characters get the same decision, because the check looks only at the suffix |
| Paths.EndsWith | quick_data_profiling/quick_data_profiling.py:32 | `endswith(suffix)` holds exactly when the string is some stem followed by the suffix |
| Paths.EndsWithAny | quick_data_profiling/quick_data_profiling.py:34 | `endswith` with a tuple holds exactly when the string is some stem followed by one of the tuple's suffixes |
| Paths.Basename | quick_data_profiling/quick_data_profiling.py:111 | the file name of a path contains no '/' and is no longer than the path |
| Paths.BasenameIsLastSegment | quick_data_profiling/quick_data_profiling.py:111 | the file name of a path has no '/', is a suffix of the path, and is either the whole path or preceded by a '/' |
| Paths.BasenameUnique | quick_data_profiling/quick_data_profiling.py:111 | any slash-free suffix that is the whole path or follows a '/' is the file name, so those three properties define `basename` |
| Paths.BasenameOfJoin | quick_data_profiling/quick_data_profiling.py:111 | the file name of `dir/name` is `name` when `name` has no '/' |
| Columns.GroupOf | quick_data_profiling/quick_data_profiling.py:50-51 | a kind is numeric exactly when its scalar type derives from `np.number`, and categorical exactly when it derives from `object` or is `category` |
| Columns.Select | quick_data_profiling/quick_data_profiling.py:50-51 | a label is selected for a group exactly when some column with that label has a kind of that group |
| Columns.Classify | quick_data_profiling/quick_data_profiling.py:50-51 | a label is numeric exactly when some column with that label has an integer, floating, complex or timedelta kind; categorical exactly when some such column is object or category |
| Columns.ClassificationKeepsOrder | quick_data_profiling/quick_data_profiling.py:50-51 | each list is a subsequence of the column labels, so the table's column order is kept |
| Columns.ClassificationIsPartition | quick_data_profiling/quick_data_profiling.py:50-51 | column `i` is selected as numeric if and only if its kind is Int, Float, Complex or Timedelta, as categorical if and only if it is Object or Category, never both; Bool, Datetime and Other columns are in neither list |
| Columns.GroupSizesSum | quick_data_profiling/quick_data_profiling.py:50-51 | numeric, categorical and excluded positions together account for every column exactly once |
| Columns.ClassificationSize | quick_data_profiling/quick_data_profiling.py:50-51 | the two lists together hold at most as many labels as the table has columns |
| Columns.ClassificationDisjoint | quick_data_profiling/quick_data_profiling.py:50-51 | with distinct labels, no label is in both lists and neither list repeats a label |
| Columns.ExcludedKindInNeither | quick_data_profiling/quick_data_profiling.py:50-51 | with distinct labels, the label of a boolean, datetime or other column is in neither list |
| Columns.SelectSnoc | quick_data_profiling/quick_data_profiling.py:50-51 | appending a column appends its label to its own group's list and changes no other list |
| Columns.ClassifySnoc | quick_data_profiling/quick_data_profiling.py:50-51 | both lists of a table with one more column, in terms of the shorter table's lists |
| Columns.SelectNone | quick_data_profiling/quick_data_profiling.py:50-51 | a group that no column belongs to has an empty list |
| Columns.SelectAll | quick_data_profiling/quick_data_profiling.py:50-51 | when every column belongs to one group, that group's list is all column labels in order |
| Artifacts.ChartPaths | quick_data_profiling/quick_data_profiling.py:57-78 | one chart path per column, in column order, each `images/<prefix><col>.png` |
| Artifacts.PlanArtifacts | quick_data_profiling/quick_data_profiling.py:57-100 | histogram `i` is `images/hist_<numeric[i]>.png` and bar chart `i` is `images/bar_<categorical[i]>.png`; the correlation image exists if and only if there are at least two numeric columns; the missing-values image is always `images/missing_values.png` |
| Artifacts.SavedImages | quick_data_profiling/quick_data_profiling.py:64-99 | a run writes one file per chart, correlation image and missing-values image, and nothing else, ending with the missing-values image |
| Artifacts.SavedImagesOrder | quick_data_profiling/quick_data_profiling.py:57-100 | the files are written as all histograms, then all bar charts, then the correlation chart when present, then the missing-values chart; the count is `#numeric + #categorical + (1 if #numeric >= 2) + 1` |
| Artifacts.NumericOnlyTable | quick_data_profiling/quick_data_profiling.py:57-100 | a table with numeric columns and no categorical ones gets no bar chart, a correlation chart only from two numeric columns on, and exactly one missing-values image |
| Artifacts.HistPathIsNotFixedPath | quick_data_profiling/quick_data_profiling.py:63-98 | no histogram path coincides with the correlation or missing-values path |
| Artifacts.BarPathIsNotFixedPath | quick_data_profiling/quick_data_profiling.py:75-98 | no count-chart path coincides with the correlation or missing-values path |
| Artifacts.HistPathIsNotBarPath | quick_data_profiling/quick_data_profiling.py:63-75 | a histogram and a count chart never share a path, whatever their labels |
| Report.EncodeAll | quick_data_profiling/quick_data_profiling.py:109-112 | the map's keys after the loop are the keys before it plus the file names of all paths |
| Report.EncodeAllKeepsOthers | quick_data_profiling/quick_data_profiling.py:110-112 | an entry whose name no path carries keeps its value |
| Report.EncodeAllValues | quick_data_profiling/quick_data_profiling.py:110-112 | every file name the paths carry ends up holding one of the paths with that file name |
| Report.EncodeAllLastWins | quick_data_profiling/quick_data_profiling.py:110-112 | if no later path has the same file name as path `i`, that name holds path `i` (dict assignment: the last write wins) |
| Report.EncodeArtifacts | quick_data_profiling/quick_data_profiling.py:109-116 | the keys are the chart file names, plus `correlation_matrix.png` if and only if there is a correlation image, plus `missing_values.png`; the two fixed entries hold the correlation and missing-values paths |
| Report.EmbeddedImagesWereSaved | quick_data_profiling/quick_data_profiling.py:109-116 | every embedded image is one of the files the run wrote, and a chart entry under any other name is stored under its own file name |
| Report.AssembleReport | quick_data_profiling/quick_data_profiling.py:109-131 | the `report_data` fields: the two column lists unchanged, pointwise chart paths, `corr_img` set to `correlation_matrix.png` if and only if there are at least two numeric columns, `missing_img` fixed, and the `encoded_images` key set with the two fixed values |
| Report.GenerateReport | quick_data_profiling/quick_data_profiling.py:45-131 | the report's column lists contain exactly the labels of numeric and of categorical columns; there are never more charts than columns |
| Report.SafeTableLabels | quick_data_profiling/quick_data_profiling.py:50-51 | a table with distinct, slash-free labels classifies into duplicate-free, slash-free lists |
| Report.SlashFreeTableLabels | quick_data_profiling/quick_data_profiling.py:50-51 | a table with slash-free labels classifies into slash-free lists |
| Report.SlashFreeLabelsIffCharted | quick_data_profiling/quick_data_profiling.py:50-51 | the two lists are slash-free exactly when every numeric or categorical column has a slash-free label; labels of excluded columns do not matter |
| Report.ChartBasenames | quick_data_profiling/quick_data_profiling.py:110-111 | for slash-free labels, the file name of chart path `i` is `<prefix><col_i>.png` |
| Report.ChartNamesDistinct | quick_data_profiling/quick_data_profiling.py:63-75 | distinct labels give distinct chart names |
| Report.ChartKeys | quick_data_profiling/quick_data_profiling.py:110-111 | distinct slash-free labels give as many chart file names as labels |
| Report.EncodedImagesCount | quick_data_profiling/quick_data_profiling.py:109-116 | with distinct, slash-free labels, `encoded_images` has `#numeric + #categorical + (1 if #numeric >= 2) + 1` entries |
| Report.EncodedKeysExact | quick_data_profiling/quick_data_profiling.py:109-116 | with slash-free labels, a name is a key exactly when it is `hist_<col>.png` for a numeric column, `bar_<col>.png` for a categorical column, `correlation_matrix.png` with at least two numeric columns, or `missing_values.png` |
| Report.EncodedHistogram | quick_data_profiling/quick_data_profiling.py:109-112 | with slash-free labels, histogram `i` is embedded under `hist_<col>.png` from its own file; a repeated label rewrites the same path |
| Report.EncodedBarChart | quick_data_profiling/quick_data_profiling.py:109-112 | with slash-free labels, bar chart `i` is embedded under `bar_<col>.png` from its own file; a repeated label rewrites the same path |
| Scenarios.NumberAndTextReport | quick_data_profiling/quick_data_profiling.py:45-131 | one integer and one text column give one histogram, one bar chart, no correlation chart, and exactly three embedded images |
| Scenarios.ThreeNumbersReport | quick_data_profiling/quick_data_profiling.py:45-131 | three numeric columns give three histograms, no bar chart, a correlation chart, and five embedded images |
| Scenarios.DatesAndFlagsReport | quick_data_profiling/quick_data_profiling.py:45-131 | datetime and boolean columns get no chart; only `missing_values.png` is embedded |
| Cli.Main | quick_data_profiling/quick_data_profiling.py:144-150 | the run goes on to read a file only with a data-file argument whose reader was chosen, and reads `argv[1]` with that reader; every exit has status 1 |
| Cli.MissingArgumentExits | quick_data_profiling/quick_data_profiling.py:145-147 | fewer than two `argv` entries give exit status 1 |
| Cli.ExtraArgumentsIgnored | quick_data_profiling/quick_data_profiling.py:145-149 | arguments after the data file do not change the outcome |
| Cli.ReadIffArgumentSupported | quick_data_profiling/quick_data_profiling.py:144-150 | the run reads a file if and only if there is a data-file argument with a recognised suffix, and exits with status 1 otherwise |
| Cli.CsvArgumentReadsCsv | quick_data_profiling/quick_data_profiling.py:144-150 | `prog <stem>.csv ...` reads that file with the CSV reader |
| Cli.ExcelArgumentReadsExcel | quick_data_profiling/quick_data_profiling.py:144-150 | `prog <stem>.xlsx ...` and `prog <stem>.xls ...` read that file with the Excel reader |
| Cli.Run | quick_data_profiling/quick_data_profiling.py:144-151 | a run fails with status 1 exactly when `main` exits before reading, the loaded frame has no rows or no columns (the missing-values heatmap raises), or a numeric or categorical column's label holds a '/' (its `savefig` raises); otherwise it produces the report of the loaded table: its numeric and categorical lists are that table's, it has a correlation image exactly when the table has at least two numeric columns, and its missing-values image is `missing_values.png` |
| Cli.RunEmbedsLoadedCharts | quick_data_profiling/quick_data_profiling.py:144-151 | whenever a run produces a report, that report embeds exactly the loaded table's chart names, the correlation chart with at least two numeric columns, and the missing-values chart |

## Left out

- Reading and parsing files (`pd.read_csv`, `pd.read_excel`) is not modelled. `Cli.Run`
  receives the columns and row count of the table the reader returns as parameters.
- The `except Exception` branch of `load_data` is not modelled. It exits with status 1 when
  the reader raises, and whether a reader raises depends on file contents that are not
  modelled. The unsupported-format `sys.exit(1)` raises `SystemExit`, which that branch
  does not catch, so that path is modelled directly as `Exit(1)`.
- The console messages (`print`) are not modelled; they carry no decision.
- The `head`, `describe`, `dtypes` and `missing_values` HTML tables of `report_data` are not
  modelled, because they are pandas rendering.
- Plotting (`seaborn`, `matplotlib`), `os.makedirs('images')` and `savefig` are not
  modelled. The model keeps only the path of each written file and the order of the writes.
- Base64 encoding is not modelled. `encode_image` is I/O, so an `encoded_images` value is the
  path of the encoded file.
- Rendering `report_template.html` with jinja2 and writing `report.html` are not modelled;
  they are template and file I/O.
- Column kinds are reduced to Int, Float, Complex, Timedelta, Object, Category, Bool,
  Datetime and Other. Signed, unsigned and nullable integers share Int, and numpy and
  nullable floats share Float. The nullable boolean and string dtypes are Bool and Other,
  so they are in neither list.
- Column labels are strings. pandas also allows non-string labels, which would be
  formatted into the chart paths.
- `basename` follows POSIX rules ('/' only); Windows separators are not modelled.
- Cli.Run: of the plotting errors, only the empty-frame heatmap error and the '/' `savefig`
  error are modelled. Errors that depend on cell values, in `histplot`, `countplot`, the
  correlation heatmap or `describe`, are not modelled, and neither is an error in rendering
  or writing the report. Cli.RunEmbedsLoadedCharts promises its report under the same
  assumption.
- Cli.Run: a `savefig` that fails for reasons outside the table (permissions, a full disk)
  is not modelled, and neither is a directory under `images` left by an earlier run that a
  '/' label would write into; the model assumes `images` holds no subdirectories.
- The insertion order of the `encoded_images` dict is not modelled; the map keeps only the
  key set and each key's value. An overwritten key keeps its first position in Python,
  which is the order the template would see when iterating it.
- Report.EncodedImagesCount: the exact count is stated only for distinct, slash-free labels.
  With repeated labels, or a '/' in a label, chart file names collide or are cut short, and
  the map may hold fewer entries.
- Report.EncodedHistogram: stated only for slash-free labels. With a '/' in a label, the key
  is the part after the last '/'.
- Report.EncodedBarChart: stated only for slash-free labels, for the same reason.
- Report.EncodedKeysExact: stated only for slash-free labels. With a '/' in a label, the key
  is the part after the last '/'.
- Columns.ClassificationDisjoint: stated only for distinct labels. pandas allows repeated
  labels, and then one label can name a numeric and a categorical column.
- Columns.ExcludedKindInNeither: stated only for distinct labels, for the same reason.
