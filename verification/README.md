# Creatine study: a Dafny model of its sequential core

The creatine supplementation study stores participants and weekly measurements
in SQLite, analyses them with pandas, and reports the result as JSON. Most of it
is glue around a database engine, numpy, sklearn and plotting libraries. This
project models the plain sequential logic inside it and proves properties of
that logic:

- **`QueryCatalogue`** (`catalogue.dfy`): the `-- Name` query catalogue parser of
  `run_analysis_query`. A reference reading (`Group`, `Collect`) is proved equal
  to the line-by-line loop the code runs.
- **`SqlText`** (`sqltext.dfy`): the schema statement split of `init_database`,
  and the WHERE builders of `get_measurements` and `get_participant_data`. Each
  builder has a reader proved to be its inverse.
- **`Storage`** (`storage.dfy`): the database as two maps from row id to row.
  Covers `add_participant`, `add_measurement` with its required-field check,
  the engine's refusal of an unbound named parameter,
  `update_participant` with its SET clause and its write into the caller's dict,
  and the default backup file name.
- **`ProgressData`** (`progress.dfy`): the progress table and what is computed
  per participant from it. That is the recovery averages (`diff().mean()`) with
  their telescoping identity, the null guard and day offsets of the rate
  computation, and when the summary statistics loop raises `KeyError`.
- **`EffectSize`** (`effects.dfy`): the effect-size classifier and the shape of
  the effect-size result.
- **`Report`** (`report.dfy`): the query-backed analyses and the summary report
  with its six keys.
- **`Serialize`** (`serialize.dfy`): `make_serializable`, over an abstract
  Python value type and a JSON value type. Uses **`Dicts`** (`dicts.dfy`),
  insertion-ordered Python dicts.
- **`SampleData`** (`sample.dfy`): the sample-data generator of `add_sample_data`
  and its effect on the storage model.
- **`Cli`** (`cli.dfy`): the construction of the study object, the step
  selection, help condition and cleanup of `main`.
- **`Requirements`** (`requirements.dfy`): `read_requirements` of `setup.py`.
- Shared helpers: `Wrappers` (`Option`, `Result`), `Text` (Python's `strip`,
  `split`, `join`, decimal text) and `Seqs` (filter, subsequence, unique).

The model takes several things as parameters:

- the file contents, as an `Option<string>` (`None` means the file is missing);
- the clock reading (`datetime.now()`);
- the Cohen's d value per metric;
- the least-squares fit;
- which steps of `main` raise.

Where the code and its documentation differ, the model follows the code:

- `add_participant` validates nothing itself. A dict without a key for one of
  the nine columns is refused by the engine when it binds the parameters.
- `add_measurement` checks only that four keys are present; the engine then
  refuses a dict lacking any of the other four parameters. It does not check
  that the participant exists. Any foreign-key enforcement would live in the
  schema file, which is not part of this model.

## Model

| member | source | states |
|---|---|---|
| QueryCatalogue.GroupFlatten | database.py:185-192 | Cutting the lines at headers loses nothing: the preamble and the sections, flattened, give back every line in order; with `GroupUnique` this determines the grouping |
| QueryCatalogue.GroupUnique | database.py:185-192 | A grouping with no header in its preamble or in any body, and a header at the head of each section, is exactly what cutting its own lines at headers gives: the cut is unique |
| QueryCatalogue.PreambleDropped | database.py:183-192 | Lines before the first `-- ` header belong to no section: prefixing header-free lines changes only the preamble |
| QueryCatalogue.GroupKeepsLines | database.py:185-192 | Every preamble and body line is one of the input lines |
| QueryCatalogue.CollectSound | database.py:187-188 | Every name in the catalogue comes from a section with a non-empty stripped name and a non-empty body |
| QueryCatalogue.CollectLastWins | database.py:187-195 | The last qualifying section of a name supplies that name's SQL, its body lines joined with newlines; an earlier section of the same name is overwritten |
| QueryCatalogue.CollectMissing | database.py:187-195 | A name carried by no qualifying section (empty name or empty body) is absent from the catalogue |
| QueryCatalogue.BodyRoundTrip | database.py:185-188 | The stored SQL of a section splits on newlines back into exactly its body lines |
| QueryCatalogue.ParseCatalogue | database.py:181-195 | The header/pending-section loop computes the same map as the reference reading `Catalogue` |
| QueryCatalogue.RunAnalysisQuery | database.py:176-200 | A missing queries file is a file-not-found error; an unknown name is a query-not-found error, with no SQL handed to the engine; a known name yields its catalogue SQL |
| SqlText.SchemaStatements | database.py:40-43 | The statements executed are the `;`-separated pieces of the schema whose stripped text is non-empty, unstripped and in order |
| SqlText.InitDatabase | database.py:34-43 | A missing schema file is an error; otherwise every executed statement is non-blank and holds no `;`, and the statements are an order-preserving subsequence of the pieces, one per non-blank piece |
| SqlText.SchemaStatementsDetermined | database.py:40-43 | Those three facts pin the executed list down: any such subsequence equals the filtered pieces |
| SqlText.ConditionsSpec | database.py:126-132 | A condition is present exactly when its argument is truthy (id not `None`/0, date not `None`/empty); the conditions come in the order participant, start, end; there are none exactly when every argument is falsy |
| SqlText.MeasurementQueryRoundTrip | database.py:126-137 | Reading the measurement query back gives exactly the conditions the arguments asked for, provided the dates hold no quote |
| SqlText.MeasurementQueryShape | database.py:134-137 | The query starts with the table select and always ends with ` ORDER BY measurement_date`; ` WHERE ` follows the table name exactly when some argument is truthy |
| SqlText.ParticipantQueryRoundTrip | database.py:109-111 | Reading the participant query back gives the id when it is truthy, and no filter for `None` or 0 |
| SqlText.DateQuoteCollision | database.py:129-132 | Dates are pasted unescaped: for any non-empty `a` and `b`, the start date `a' AND measurement_date <= 'b` gives the same query text as the start date `a` with the end date `b` |
| Storage.FirstUnbound | database.py:53-63 | Reports nothing exactly when the dict has a key for every named parameter; otherwise reports the first parameter, in statement order, that it lacks |
| Storage.InsertedRow | database.py:84-96 | With every parameter bound, a named-parameter INSERT stores exactly the listed columns, each taking the dict's value; other keys of the dict are ignored |
| Storage.AddParticipant | database.py:50-69 | Fails exactly when the dict lacks one of the nine parameters, naming the first in statement order, with the database untouched; otherwise the row is stored under a new id larger than every existing one and the measurements are untouched |
| Storage.FirstMissingField | database.py:78-82 | Reports nothing exactly when all four required fields are keys of the dict; otherwise reports the first absent one in the listed order |
| Storage.RequiredFirst | database.py:78-93 | The four required fields are the first four parameters of the INSERT, so a dict missing one of them also fails binding |
| Storage.AddMeasurement | database.py:71-104 | Fails exactly when the dict lacks one of the eight parameters. A missing required field is reported first, naming the first absent one in the listed order; a dict with all four that lacks another parameter fails binding, naming the first in statement order. Either way the database is untouched; otherwise the row is stored under a new id and the participants are left alone |
| Dicts.Put | database.py:220 | `d[k] = v`: the key then maps to `v`, other keys keep their values, an existing key keeps its place and a new key goes last |
| Storage.SetClauseNamesItsColumn | database.py:210-212 | Clause `i` starts with `key = :` and ends with `:key` for the `i`-th key of the dict |
| Storage.PutPlaceholders | database.py:214-220 | After the id is written in, the caller's dict has a value for exactly the parameters the query names |
| Storage.Updated | database.py:210-218 | The SET list sets each key's column to that key's value and leaves every other cell alone; a clause for `participant_id` rewrites the matched id and so changes no cell; the row gains exactly the keys it did not have |
| Storage.FirstUnknown | database.py:210-218 | Reports nothing exactly when every SET key is one of the given column names, compared exactly; otherwise the first key, in SET-list order, that is not |
| Storage.UpdateParticipant | database.py:207-231 | The query is built from the caller's keys; the caller's dict gains `participant_id` and nothing else changes in it. An empty dict is an SQL error; then a key that is not exactly one of the given column names fails, naming the first such key. Otherwise the result is whether the row exists, only that row changes, and it takes the value of each key the caller passed |
| Storage.UpdateKeepsRowShape | database.py:207-231 | On a table whose columns are at most the id and the inserted ones, a successful update leaves the stored row with exactly the inserted columns |
| Storage.TimestampRoundTrip | database.py:240 | The `%Y%m%d_%H%M%S` stamp reads back as the clock reading it was made from |
| Storage.BackupPath | database.py:239-241 | An explicit path is used as given; otherwise the name is the database path, `.backup_` and a 15-character stamp that reads back as the clock reading |
| Storage.BackupPathsDistinct | database.py:239-241 | A default backup name never equals the live file's path, and readings at different seconds give different names |
| ProgressData.RowsOfExact | analysis.py:87 | Filtering by participant keeps every row of that participant and no other, in table order |
| ProgressData.SortByDate | analysis.py:193 | Sorting by date gives the same rows (as a multiset), ordered by date |
| ProgressData.MeanSkipNa | analysis.py:197-198 | `mean()` skips missing values and is missing exactly when no value is present |
| ProgressData.DiffTelescopes | analysis.py:197-198 | With nothing missing, the consecutive differences sum to last minus first, and there is one fewer of them than values |
| ProgressData.AverageChangeTelescopes | analysis.py:193-198 | With at least two values and none missing, the mean of consecutive differences is (last − first)/(n − 1) |
| ProgressData.RecoveryPatterns | analysis.py:190-205 | One recovery row per participant with more than one row, in order of first appearance, each computed from that participant's rows sorted by date; every such participant is listed, and none twice |
| ProgressData.RepeatedListedOnce | analysis.py:192-195 | Filtering the distinct ids by "more than one row" lists every repeated participant, and each once |
| ProgressData.MinOf | analysis.py:91 | `dates.min()` is at most every date and is one of them |
| ProgressData.DayOffsets | analysis.py:90-91 | Day offsets are non-negative, zero at the earliest date, and keep every gap between two dates |
| ProgressData.MetricRatesGuarded | analysis.py:97-101 | A metric's `_rate` and `_r2` entries exist exactly when none of the participant's values for it is missing, and then hold the fit of its values against the day offsets |
| ProgressData.MetricRatesAbsent | analysis.py:94-101 | No entries exist for a metric outside the list |
| ProgressData.NamesDistinct | analysis.py:100-101 | Distinct metrics give distinct rate and R² column names, so no entry overwrites another |
| ProgressData.RatesOf | analysis.py:95-106 | A rate row carries the participant id and the group and status of the participant's first row, and a metric's rate exactly when the metric has no missing value |
| ProgressData.IndividualRates | analysis.py:85-108 | One rate row per distinct participant, in order of first appearance, each computed from that participant's rows, including participants with no fitted metric |
| ProgressData.RateTableOf | analysis.py:85-110 | The same table as a comprehension over the distinct participants |
| ProgressData.RateTableEmpty | analysis.py:85-110 | The rates table has no rows exactly when the progress data has none |
| ProgressData.FirstUnfitted | analysis.py:119-121 | Reports nothing exactly when every metric has a rate column; otherwise the first metric, in loop order, whose column no row carries |
| ProgressData.SummaryKeyError | analysis.py:110-126 | An empty rates table has no columns, so the `groupby` raises `KeyError` on `group_assignment`. Otherwise the summary raises exactly when some row has both a group and a training status and some metric's rate column is carried by no row, naming the first such column in loop order; with no such row the loop never runs |
| ProgressData.EmptyProgressRaises | analysis.py:110-113 | An empty progress table makes the progression analysis raise `KeyError('group_assignment')` |
| ProgressData.UnfittedMetricRaises | analysis.py:97-121 | If every participant misses a metric at least once and some participant has a group and a training status, the progression analysis raises |
| EffectSize.Interpret | analysis.py:68-77 | A finite effect of magnitude below 0.2 is Negligible; NaN and infinities fail every `<` test and are Large |
| EffectSize.InterpretCountsThresholds | analysis.py:70-77 | A finite effect's rank is the number of the thresholds 0.2, 0.5, 0.8 that its magnitude reaches, so each boundary belongs to the larger class |
| EffectSize.InterpretSymmetric | analysis.py:70-77 | d and −d get the same label |
| EffectSize.InterpretMonotone | analysis.py:70-77 | A larger magnitude never gets a lower label |
| EffectSize.NonFiniteIsLargest | analysis.py:70-77 | A non-finite effect is Large and ranks at or above every finite effect |
| EffectSize.LabelTextIsOneOfFour | analysis.py:70-77 | The label text is one of Negligible, Small, Medium, Large |
| EffectSize.InterpretBoundaries | analysis.py:70-77 | 0.2 and −0.2 are Small, 0.5 is Medium and 0.8 is Large; 0.1, 0.3, 0.6 and 0.9 get the labels the test module expects |
| EffectSize.EffectRows | analysis.py:35-53 | One row per distinct group value, every row the same, because the loop body never reads the group |
| EffectSize.EffectTables | analysis.py:33-55 | Exactly the three metric keys; each table has one row per distinct group, naming the metric, carrying its effect size and the classifier's label for it |
| EffectSize.CalculateEffectSizes | analysis.py:23-66 | Fails exactly when the population query lookup fails, with its error; on success holds that query's SQL and the three metric tables |
| Report.AnalyzeTrainingImpact | analysis.py:141-160 | Succeeds exactly when both queries are found; the program query's error comes first; on success holds both queries' SQL |
| Report.AnalyzeFatigueAndRecovery | analysis.py:182-218 | Fails exactly when the fatigue query is missing, with its error; on success holds its SQL and the recovery patterns of the progress data |
| Report.AnalyzeProgressionRates | analysis.py:79-139 | Fails exactly when the summary loop raises, with the column of its `KeyError`; otherwise returns the individual rates table, one row per distinct participant, each from that participant's rows |
| Report.GenerateSummaryReport | analysis.py:220-236 | Succeeds exactly when all six named queries are found and the progression summary raises nothing. A failure is that of the first failing step in call order: the effect-size query, then the progression summary's `KeyError`, then the other five queries in order. A success holds the population query's SQL and one effect table per metric, the rates table, the training program and compliance SQL, the age and dosing SQL, and the fatigue SQL with the recovery patterns |
| Report.ReportDictKeys | analysis.py:223-230 | The report dict has exactly the six keys `effect_sizes` … `fatigue_recovery`, each holding its own analysis |
| Dicts.FromPairsLastWins | main.py:62 | A dict comprehension's value for a key is that of the last pair with that key |
| Dicts.FromPairsKeyOrder | main.py:62 | A dict comprehension's keys are the distinct keys of the pairs, in order of first appearance |
| Dicts.FromPairsDistinct | main.py:62 | Pairs with distinct keys build the dict they list |
| Serialize.IsoRoundTrip | main.py:67-68 | The `isoformat` text of a date or datetime reads back as the value it was written from |
| Serialize.Convert | main.py:56-71 | A dict becomes a JSON object with each key once; a list or tuple becomes a list of the same length; a date becomes text that reads back as it; `pd.NaT`, which is a `datetime`, takes the date branch and becomes the text `NaT`, which reads back as no date; `None`, `pd.NA` and a float NaN become null |
| Serialize.ConvertAll | main.py:63-64 | The list conversion converts each element in place |
| Serialize.SerializeDict | main.py:61-62 | Keys come out as `str(k)`, each once, in order of first appearance; when two keys print alike, the later value wins |
| Serialize.KeyCollision | main.py:62 | `{1: 'a', '1': 'b'}` becomes `{"1": "b"}` |
| Serialize.SerializeWellFormed | main.py:56-71 | Whatever Python keys print alike, no dict in the output repeats a key, provided the frames and series inside have distinct keys |
| Serialize.EmbedRoundTrip | main.py:56-71 | Data that is already JSON comes through unchanged except that NaN becomes null, so the transform is idempotent up to NaN |
| Serialize.NumpyNanKept | main.py:65-70 | As written, a Python float NaN becomes null but a numpy float64 NaN stays NaN, so the output can hold a NaN |
| Serialize.IntendedHasNoNaN | main.py:65-71 | With numpy NaN also sent to null, the output holds no NaN beyond what frames and series already carry |
| SampleData.WeeklyGains | main.py:194-209 | Weekly gains are positive, and lean mass gains are a tenth of strength gains |
| SampleData.GainsBySample | main.py:194-209 | The four sample profiles gain 5/0.5, 3/0.3, 2.5/0.25 and 2/0.2; any participant aged 30 to 49 falls to the last branch, 2/0.2 |
| SampleData.CreatineGainsMore | main.py:194-209 | In one age band, creatine gains at least as much as placebo |
| SampleData.Baseline | main.py:211-219 | Week 0 is the same baseline for everyone: 100.0, 65.0, 35.0, 150.0, 8.5, fatigue 3 |
| SampleData.Progression | main.py:190-219 | Dates are 7 days per week apart, so strictly increasing; strength and lean mass strictly increase with the week; fatigue stays 3 |
| SampleData.FinalWeek | main.py:211-215 | Week 5 values of the sample: 125.0 and 110.0 kg strength, 66.25 kg lean mass |
| SampleData.RequiredPresent | main.py:211-220 | Every generated measurement dict has all the fields `add_measurement` requires, and a value for all eight parameters of its INSERT |
| SampleData.ProfilePresent | main.py:131-180 | Every participant dict has a value for all nine parameters of the participant INSERT |
| SampleData.Schedule | main.py:189-191 | 4 × 6 measurements, participant by participant, in the order of the participant ids |
| SampleData.AddParticipants | main.py:182-184 | The four participants get fresh, distinct ids, each storing its profile; existing rows stay |
| SampleData.AddMeasurements | main.py:189-220 | Every measurement passes the field check and is stored under a fresh, distinct id; existing rows stay |
| SampleData.AddSampleData | main.py:125-225 | The generator never fails: 4 participants and 24 measurements stored under new ids, existing rows unchanged |
| Cli.Plan | main.py:241-255 | `--init-db` runs initialisation then sample data first; `--analyze`, `--visualize` and `--dashboard` each select their step exactly when given, the dashboard with the parsed port; help is printed exactly when every parsed value is falsy; no step backs up, constructs or cleans up |
| Cli.PlanRanked | main.py:241-255 | The steps follow the `if` chain: each comes strictly after the ones before it in the chain, so none repeats and none is out of order |
| Cli.RankedAppend | main.py:241-255 | Two runs of steps in chain order, the first wholly earlier in the chain than the second, join into one run in chain order |
| Cli.RunUntilRaise | main.py:240-258 | The started steps are a prefix of the plan; all run exactly when none raises; otherwise the last started step is the one that raised |
| Cli.CleanupAlwaysLast | main.py:259-260 | Cleanup is the last step of every run, and runs once |
| Cli.MainRunsPlan | main.py:238-260 | A constructor that raises ends the run with nothing else started, not even cleanup; cleanup runs exactly when construction succeeds. Without failures the construction, the whole plan and then cleanup run; a raising cleanup replaces the pending exception; any other exception comes from the last plan step started |
| Cli.HelpNeverWithDefaultPort | main.py:254-255 | With the default port 8050, help is never printed; an empty command line only constructs the study and cleans up |
| Cli.BackupIgnored | main.py:233 | `--backup` alone selects no step, and no backup runs |
| Cli.IntendedPlanProperties | main.py:229-255 | In the corrected plan, help is printed exactly when no step flag is given, and is then the only step; backup runs exactly when asked; otherwise the steps are the same as written |
| Requirements.LinesCoverText | setup.py:11-12 | The file's lines, each keeping its newline, concatenate to the text, with no newline before a line's end |
| Requirements.Kept | setup.py:12 | Every kept entry is non-empty and has no surrounding whitespace, and there are at most as many as lines |
| Requirements.ReadRequirements | setup.py:9-14 | A missing file gives no requirements; every requirement is non-empty and stripped |
| Requirements.KeptMembership | setup.py:12 | A string is listed exactly when some line that is not blank and not starting with `#` strips to it |
| Requirements.KeptIsSubseq | setup.py:12 | The requirements are an order-preserving subsequence of the stripped lines |
| Requirements.ReadFirstLine | setup.py:11-12 | The first line contributes its stripped text exactly when it is not blank and does not start with `#` |
| Requirements.CommentDropped | setup.py:12 | A line with `#` in the first column is dropped |
| Requirements.IndentedCommentKept | setup.py:12 | An indented comment is kept, `#` and all, because the comment test looks at the unstripped line |

## Left out

- SQL execution, the engine, connections, commits and `lastrowid`. SQL is text, and the database is two maps from row id to row; a new id is any id above the last one handed out.
- The contents of the schema and queries files. They are inputs, and any foreign-key or field enforcement they carry is not part of this model. The set of the participants table's columns is a parameter of `UpdateParticipant`.
- Storage.UpdateParticipant: a key that is not an SQL identifier makes the engine report a syntax error rather than "no such column". Both are modelled as one `UnknownColumn` error naming the key.
- Storage.UpdateParticipant: column names are compared exactly, but SQLite resolves them without regard to ASCII case. A key such as `Age` updates the column `age` in the program, and the model reports `UnknownColumn("Age")` for it. A key such as `PARTICIPANT_ID` is not overwritten by the `participant_id` assignment, so the program sets the id column to the caller's value. Neither is modelled; the model promises its result only for keys spelled as the columns are.
- Storage.FirstUnknown: the membership test is exact. SQLite's case-insensitive name resolution is left out, as on the line above.
- ProgressData.ProgressRow: a measurement date is never missing. `add_measurement` only checks that the key is present, so `'measurement_date': None` is accepted; if the schema lets the column be NULL, the day offsets are then NaN and the regression fit raises. Missing dates, and that error, are not modelled.
- ProgressData.AverageChangeTelescopes: the differences and their mean are exact real arithmetic. pandas computes them in float64, so the closed form `(last − first)/(n − 1)` holds of the program only up to rounding.
- The result tables of the named queries. An analysis keeps the SQL text the catalogue supplied, which is what determines its table.
- `get_progress_data`: the join and its ordering are SQL. Its result is the input table of `ProgressData`.
- The `backup()` file copy and the creation of the data directory: file I/O.
- Logging, and the log-and-re-raise `except` blocks. They change no outcome.
- The numeric value of Cohen's d (`np.var`, `np.sqrt`, division): floating point. It enters as a finite real, NaN or an infinity per metric.
- The sklearn least-squares fit and R²: a foreign call. It enters as a parameter.
- Report.AnalyzeProgressionRates: the values of the `groupby` summary statistics (mean and standard deviation per group) are left out, as floating-point library work. Only whether the summary loop raises, and the individual rates table, are modelled.
- The age and dosing analyses (analysis.py:162-180). Each is a single named-query lookup, already covered by `QueryCatalogue.Lookup` inside `GenerateSummaryReport`.
- Dates in `ProgressData` and `SampleData` are day numbers. ISO `YYYY-MM-DD` text orders the same way, and `timedelta(weeks=w)` adds `7w` days.
- ProgressData.SortByDate: the order of rows with equal dates is not stated. `sort_values` defaults to an unstable quicksort, so two measurements of one participant on the same day may come out in either order, which changes the fatigue differences the recovery rate averages.
- Storage.Timestamp: years before 1000 are excluded, because how `%Y` pads them depends on the platform's C library.
- Serialize.Convert: a datetime carries whole seconds only. Microseconds and time zones, which change `isoformat`'s text, are not modelled.
- Serialize.Convert: DataFrame and Series contents pass through as the JSON their `to_dict` produces. The transform does not look inside them, and pandas' own conversion is not modelled.
- Serialize.Convert: `pd.isna` on array-likes, which returns an array rather than a bool, is not modelled. An unknown object becomes its `str()` text, given as data.
- Serialize.Convert: the plain-scalar branch returns the value as it is. A float infinity passes through, as it does in the code.
- Argparse parsing of the command line. The parsed namespace is the input to `Cli`.
- The work of each step of `main` (`run_analysis`, `generate_visualizations`, `run_dashboard`, `cleanup`). Whether a step raises is a parameter.
- Requirements.ReadRequirements: Python's universal-newline translation (`\r\n` to `\n`) is taken as already applied to the text. Other I/O errors than a missing file are not modelled.
- `setup()` metadata and the README read of `setup.py`: packaging, no logic.
- visualization.py and dashboard.py: plotting and the web UI.
- SqlText.MeasurementQueryRoundTrip: requires quote-free dates, because the code does not escape quotes. `DateQuoteCollision` shows that the query is then ambiguous.

## Findings

| source | as written | input that shows it | evidently intended | confidence | as-written member | corrected member |
|---|---|---|---|---|---|---|
| main.py:254 | help is printed only when `any(vars(args).values())` is false, but `--port` defaults to 8050, which is truthy | an empty command line: nothing runs but construction and cleanup | print help when no action flag is given | high; not executed | Cli.HelpNeverWithDefaultPort | Cli.IntendedPlanProperties |
| main.py:233 | `--backup` is parsed but no branch calls `backup_database` | `--backup`: nothing runs but construction and cleanup | `--backup` backs up the database | high; not executed | Cli.BackupIgnored | Cli.IntendedPlanProperties |
| main.py:65-70 | a numpy float64 NaN is caught by the numpy branch and returned as a float NaN before the `pd.isna` test; `json.dump` then writes the non-JSON token `NaN` | `np.float64('nan')`, as a pandas `mean()` of no values yields | every NaN becomes null, as a Python float NaN does | medium; not executed | Serialize.NumpyNanKept | Serialize.IntendedHasNoNaN |
