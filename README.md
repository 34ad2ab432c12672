# Petrosys chamados — a Dafny model of the ticket analyses

Petrosys_chamados reads help-desk ticket exports ("chamados") and turns them into counts and charts:

- tickets per catalogue item, per month, per weekday, per hour of the day and per ISO week;
- the share of tickets that were rated;
- the time each ticket took from opening to closing;
- a small Flask dashboard that lists the chart images and offers a refresh endpoint.

This project models that pipeline's data handling on pandas-like values and proves what it computes.

- **Loading** (`src/carregamento_dados.py`):
  - every `.csv` export of a folder is read, and the four date columns are parsed with the day-first layout `dd/mm/yyyy hh:mm`;
  - the frames are concatenated, and the labels are normalised (strip, spaces to `_`, parentheses removed);
  - the dates are re-coerced, and the `Dia_Semana` and `Hora` columns are derived.
- **Monthly consolidation** (`app/main.py`): every `.xlsx` workbook of the data folder is concatenated into one table.
- **Charts** (`app/graficos.py`): the chart-type check, the top 15 catalogue items, and tickets per month (name order), per weekday (Monday to Sunday, zero-filled) and per hour (ascending).
- **Analyses** (`src/analise_tipo.py`, `src/analise_geral.py`, `src/analise_temporal.py`, `src/previsao_chamados.py`): the top-n ticket types, the untyped count, the general summary, the day/hour series and the weekly volume.
- **Dashboard** (`app/routes.py`): grouping of `.png` names by file-name fragment, and the refresh endpoint's reply.

Modules:

| file | module | what it holds |
|---|---|---|
| wrappers.dfy | Wrappers | `Option`, `Result` |
| order.dfy | Order | lexicographic order on integer sequences (Python's code-point string order) |
| text.dfy | Text | `str.strip`, `endswith`, substring test |
| calendar.dfy | Calendar | proleptic Gregorian ordinals, weekday, day names, the ISO 8601 week date |
| timestamps.dfy | Timestamps | the `%d/%m/%Y %H:%M` parser of `pd.to_datetime`, and a formatter that inverts it |
| tables.dfy | Tables | the DataFrame as labels and rows, the `Frame` class for frames mutated in place, `concat`, column assignment and relabelling |
| counts.dfy | Counts | `value_counts`, `head`, `sort_index` and `reindex(fill_value=0)` |
| dates.dfy | Dates | cell coercion and the `.dt` accessors |
| listing.dfy | Listing | directory listings filtered by suffix |
| column_names.dfy | ColumnNames | the loader's label normalisation |
| loader.dfy | Loader | `carregar_dados` |
| consolidation.dfy | Consolidation | `consolidar_dados_mensais` |
| charts.dfy | Charts | `app/graficos.py` |
| type_analysis.dfy | TypeAnalysis | `src/analise_tipo.py` |
| temporal.dfy | Temporal | `src/analise_temporal.py` |
| general_summary.dfy | GeneralSummary | `src/analise_geral.py` |
| weekly_volume.dfy | WeeklyVolume | `src/previsao_chamados.py` |
| dashboard.dfy | Dashboard | `app/routes.py` |

**How the model is built**

- The loops of the source are methods: the loader's read loop and re-coercion loop, and the consolidation loop. Each is proved equal to a specification function, and the properties are proved about those functions.
- The functions that assign columns of the caller's DataFrame work on a `Frame` object. Its `Snapshot()` is the table value, and their `ensures` state the whole new state.
- Operations that can raise become `Result` values, carrying the exception as an `Error`.

**Behaviour worth knowing**

- `carregar_dados` keeps the rows whose start date fails to parse; their start is missing.
- The hour series lists only the hours that occur.
- In `src/` the weekday series is sorted by name, so it runs Friday, Monday, Saturday, …. Only `app/graficos.py` reindexes Monday to Sunday.
- A `.csv` file lacking a date column makes the whole load fail, because `read_csv` raises.
- The consolidated workbook `dados_anuais.xlsx` is read back by the next consolidation (see Findings).

## Model

| member | source | states |
|---|---|---|
| Timestamps.ParseDayFirst | src/carregamento_dados.py:15 | a parse that succeeds yields a real calendar date and clock time inside pandas' Timestamp range |
| Timestamps.ParseFormatRoundTrip | src/carregamento_dados.py:15 | every valid Timestamp in range, written as `dd/mm/yyyy hh:mm`, parses back to itself |
| Timestamps.ParseDayFirstExample | src/previsao_chamados.py:18 | "05/03/2024 14:30" is read day first, as 5 March 2024 14:30 |
| Timestamps.ParsePadded | src/previsao_chamados.py:18 | any five numbers written zero-padded as `dd/mm/yyyy hh:mm` parse to the date and time they name when it is real and within pandas' bounds, and to missing otherwise |
| Timestamps.ParseImpossibleDay | src/previsao_chamados.py:18 | "31/02/2024 10:00" is not a date and coerces to missing |
| Timestamps.SplitOnce | src/carregamento_dados.py:15 | the text splits at the first separator and re-joins to the input; no split means no separator |
| Calendar.WeekdayNextDay | src/carregamento_dados.py:30 | the weekday of the next calendar day is the following weekday, Sunday wrapping to Monday |
| Calendar.IsoCalendarIsIso8601 | src/previsao_chamados.py:26 | `isocalendar()` yields the ISO 8601 week (section 4.1.4 of ISO 8601:2004: the week holding the date's Thursday), in 1..53, with the ISO weekday |
| Calendar.IsoWeekUnique | src/previsao_chamados.py:26 | a date belongs to exactly one ISO year and week |
| Calendar.IsoWeekRange | src/previsao_chamados.py:26 | an ISO week number is between 1 and 53 |
| Dates.StrictCoerce | src/carregamento_dados.py:15 | coercion yields a Timestamp or missing; a Timestamp is kept; text is present exactly when it parses day first |
| Dates.StrictCoerceIdempotent | src/carregamento_dados.py:25-27 | coercing an already coerced cell changes nothing |
| Dates.LooseCoerce | app/graficos.py:54 | format-free coercion yields a Timestamp or missing and keeps a datetime cell unchanged |
| Dates.DayNameCell | src/carregamento_dados.py:30 | the day name is present exactly for a Timestamp and is one of the seven English names |
| Dates.HourCell | src/carregamento_dados.py:31 | the hour is present exactly for a Timestamp and lies in 0..23 |
| Dates.MonthNameCell | app/graficos.py:54 | the month name is present exactly for a Timestamp and is an English month name |
| Dates.WeekCell | src/previsao_chamados.py:26 | the week is present exactly for a Timestamp, lies in 1..53 and is the date's ISO 8601 week |
| Dates.DurationCell | src/analise_geral.py:30 | the difference is missing exactly when either date is, else it is the elapsed minutes |
| Dates.DurationOfOneDay | src/analise_geral.py:30 | the same clock time a day later is 1440 minutes later |
| Tables.SetCell | src/carregamento_dados.py:27 | assigning a cell changes that cell and no other |
| Tables.WithColumn | app/graficos.py:54 | `df[c] = cells` keeps the labels (adding `c` at the end if new) and every other cell; `c` now holds `cells` |
| Tables.Relabel | src/carregamento_dados.py:22 | assigning `df.columns` changes labels only; the row count is kept |
| Tables.RelabelRowCell | src/carregamento_dados.py:22 | the first column carrying a new label holds the old column's cell |
| Tables.UnionColumns | src/carregamento_dados.py:19 | the concatenated labels are the first frame's labels followed by the new ones, no duplicates added |
| Tables.StackRows | app/main.py:16 | repeated concatenation keeps every row in order; its labels are the union of all labels, the first frame's first |
| Tables.AllRowsBlock | app/main.py:16 | the k-th frame's rows sit contiguously after the rows of the frames before it |
| Tables.StackWellFormed | src/carregamento_dados.py:19 | concatenating well-formed frames yields a well-formed frame |
| Tables.Frame.Assign | app/graficos.py:54 | column assignment on the caller's frame changes it to `WithColumn` of the old state |
| Tables.Frame.SetLabels | src/previsao_chamados.py:10 | relabelling the caller's frame changes it to `Relabel` of the old state |
| Counts.Tally | src/analise_geral.py:10 | each distinct present value is counted once with its number of occurrences; missing cells are not counted |
| Counts.SortByCount | src/analise_geral.py:10 | the sort is a permutation with non-increasing counts |
| Counts.ValueCounts | src/analise_geral.py:10 | `value_counts()`: distinct keys, exactly the present values, each with its occurrence count, in non-increasing count order, totalling the non-missing cells |
| Counts.Head | app/graficos.py:38 | `head(n)` is a prefix of length min(n, len), or len + n for negative n |
| Counts.Top | src/analise_tipo.py:12 | a prefix of `value_counts()`: at most n entries (exactly n when that many values exist, every present value when n reaches their number), in non-increasing count, each a present value with its true count |
| Counts.TopIsTop | src/analise_tipo.py:12 | a value left out of the top n occurs no more often than any value shown |
| Counts.SortIndex | app/graficos.py:55 | `sort_index()` is a permutation of the counts in strictly ascending key order |
| Counts.SortedCounts | src/analise_geral.py:14 | `value_counts().sort_index()`: exactly the present values with their true counts, in strictly ascending key order, totalling the non-missing cells |
| Counts.NumbersAscending | src/analise_geral.py:14 | for numbers, the sorted series has strictly increasing numeric keys |
| Counts.TextsAscending | src/analise_temporal.py:9 | for text, the sorted series is in code-point order of the labels |
| Counts.Reindex | app/graficos.py:73 | `reindex(labels)` has one entry per label, in the label order |
| Counts.ReindexCounts | app/graficos.py:73 | each reindexed label carries its occurrence count, 0 when it never occurs |
| Counts.ReindexCoversColumn | app/graficos.py:73 | when the labels cover every value, the reindexed series totals the non-missing cells |
| Counts.PresentPlusMissing | src/analise_tipo.py:30 | present and missing cells add up to the row count |
| Listing.WithSuffixMembers | src/carregamento_dados.py:5 | the filtered listing holds exactly the files whose names end with the suffix |
| Listing.WithSuffixAppend | app/main.py:10 | filtering distributes over listing concatenation, so the listing order is kept |
| ColumnNames.ReplaceSpaces | src/carregamento_dados.py:22 | every space becomes `_`, every other character is kept |
| ColumnNames.DeleteParensMembers | src/carregamento_dados.py:22 | the result holds exactly the input's characters other than parentheses |
| ColumnNames.NormalizeAll | src/carregamento_dados.py:22 | every label is normalised, position by position |
| ColumnNames.NormalizeIsClean | src/carregamento_dados.py:22 | a normalised label contains no space and no parenthesis |
| ColumnNames.NormalizeKeepsPlainName | src/carregamento_dados.py:22 | a label without whitespace or parentheses is kept as it is |
| ColumnNames.SpacedLabel | src/carregamento_dados.py:22 | a trimmed label without parentheses only has its spaces replaced |
| ColumnNames.NormalizeNotIdempotent | src/carregamento_dados.py:22 | stripping before deleting parentheses can leave leading whitespace, so normalising twice differs |
| ColumnNames.NormalizeCatalogLabel | src/analise_tipo.py:6 | "Item do Catálogo" is renamed to "Item_do_Catálogo", the label the type analysis reads |
| ColumnNames.StripAll | src/previsao_chamados.py:10 | every label is stripped, position by position |
| Loader.StrictCells | src/carregamento_dados.py:14-15 | exactly the named date cells are coerced; all other cells are kept |
| Loader.ReadCsv | src/carregamento_dados.py:10-16 | reading fails exactly when a `parse_dates` column is absent; otherwise it keeps labels and rows and coerces the four date columns |
| Loader.ReadAll | src/carregamento_dados.py:8-17 | the read succeeds exactly when every file reads, and then holds each file's frame in order |
| Loader.ReadFiles | src/carregamento_dados.py:8-17 | the read loop computes `ReadAll` |
| Loader.Recoerce | src/carregamento_dados.py:25-27 | fails exactly when a date label is absent (KeyError) or labels two columns (duplicate keys), naming it; else coerces exactly those columns and keeps everything else |
| Loader.RecoerceColumns | src/carregamento_dados.py:26-27 | the re-coercion loop computes `Recoerce` |
| Loader.Derive | src/carregamento_dados.py:30-31 | adds `Dia_Semana` and `Hora`, present exactly when the start is a Timestamp and equal to its day name and hour; other cells are kept |
| Loader.Load | src/carregamento_dados.py:4-33 | `carregar_dados` computes the composed specification |
| Loader.DateLabelsNormalize | src/carregamento_dados.py:22-25 | the four raw date labels normalise to the four labels the re-coercion reads |
| Loader.LoadFailsExactly | src/carregamento_dados.py:5-27 | the load fails exactly when there is no `.csv` (concat of nothing), a `.csv` lacks a date column, or two merged labels normalise to the same date label |
| Loader.LoadErrorKinds | src/carregamento_dados.py:10-27 | a failed load over some `.csv` reports a missing date column exactly when a file lacks one, and otherwise a duplicated date label, repeated after renaming |
| Loader.LoadRejectsRenamedClash | src/carregamento_dados.py:22-27 | a `.csv` label other than the raw one that normalises to a date label (`Iniciado_em` beside `Iniciado em`) makes the load fail with duplicate keys |
| Loader.DuplicateStartExample | src/carregamento_dados.py:27 | a file with both `Iniciado em` and `Iniciado_em` fails on the duplicated label |
| Loader.LoadKeepsEveryRow | src/carregamento_dados.py:19 | a successful load holds as many rows as all the `.csv` files together |
| Loader.LoadStartColumns | src/carregamento_dados.py:14-31 | row i of the result carries the coerced start of source row i, with its day name and hour |
| Loader.RenamedStartCells | src/carregamento_dados.py:22 | after renaming, `Iniciado_em` holds the coerced `Iniciado em` cell of every source row |
| Consolidation.ConsolidateMonthly | app/main.py:10-18 | the consolidation loop computes `Consolidate` |
| Consolidation.ConsolidateNothing | app/main.py:11 | with no `.xlsx` file the result is the empty frame |
| Consolidation.ConsolidateRows | app/main.py:13-18 | the result holds every workbook's rows, in listing order, and exactly the labels any workbook has, without duplicates |
| Consolidation.ConsolidateBlock | app/main.py:16 | row j of workbook k lands at a fixed offset, with missing cells for labels that workbook lacks |
| Consolidation.SecondRunDoublesRows | app/relatorios.py:25-26 | once the yearly workbook is written into the data folder, the next consolidation counts every ticket twice |
| Consolidation.ReportAnywhereDoublesRows | app/main.py:10-18 | wherever the yearly workbook sits in the listing, the next consolidation holds every first-run row twice (as a multiset), between the rows of the files around it |
| Consolidation.SecondRunExample | app/main.py:10 | one monthly ticket becomes two after the report has been written |
| Consolidation.MonthlyFilesMembers | app/main.py:10 | the corrected filter keeps exactly the `.xlsx` files other than the yearly workbook |
| Consolidation.ConsolidateMonthsIgnoresReport | app/main.py:10 | with the corrected filter, the yearly workbook anywhere in the listing changes nothing |
| Consolidation.ConsolidateMonthsSecondRun | app/relatorios.py:25-26 | with the corrected filter, consolidating again after writing the report gives the same table |
| Charts.ChartOf | app/graficos.py:12-24 | "bar" and "line" select a chart; any other type raises the ValueError |
| Charts.CatalogSeries | app/graficos.py:37-38 | a series exists exactly when the catalogue column exists; it is the top 15 catalogue items |
| Charts.CatalogSeriesIsTop | app/graficos.py:38 | an item left out of the chart occurs no more often than any item shown |
| Charts.Starts | app/graficos.py:54 | the re-read start column holds a Timestamp or missing per row |
| Charts.ChartByMonth | app/graficos.py:54-55 | a missing `Iniciado em` raises KeyError and a repeated one the duplicate-keys ValueError, leaving the frame untouched; otherwise `Mes` is assigned on the caller's frame and the month counts are returned in name order |
| Charts.MonthSeriesShape | app/graficos.py:55 | the month series has English month names in code-point order, positive counts, totalling the parsed starts |
| Charts.MonthsNotInCalendarOrder | app/graficos.py:55 | `sort_index` puts April before January |
| Charts.WeekOrder | app/graficos.py:72 | the reindex labels are the seven day names, Monday first |
| Charts.ChartByDay | app/graficos.py:71-73 | a missing `Iniciado em` raises KeyError and a repeated one the duplicate-keys ValueError, leaving the frame untouched; otherwise `Dia_Semana` is assigned and the counts are reindexed Monday to Sunday |
| Charts.DaySeriesShape | app/graficos.py:73 | exactly seven entries, Monday to Sunday, each with its true count (0 if none), totalling the parsed starts |
| Charts.ChartByHour | app/graficos.py:89-90 | a missing `Iniciado em` raises KeyError and a repeated one the duplicate-keys ValueError, leaving the frame untouched; otherwise `Hora` is assigned and the hour counts are returned in ascending order |
| Charts.HourChartShape | app/graficos.py:90 | hours in 0..23, strictly ascending, positive counts, totalling the parsed starts |
| TypeAnalysis.TopTypes | src/analise_tipo.py:6-12 | a result exists exactly when `Item_do_Catálogo` exists, and it is the top n types |
| TypeAnalysis.DefaultTopTypes | src/analise_tipo.py:4 | by default at most 10 distinct types, in non-increasing count, each with its true count |
| TypeAnalysis.UntypedCount | src/analise_tipo.py:26-33 | a count exists exactly when the column exists, and it is at most the row count |
| TypeAnalysis.UntypedPlusTyped | src/analise_tipo.py:30 | untyped tickets plus all counted types equal the number of tickets |
| Temporal.ByPeriod | src/analise_temporal.py:5-48 | fails exactly when `Dia_Semana` or `Hora` is absent, naming the first one read |
| Temporal.ByPeriodReadsTwoColumns | src/analise_temporal.py:9-30 | the series depend only on the `Dia_Semana` and `Hora` cells |
| Temporal.ByDayShape | src/analise_temporal.py:9 | day names in code-point order with positive counts, totalling the non-missing day cells |
| Temporal.ByHourShape | src/analise_temporal.py:30 | hours strictly ascending with positive counts, totalling the non-missing hour cells |
| Temporal.LoadFeedsSeries | src/carregamento_dados.py:30-31 | on what the loader returns both series exist, weekdays are English day names, hours are numbers, and the two series count the same tickets |
| Temporal.FridayFirst | src/analise_temporal.py:9 | sorting by name puts Friday before Monday |
| GeneralSummary.RatingOf | src/analise_geral.py:17-22 | the rating block exists exactly with the `Avaliação` column; rated is the non-missing count, never above the total rows |
| GeneralSummary.Summarize | src/analise_geral.py:5-59 | fails exactly when `Dia_Semana` or `Hora` is absent (KeyError, in that order) or, with both date columns present, one of them labels two columns (duplicate keys, start first); durations exist exactly when both date columns exist |
| GeneralSummary.RepeatedStartExample | src/analise_geral.py:28 | a frame with two `Iniciado_em` columns raises on the start column |
| GeneralSummary.Summarise | src/analise_geral.py:27-29 | on success the caller's frame has both date columns re-read; when the finish column is the repeated one, only the start column is re-read; on any other failure it is unchanged |
| GeneralSummary.RereadDates | src/analise_geral.py:28-29 | the two date columns are re-coerced cell by cell |
| GeneralSummary.DurationsPerRow | src/analise_geral.py:30 | each ticket's duration is missing exactly when a date is, else it is end minus start |
| GeneralSummary.ChartsMatchTemporal | src/analise_geral.py:38-50 | the day and hour charts equal the temporal analysis' series; the hour chart equals the printed hour series |
| GeneralSummary.DaySeriesSameLines | src/analise_geral.py:10-38 | the printed day series (by count) and the charted one (by name) are the same entries reordered |
| WeeklyVolume.ForecastVolume | src/previsao_chamados.py:6-29 | the step-by-step changes to the caller's frame and the way the function ends are those of `Forecast` |
| WeeklyVolume.NoStartExactly | src/previsao_chamados.py:10-15 | it stops early exactly when no stripped label is `Iniciado em`, having only stripped the labels |
| WeeklyVolume.LabelsStripped | src/previsao_chamados.py:10 | the caller's labels are stripped in place |
| WeeklyVolume.DuplicateStartExactly | src/previsao_chamados.py:10-18 | `pd.to_datetime` raises (duplicate keys) exactly when two labels strip to `Iniciado em`, with only the labels stripped by then |
| WeeklyVolume.DuplicateStartForecastExample | src/previsao_chamados.py:10-18 | `Iniciado em` beside `Iniciado em ` raises |
| WeeklyVolume.InvalidStartsExactly | src/previsao_chamados.py:18-23 | past the label checks, it aborts exactly when the start label is unique and some start fails the strict parse, leaving the parsed column |
| WeeklyVolume.WeekOfEachTicket | src/previsao_chamados.py:26 | on success every ticket has a parsed start and its ISO week in `Semana` |
| WeeklyVolume.WeeklyShape | src/previsao_chamados.py:28 | weeks in 1..53 strictly ascending, positive counts, totalling every ticket |
| Dashboard.ImagesMembers | app/routes.py:12 | the listing keeps exactly the `.png` names |
| Dashboard.HavingMembers | app/routes.py:16-19 | a group keeps exactly the names containing its fragment |
| Dashboard.HavingAppend | app/routes.py:16-19 | grouping keeps the listing order |
| Dashboard.Groups | app/routes.py:15-20 | four groups; each holds exactly the `.png` names containing its fragment |
| Dashboard.MonthChartInNoGroup | app/routes.py:15-20 | the month chart `chamados_por_mes.png` is listed but shown in no group |
| Dashboard.Refresh | app/routes.py:29-34 | status 200 with the success text exactly when the refresh returns; else 500 with the exception text |

## Left out

- Plotting (matplotlib/seaborn), `gerar_grafico`'s bar labels and file output are not modelled. Only the chart-type check and the plotted series are.
- File I/O is not modelled: reading CSV and Excel, `os.listdir`, saving images and `to_excel`. A folder is a sequence of named tables, listed in `os.listdir` order.
- Floating point is not modelled: the rating percentage and the mean duration. The model keeps the rated and total counts and the per-ticket durations in minutes.
- Console output (`print`) and `plt.show()` are not modelled.
- pandas' format inference in `pd.to_datetime` without a format is a parameter, `infer`. Datetime cells pass through unchanged, as pandas does.
- GeneralSummary.Summarize: one `infer` function serves both date columns and every cell. pandas 2 infers a format per column, from its first non-missing text, so two columns may be read with different formats.
- Dates.LooseCoerce: does not state which text is read, because pandas' inference rules are not part of this model.
- Dates.LooseCoerce: makes a number cell missing. pandas reads a number in a date column as nanoseconds since 1970-01-01, so an Excel start column read as numbers gives 1970 Timestamps, which `app/graficos.py:54-90` would count as January, Thursday, hour 0. The model drops those rows from the month, weekday and hour charts and from `GeneralSummary.Summarize`'s durations.
- The loader's second coercion (`dayfirst=True`) works on cells that are already datetimes or missing, so it is modelled with the same strict coercion. Its result is then the identity (`Dates.StrictCoerceIdempotent`).
- `strftime('%B')` and `day_name()` use English names. Locale-dependent month names are not modelled.
- Ties in `value_counts` keep first-seen order in the model. pandas does not promise an order for ties, and the contracts promise only non-increasing counts.
- Keys of different kinds (text and numbers) sorted together: pandas raises for this case. The model orders them anyway, and no modelled column mixes them.
- `Hora` is an integer here. pandas gives a float column when hours are missing.
- Duplicate labels other than the four date labels: reading such a label (`Dia_Semana`, `Hora`, `Tipo`, …) takes the first column carrying it, where pandas would return a frame. A repeated date label raises, as `pd.to_datetime` does when handed a DataFrame with duplicate keys: in the load, in `WeeklyVolume.Forecast` (two labels stripping to `Iniciado em`), in `GeneralSummary.Summarize` (`Iniciado_em` or `Finalizado_em`) and in the three `Charts.ChartBy…` methods (`Iniciado em`).
- A file's table is taken as `read_csv` or `read_excel` return it, with a repeated header already renamed `X.1`. A `Listing.File` whose table repeats a raw label verbatim stands for no file pandas reads; the load treats it as a clash.
- Consolidation.SecondRunDoublesRows: describes the first run only, with no `dados_anuais.xlsx` in the folder yet, and lists the workbook last; `Consolidation.ReportAnywhereDoublesRows` places it anywhere. A later run overwrites that file rather than adding a second one.
- Digits are ASCII `0`–`9`. Python's `\d` also accepts other Unicode digits.
- The orchestration is not modelled: `gerar_relatorios_consolidados` and the fault at `app/main.py:27`, which passes an argument that function does not take.
- The Flask app setup and templates are not modelled: `app/__init__.py`, `run.py` and `render_template`. The refresh endpoint is modelled on the outcome of the refresh it calls.
- `datetime.now()` is not modelled.
- The module-level reads at `src/previsao_chamados.py:48-53` open fixed files and are not modelled. The function they call is.

## Findings

| source | as written | input that shows it | evidently intended | confidence | as-written member | corrected member |
|---|---|---|---|---|---|---|
| app/main.py:10 with app/relatorios.py:25-26 | every `.xlsx` of the data folder is consolidated, including `dados_anuais.xlsx`, which the report writes into the same folder | a folder holding `janeiro.xlsx` with one ticket: the first report has 1 row; the second reads the yearly workbook too and has 2 | consolidate only the monthly workbooks, so a second run gives the same table | not executed | Consolidation.SecondRunDoublesRows | Consolidation.ConsolidateMonthsSecondRun |
