# Land-price averaging core, modelled in Dafny

This project models the data path of the land-pricing web application (`main.py:17-121`). A Word document holds a table of property transactions. The application:

- takes the second table of that document;
- fits every row to the width of the table's second row;
- promotes the first data row to the header;
- translates any Marathi (Devanagari) text to English;
- rewrites `MM/DD/YYYY` and `DD.MM.YYYY` dates as `YYYY-MM-DD`;
- filters the transactions with four SQL queries: the date window, sentinel prices and the low per-unit band, excluded deed types, and excluded survey numbers;
- ranks the survivors by price per square metre, keeps the top half (rounded up) and averages them;
- reports that average in English and in Marathi, together with the rows it used.

## Modules

- `Text`: string helpers, each named after the Python or SQL operation it models. They cover `strip`, `split`/`join`, digit strings, `str(n)`, SQLite's identifier folding, text comparison and `INSTR`/`SUBSTR`.
- `Extraction`: `extract_table_alternative`. The extraction loop is a method proved against the function `Extracted`.
- `Translation`: `contains_devanagari`, `translate_devanagari_only` and `translate_dataframe_content`. The column-by-column loop is a method proved against `TranslatedFrame`.
- `Dates`: `convert_date_format`. It covers strptime's field patterns, calendar validity and the timestamp range, `strftime` with its inverse, and proofs that text order of `YYYY-MM-DD` is calendar order.
- `Filters`: the four queries as order-keeping filters, with SQLite's TEXT-affinity comparisons, `CAST(... AS INTEGER)` and the survey-number clause.
- `Aggregation`: `to_numeric`, `sort_values`, `head(ceil(n/2))` and `mean()`.
- `Pipeline`: `process_data`, covering the header swap, column resolution, the summary, the three returned values and the catch-all error path. `ProcessData` is the method that mirrors the source's sequence of reassignments.
- `Scenario`: a worked run on a two-transaction table.

## Model

| member | source | states |
|---|---|---|
| Text.NatToStringRoundTrip | main.py:119 | the decimal text printed for the row count reads back as that count |
| Text.JoinSplit | main.py:107 | `split(',')` loses nothing: joining the pieces with the separator gives back the input |
| Text.SplitWithoutSeparator | main.py:107 | text without the separator splits into the single piece itself |
| Text.TrimStart | main.py:29 | `lstrip` drops exactly a leading run of whitespace, and what remains does not start with whitespace |
| Text.TrimEnd | main.py:29 | `rstrip` drops exactly a trailing run of whitespace, and what remains does not end with whitespace |
| Text.Instr | main.py:111-112 | `INSTR` is 0 exactly when the character is absent; otherwise it is the 1-based position of its first occurrence |
| Text.SubstrFromStart | main.py:111 | `SUBSTR(s, 1, n)` is a prefix of s whose length is 0 for n <= 0, n within range and |s| beyond it (a definition of the SQL primitive) |
| Extraction.FitCells | main.py:33-39 | a fitted row has exactly the chosen width, holds the row's own cells where it has them, and '' past its end |
| Extraction.ExtractTable | main.py:17-44 | the extraction loop returns exactly `Extracted`: None without a table at index 1 or when that table has no row to read the header from; an empty frame for a table with a single row; otherwise the header names and every row from row 1 on, fitted to row 1's width |
| Extraction.ExtractedNoSecondTable | main.py:20-23 | a document with fewer than two tables yields None |
| Extraction.ExtractedShortTable | main.py:25-27 | a chosen table with exactly one row yields an empty frame |
| Extraction.ExtractedNoRows | main.py:23-24 | a chosen table without rows yields None, because reading its header row raises and the handler at lines 42-44 returns None |
| Extraction.ExtractedShape | main.py:28-40 | extraction fails iff the header row is non-empty but narrower than row 1; a success has row 1's width, one row per table row after the first, and each cell is the source cell or '' |
| Extraction.ExtractedRow | main.py:33-39 | row i of the frame is table row i+1 padded or truncated to row 1's width |
| Extraction.ExtractedWellShaped | main.py:32-40 | every extracted frame has one cell per column in every row |
| Extraction.ExtractedUsable | main.py:17-44 | the frame is usable (not None and not empty) iff the document has table 1 with at least two rows, a non-empty row 1, and a header that is empty or at least as wide as row 1 |
| Extraction.ColumnNames | main.py:30-31 | the generated `Column_<n>` list has exactly one name per column |
| Extraction.HeaderNames | main.py:29 | there are min(header, width) names, and name k is header cell k stripped |
| Translation.TranslateText | main.py:49-57 | Devanagari text whose translation succeeds becomes the translator's answer; text without Devanagari, or text whose translation raised, is returned unchanged; any change is the translator's answer for Devanagari text |
| Translation.TranslateTextIdempotent | main.py:49-57 | translating twice equals translating once when the translator never answers in Devanagari |
| Translation.TranslateColumn | main.py:63-64 | reassigning one column translates that column's cells and leaves every other cell and the shape alone |
| Translation.TranslateFrame | main.py:59-65 | the column-by-column loop yields the frame with every column name and every cell translated |
| Translation.TranslatedFrameShape | main.py:59-65 | translation keeps the number of columns and rows and every row's width; names are translated one by one; a cell changes only if it holds Devanagari |
| Translation.TranslatedFrameUnchanged | main.py:46-65 | a frame with no Devanagari anywhere comes back unchanged, whatever the translator would answer |
| Dates.MonthField | main.py:69 | a `%m` field that parses is all digits, and its value is the month it writes, from 1 to 12 |
| Dates.DayField | main.py:69 | a `%d` field that parses is digits, after at most one leading space, and its value is the day it writes, from 1 to 31 |
| Dates.YearField | main.py:69 | a `%Y` field parses iff it is exactly four digits, and its value is the year it writes |
| Dates.MonthFieldRoundTrip | main.py:69 | `%m` reads back every month 1-12 written with two digits |
| Dates.DayFieldRoundTrip | main.py:69 | `%d` reads back every day 1-31 written with two digits |
| Dates.OneDigitFieldsRoundTrip | main.py:69 | `%m` and `%d` also read back every number from 1 to 9 written with one digit |
| Dates.YearFieldRoundTrip | main.py:69 | `%Y` reads back every year below 10000 written with four digits |
| Dates.ReadDate | main.py:69-73 | a reading that succeeds splits the text into exactly three fields, the date it returns is the one those fields write in the reading's order, and that date is a calendar date within the nanosecond-timestamp range |
| Dates.ReadMonthFirst | main.py:69 | the `%m/%d/%Y` reading accepts every representable date written `MM/DD/YYYY` and returns that date |
| Dates.ReadDayFirst | main.py:73 | the `%d.%m.%Y` reading accepts every representable date written `DD.MM.YYYY` and returns that date |
| Dates.ZeroPad | main.py:70 | the zero-padded field has exactly the width, only digits, and reads back as the number |
| Dates.FormatIso | main.py:70 | `strftime('%Y-%m-%d')` gives ten characters with dashes at positions 4 and 7 |
| Dates.IsoRoundTrip | main.py:70 | reading back the `YYYY-MM-DD` text of a date gives that date |
| Dates.ConvertDateFormat | main.py:67-76 | text the month-first reading accepts becomes its date written `YYYY-MM-DD`; so does text the day-first reading accepts; text neither accepts is returned as it is; a changed result is the `YYYY-MM-DD` text of a valid, representable date |
| Dates.ConvertMonthFirst | main.py:67-70 | every representable date written `MM/DD/YYYY` is rewritten as the same date written `YYYY-MM-DD` |
| Dates.ConvertDayFirst | main.py:71-74 | every representable date written `DD.MM.YYYY` is rewritten as the same date written `YYYY-MM-DD` |
| Dates.ConvertWithoutSeparators | main.py:67-76 | text holding neither `/` nor `.` (an ISO date among it) is returned as it is |
| Dates.ReadNeedsSeparator | main.py:69-73 | a reading fails on text without its separator |
| Dates.ReadingsExclusive | main.py:67-76 | no text is accepted by both the month-first `/` reading and the day-first `.` reading |
| Dates.ConvertIdempotent | main.py:67-76 | normalising a date twice gives the same text as normalising once |
| Dates.ZeroPadOrder | main.py:70 | zero-padded numbers of equal width compare as text exactly as they compare as numbers |
| Dates.IsoOrder | main.py:70 | two `YYYY-MM-DD` texts compare as strings exactly as their dates compare on the calendar |
| Dates.MonthDayOrder | main.py:70 | `MM-DD` texts compare by month, then by day |
| Dates.ConvertExamples | main.py:67-76 | `05/02/2023` and `02.05.2023` both become `2023-05-02` |
| Dates.ConvertPassesThrough | main.py:71-76 | a word, and a February 30th, are returned unchanged |
| Dates.ReadPastMonthEnd | main.py:69-73 | the text `02/30/2023` is rejected by both readings |
| Dates.PastMonthEnd | main.py:69-73 | for every year, month and day 1-31 past the end of that month, written with the usual widths, the month-first `/` reading and the day-first `.` reading both fail |
| Filters.Filter | main.py:98-102 | a filter's output is no longer than its input and every kept row passes the test |
| Filters.FilterMembers | main.py:98-102 | a row survives a query iff it is in the input and passes the WHERE clause |
| Filters.FilterConcat | main.py:98-102 | a query's survivors of a + b are those of a followed by those of b, so the order of rows is kept |
| Filters.FilterCompose | main.py:99-101 | a query over the result of another keeps what their conjunction keeps |
| Filters.FilterStagesConjunction | main.py:98-102 | the three nested queries keep exactly the rows passing the date, price and deed tests together |
| Filters.FilterStagesIdempotent | main.py:98-102 | running the three queries again on their output removes nothing |
| Filters.LowBandExamples | main.py:99 | under TEXT comparison, "5", "100" and "" lie outside `BETWEEN 0 AND 10`, while "1.5", "1,000", "0" and "10" lie inside |
| Filters.StrippedPieces | main.py:107 | one stripped piece for every piece of the comma-split text, in order |
| Filters.ExcludedTokens | main.py:107 | every excluded token is a non-empty run of digits |
| Filters.ExcludedTokensMembers | main.py:107 | a text is a token iff it is a stripped piece made only of digits |
| Filters.ExcludedNumbersFromTokens | main.py:107-111 | each token's number is excluded, every excluded number is some token's number, and the exclusion list is empty iff there are no tokens |
| Filters.SkipSqlSpace | main.py:111 | the cast skips exactly the leading run of SQL whitespace: every skipped character is whitespace and what remains does not start with whitespace |
| Filters.SkipSqlSpaceSuffix | main.py:111 | what remains after the skipped whitespace is the rest of the text as it is |
| Filters.LeadingDigits | main.py:111 | the cast reads the longest run of digits at the start |
| Filters.Clamp64 | main.py:111 | the cast result lies in the signed 64-bit range, is unchanged inside it, and a value beyond a bound becomes that bound |
| Filters.Unsigned | main.py:111 | an optional leading sign is dropped and nothing else (a definition; its use is stated by `Filters.CastOfSigned`) |
| Filters.SqlCastInteger | main.py:111 | `CAST(... AS INTEGER)` always yields a signed 64-bit integer |
| Filters.CastOfSigned | main.py:111 | text made of whitespace, an optional sign, digits, and a rest that does not start with a digit casts to the signed value of those digits, saturated to 64 bits |
| Filters.CastOfNat | main.py:111 | the decimal text of any number up to 2^63-1 casts back to that number |
| Filters.CastOfEmpty | main.py:111 | the empty prefix of a survey number without `/` casts to 0 |
| Filters.SurveyClauseTruthTable | main.py:108-112 | the survey clause is its exclusion condition: a row with `/` is dropped iff the integer before the first `/` is excluded, and a row without `/` is dropped iff 0 is excluded |
| Filters.FilterSurveyNoExclusion | main.py:108-113 | with no excluded numbers the survey query keeps every row |
| Filters.SurveyExamples | main.py:111-112 | excluding 12 drops `12/3` but keeps `123` and `12`; excluding 0 drops `12` |
| Aggregation.Keys | main.py:114 | one key per row: the number read from its cell (a definition; its properties are `Aggregation.MultisetKeys` and `Aggregation.RankKeys`) |
| Aggregation.KeysConcat | main.py:114 | the keys of a concatenation are the concatenated keys |
| Aggregation.MultisetKeys | main.py:115 | rearranging rows rearranges their keys |
| Aggregation.Insert | main.py:115 | inserting a row adds exactly that row |
| Aggregation.InsertKeys | main.py:115 | inserting a row adds exactly its key |
| Aggregation.InsertDescending | main.py:115 | inserting into a descending ranking keeps it descending |
| Aggregation.Rank | main.py:115 | the ranking is a permutation of the rows |
| Aggregation.RankDescending | main.py:115 | the ranking is descending by number, with NaN last |
| Aggregation.RankKeys | main.py:115 | the ranking's keys are a permutation of the rows' keys |
| Aggregation.KeyGeTransitive | main.py:115 | the sort order is transitive |
| Aggregation.KeyGeAntisymmetric | main.py:115 | two keys that are each at least the other are equal |
| Aggregation.DescendingPairwise | main.py:115 | in a descending ranking, every key is at least every later key |
| Aggregation.HeadIsGreatest | main.py:115 | the first key of a descending ranking is at least every key in it |
| Aggregation.SortedKeysUnique | main.py:115 | two descending arrangements of the same keys are the same sequence, so tie-breaking cannot change the ranked numbers |
| Aggregation.HalfRows | main.py:116 | `ceil(n/2)`: at most n, at least half of n, at most half of n+1 |
| Aggregation.TopHalf | main.py:117 | `head(h)` keeps the first ceil(n/2) rows of the ranking (a definition; its properties are `Aggregation.TopHalfDominates` and `Aggregation.AnyRankingSameMean`) |
| Aggregation.NumbersMembers | main.py:118 | the numbers averaged are exactly the non-NaN keys, each as often as it occurs among the keys, so their count is the number of non-NaN keys |
| Aggregation.NumberIsKey | main.py:118 | each averaged number is a key of the selection |
| Aggregation.SumAtLeast | main.py:118 | a sum of numbers, each at least lo, is at least lo times their count |
| Aggregation.SumAtMost | main.py:118 | a sum of numbers, each at most hi, is at most hi times their count |
| Aggregation.MeanAtLeast | main.py:118 | the mean is at least any lower bound of the numbers it averages |
| Aggregation.MeanAtMost | main.py:118 | the mean is at most any upper bound of the numbers it averages |
| Aggregation.TopHalfDominates | main.py:115-117 | every kept row ranks at least as high as every row left out |
| Aggregation.MeanAtLeastRest | main.py:115-118 | the reported average is at least the number of every survivor left out of the top half |
| Aggregation.AnyRankingSameMean | main.py:115-118 | any two descending arrangements of the same keys give the same top-half keys and the same mean |
| Pipeline.PromoteHeader | main.py:83-84 | the first row becomes the column names and the remaining rows are the data; a rectangular frame stays rectangular |
| Pipeline.NormalizeDates | main.py:86-87 | date normalisation keeps the column names, the number of rows and every row's width; every cell of a column named exactly `Date` becomes the normaliser's result for it, and every other cell is unchanged |
| Pipeline.NormalizeWrittenDate | main.py:67-87 | a `Date` cell holding a representable date written `MM/DD/YYYY` or `DD.MM.YYYY` becomes that date written `YYYY-MM-DD` |
| Pipeline.NormalizeDatesEffect | main.py:86-87 | only cells of a column named exactly `Date` change, a changed cell is a valid `YYYY-MM-DD` date, and without such a column nothing changes |
| Pipeline.NormalizeWithoutSeparators | main.py:86-87 | a frame whose `Date` cells hold neither `/` nor `.` is left unchanged |
| Pipeline.NormalizeDatesIdempotent | main.py:86-87 | normalising the dates twice equals normalising once |
| Pipeline.WindowBounds | main.py:95-96 | the window bounds are 2 May 2020 and 2 May 2023 written `YYYY-MM-DD` |
| Pipeline.IsoDateWindow | main.py:95-98 | a date written `YYYY-MM-DD` passes the first query iff it lies between 2 May 2020 and 2 May 2023 on the calendar |
| Pipeline.NormalizedDateWindow | main.py:86-98 | a date cell the normaliser rewrote passes the first query iff its date lies between the two bounds on the calendar |
| Pipeline.FindColumn | main.py:98-112 | the column a query names is found iff some column matches it ignoring ASCII case, and the one found matches |
| Pipeline.Resolve | main.py:90-114 | the queries and the numeric coercion can run iff the names are distinct ignoring case, every required column is named, and `Per sq. M.` is spelled exactly; the schema then points at those columns |
| Pipeline.ExactColumn | main.py:114 | among distinct names, the column matching a name that is present verbatim is that very column |
| Pipeline.SurvivorsExactly | main.py:98-113 | a row survives the four queries iff it is in the table and passes the date, price, deed and survey tests |
| Pipeline.KeyRows | main.py:114 | every survivor carries the number its own `Per sq. M.` cell parses to |
| Pipeline.RankingQualified | main.py:113-115 | the ranking has one entry per survivor, is descending, and each entry is a qualified row carrying its own number |
| Pipeline.TopHalfQualified | main.py:115-117 | the top half is descending and made of qualified rows |
| Pipeline.SummarizeProperties | main.py:113-118 | the summary reports ceil(n/2) of the n survivors; they are the highest ranked, descending, each passing every test with its own number; the mean is over their numbers |
| Pipeline.SummaryIndependentOfTies | main.py:115-118 | any descending arrangement of the ranked rows gives the same top-half numbers and mean as the model's stable order |
| Pipeline.ProcessOfPrepared | main.py:83-118 | once the frame is prepared, the run ends in the error when a column cannot be resolved, and otherwise in the summary of the frame |
| Pipeline.ProcessData | main.py:78-121 | the step-by-step run returns exactly `Process` |
| Pipeline.ProcessOutcomeCases | main.py:78-121 | no table is reported iff extraction gives no usable frame; the error is reported iff the frame is usable but its translated header cannot be resolved |
| Pipeline.RenderCases | main.py:119-121 | the Marathi line is non-empty iff a summary has a truthy mean; the "could not calculate" line appears iff a summary's mean is missing or zero; only a summary returns rows |
| Pipeline.ReportedCount | main.py:119 | when an average is reported, both the English and the Marathi line carry, after their opening words, digits that read back as the number of rows averaged |
| Pipeline.NoSurvivorsCannotAverage | main.py:116-119 | with no survivors the run reports 0 rows and the "could not calculate" line |
| Scenario.ExtractScenario | main.py:17-44 | extraction of the example document keeps the header row and the two transactions |
| Scenario.ResolveScenario | main.py:90-114 | the example header resolves to columns 0 to 4 |
| Scenario.RowAPasses | main.py:98-101 | row A passes the date, price and deed tests |
| Scenario.RowBFails | main.py:98-101 | row B fails the date, sentinel-price and deed tests, but as text "5" lies outside the low band |
| Scenario.SurvivorsScenario | main.py:98-113 | only row A survives the four queries |
| Scenario.SummarizeScenario | main.py:114-118 | row A alone forms the top half, and the mean is 50 |
| Scenario.ProcessScenario | main.py:78-118 | the whole run on the example document is the summary of row A |
| Scenario.ReportScenario | main.py:119 | the English line is "The average of these 1 purchase and sale transactions is Rs. 50.00/- per sq. m.", the Marathi line matches, and row A is shown |
| Scenario.ProcessWithoutTitleRow | main.py:83-121 | without a title row above the header, the first transaction becomes the header and the run ends in the error message |

## Behaviour worth knowing

- **No translation cache.** The code calls the translator once per cell and once per column name, with no cache. The translator is a plain function parameter here.
- **Header row.** The code builds the frame from table row 0 as names and rows 1.. as data. `process_data` then promotes the first data row, table row 1, to the header (main.py:83-84). So the header the queries see is table row 1, and table row 0 only decides whether extraction succeeds. `Scenario.ProcessWithoutTitleRow` shows a table without a title row ending in the error message.
- **`Column_<n>` names.** The code generates them only when the header row has no cells. A non-empty header narrower than row 1 makes the frame constructor raise, and extraction returns None.
- **A table without rows.** Reading the header row of the chosen table raises when the table has no rows, so extraction returns None; only a table with exactly one row gives the empty frame (main.py:23-27).
- **Low per-unit band.** The SQL compares TEXT columns with numeric literals, so both comparisons are string comparisons (`Filters.LowBandExamples`). "5" therefore lies outside `BETWEEN 0 AND 10` and passes, while "1.5" lies inside and is excluded. Likewise `NOT IN (0, 1)` only removes the exact texts "0" and "1". In the worked example of `Scenario`, row B is not caught by the band; it is still removed by the date, price and deed tests.
- **Survey numbers without `/`.** `SUBSTR(v, 1, -1)` is empty and casts to 0, so such a row is dropped only when 0 is excluded (`Filters.SurveyClauseTruthTable`). The two OR branches carry the same condition, so the OR admits nothing extra.
- **Top-half rounding.** The code rounds up: `ceil(n/2)`.
- **Missing columns.** A missing or duplicated column does not give a specific message. The query raises and the catch-all returns "An error occurred: ...".

## Left out

- Flask routes, login, sessions, templates, `.env` loading and the HTTP boundary are not modelled. Neither are the `.docx` parser (`Document(io.BytesIO(...))`) or merged-cell behaviour. The model starts from the document as a sequence of tables of cell text, and any parser exception is not modelled.
- The translation service is a parameter (`Translator`). It is deterministic, answers per text, and None stands for an exception. Network behaviour, timeouts and the printed error messages are not modelled.
- The SQLite engine and pandas are replaced by what they contribute:
  - column resolution, with case-insensitive identifiers and an exact `Per sq. M.` for the pandas lookup at line 114;
  - the TEXT-affinity comparisons;
  - `CAST`, `INSTR` and `SUBSTR`;
  - an order-keeping filter for each query.
- Any other error inside the SQL path is out of scope, such as `to_sql` refusing a value it cannot store.
- Floating point is not modelled. `pd.to_numeric` is a parameter (`NumericParser`) with NaN as None. The mean is computed over exact reals. The `:.2f` formatting is a parameter. The exception text in the error line is a parameter.
- `Aggregation.Rank` fixes one tie order: a stable insertion sort. pandas' default sort may order equal keys differently. Only the ranked numbers and the mean are proved independent of that choice (`Aggregation.SortedKeysUnique`, `Pipeline.SummaryIndependentOfTies`), not which of several tied rows is shown.
- `Filters.ExcludedNumbers` keeps tokens above 2^63-1 as exact integers. SQLite would read such literals as floating point.
- Only ASCII digits count as digits. `str.isdigit` at main.py:107 also accepts other Unicode digits, such as Devanagari digits; the model treats a token holding them as not numeric. The same holds for the date readings: strptime's `\d` in the `[12]\d` branch of `%d` and in `%Y` matches any Unicode decimal digit, and `int()` reads it, so a cell such as `15.05.२०२३` left untranslated is rewritten to `2023-05-15` by main.py:71-72, while `Dates.DayField` and `Dates.YearField` reject it and `Dates.ConvertDateFormat` returns it unchanged. Whitespace follows Python's full `str.isspace` set (`Text.IsPySpace`).
- `Dates.DayField` follows strptime's day patterns. The other leniencies of pandas' `array_strptime` are not modelled: it recognises the special strings `now` and `today` before matching the format, which would turn such a `Date` cell into the current date.
- SqlCastInteger: its own contract states only the signed 64-bit range; the value it computes for a leading signed number is stated by `Filters.CastOfSigned`, which covers every text of that form.
- `Translation.TranslateFrame` requires a rectangular frame, which every pandas frame is. `Extraction.ExtractedWellShaped` proves this for every extracted frame.
- Logging through `print` is not modelled.
