# Calcolo Gradi Giorno — a verified model of the data pipeline

`main.py` is a Streamlit page that computes heating degree days ("gradi giorno", GG)
from an uploaded CSV of daily temperatures. Around its widgets sits a short sequential
pipeline, and this project models that pipeline in Dafny and proves what each stage
promises:

1. **Column mapping** (`column_mapping.dfy`). The four canonical fields DATA, TMEDIA,
   TMIN and TMAX are mapped in that order.
   - Each field is offered the header columns that no earlier field claimed.
   - The suggestion is the first of them whose upper-cased name contains the field's name,
     or else the first of them.
   - The user's pick is recorded. TMIN and TMAX may be left unmapped through the
     `-- Nessuna --` entry.
   - The run stops when a required field has no column left, or when DATA or TMEDIA ends
     up unmapped.

   The loop is modelled twice. `ColumnMapping.MapColumns` is the imperative loop that
   updates the mapping in place. The left fold `ColumnMapping.ChooseColumns` specifies it,
   and the properties are proved about the fold. The user is a parameter `select`, which
   may return any label the widget offers. Renaming the chosen columns to the canonical
   names is modelled as well (see Findings).
2. **Row validation** (`validation.dfy`). Rows arrive as the converters leave them, with
   `None` for a DATA or TMEDIA value that could not be converted. Invalid dates and invalid
   means are counted separately. Rows lacking either value are dropped, and the rest keep
   their order. An empty result stops the run.
3. **Period filter** (`period.dfy`). A start after the end stops the run. The rows with
   `start <= DATA <= end` are kept in table order, and an empty selection stops the run.
   The default period runs from the earliest to the latest date.
4. **Degree days** (`degree_days.dfy`). Each row gets `GG = max(0, 20 - TMEDIA)`, and
   the total is the sum of the column.
5. **Summary** (`dates.dfy`, `pipeline.dfy`). The dates are rendered with `%d/%m/%Y`, and
   `Pipeline.Run` composes the stages. Each `st.stop()` becomes an error value that names
   the stage where the run stopped.

Helper modules:
- `wrappers.dfy` holds `Option` and `Result`.
- `text.dfy` holds ASCII upper-casing and substring search.
- `subsequences.dfy` holds order-preserving subsequences.
- `mapping_examples.dfy` runs concrete headers through the mapping loop.

## Model

| member | source | states |
|---|---|---|
| ColumnMapping.Unclaimed | main.py:57 | there are never more options than header columns |
| ColumnMapping.UnclaimedMembers | main.py:57 | a column is an option exactly when it is in the header and no field has claimed it yet |
| ColumnMapping.UnclaimedAppend | main.py:57 | the options keep the header's order: computing them distributes over concatenation |
| ColumnMapping.FirstMatch | main.py:59 | the index found matches, and no earlier option matches |
| ColumnMapping.Suggestion | main.py:59 | there is a suggestion exactly when there are options, and it is one of them |
| ColumnMapping.SuggestionIsFirstMatch | main.py:59 | the suggestion is the first option, in order, whose upper-cased name contains the field's name; if none does, it is the first option |
| ColumnMapping.Offered | main.py:64 | TMIN and TMAX are offered "-- Nessuna --" first and then the options; DATA and TMEDIA are offered exactly the options |
| ColumnMapping.IndexOf | main.py:65 | `list.index` returns the first position holding the value |
| ColumnMapping.DefaultIndex | main.py:64-65 | the default index points at the suggested column in the offered list; for TMIN/TMAX the `+ 1` skips the "none" entry |
| ColumnMapping.Assign | main.py:56-73 | one round fails exactly for a required field with no options, with that field in the error; an optional field with no options leaves the mapping unchanged; when there are options, the user's pick is recorded for the field, and "-- Nessuna --" leaves the mapping unchanged |
| ColumnMapping.AssignAll | main.py:55-73 | the loop never removes a mapped field and adds only fields it visits; it fails only with a lack of columns for one of the visited fields |
| ColumnMapping.AssignSound | main.py:57-68 | a round never maps a second field to a claimed column and only maps header columns |
| ColumnMapping.AssignAllSound | main.py:55-73 | the loop keeps the mapping injective; when it fails, it fails on a required field |
| ColumnMapping.ChooseColumns | main.py:55-78 | a successful mapping maps DATA and TMEDIA; a failure is either a field without columns or the final check |
| ColumnMapping.DeclinedStaysUnmapped | main.py:66-68 | an optional field for which the user picks "-- Nessuna --" whenever it is offered is never added by the loop |
| ColumnMapping.DeclinedFieldUnmapped | main.py:55-78 | a widget user who declines TMIN or TMAX whenever possible ends, on success, with a sound mapping that has DATA and TMEDIA and leaves that field unmapped |
| ColumnMapping.ChooseColumnsSound | main.py:55-78 | a successful mapping is injective, uses only header columns and maps DATA and TMEDIA |
| ColumnMapping.NoCandidatesOnlyForRequired | main.py:69-73 | only DATA or TMEDIA can stop the run for lack of columns |
| ColumnMapping.EmptyHeaderMissesData | main.py:69-73 | an empty header stops the run at DATA |
| ColumnMapping.OneColumnMissesMean | main.py:55-73 | a header with one distinct column stops the run at TMEDIA, whatever the user picks |
| ColumnMapping.OptionalNeverStops | main.py:69-73 | TMIN and TMAX never stop the run |
| ColumnMapping.TwoColumnsNeverMiss | main.py:55-78 | with two different columns no field runs out of options; only the final check can fail |
| ColumnMapping.DefaultMapsToSuggestion | main.py:64-68 | accepting the default maps the field to the suggested column |
| ColumnMapping.AcceptDefaultSelectsOffered | main.py:62-66 | the user who accepts every default picks an offered label |
| ColumnMapping.RenameColumn | main.py:81-82 | a chosen column gets a canonical name; a column that changes name was chosen and gets a canonical name |
| ColumnMapping.Renamed | main.py:81-82 | the renamed header has the same length; unchosen columns keep their names and chosen columns get canonical ones |
| ColumnMapping.RenameColumnSpec | main.py:81-82 | under an injective mapping a chosen column is renamed to its field's name and any other column keeps its name |
| ColumnMapping.KeptColumns | main.py:81-82 | the corrected renaming keeps exactly the chosen columns and the unchosen columns without a canonical name, as a subsequence of the header (so in header order), without duplicates when the header has none |
| ColumnMapping.RenameKeptColumn | main.py:81-82 | a kept column gets a canonical name exactly when it was chosen, and then the name of its field |
| ColumnMapping.RenamedSafelyUnique | main.py:81-86 | after the corrected renaming each canonical name labels at most one column, and it is present exactly for the mapped fields |
| ColumnMapping.MapColumns | main.py:51-78 | the in-place loop returns what the fold specifies, and on success the mapping is sound and has DATA and TMEDIA |
| Text.UpperChar | main.py:59 | a lower-case ASCII letter becomes its own capital, no ASCII lower-case letter is left, and nothing else changes |
| Text.Upper | main.py:59 | upper-casing keeps the length of the name |
| Text.UpperOfUpperCase | main.py:59 | a string without lower-case letters is its own upper-case form |
| Text.MissingCharNotContained | main.py:59 | a string cannot contain a piece with a character the string lacks |
| Text.Contains | main.py:59 | a piece contained in a string is no longer than it, and the empty piece is always contained |
| Text.ContainsIff | main.py:59 | the `in` test holds exactly when the piece occurs at some position |
| MappingExamples.DefaultRound | main.py:59-68 | a round whose first option is the suggestion maps the field to that option when the default is accepted |
| MappingExamples.ClaimedPrefixOptions | main.py:57 | when exactly the first k columns of a duplicate-free header are claimed, the options are the rest |
| MappingExamples.LeadingRounds | main.py:55-68 | when every suggestion is the next column, the remaining rounds take the next columns in order |
| MappingExamples.DefaultsTakeLeadingColumns | main.py:55-78 | under the same condition, accepting all defaults maps the fields to the first four columns |
| MappingExamples.CapitalsMissingLetter | main.py:59 | a capitalised column lacking a letter of a field's name does not match that field |
| MappingExamples.TypicalHeaderDefaults | main.py:55-78 | the header Data, Tmedia, Tmin, Tmax maps each field to its own column by default |
| MappingExamples.GiornoHeaderNoDate | main.py:59 | no column of Giorno, Tmedia, Tmin, Tmax is named like DATA |
| MappingExamples.GiornoHeaderDefaults | main.py:55-78 | for Giorno, Tmedia, Tmin, Tmax, DATA falls back to Giorno and the others find their own columns |
| MappingExamples.DuplicateHeaderDefaults | main.py:55-78 | for DATA_MISURA, TEMP, UMIDITA, VENTO, DATA the defaults take the first four columns |
| MappingExamples.RenamedCanDuplicateData | main.py:81-86 | for that header, the renaming as written names both the first and the last column DATA |
| Dates.DaysInMonth | main.py:86 | months have 28 to 31 days, and 29 exactly for February of a leap year |
| Dates.NotAfterIsTotalOrder | main.py:118-123 | dates compared as (year, month, day) form a total order |
| Dates.Digits | main.py:152 | zero-padded rendering gives exactly `width` decimal digits |
| Dates.Value | main.py:152 | a digit string reads as a number below 10 to the power of its length |
| Dates.ValueOfDigits | main.py:152 | a number that fits in `width` digits reads back from its padded rendering |
| Dates.DigitsOfValue | main.py:152 | a digit string is the padded rendering of its value |
| Dates.Format | main.py:152 | `%d/%m/%Y` gives ten characters: two digits, '/', two digits, '/', four digits |
| Dates.Parse | main.py:152 | reading back yields only valid dates |
| Dates.ParseFormat | main.py:152 | every valid date reads back from its rendering |
| Dates.FormatParse | main.py:152 | every string that reads as a date is that date's rendering |
| Validation.InvalidDates | main.py:94 | the invalid-date count is at most the row count, and zero exactly when every date converted |
| Validation.InvalidMeans | main.py:95 | the invalid-mean count is at most the row count, and zero exactly when every mean converted |
| Validation.InvalidBoth | main.py:94-95 | rows lacking both values are in both counts |
| Validation.DropInvalid | main.py:98 | the kept rows are exactly the rows with both values; the result is empty exactly when no row has both |
| Validation.DropInvalidAppend | main.py:98 | dropping works row by row, so it preserves the table's order |
| Validation.DropInvalidIsSubsequence | main.py:98 | the kept rows form an order-preserving subsequence of the table |
| Validation.LiftAllSubsequence | main.py:98 | seeing kept rows as table rows preserves subsequences |
| Validation.DropInvalidClean | main.py:98 | a table without invalid values passes unchanged |
| Validation.DroppedRowsCounted | main.py:94-98 | the dropped rows number the two counts minus the rows that lack both values |
| Validation.WarningIffDropped | main.py:96-98 | the warning condition holds exactly when some row is dropped |
| Validation.Validate | main.py:94-101 | validation stops exactly when no row has both values; otherwise it returns the kept rows, nonempty, and both counts |
| Period.SelectPeriod | main.py:123-124 | the selection is exactly the rows inside the inclusive period, and empty exactly when no row is inside |
| Period.SelectPeriodAppend | main.py:123-124 | the mask is applied row by row, so the selection preserves order |
| Period.SelectPeriodIsSubsequence | main.py:123-124 | the selection is an order-preserving subsequence of the table |
| Period.SelectPeriodKeepsAll | main.py:123-124 | rows all inside the period pass unchanged |
| Period.SelectPeriodIdempotent | main.py:123-124 | selecting twice with the same period changes nothing |
| Period.FilterPeriod | main.py:118-128 | a start after the end is an error, and so is a period with no row; otherwise the result is the nonempty selection |
| Period.FilterPeriodIdempotent | main.py:118-128 | filtering the filtered rows again with the same period gives the same result |
| Period.EarliestDate | main.py:107 | the minimum is a date of the table and no row is earlier |
| Period.LatestDate | main.py:108 | the maximum is a date of the table and no row is later |
| Period.DefaultPeriodKeepsAll | main.py:107-124 | the default period, earliest to latest date, keeps every row |
| DegreeDays.DailyDegreeDays | main.py:131-134 | GG is non-negative, at least 20 - TMEDIA and equal to 0 or to 20 - TMEDIA; it is 0 exactly when TMEDIA >= 20 |
| DegreeDays.GGColumn | main.py:134 | one GG value per row |
| DegreeDays.Sum | main.py:145 | a sum of non-negative values is at least each of them |
| DegreeDays.SumAppend | main.py:145 | the sum of a concatenation is the sum of the sums |
| DegreeDays.SumNonNegative | main.py:145 | a sum of non-negative values is non-negative, and zero exactly when every value is |
| DegreeDays.SumPermutation | main.py:145 | reordering the values does not change the sum |
| DegreeDays.TotalDegreeDays | main.py:145 | the total is never negative |
| DegreeDays.TotalZeroIffNoHeating | main.py:131-145 | the total is zero exactly when no day's mean is below 20 |
| DegreeDays.TotalAppend | main.py:145 | totals over consecutive stretches of days add up |
| DegreeDays.GGColumnPermutation | main.py:134 | reordering the rows reorders the GG column |
| DegreeDays.TotalPermutation | main.py:145 | reordering the rows does not change the total |
| Pipeline.Heading | main.py:152 | the summary reads "Gradi Giorno dal ", the start date, " al ", the end date, and both dates read back exactly |
| Pipeline.Analyse | main.py:94-152 | the analysis stops at validation exactly when no row is usable, and, once a row is usable, at the period stage exactly for an inverted period or for a period that selects no usable row; a report's rows are the usable rows selected by the period, its counts are those of the table, it has one GG per row as the clamp gives it, a non-negative total equal to the sum, and the summary line |
| Pipeline.Run | main.py:51-152 | the run stops at mapping exactly when the mapping fails; a report's mapping is injective and maps DATA and TMEDIA |
| Pipeline.RunRowsFromTable | main.py:94-124 | the report's rows are the usable table rows inside the period, and they appear in table order |
| Pipeline.RunPeriodStop | main.py:118-128 | once some row is usable, the run stops at the period stage for an inverted period or a period with no usable row, and only then |

## Left out

- The Streamlit interface (`st.*` widgets, messages, page layout) is not modelled. The selectors are the parameter `select`, the date pickers are `start` and `end`, and `st.stop()` is an error result.
- The "Mostra tutte le colonne" toggle (main.py:138-142) is presentation and is not modelled.
- CSV reading (`pd.read_csv`, main.py:44) is not modelled. The header is an input.
- The conversions `pd.to_datetime(..., dayfirst=True)` and `pd.to_numeric` (main.py:86-91) are pandas parsers whose rules are not in the script. They are the parameter `coerce`, which produces rows of `Option` values.
- `Pipeline.Run` feeds `coerce` the corrected renaming (`ColumnMapping.RenamedSafely`) rather than the one as written; the difference is the finding below.
- ColumnMapping.RenamedSafelyUnique: requires a header without repeated names, as does ColumnMapping.RenamedSafelyNoDuplicates. That is the header `pd.read_csv` always produces, because it renames a repeated name `A` to `A.1`, `A.2`, and so on. `Pipeline.Run` does not require it.
- Columns other than DATA, TMEDIA, TMIN and TMAX are not carried in the rows.
- `locale.setlocale` (main.py:146-149) is not modelled. It does not affect `%d/%m/%Y`. Its fallback `setlocale(LC_TIME, 'it_IT')` at main.py:149 sits in a bare `except` with no handler of its own. On a host with neither Italian locale it raises `locale.Error`, and the script ends before the summary (main.py:152), the chart and the export. `Pipeline.Run` assumes the locale is available and always reaches the summary.
- The chart and the Excel export (main.py:155-168) are rendering and file output and are not modelled.
- Temperatures and sums are exact `real`s. IEEE rounding is not modelled, and neither is the one-decimal display of the total (`:.1f`), so `Pipeline.Heading` stops before the total.
- Text.UpperChar: maps only the ASCII letters a-z to upper case. Python's `str.upper` also maps other letters, some to several characters (`ß` to `SS`).
- Text.Upper: applies Text.UpperChar to every character, so it is ASCII-only in the same way.
- Dates.Format: always writes four year digits. The dates reaching it come from pandas timestamps, whose years lie between 1677 and 2262, so shorter years do not arise.
- An earlier `GG` column in the CSV would be overwritten by main.py:134. The rows here carry no such column.

## Findings

| source | as written | input that shows it | evidently intended | confidence | as-written member | corrected member |
|---|---|---|---|---|---|---|
| main.py:81-86 | every column is renamed through `{v: k for k, v in col_mapping.items()}`, and an unchosen column keeps its name even when that name is canonical | header `DATA_MISURA;TEMP;UMIDITA;VENTO;DATA` with every default accepted: DATA_MISURA becomes DATA and the last column is still DATA, so `df1["DATA"]` selects two columns and `pd.to_datetime` cannot convert them | each canonical name labels exactly the column chosen for it, for example by dropping unchosen columns that carry a canonical name before renaming | not executed | MappingExamples.RenamedCanDuplicateData | ColumnMapping.RenamedSafelyUnique |
