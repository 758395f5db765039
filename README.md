# KYC Sentinel screening core in Dafny

KYC Sentinel is a desktop tool that screens people against a sanctions list. It does this from a
form (manual mode) or from a CSV file (batch mode). This project models the bookkeeping of its
application class, `KYCSentinelApp` in `KYC_Sentinel/main.py`, and proves properties of that model.
The user interface, the HTTP client, pandas and openpyxl are left out.

What is modelled:

- **The lookup** (`Lookup`). The remote match service is an oracle. It is given a name and the
  number of lookups made before the current one. It answers with a decoded body, or with the
  text of the exception it raised. A body is classified as "Match Found" with all its matches,
  or as "Clear" with none.
- **Row normalisation** (`Records`). A CSV row arrives already parsed, as a map from column names
  to cells, where a cell is either missing (NaN) or holds the text of the value.
  - The name is `str(value).strip()`, so a missing name becomes "nan".
  - DOB and CNIC are trimmed; a missing one becomes "".
  - A name is blank if it is empty or lower-cases to "nan".
  - `strip` removes exactly the characters Python counts as whitespace.
- **The batch** (`Batch`, `BatchProperties`), `_process_batch_check`:
  - The required-column check. A missing column stops the batch before any row is read.
  - The row loop. It normalises each row, skips the lookup for a blank name, makes one lookup
    otherwise, and appends one result per row. A lookup that raised becomes an "Error: " status.
  - The progress bar is a trace of every value it is given: 10, one value per row whose lookup
    did not raise, 90, then 100. A row value is a symbolic entry `AfterRow(index, total)`, whose
    value is `((index + 1) / total) * 80 + 10` in exact real arithmetic.
  - The report and the completion message.
- **The reports** (`Worksheets`, `Reports`):
  - An openpyxl sheet is a class. Its fields are a map of cell values, the set of filled cells,
    the column widths and the bounding box.
  - Both writers run on a fresh sheet. Row 1 is the header and row k + 2 is result k. Every cell
    of a row whose Status is exactly "Match Found" is filled.
  - Every column gets the width of its longest rendered value plus 2, with no upper limit.
  - The single-result writer leaves the DOB cell empty when the DOB is blank or still `DD/MM/YYYY`.
- **Manual mode** (`Manual`), `run_manual_check`:
  - The three entries are trimmed, and an empty name stops the check.
  - Otherwise exactly one lookup is made. A raised lookup gives "Check failed: " and the message,
    and sets the progress bar to 0.
  - An answered lookup gives the on-screen text, with at most three matches listed, and the
    single-row report.

Behaviour as the code has it:

- The report header row has no bold font, and column widths are not capped.
- The missing-columns message reads `CSV missing required columns: Name, DOB`, with the absent
  columns in the order Name, DOB, CNIC.
- Manual mode rejects only an empty name. A name "nan" is looked up like any other.
- The progress formula takes the row's position as `index`: `read_csv` numbers rows 0, 1, 2, ….
- A row whose lookup raised updates neither the progress bar nor the text log.

## Model

| member | source | states |
|---|---|---|
| Text.Strip | KYC_Sentinel/main.py:266-268 | the result is a slice of the input with only whitespace outside it, and it neither starts nor ends with whitespace |
| Text.StripUnique | KYC_Sentinel/main.py:266-268 | any trimmed slice of the input with only whitespace around it is the stripped string, so `strip` is characterised by the two properties above |
| Text.StripEmpty | KYC_Sentinel/main.py:185 | a string strips to "" exactly when all its characters are whitespace |
| Text.StripIdempotent | KYC_Sentinel/main.py:181-183 | stripping an already stripped string changes nothing |
| Text.Lower | KYC_Sentinel/main.py:270 | `lower()` keeps the length and lower-cases each character on its own |
| Text.LowerIsNan | KYC_Sentinel/main.py:270 | `s.lower() == 'nan'` holds exactly for the eight case spellings of "nan" |
| Text.Decimal | KYC_Sentinel/main.py:206 | `str(n)` is a non-empty run of digits with no leading zero, so 0 prints as the single digit "0" |
| Text.DecimalRoundTrip | KYC_Sentinel/main.py:311 | reading back the digits of `str(n)` gives n |
| Text.Repeat | KYC_Sentinel/main.py:203 | `"-" * 50` is 50 dashes |
| Text.Join | KYC_Sentinel/main.py:254 | `', '.join` of one column is that column, and of none is "" |
| Text.JoinLast | KYC_Sentinel/main.py:254 | joining two or more parts is joining all but the last, then the separator and the last part |
| Text.JoinFew | KYC_Sentinel/main.py:254 | two or three parts join to the parts with the separator between each pair |
| Lookup.Classify | KYC_Sentinel/main.py:166-172 | with `Lookup.MatchesOf` reading the matches list (absent or null as []), the status is "Match Found" or "Clear"; it is "Match Found" exactly when the body has a non-empty matches list; the matches come back complete and in order, so "Clear" comes with [] |
| Lookup.MatchesIffMatchFound | KYC_Sentinel/main.py:169-172 | the caller's `if matches:` test agrees with the status |
| Records.OptionalField | KYC_Sentinel/main.py:267-268 | a missing DOB or CNIC gives "", and a present one gives its stripped text |
| Records.NormalizeRow | KYC_Sentinel/main.py:266-268 | each field is the stripped text of its cell: the name of `Records.CellStr`, so a missing name gives "nan"; a missing DOB or CNIC gives "" |
| Records.StripNan | KYC_Sentinel/main.py:266 | the text "nan" of a missing name survives `strip` unchanged |
| Records.BlankNameCases | KYC_Sentinel/main.py:266-271 | `Records.IsBlankName` holds of a row's name, so the row is skipped, exactly when the cell is missing, holds only whitespace, or holds a case spelling of "nan" with whitespace around it |
| Worksheets.Worksheet.constructor | KYC_Sentinel/main.py:369-370 | a new workbook's active sheet is empty, titled "Sheet", with a 1 by 1 bounding box |
| Worksheets.Worksheet.SetCell | KYC_Sentinel/main.py:382-385 | `ws.cell(row, column, value)` sets that one cell and grows the bounding box to cover it; nothing else changes |
| Worksheets.Worksheet.SetFill | KYC_Sentinel/main.py:390 | setting a fill marks that one cell filled and grows the bounding box to cover it |
| Worksheets.Worksheet.SetWidth | KYC_Sentinel/main.py:403 | setting a column width changes that one width |
| Worksheets.ColumnWidth | KYC_Sentinel/main.py:394-402 | the loop's `max_length + 2` is at least the rendered length (`Worksheets.Rendered`, the `str` of the cell's value) of every cell of the column plus 2, and equals it for some cell |
| Worksheets.AutoFitColumns | KYC_Sentinel/main.py:393-403 | every column of the bounding box gets exactly that width; a width already set for a column outside the box keeps its value; cells and fills are unchanged |
| Worksheets.WidthUnique | KYC_Sentinel/main.py:393-403 | that width is unique: two widths with this property are equal |
| Reports.ResultCells | KYC_Sentinel/main.py:382-385 | a result gives four cells, its Name, DOB, CNIC and Status, in the order of the headers |
| Reports.Rows | KYC_Sentinel/main.py:381-385 | one data row per result, in order, each the result's four cells |
| Reports.WriteHeaders | KYC_Sentinel/main.py:374-376 | on a fresh sheet, row 1 then holds the four headers and nothing else is set |
| Reports.HighlightRow | KYC_Sentinel/main.py:388-390 | the four cells of the row are added to the filled set and nothing else changes |
| Reports.WriteRow | KYC_Sentinel/main.py:382-385 | the row's four cells are set to the result's values and every other cell keeps its value |
| Reports.HoldsAfterRow | KYC_Sentinel/main.py:381-390 | writing data row k, and filling it exactly when its Status is "Match Found", extends a sheet that holds the first k rows to one that holds the first k + 1 |
| Reports.WriteResultRows | KYC_Sentinel/main.py:381-390 | after the loop, row k + 2 holds result k for every k, and exactly the cells of "Match Found" rows are filled |
| Reports.SaveBatchResults | KYC_Sentinel/main.py:366-403 | the report is titled "KYC Results", holds the header row and one row per result in order, fills exactly the "Match Found" rows, and sizes each of the four columns to its longest value plus 2 |
| Reports.ReportDob | KYC_Sentinel/main.py:336 | the DOB cell is empty exactly when the DOB is empty or `DD/MM/YYYY`, and is the DOB otherwise |
| Reports.SaveSingleResult | KYC_Sentinel/main.py:322-357 | the same layout with the single row `Reports.SingleRowCells`: name, DOB cell, CNIC, status |
| Reports.SheetDetermined | KYC_Sentinel/main.py:369-371 | two reports built for the same rows are equal, so nothing from an earlier run survives into a report |
| Reports.SingleIsBatchOfOne | KYC_Sentinel/main.py:322-357 | the single report equals the batch report of the one result it shows |
| Reports.FilledIffMatchFound | KYC_Sentinel/main.py:388-390 | a data cell is filled exactly when its row's Status is "Match Found", so "Clear" and "Error: ..." rows are never filled; header cells are never filled |
| Reports.WidthCoversHeaderAndValues | KYC_Sentinel/main.py:393-403 | each width is at least the header length plus 2 and at least every value's length plus 2 |
| Reports.WidthCoversCell | KYC_Sentinel/main.py:393-403 | the width of a report column covers the value of each of its cells plus 2 |
| Batch.Absent | KYC_Sentinel/main.py:251 | the comprehension keeps exactly the wanted columns that the header lacks, each as often as it is wanted, in their original order |
| Batch.MissingColumns | KYC_Sentinel/main.py:250-251 | the missing list holds exactly the absent required columns, in the order Name, DOB, CNIC |
| Batch.MissingMessageLists | KYC_Sentinel/main.py:254 | `Batch.MissingMessage` names the one, two or three missing columns after "CSV missing required columns: ", in order, separated by ", " |
| Batch.MissingNameAndDob | KYC_Sentinel/main.py:250-251 | a header with only CNIC lacks Name and DOB, in that order |
| Batch.MissingDob | KYC_Sentinel/main.py:251 | of DOB and CNIC, a header with only CNIC lacks just DOB |
| Batch.MissingNameAndDobMessage | KYC_Sentinel/main.py:254 | its message is "CSV missing required columns: Name, DOB" |
| Batch.RequiredColumnsInRows | KYC_Sentinel/main.py:253-268 | when nothing is missing, every row has the three cells the loop reads |
| Batch.NormalizeAll | KYC_Sentinel/main.py:264-268 | one record per row, each that row's normalised record |
| Batch.LookupNames | KYC_Sentinel/main.py:270-274 | no more names are looked up than there are rows |
| Batch.ScreenRowStatus | KYC_Sentinel/main.py:270-302 | the row's result, `Batch.ScreenRow`, keeps the row's fields. Its status is "Error: No name provided" when no lookup was made, and "Error: " plus the message when the lookup raised. It is "Match Found" exactly when the answer held a match, and "Clear" exactly when it held none |
| Batch.ResultsUpTo | KYC_Sentinel/main.py:257-281 | after i rows the results list has i entries |
| Batch.ResultsUpToAt | KYC_Sentinel/main.py:276-281 | entry j of the accumulated results is row j's result, whatever came after it |
| Batch.CheckRecord | KYC_Sentinel/main.py:270-302 | a lookup is made exactly when the name is not blank, and the result and the raised flag follow ScreenRow |
| Batch.ScreenRows | KYC_Sentinel/main.py:257-302 | the loop yields one result per row, in row order, each row's own screening, even when lookups raise. It looks up exactly the non-blank names, in order, and gives one progress entry per row whose lookup did not raise |
| Batch.ProcessBatch | KYC_Sentinel/main.py:241-312 | the batch aborts exactly when a required column is missing, with progress [10] and the missing-columns message, and then makes no lookup and builds no report. Otherwise the rows are screened as above, the progress is 10, the row entries, 90 and 100, the report is the batch report of the results, and the message counts them |
| Batch.SummaryCount | KYC_Sentinel/main.py:311 | `Batch.Summary`, the completion text, is its fixed head and tail around a run of digits that reads back as the number of results |
| BatchProperties.RowProgressRange | KYC_Sentinel/main.py:284 | `Batch.RowProgress`, `((i + 1) / n) * 80 + 10`, lies in (10, 90] and equals 90 exactly at the last row |
| BatchProperties.RowProgressIncreasing | KYC_Sentinel/main.py:284 | a later row gives a strictly larger value |
| BatchProperties.SuccessProgressOrdered | KYC_Sentinel/main.py:284-302 | the per-row progress entries are row entries of earlier rows, in strictly increasing row order |
| BatchProperties.SuccessProgressEntries | KYC_Sentinel/main.py:284-302 | row j has a progress entry exactly when its lookup did not raise |
| BatchProperties.BatchProgressMonotone | KYC_Sentinel/main.py:244-312 | the whole trace 10, rows, 90, 100 starts at 10, ends at 100 and never decreases |
| BatchProperties.LookupNamesPrefix | KYC_Sentinel/main.py:264-274 | the calls made for the first j rows begin the calls made for the first i rows |
| BatchProperties.CalledNamesNotBlank | KYC_Sentinel/main.py:270-274 | no blank name is ever passed to the lookup |
| BatchProperties.CallOfRow | KYC_Sentinel/main.py:270-274 | a blank row makes no call; any other row makes exactly the next call, with its own name |
| BatchProperties.RowOutcome | KYC_Sentinel/main.py:264-302 | through `Batch.RowAnswer`, the answer to the row's own call, what the batch records for row i is the row's trimmed fields. Its status is the no-name error for a blank name. Otherwise the status comes from the row's own call, which carries the row's name: "Error: " plus the message when that call raised, the classification of the body when it answered |
| BatchProperties.FailureIsolated | KYC_Sentinel/main.py:296-302 | the calls made do not depend on the answers. Two lookups that differ only at call k give the same result on every row except the one that makes call k, so a failing lookup spoils only its own row |
| Manual.FieldText | KYC_Sentinel/main.py:209-211 | a match field prints as its value, or as "N/A" when absent |
| Manual.MatchBlocks | KYC_Sentinel/main.py:207-211 | at most three blocks, `min(3, len(matches))` of them, and block k is match k numbered k + 1 |
| Manual.ListMatches | KYC_Sentinel/main.py:207-211 | the loop writes exactly those blocks, in order |
| Manual.ShowVerdict | KYC_Sentinel/main.py:199-211 | the appended text is `Manual.ManualText`: the name line, the DOB line (`Manual.DobShown`), the CNIC line (`Manual.CnicShown`, "Not provided" for an empty CNIC), the status line and the rule, plus the match count and the listing of `Manual.MatchBlock` blocks when there are matches |
| Manual.ReportVerdict | KYC_Sentinel/main.py:196-216 | an answered lookup ends as a completed check whose text is the verdict's text and whose report is the single report of the verdict's status |
| Manual.RunManualCheck | KYC_Sentinel/main.py:179-224 | an empty trimmed name stops with no lookup, no progress and no report. Otherwise the one lookup gets the trimmed name. A raised lookup gives "Check failed: " and the message, with progress 50 then 0. An answer gives the text above and the single report of the trimmed fields, with progress 50 then 100 |
| Manual.DobAgreement | KYC_Sentinel/main.py:336 | the report's DOB cell is empty exactly when the text shows "Not provided" for a blank or placeholder DOB; otherwise both show the DOB |
| Manual.TextShowsFirstThree | KYC_Sentinel/main.py:205-211 | only the status, the number of matches and the first three matches reach the text |
| Manual.ManualHighlight | KYC_Sentinel/main.py:341-344 | the manual report's data row is filled exactly when the lookup found a match, and the header row never is |

## Left out

- The tkinter interface is not modelled: the widgets, mode switching, file browsing, message
  boxes, the status label except the completion text, `root.update` and window centring. Only the values shown or stored
  are kept.
- The worker thread that runs the batch is not modelled. The batch is one sequential method.
- The HTTP request is not modelled: the URL, `requests.get`, the timeout, `raise_for_status` and
  JSON decoding. The lookup is an oracle that returns a decoded body or the text of the raised
  exception. The mapping of library exceptions to "API request failed: ..." and "Invalid response
  from API" depends on library code outside this model, so the message is arbitrary text.
- `pandas.read_csv` is not modelled. A table is its header and rows of cells. A present cell holds
  the text `str` gives for the parsed value, so number formatting and pandas' list of NaN
  spellings are outside the model.
- openpyxl's internals are not modelled: the colour of the fill, column letters, font, saving the
  workbook, and the error message when saving fails. The 32767-character cell limit and illegal
  characters are outside the model too.
- `time.sleep(0.1)` is timing only and is not modelled.
- The text log of the batch is not modelled: "Processing N records..." and the line per row.
- Floating point is not modelled. Progress values are exact reals, and a row's value is kept as the
  symbolic entry `AfterRow(index, total)`, with `ProgressValue` giving its number.
- Text.Lower: only ASCII letters are lower-cased. Python's full Unicode `lower()` maps more
  characters, but in either case a string lower-cases to "nan" exactly for the case spellings
  of "nan", which is all the code asks of it.
- Lookup.Hit: the score is kept as the text Python prints for it. A JSON null field prints as
  "None" and is held as that text.
- Lookup.Body: a `matches` value that is neither a list nor null is not modelled, nor a list whose
  items are not JSON objects. For such a list batch mode would record "Match Found", while manual
  mode would raise at `match.get` and end in "Check failed: ...".
- Batch.ScreenRows: the `'Unknown'` fallback of the except branch is not modelled. In this model
  only the lookup raises, and by then the name, DOB and CNIC of the current row are all bound. For
  the same reason a row is never appended twice, as it could be if the display update after the
  append raised.
- Batch.ProcessBatch: the outer except branch (progress 0, "Batch processing failed") is not
  modelled. It is reached only when reading the CSV fails, which is outside the model.
