# Excel dashboard ingestion: a Dafny model

This project models the spreadsheet-ingestion core of a Next.js analytics
dashboard. A user uploads Excel workbooks. The dashboard turns the first
sheet's grid of cells into a header list and one record per data row. It
coerces numeric-looking text to numbers, profiles every column and keeps
the files in a Redux registry. When a file is selected, it recommends chart
axes. The same application holds a small authentication store.

The modules follow the source:

- `Wrappers`: the `Option` and `Result` types.
- `JsValues`: the JavaScript values a sheet cell can hold.
  - A cell is `Null`, `Num`, `Str` or `Other`; `null` and `undefined` are both `Null`.
  - `IsBlank` is the test `v === null || v === undefined || v === ""`, and
    `Display` is `String(value)` for a non-null cell.
  - `JsNumber` keeps `NaN` and the infinities apart from finite values.
  - `String.prototype.trim` with the ECMAScript whitespace set.
  - The `[$,%]` stripping.
  - Decimal rendering of naturals, used for `Column_<n>` and for ids.
- `Coercion`: the per-cell conversion inside `processExcelFile`. `IsUsableNumber`
  is the test `!isNaN(x) && isFinite(x)`.
- `Profiler`: the per-column analysis.
- `Extraction`: the whole of `processExcelFile` after the sheet is read.
  - The empty-sheet rejection.
  - Header naming and column retention.
  - Blank-row removal.
  - Record construction: a method with a loop, specified by a function.
  - The debug information.
- `Axes`: the axis recommendation loop of `handleFileSelect`.
- `FileSlice`: the file registry reducers, as the class `FileStore`.
- `AuthSlice`: the authentication reducers, as the class `AuthStore`.
- `Dashboard`: the page's handlers, as the class `DashboardPage`.
  - `handleFileUpload` is a loop that dispatches `addFile` and `removeFile` on the store.
  - `handleFileSelect` and `handleDeleteFile`.

JavaScript's `Number(text)` and `String(number)` are not modelled exactly. They are
the two function fields of a `JsRuntime` value passed to every operation
that needs them. The general lemmas use at most one fact about them, the one
the code relies on: `Number("")` is `0` (`ParsesEmptyAsZero`). The two example
lemmas `Coercion.CurrencyTextIsNumber` and `Coercion.UnparsableTextIsKept`
also take as preconditions what `Number` returns for their literal strings
(`"$1,250"`, `"1250"` and `"N/A"`). The workbook reader's outcome,
`Date.now()` and the ISO upload date are inputs of each picked file
(`Dashboard.PickedFile`).

Two behaviours of the code differ from what a reader of the dashboard would
expect. The model follows the code in both:

- One might expect every header to be non-empty. But a header cell holding only
  whitespace is not blank by the code's test, so trimming turns it into the
  header `""` (`Extraction.WhitespaceHeaderIsEmpty`).
- One might expect that dropping an empty middle column leaves the last
  column's values under its header. The code reads them from the wrong cell
  (see Findings).

## Model

| member | source | states |
|---|---|---|
| JsValues.TypeOf | app/dashboard/page.tsx:234 | `typeof` of a non-null value is "number" exactly for numbers and "string" exactly for text |
| JsValues.At | app/dashboard/page.tsx:159 | reading a row past its end gives null (undefined), otherwise the cell at that index |
| JsValues.TrimStart | app/dashboard/page.tsx:190 | the result is a suffix of the input; only whitespace was removed; it does not start with whitespace |
| JsValues.TrimEnd | app/dashboard/page.tsx:190 | the result is a prefix of the input; only whitespace was removed; it does not end with whitespace |
| JsValues.Trim | app/dashboard/page.tsx:190 | `trim()` never lengthens; the result has no whitespace at either end; it is empty exactly when the input is all whitespace |
| JsValues.TrimRemovesOnlySurroundingWhitespace | app/dashboard/page.tsx:190 | the trimmed text is a contiguous slice of the input, and everything before and after that slice is whitespace; with the clean ends this is exactly `trim()` |
| JsValues.TrimKeepsTrimmed | app/dashboard/page.tsx:190 | text without whitespace at either end is its own trim |
| JsValues.TrimIdempotent | app/dashboard/page.tsx:190 | trimming twice is trimming once |
| JsValues.StripFormatting | app/dashboard/page.tsx:203 | no `$`, `,` or `%` remains; the result is empty exactly when the input held only those; text without them is unchanged |
| JsValues.StripFormattingConcat | app/dashboard/page.tsx:203 | the global replace works character by character, so it distributes over concatenation and keeps order |
| JsValues.DecimalString | app/dashboard/page.tsx:131 | the rendering of a natural is a non-empty digit string with no leading zero except for 0 itself |
| JsValues.DecimalStringRoundTrip | app/dashboard/page.tsx:131 | reading the rendered digits back gives the number |
| JsValues.DecimalStringDistinct | app/dashboard/page.tsx:131 | distinct numbers render as distinct strings |
| JsValues.DecimalStringLengthMonotone | app/dashboard/page.tsx:299 | a larger number never renders with fewer digits |
| Coercion.Coerce | app/dashboard/page.tsx:174-222 | null exactly for null, undefined and `""`; numbers and other values unchanged; non-empty text always gives a number or text; a finite direct parse of the trimmed text wins; otherwise a finite parse of the stripped text is taken; otherwise the trimmed text is kept |
| Coercion.CoerceNeverEmptyText | app/dashboard/page.tsx:190-206 | coercion never yields `""`; whitespace-only text becomes 0 because `Number("")` is 0 |
| Coercion.CoerceFormattingOnlyIsNumber | app/dashboard/page.tsx:190-206 | text whose trimmed form holds only `$`, `,` and `%` becomes its direct parse if finite, else 0 |
| Coercion.CoerceIdempotent | app/dashboard/page.tsx:174-222 | coercing a coerced value changes nothing; a number stays that number |
| Coercion.CurrencyTextIsNumber | app/dashboard/page.tsx:202-206 | `"$1,250"`, which does not parse directly, is read as 1250 once `$` and `,` are removed |
| Coercion.UnparsableTextIsKept | app/dashboard/page.tsx:213-214 | text that neither parse accepts (`"N/A"`) is kept as text |
| Profiler.Lookup | app/dashboard/page.tsx:233 | `row[header]` is the stored value, or undefined (null) when the key is absent |
| Profiler.ColumnValues | app/dashboard/page.tsx:233 | the non-null values of a column: no nulls, at most one per record, every non-null value present and nothing else |
| Profiler.ColumnValuesConcat | app/dashboard/page.tsx:233 | the map-then-filter keeps record order: the values of two record lists concatenate |
| Profiler.Numbers | app/dashboard/page.tsx:235 | every element is a number; a value occurs in the result exactly when it is a number occurring in the input; never longer than the input |
| Profiler.NumbersConcat | app/dashboard/page.tsx:235 | the numeric filter keeps order and multiplicity: it distributes over concatenation |
| Profiler.Texts | app/dashboard/page.tsx:236 | every element is text; a value occurs in the result exactly when it is text occurring in the input; never longer than the input |
| Profiler.TextsConcat | app/dashboard/page.tsx:236 | the text filter keeps order and multiplicity: it distributes over concatenation |
| Profiler.KindCountsBounded | app/dashboard/page.tsx:240-243 | numericCount + stringCount <= totalValues |
| Profiler.KindCountsExact | app/dashboard/page.tsx:240-243 | when every value is a number or text, numericCount + stringCount == totalValues |
| Profiler.DistinctInOrder | app/dashboard/page.tsx:234 | `[...new Set(xs)]` has no repeats and holds exactly the elements of xs |
| Profiler.DistinctInOrderAppend | app/dashboard/page.tsx:234 | order of first appearance: appending an element keeps the earlier result as a prefix and adds the element at the end exactly when it is new |
| Profiler.TypesOf | app/dashboard/page.tsx:234 | one `typeof` per value; the kinds seen are exactly the kinds of the values |
| Profiler.Analyze | app/dashboard/page.tsx:232-248 | totalValues counts the non-null values; the counts are the sizes of the numeric and text filters, bounded by the total; types are the distinct kinds seen; the samples are order-preserving prefixes of length min(5, ·), min(3, ·), min(3, ·) |
| Profiler.AnalyzeColumns | app/dashboard/page.tsx:232 | one analysis per header, in header order: the k-th is the analysis of the k-th header over the records |
| Profiler.ExampleColumnValues | app/dashboard/page.tsx:233 | for the values 10, 20, null, "abc" the null is dropped and the order is kept |
| Profiler.ProfileExample | app/dashboard/page.tsx:232-248 | the same column has numericCount 2, stringCount 1, totalValues 3 and three samples |
| Extraction.HeaderName | app/dashboard/page.tsx:129-134 | a blank header cell is named `Column_` followed by digits that read back as its 1-based position; the digits have no leading zero; any other cell gives `String(cell).trim()`: no longer, no whitespace at either end, empty exactly when the text is all whitespace |
| Extraction.PlaceholderNames | app/dashboard/page.tsx:130-131 | a blank header becomes `Column_<index+1>`: never empty, and two placeholders are equal exactly when their columns are |
| Extraction.WhitespaceHeaderIsEmpty | app/dashboard/page.tsx:130-133 | a whitespace-only header cell is not blank, so it becomes the empty header |
| Extraction.TrimmedTextHeader | app/dashboard/page.tsx:133 | text with no surrounding whitespace is its own header |
| Extraction.HasData | app/dashboard/page.tsx:135-142 | a column has data exactly when some row below the header has a non-blank cell inside that row at its index; a header-only grid has data in no column |
| Extraction.KeptColumns | app/dashboard/page.tsx:135-142 | a column index is kept exactly when some row below the header has a non-blank cell there; kept indices are increasing and in range |
| Extraction.NothingDroppedIsIdentity | app/dashboard/page.tsx:135-142 | when no column is dropped, the kept indices are 0, 1, … in order |
| Extraction.Headers | app/dashboard/page.tsx:127-142 | one header per kept column, named from that column's own header cell; never more headers than header-row cells |
| Extraction.HeaderOnlyGridHasNoHeaders | app/dashboard/page.tsx:135-142 | a grid holding only the header row yields no headers |
| Extraction.RowHasContent | app/dashboard/page.tsx:149 | a row lacks content exactly when every cell is null, undefined or `""`; an empty row has none |
| Extraction.ContentRows | app/dashboard/page.tsx:147-150 | a row is kept exactly when it has a non-blank cell; nothing else is added |
| Extraction.ContentRowsConcat | app/dashboard/page.tsx:147-150 | the row filter keeps source order |
| Extraction.DataRows | app/dashboard/page.tsx:147-150 | the data rows are the non-blank rows below the header, at most len(grid) - 1 of them |
| Extraction.Assign | app/dashboard/page.tsx:158-222 | filling an object key by key: its keys are exactly the names, and a repeated name holds its last value |
| Extraction.CoercedCells | app/dashboard/page.tsx:158-159 | the k-th value is the coercion of the row's k-th cell, null when the row is shorter |
| Extraction.RecordOf | app/dashboard/page.tsx:155-229 | a record has a key for every header; the header at position k holds the coercion of `row[k]`, last write winning |
| Extraction.RecordValueIsCoercedCell | app/dashboard/page.tsx:155-229 | every header is a key of the record, and its value is the coercion of the row's cell at some position carrying that header |
| Extraction.BuildRecord | app/dashboard/page.tsx:155-229 | the `forEach` loop that fills `obj` builds exactly `RecordOf`, with every header as a key |
| Extraction.Records | app/dashboard/page.tsx:155 | one record per data row, in order |
| Extraction.Extracted | app/dashboard/page.tsx:122-267 | fails with "Empty Excel file" exactly for a grid with no rows; otherwise the columns are the names of the kept columns, the data holds one record per non-blank row below the header, and the analysis is that of each column over those records; also no more columns than header cells and no more records than rows below it; one analysis per column; debug counts and header list match; sample data is the first min(3, n) records; a header-only grid gives no columns and no records; every record has every column |
| Extraction.ProcessGrid | app/dashboard/page.tsx:122-267 | the imperative extraction computes `Extracted` |
| Extraction.ProcessExcelFile | app/dashboard/page.tsx:74-280 | a reader error is passed on as the failure; otherwise the grid's extraction |
| Extraction.AlignedRecordOf | app/dashboard/page.tsx:135-159 | corrected record: each header holds the coercion of the cell in its own original column |
| Extraction.RecordsAgreeWhenNothingDropped | app/dashboard/page.tsx:135-159 | when no column is dropped, the record as written and the corrected record coincide |
| Extraction.KeptFirstAndLast | app/dashboard/page.tsx:135-142 | of three columns, when only the middle one lacks data, the first and the last are kept |
| Extraction.SalesGridData | app/dashboard/page.tsx:135-142 | in the sales grid, only the empty middle column has no data below the header |
| Extraction.MisalignedLastColumn | app/dashboard/page.tsx:135-159 | as written, whenever the middle of three columns is dropped, every record holds null under the last header |
| Extraction.SalesGridRows | app/dashboard/page.tsx:147-150 | both sales rows are data rows |
| Extraction.MisalignedSalesColumn | app/dashboard/page.tsx:158-159 | as written, the sales grid gives two records, and both hold null under the last header, although both rows have a value in the last column |
| Extraction.AlignedSalesColumn | app/dashboard/page.tsx:158-159 | corrected, the first sales record holds 100 under "Sales" |
| Axes.FirstMaximumExists | app/dashboard/page.tsx:365-375 | when some column has a positive numericCount, a first strict maximum exists |
| Axes.FirstMaximumUnique | app/dashboard/page.tsx:365-375 | the first strict maximum is unique |
| Axes.ChooseAxes | app/dashboard/page.tsx:361-378 | x is the first column; y is the name of the first column with the greatest positive numericCount, falling back through JavaScript `or` to `columns[1]` and then `columns[0]` when there is none or its name is empty |
| Axes.GreaterCountWinsInEitherOrder | app/dashboard/page.tsx:365-377 | the column with more numbers is chosen whichever comes first |
| FileSlice.WithoutId | lib/store/fileSlice.ts:35-37 | the filter never lengthens the list, and no entry with the id is left |
| FileSlice.WithoutIdMembers | lib/store/fileSlice.ts:35-37 | the entries kept are exactly the entries with another id |
| FileSlice.WithoutAbsentId | lib/store/fileSlice.ts:35-37 | removing an id no entry carries changes nothing |
| FileSlice.WithoutIdConcat | lib/store/fileSlice.ts:35-37 | the filter keeps order: it distributes over concatenation |
| FileSlice.WithoutIdCount | lib/store/fileSlice.ts:35-37 | exactly as many entries go as carry the id |
| FileSlice.CountId | lib/store/fileSlice.ts:36 | the number of entries with an id is at most the number of entries |
| FileSlice.FileStore.constructor | lib/store/fileSlice.ts:19-23 | initial state: no files, no selection, not loading |
| FileSlice.FileStore.SetFiles | lib/store/fileSlice.ts:29-31 | replaces the list and changes nothing else |
| FileSlice.FileStore.AddFile | lib/store/fileSlice.ts:32-34 | appends at the end, keeping earlier entries and their order; nothing else changes |
| FileSlice.FileStore.RemoveFile | lib/store/fileSlice.ts:35-37 | the list becomes its filter; the selection and loading flag are untouched |
| FileSlice.FileStore.SetSelectedFile | lib/store/fileSlice.ts:38-40 | changes only the selection |
| FileSlice.FileStore.SetLoading | lib/store/fileSlice.ts:41-43 | changes only the loading flag |
| AuthSlice.AuthStore.constructor | lib/store/authSlice.ts:16-20 | initial state: no user, no token, not authenticated |
| AuthSlice.AuthStore.SetUser | lib/store/authSlice.ts:26-29 | stores the user and authenticates; the token is unchanged |
| AuthSlice.AuthStore.SetToken | lib/store/authSlice.ts:30-32 | changes only the token; it does not authenticate |
| AuthSlice.AuthStore.Logout | lib/store/authSlice.ts:33-37 | returns to the initial state whatever the state before, so logging out twice is logging out once |
| Dashboard.HasExcelExtension | app/dashboard/page.tsx:289 | the extension test passes exactly when some dot in the name is followed by `xlsx` or `xls` and nothing else (case-sensitive, anchored at the end) |
| Dashboard.ExtensionExamples | app/dashboard/page.tsx:289 | the extension test is case-sensitive and anchored at the end: "sales.xlsx" and "old.xls" pass; "sales.XLSX", "sales.csv", "sales.xlsx.bak" and "xlsx" do not |
| Dashboard.EntryId | app/dashboard/page.tsx:299 | an id is at least two characters long and all decimal digits |
| Dashboard.NewEntry | app/dashboard/page.tsx:298-304 | the entry inserted first is `processing`, with the generated id, the file's name, size and upload date, and no data |
| Dashboard.Outcome | app/dashboard/page.tsx:308-339 | a reader error is passed on with its message; a read grid succeeds exactly when it has a row, and fails with "Empty Excel file" otherwise |
| Dashboard.Finalize | app/dashboard/page.tsx:312-339 | the replacement keeps id, name, size and date; it is `completed` with data, columns and debug info on success, and `error` without data on failure |
| Dashboard.UploadStep | app/dashboard/page.tsx:286-350 | a file without an Excel name leaves the registry as it was; otherwise the registry loses every entry with the new id and gains the finished entry at the end |
| Dashboard.UploadAll | app/dashboard/page.tsx:286-350 | a batch adds at most one entry per picked file; a batch with no Excel name leaves the registry as it was |
| Dashboard.FinishedEntries | app/dashboard/page.tsx:286-350 | at most one finished entry per picked file; none is `processing`, and every one has an Excel name |
| Dashboard.FinishedEntryIds | app/dashboard/page.tsx:299 | every finished entry carries the id generated for an accepted file of the batch |
| Dashboard.UploadAppendsFinishedEntries | app/dashboard/page.tsx:286-350 | with fresh ids, a batch keeps the old registry and appends exactly one finished entry per Excel file, in order, so a failure does not stop the loop |
| Dashboard.LastStepAppends | app/dashboard/page.tsx:286-350 | when the earlier files have appended their finished entries and the last file's id is fresh, the batch appends the last file's finished entry too |
| Dashboard.EntryIdsDistinct | app/dashboard/page.tsx:299 | two files of a batch get different ids when the clock does not go back between them |
| Dashboard.BatchIdsDistinct | app/dashboard/page.tsx:286-299 | with a clock that does not go back, all ids of a batch are pairwise distinct |
| Dashboard.UploadAppendsWithSteadyClock | app/dashboard/page.tsx:286-350 | with such a clock and no generated id already in the registry, a batch appends one finished entry per Excel file, in order |
| Dashboard.FreshStepAppends | app/dashboard/page.tsx:298-342 | for a file with an Excel name and a fresh id, the add, remove and re-add leave the registry as it was plus the finished entry at the end |
| Dashboard.NewIdIsFresh | app/dashboard/page.tsx:299-321 | with fresh ids, the id removed by a file's `removeFile` belongs to no earlier entry |
| Dashboard.UploadAddsOnlyExcelFiles | app/dashboard/page.tsx:289-296 | whatever the ids, every entry after a batch was there before, or is a finished entry with an Excel name |
| Dashboard.MixedBatchExample | app/dashboard/page.tsx:286-350 | an Excel file and a text file into an empty registry leave one finished entry for the Excel file |
| Dashboard.DashboardPage.constructor | app/dashboard/page.tsx:52-54 | empty axes, not uploading |
| Dashboard.DashboardPage.HandleFileUpload | app/dashboard/page.tsx:282-355 | the store's file list becomes the batch semantics `UploadAll`; selection, loading flag and axes unchanged; not uploading at the end |
| Dashboard.DashboardPage.HandleFileSelect | app/dashboard/page.tsx:357-386 | selects the file; with columns, x is the first and y the recommended measure; without columns the axes stay; the file list, loading flag and uploading flag are untouched |
| Dashboard.DashboardPage.HandleDeleteFile | app/dashboard/page.tsx:388-397 | removes every entry with the id, and clears the selection exactly when the selected file has that id |

## Left out

- Extraction.Assign: records are modelled as maps from header to value. In JavaScript the record is a plain object (`const obj: any = {}`), so a header named `__proto__` behaves differently there: assigning a number to it is ignored, assigning null replaces the prototype, and reading it back gives the prototype object, or undefined once the prototype is null. In the model that header is an ordinary key. `Extraction.RecordOf` and everything built on it share this difference.
- Reading the workbook is not modelled: `FileReader`, `XLSX.read`, `sheet_to_json` and the choice of the first sheet (app/dashboard/page.tsx:74-120, 274-278). Each picked file carries the reader's grid or its error message.
- The `catch` path that wraps an unexpected exception as "Failed to process Excel file: …" (app/dashboard/page.tsx:268-271). The modelled extraction is total and raises nothing.
- `originalSheetRange` in the debug information depends on the worksheet object, which is not modelled.
- The exact semantics of `Number(text)` and `String(value)` are abstract. `-0` is not told apart from `0`. Dates and booleans are opaque `Other` cells.
- Console output, toasts, `localStorage`, the login redirect and the `useEffect` that restores the user, the theme, chart download, `formatFileSize` (floating point), and the chart and upload-zone components are side effects or presentation.
- `await` inside the upload loop is modelled as sequential steps. Two batches running at once, interleaved through React re-renders, are not modelled.
- Dashboard.UploadAppendsFinishedEntries: assumes the generated ids are fresh. `Dashboard.BatchIdsDistinct` shows that ids within one batch cannot collide while the clock does not go back. A generated id can still equal the id of an older entry in the registry; `Dashboard.UploadAppendsWithSteadyClock` assumes only that this does not happen, and `Dashboard.UploadAddsOnlyExcelFiles` holds with no assumption at all.
- Axes.ChooseAxes: requires a non-empty column list. Its caller makes that test (app/dashboard/page.tsx:361), and `HandleFileSelect` covers the empty case.
- AuthSlice.AuthStore.Logout: its idempotence is not a separate lemma. The postcondition fixes the whole post-state to the initial one, so a second call yields the same state.
- The pipeline (`Extracted`) keeps the misaligned reading of records, so that it matches the code. `AlignedRecordOf` is the corrected definition, with its property and the agreement lemma.
- The `rawData` field of an uploaded file is never set by the code and is not modelled. `lib/store/fileSlice.ts` declares the entry without `debugInfo`; the model uses one entry type carrying it, as the dashboard does.

## Findings

| source | as written | input that shows it | evidently intended | confidence | as-written member | corrected member |
|---|---|---|---|---|---|---|
| app/dashboard/page.tsx:158-159 | each record reads `row[colIndex]`, where `colIndex` is the header's position in the filtered header list, not its original column | header row `Name`, `""`, `Sales` over rows `A, null, 100` and `B, null, "200"`: the middle column is dropped, so both records hold null under `Sales` | each kept header reads the cell in its own original column, giving 100 and 200 | not executed; proved on the model | Extraction.MisalignedSalesColumn | Extraction.AlignedRecordOf |
