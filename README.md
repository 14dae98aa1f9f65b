# financial_tracker, modelled in Dafny

financial_tracker is a Next.js personal-finance page backed by SQLite. The
page (`pages/index.js`) records expenses and income and shows totals, a
cash-flow figure, a report by category over a date range and the ten most
recent transactions. It also imports and exports an Excel workbook with an
`expense` tab and an `income` tab, and keeps a list of named "sheets".

The model has four parts:
- the record store in `utils/db.js`: two independent tables, each with an
  autoincrement id and a creation order;
- the HTTP routes `pages/api/expenses.js`, `pages/api/income.js`,
  `pages/api/clear.js` and `pages/api/sheets.js`;
- the data helpers of the page: the Excel date-serial conversion, the import
  loop, the export projection, the totals, the report filter and grouping,
  the recent-transactions sort, the category lists and the client-side sheet
  list.

Files:
- `values.dfy` (module `Values`): JSON-like field values (`Text`, `Number`
  as a real, `Boolean`) and rows as maps from column to value. It also has
  JavaScript truthiness, a generic order-preserving `Filter` with its lemmas,
  lexical string order with its order laws, and how SQLite matches a bound
  id against the integer key (`IdOf`). The id arrives from the query string
  as text. Under the key column's NUMERIC affinity, text that reads as a
  whole number (`5`, `5.0`, `+5`, ` 5 `, `5e1`) selects that key, and any
  other text selects nothing.
- `date_serial.dfy` (module `DateSerial`): `excelDateToJSDate`. Day counts
  are turned into proleptic Gregorian dates, and dates are formatted as
  zero-padded `YYYY-MM-DD`. It proves a parse/format round trip and that
  string order equals date order.
- `db.dfy` (module `Db`): a table as a value (`TableState`: rows in creation
  order, the next id, an insertion counter standing for `created_at`). Each
  SQL statement is a pure transition function. The class `Table` holds the
  same state in fields, and each exported function of `utils/db.js` is a
  method proved equal to its transition.
- `api.dfy` (module `Api`): each route handler as a function from store
  state and request to new state and response. The class `Database` holds
  the two tables and the sheet registry, and its handler methods are proved
  equal to those functions. A store failure is an explicit `Fault`
  parameter naming the store call that throws. This makes the 500 paths and
  the partial effects of a multi-step handler visible.
- `dashboard.dfy` (module `Dashboard`): totals and cash flow, the report, the
  recent list, adding a category, and the page's copy of the sheet list.
- `spreadsheet.dfy` (module `Spreadsheet`): the import loop of
  `handleFileChange` (a method that rewrites each row's date in place and
  posts the row through the records route) and the export of
  `handleExportClick`.

Behaviours of the code that the model keeps as written:
- `insertExpense` and `insertIncome` store only `date`, the name column,
  `category` and `amount`, and drop the `sheet_name` every request carries.
  The model gives each row a `sheet` field so that the sheet cascade can be
  stated, and every insert sets that field to the placeholder `"default"`.
  The cascade therefore never removes a row (`Api.CascadeKeepsRows`).
- The schema in `utils/db.js` creates neither a `sheets` table nor a
  `sheet_name` column. The registry is modelled as a list of names that
  starts empty, because no code creates a `default` entry.
- `GET` ignores the `sheet` query parameter, and "get last five" returns up
  to ten rows.
- `sheets.js` imports `initializeDatabase`, which `utils/db.js` does not
  export (see Findings). Even once that import resolves, the route's
  statements need a `sheets` table and a `sheet_name` column, and the schema
  in `utils/db.js:12-33` creates neither. `Api.Sheets` assumes that schema
  exists: a registry of names and a sheet tag on every row.
  `Api.SheetsAsWritten` is the route as the code stands, where every request
  fails.
- The page's delete request interpolates the sheet name into the URL
  without `encodeURIComponent` (see Findings).
- `UPDATE ... WHERE id = ?` reports the constraint error for a missing
  column only when some row matches. The reply's `lastID` is 0, and
  `changes` is the number of matching rows.
- A NOT NULL column missing from a POST or PUT body is a real store error,
  answered with 500 and
  `SQLITE_CONSTRAINT: NOT NULL constraint failed: <table>.<column>`.

## Model

| member | source | states |
|---|---|---|
| Db.FindById | utils/db.js:89-93 | `SELECT * WHERE id = ?`: a found row is in the table and has the id; nothing is found exactly when no row has it |
| Db.FindUnique | utils/db.js:14 | with AUTOINCREMENT ids, looking up a stored row's id finds that row |
| Db.UniqueIds | utils/db.js:14 | two different rows of a well-formed table never share an id |
| Db.InsertRow | utils/db.js:39-49 | the insert fails exactly when one of the four NOT NULL columns is missing, and then nothing changes; otherwise one row is appended under the next id and the reply carries that id and one change |
| Db.InsertFresh | utils/db.js:14-19 | an insert keeps the table well formed, leaves every earlier row in place, gives an id larger than every id already used, and that id then finds the stored row |
| Db.InsertIgnoresExtraFields | utils/db.js:41-46 | fields of the body other than the four columns (`sheet_name` among them) do not affect the insert |
| Db.FirstMissing | utils/db.js:15-18 | the reported column is a NOT NULL column missing from the body; none is reported exactly when all are present |
| Db.AssignAll | utils/db.js:75-78 | `UPDATE ... SET`: the rows with the id get the four new fields, the others are unchanged, and ids and creation stamps are kept |
| Db.UpdateRows | utils/db.js:71-81 | the update fails only when a row matches and a column is missing; with no matching row, or on failure, the table is unchanged; on success the change count is the number of matching rows |
| Db.UpdateThenFind | utils/db.js:71-81 | updating an existing id keeps the table well formed and its length, changes exactly one row, which the id then finds with the new fields, leaves every other row in place and answers one change |
| Db.SingleMatch | utils/db.js:76 | in a well-formed table exactly one row matches a stored id |
| Db.AssignAllKeeps | utils/db.js:76 | rows with another id survive the update unchanged |
| Db.AssignAllWellFormed | utils/db.js:75-78 | an update keeps the ids, the creation order and the counters consistent |
| Db.DeleteRow | utils/db.js:83-87 | `DELETE WHERE id = ?` keeps exactly the rows without that id, after which the id finds nothing; the change count is the number removed; the next id and the insertion counter are kept |
| Db.DeleteKeepsOrder | utils/db.js:85 | deleting by id keeps the table well formed |
| Db.DeleteAllRows | utils/db.js:152-160 | `DELETE FROM` empties the table but keeps the id counter |
| Db.ClearThenInsert | utils/db.js:152-155 | after deleting all rows, the next insert still gets a fresh id, not 1 again |
| Db.DeleteThenInsert | utils/db.js:14 | after a delete by id or a delete of the newest rows, the next insert gets an id above every id the table held before, the deleted ones included |
| Db.DeleteSheetRows | pages/api/sheets.js:42-43 | deleting by sheet keeps exactly the rows of other sheets, and the counters are unchanged |
| Db.DeleteSheetKeepsOrder | pages/api/sheets.js:42-43 | deleting by sheet keeps the table well formed |
| Db.DeleteAbsentSheet | pages/api/sheets.js:42-43 | deleting a sheet that no row belongs to leaves the rows as they were |
| Db.Newest | utils/db.js:51-57 | `ORDER BY created_at DESC LIMIT n` lists min(n, size) rows, the i-th being the i-th from the end of the creation order |
| Db.NewestDescending | utils/db.js:51-57 | `ORDER BY created_at DESC LIMIT n` lists min(n, size) rows, strictly newest first |
| Db.DeleteNewest | utils/db.js:59-69 | deleting the n newest keeps the oldest size - min(n, size) rows, in order, and keeps the next id and the insertion counter |
| Db.NewestPartition | utils/db.js:59-69 | the rows left after "delete newest n" and the newest n together are exactly the original rows |
| Db.NewestTopK | utils/db.js:59-69 | every row kept by "delete newest n" is older than every row removed |
| Db.DeleteNewestWellFormed | utils/db.js:59-69 | deleting the newest rows keeps the table well formed |
| Db.ReverseMultiset | utils/db.js:54 | listing newest first reorders the rows without losing or adding any |
| Db.Reverse | utils/db.js:54 | the newest-first listing reads the creation order from the back |
| Db.EmptyWellFormed | utils/db.js:12-33 | a freshly created table is well formed |
| Db.Table.constructor | utils/db.js:12-33 | a new table of the given kind is empty and well formed |
| Db.Table.Insert | utils/db.js:39-49 | `insertExpense`/`insertIncome`: the new state and the reply are those of `InsertRow`, and the table stays well formed |
| Db.Table.GetLastFive | utils/db.js:51-57 | `getLastFive*` returns min(10, size) rows, newest first, and every row not returned is older than every row returned |
| Db.Table.DeleteLastFive | utils/db.js:59-69 | `deleteLastFive*` removes the five newest rows (or all, if fewer), and the table stays well formed |
| Db.Table.Update | utils/db.js:71-81 | `updateExpense`/`updateIncome`: the new state and reply are those of `UpdateRows` for the bound id |
| Db.Table.Delete | utils/db.js:83-87 | `deleteExpense`/`deleteIncome`: the new state and reply are those of `DeleteRow` for the key the bound id reads as |
| Db.Table.DeleteKey | utils/db.js:85 | the delete on the table's fields, for a key already read from the bound id: the new state and reply are those of `DeleteRow`, and the table stays well formed |
| Db.Table.GetById | utils/db.js:89-93 | `getExpenseById`/`getIncomeById` returns a row with the bound id, or nothing exactly when no row has it |
| Db.Table.DeleteAll | utils/db.js:152-160 | `deleteAllExpenses`/`deleteAllIncome` empties this table only |
| Db.Table.DeleteSheet | pages/api/sheets.js:42-43 | `DELETE FROM <table> WHERE sheet_name = ?` on this table only |
| Api.Records | pages/api/expenses.js:10-53 | the handler answers 200 exactly on success, otherwise 405 or 500; a non-200 reply leaves the table unchanged; 405 is answered exactly for a method other than POST, GET, DELETE and PUT; a store failure at the first call gives 500 |
| Api.RecordsPost | pages/api/expenses.js:11-18 | POST of a complete body answers 200 with the insert result, and appends the row under an id larger than every earlier id; an incomplete body gives 500 and no change |
| Api.RecordsGetIgnoresQuery | pages/api/expenses.js:19-26 | GET answers the newest-ten listing and does not depend on the query, the `sheet` parameter included |
| Api.RecordsDelete | pages/api/expenses.js:27-40 | DELETE with `id` keeps exactly the rows whose id is not the key the query text reads as under NUMERIC affinity (`IdOf`), so `5.0`, `+5` and ` 5` delete row 5; without one it removes the five newest rows and keeps every older row; both answer 200 |
| Api.RecordsPut | pages/api/expenses.js:41-49 | PUT updates the row named by the body's `id` with the body's fields; taking `id` out of the body changes nothing, and a store error answers 500 |
| Api.FirstMissingStrip | pages/api/expenses.js:43 | removing `id` from the body does not change which column is missing |
| Api.RecordsWellFormed | pages/api/expenses.js:10-53 | every request keeps the table well formed |
| Api.Replay | pages/api/expenses.js:10-53 | a run of requests never lowers the next id |
| Api.ReplayWellFormed | pages/api/expenses.js:10-53 | a run of requests keeps the table well formed |
| Api.NoIdReused | utils/db.js:14 | AUTOINCREMENT over any run of requests, deletes included: every row the table held at any point has an id below the one the next insert takes |
| Api.RecordsKeepUnscoped | utils/db.js:41-46 | because inserts drop `sheet_name`, every row of a table stays on the placeholder sheet whatever requests arrive |
| Api.HandleRecords | pages/api/expenses.js:10-53 | the handler method's new table and reply are those of `Records` |
| Api.Database.constructor | utils/db.js:12-33 | the store starts with two empty tables and an empty registry |
| Api.ExpensesRoute | pages/api/expenses.js:10-53 | the expenses route leaves the income table and the registry as they were and keeps the store consistent |
| Api.IncomeRoute | pages/api/income.js:10-53 | the income route leaves the expense table and the registry as they were and keeps the store consistent |
| Api.Database.HandleExpenses | pages/api/expenses.js:10-53 | the expenses route changes only the expense table, as `Records` says |
| Api.Database.HandleIncome | pages/api/income.js:10-53 | the income route changes only the income table, as `Records` says |
| Api.Sheets | pages/api/sheets.js:3-56 | the sheets handler answers 200 exactly on success, otherwise 400, 405 or 500; only DELETE touches the tables; a failed non-DELETE request changes nothing |
| Api.SheetsCreate | pages/api/sheets.js:6-19 | POST of an existing name answers 400 "Sheet name already exists" and changes nothing; a new name is appended and answered with 200; the registry never holds a name twice |
| Api.AppendDistinct | pages/api/sheets.js:11-17 | appending a name that is not yet present keeps the registry duplicate-free |
| Api.Without | pages/api/sheets.js:46 | removing a name drops its every occurrence and keeps every other name as often as before and in order |
| Api.SheetsList | pages/api/sheets.js:24-27 | GET lists the names in creation order and changes nothing |
| Api.SheetsDefaultGuard | pages/api/sheets.js:37-39 | DELETE of `default` answers 400 "Cannot delete default sheet" and changes nothing, whatever the store would do |
| Api.SheetsCascade | pages/api/sheets.js:32-48 | DELETE of another name removes exactly the expense and income rows of that sheet and the name itself, and answers 200 even when the name is not registered |
| Api.SheetsPartialCascade | pages/api/sheets.js:42-50 | if the income delete fails, the expense rows are already gone, the registry is unchanged, and the reply is 500 |
| Api.SheetsNotAllowed | pages/api/sheets.js:53-55 | any other method answers 405 and changes nothing |
| Api.SheetsConsistent | pages/api/sheets.js:3-56 | every request keeps both tables well formed and the registry duplicate-free |
| Api.CascadeKeepsRows | pages/api/sheets.js:42-43 | with every stored row on the placeholder sheet, no sheet request removes any row |
| Api.Database.HandleSheets | pages/api/sheets.js:3-56 | the handler method's new state and reply are those of `Sheets`, the three writes of DELETE made in order |
| Api.Clear | pages/api/clear.js:3-15 | clear answers 200 exactly on success; it never touches the registry; a failure before the second delete changes nothing |
| Api.ClearEmpties | pages/api/clear.js:4-8 | POST empties both tables and answers 200, and a second POST is the same as one |
| Api.ClearOrder | pages/api/clear.js:6-11 | expenses are cleared before income: a failure of the first delete changes nothing, and a failure of the second leaves the expenses cleared |
| Api.ClearNotAllowed | pages/api/clear.js:12-14 | any method but POST answers 405 and changes nothing |
| Api.Database.HandleClear | pages/api/clear.js:3-15 | the handler method's new state and reply are those of `Clear` |
| Api.SheetsAsWritten | pages/api/sheets.js:1-4 | as written, every sheets request fails with 500 and changes nothing |
| Api.SheetsAsWrittenCannotCreate | pages/api/sheets.js:1-19 | as written, creating a new sheet registers nothing, where the intended handler appends it |
| DateSerial.ExcelDateToJSDate | pages/index.js:17-23 | a string is returned unchanged; a number gives a `YYYY-MM-DD` string that parses to the date `floor(serial - 25569)` days after 1970-01-01 |
| DateSerial.ExcelSerial | pages/index.js:19-22 | a numeric serial gives the formatted date of day `floor(serial) - 25569` |
| DateSerial.ExcelEpoch | pages/index.js:19-22 | any serial in [25569, 25570) gives "1970-01-01" |
| DateSerial.Excel45000 | pages/index.js:19-22 | any serial in [45000, 45001) gives "2023-03-15" |
| DateSerial.ExcelIgnoresFraction | pages/index.js:19 | the time of day in a serial does not change the date |
| DateSerial.ExcelNextDay | pages/index.js:19-22 | serial + 1 gives the next calendar day |
| DateSerial.ExcelOrder | pages/index.js:19-22 | converted dates compare as strings exactly as their whole-day serials compare |
| DateSerial.CivilFromDays | pages/index.js:21-22 | a day count becomes a date in 1970..9999 that counts back to the same day |
| DateSerial.CivilOfDays | pages/index.js:21-22 | counting a date's days and converting back gives the date |
| DateSerial.CivilNext | pages/index.js:21-22 | one more day is the next calendar day |
| DateSerial.DaysOrder | pages/index.js:21-22 | dates are ordered as their day counts are, and equal exactly when the counts are |
| DateSerial.Format | pages/index.js:22 | the written date has the ten-character `YYYY-MM-DD` shape: four digits, a dash, two digits, a dash, two digits |
| DateSerial.FormatParse | pages/index.js:22 | the written date has the ten-character `YYYY-MM-DD` shape and reads back as the same date |
| DateSerial.FormatOrder | pages/index.js:22 | one written date is lexically before another exactly when its date is earlier |
| DateSerial.PadDecimal | pages/index.js:22 | a zero-padded field reads back as its number |
| DateSerial.PadOrder | pages/index.js:22 | zero-padded fields of one width compare as strings as their numbers do |
| DateSerial.EpochFormat | pages/index.js:22 | day zero is written "1970-01-01" |
| Values.LexLess | pages/index.js:1315-1316 | JavaScript's `<` on strings: a proper prefix sorts first, and at the first differing position the smaller character decides; the empty string is before no string |
| Values.LexTransitive | pages/index.js:1315-1316 | the string order the page compares dates with is transitive |
| Values.LexTotal | pages/index.js:1315-1316 | of two different strings one is before the other |
| Values.LexAsymmetric | pages/index.js:1315-1316 | no two strings are each before the other |
| Values.LexIrreflexive | pages/index.js:1315-1316 | no string is before itself |
| Values.Filter | pages/index.js:1313 | `Array.prototype.filter`: the result holds exactly the elements that pass, and is no longer than the input |
| Values.FilterMultiset | pages/index.js:1313 | filtering keeps every passing element exactly as often as it occurs and drops every other |
| Values.FilterSubsequence | pages/index.js:1313 | the filtered list is a subsequence of the input: its elements appear there in the same order |
| Values.FilterPairwise | pages/index.js:1313 | filtering keeps any order that held pairwise between the elements |
| Values.DistinctFilter | pages/index.js:410 | filtering a duplicate-free list leaves it duplicate-free |
| Values.IdOfExact | utils/db.js:14 | a bound value selects a key exactly when the number it reads as is whole, and the key is that number |
| Values.IdOfDigits | utils/db.js:85 | a query id of plain digits selects the key it spells |
| Values.IdOfZeroFraction | utils/db.js:85 | digits followed by a point and only zeros (`5.0`) select the whole part |
| Values.IdOfFraction | utils/db.js:85 | digits with a fraction ending in a non-zero digit (`5.5`) select nothing |
| Values.IdOfSigned | utils/db.js:85 | a leading `+` (`+5`) selects the number after it |
| Values.IdOfPadded | utils/db.js:85 | blanks around the digits (` 5 `) are ignored |
| Values.IdOfExponent | utils/db.js:85 | digits with an exponent (`5e1`) select the digits times ten to that power |
| Values.IdOfDanglingExponent | utils/db.js:85 | an `e` with no exponent digits (`5e`) selects nothing |
| Values.IdOfWord | utils/db.js:85 | the empty text, and text starting with a letter and not ending in a blank, select nothing |
| Dashboard.TotalSign | pages/index.js:261-262 | the `reduce` sum of amounts all non-negative is non-negative, and of amounts all non-positive is non-positive |
| Dashboard.TotalAppend | pages/index.js:261-262 | the `reduce` sum of two lists put together is the sum of their sums |
| Dashboard.TotalPermutation | pages/index.js:261-262 | the sum does not depend on the order of the records |
| Dashboard.CashFlowStep | pages/index.js:261-263 | one more income record raises the cash flow by its amount, and one more expense lowers it by its amount |
| Dashboard.ReportRows | pages/index.js:1313-1317 | a record is kept exactly when its date is not before a non-empty `from` and not after a non-empty `to` |
| Dashboard.ReportUnbounded | pages/index.js:1314-1315 | with both bounds empty, every record is kept, in order |
| Dashboard.ReportChronological | pages/index.js:1314-1315 | on dates written `YYYY-MM-DD`, the string bounds select exactly the dates in the calendar range |
| Dashboard.Categories | pages/index.js:1318 | `Array.from(new Set(...))` holds each category of the filtered records once, and no other |
| Dashboard.CategoriesFirstOccurrence | pages/index.js:1318 | the categories come in the order of their first occurrence |
| Dashboard.FirstIndex | pages/index.js:1318 | the first position of a category: it holds that category and no earlier record does |
| Dashboard.Amounts | pages/index.js:1319-1321 | each category's amount is the sum over the records of that category |
| Dashboard.AmountsAddUp | pages/index.js:1318-1321 | the per-category sums add up to the total of the filtered records |
| Dashboard.CategoryTotalAbsent | pages/index.js:1320 | a category no record has sums to 0 |
| Dashboard.SortDesc | pages/index.js:1242 | sorting newest first keeps exactly the same records |
| Dashboard.SortSorted | pages/index.js:1242 | the sort leaves the records newest first by date |
| Dashboard.Recent | pages/index.js:1241-1243 | the recent list holds min(10, n) entries taken from the income and expense records, none more often than it occurs there |
| Dashboard.RecentTop | pages/index.js:1241-1243 | the recent list holds min(10, n) of the income and expense records together, newest first, and no record left out is dated later than one shown |
| Dashboard.RecentChronological | pages/index.js:1242 | on dates the page writes itself, newest first means latest calendar day first |
| Dashboard.AddCategory | pages/index.js:341-360 | a non-empty pending category not yet listed is appended and selected in the form; otherwise the list is unchanged; in both cases the input is closed and cleared |
| Dashboard.AddCategoryDistinct | pages/index.js:343-344 | adding keeps the list duplicate-free, and adding again changes nothing |
| Dashboard.DefaultCategoriesDistinct | pages/index.js:52-57 | the initial expense and income category lists have no duplicates |
| Dashboard.FetchSheets | pages/index.js:77-87 | a successful reply replaces the list by the server's names and keeps the current sheet; a failed one changes nothing |
| Dashboard.CreateSheet | pages/index.js:380-397 | on success the list becomes the old list with the new name appended, and that name becomes current; on failure nothing changes |
| Dashboard.DeleteSheet | pages/index.js:409-413 | on success the name is no longer listed, every other name stays as often as before and in its order, and a current sheet of that name falls back to `default`; on failure nothing changes |
| Dashboard.ReceivedName | pages/index.js:405 | the name the server reads from `?name=` followed by the unencoded text: cut at the first `&` or `#`, `+` read as a blank, and equal to the text when it holds no `&`, `#`, `+`, `%`, tab or line break |
| Dashboard.DeleteAsSentMirrors | pages/index.js:403-413 | for a name without `&`, `#`, `+`, `%`, tab, line break or trailing blank, the delete as the page sends it keeps the page's list equal to the server's registry |
| Dashboard.DeleteAmpersandDiverges | pages/index.js:405 | deleting `R&D` as the page sends it removes `R` on the server while the page removes `R&D`, so the two lists part |
| Dashboard.ViewMirrorsRegistry | pages/index.js:380-413 | starting from the server's list, and with the server receiving the name exactly as the page means it (the encoded request), the page's list after create, delete or fetch equals the server's registry after the same request |
| Dashboard.DeletedIsNotCurrent | pages/index.js:410-413 | after a successful delete, the deleted sheet is never the current one |
| Spreadsheet.NormalizeRow | pages/index.js:284 | a truthy date is replaced by its converted text; a falsy date and every other field pass through unchanged, and no field is added or removed |
| Spreadsheet.Normalized | pages/index.js:283-284 | every row of the tab is rewritten this way, and the order is kept |
| Spreadsheet.Submission | pages/index.js:284-288 | the posted body has the row's keys plus `sheet_name`, which holds the current sheet; a truthy date becomes its converted text, a falsy date and every other field keep their values |
| Spreadsheet.Submissions | pages/index.js:283-290 | one body per row, in row order |
| Spreadsheet.PostIsInsert | pages/api/expenses.js:11-14 | a POST the store does not fail has exactly the effect of the insert |
| Spreadsheet.PostAll | pages/index.js:283-290 | posting bodies one after another keeps every earlier row in place, adds at most one row per body, and advances the next id by exactly the number of rows added |
| Spreadsheet.CompleteBodies | pages/index.js:283-290 | the bodies the store accepts are the complete ones, in order |
| Spreadsheet.PostAllStores | pages/index.js:283-290 | posting a tab's bodies one after another appends exactly the complete ones, each once, in row order, under consecutive fresh ids |
| Spreadsheet.SubmissionComplete | pages/index.js:284-288 | the date rewrite and the added `sheet_name` never decide whether the store accepts a row |
| Spreadsheet.ImportDropsSheet | pages/index.js:288 | the stored row is the same whatever sheet the page imported into, and it sits on the placeholder sheet |
| Spreadsheet.PreviewPrefix | pages/index.js:311-312 | each preview holds at most ten rows and is a prefix of the tab's rewritten rows |
| Spreadsheet.ImportWorkbook | pages/index.js:271-316 | only tabs named exactly `expense` and `income` are read; each present tab's rows are all posted, in order, to their own table, leaving the other table alone; the preview opens exactly when one of the two tabs exists and shows the first ten rewritten rows of each |
| Spreadsheet.PostTab | pages/index.js:282-295 | the loop over one tab rewrites every row's date in place and leaves the table as posting the tagged rows in order would |
| Spreadsheet.PostStep | pages/index.js:283-290 | turn i of the loop rewrites row i, leaves the later rows as read, and leaves the table as posting the first i + 1 tagged rows would |
| Spreadsheet.RewriteDate | pages/index.js:284-286 | a truthy date becomes text, no key is added or removed, and the row is the rewritten row |
| Spreadsheet.ImportRow | pages/index.js:284-289 | one turn of the loop rewrites the row's date and inserts the tagged row |
| Spreadsheet.Project | pages/index.js:321-332 | the export keeps the list's length and order and projects every row |
| Spreadsheet.Export | pages/index.js:319-336 | the workbook has exactly the tabs `expense` and `income`, each as long as its list |
| Spreadsheet.ExportShape | pages/index.js:319-336 | the exported workbook has exactly the tabs `expense` and `income`; every row keeps exactly its `date`, name, `category` and `amount` fields with their values |
| Spreadsheet.ExportImport | pages/index.js:271-336 | for both the `expense` and the `income` tab, rows with text dates, exported and imported again, are posted as the projected rows, each tagged with the current sheet |
| Spreadsheet.TabImport | pages/index.js:283-332 | one exported tab imports back unchanged but for the sheet tag |

## Left out

- React rendering, modal and visibility state, styling and the charts:
  these are interface, not logic.
- XLSX parsing and writing: a workbook is a map from tab name to its list
  of rows, and the library that reads and writes files is not part of this
  model.
- `fetch` and the network: each request is a call on the store model, and
  a request that never arrives is not modelled.
- The sqlite driver, opening the connection and running the schema: only
  the semantics of the tables are modelled, and the connection is taken to
  open.
- SQLite column type affinity of stored values: a value is stored exactly
  as the body gives it. Only the comparison of a bound id with the integer
  key follows NUMERIC affinity (`Values.IdOf`).
- Values.IdOf: text that reads as a number is converted exactly, so the
  double rounding SQLite applies to numerals longer than 15 significant
  digits is not modelled, and neither are hexadecimal or the `inf`/`nan`
  spellings. A minus sign is parsed, but no lemma states the negative case,
  because every key is positive. The function has no `ensures` of its own:
  its contract is `Values.IdOfExact` and the IdOf lemmas beside it.
- Dashboard.Total: like `reduce`, it has no `ensures` of its own; its
  contract is `Dashboard.TotalSign`, `Dashboard.TotalAppend` and
  `Dashboard.TotalPermutation`.
- Dashboard.ReceivedName: the server's percent-decoding and the URL
  parser's removal of tabs and line breaks are not modelled. Names holding
  `%`, tabs, line breaks or trailing blanks are therefore kept outside
  `Dashboard.DeleteAsSentMirrors`.
- Floating point: amounts are reals, so the model has no rounding, no NaN
  from `parseFloat` of a non-number, and no `toFixed`.
- `Date` and `toISOString` internals: days are turned into dates by integer
  arithmetic.
- DateSerial.ExcelDateToJSDate: defined only for strings and for numeric
  serials whose dates fall in 1970..9999. The 1970 floor is a modelling
  choice: `toISOString` writes the years 0000..1969 the same way, but the
  day-to-date conversion is proved for non-negative day counts only. Years
  above 9999 are excluded because `toISOString` writes them with a sign
  and six digits. A `true` date cell counts as the serial 1, as
  JavaScript's subtraction makes it, and so falls below that range.
- Spreadsheet.ImportWorkbook: requires every truthy date in the two tabs to
  be convertible, because of the range just given.
- `created_at` timestamps are an insertion counter, so two rows never share
  a timestamp. Ties between equal timestamps in `ORDER BY created_at` are
  not modelled.
- Lexical order is per character code, over Dafny's characters; UTF-16
  surrogate pairs are not modelled.
- A sheet name that is missing from the request, or is not a string, is
  not modelled: the name is a string parameter.
- The order of tabs inside a workbook: only the two named tabs are
  looked up.
- Spreadsheet.ImportWorkbook: the store does not fail during an import. The
  page ignores each POST's reply, and store failures are modelled on the
  routes themselves.
- Api.Sheets: a query or body field other than `name` is not part of the
  request model.
- Dashboard.CreateSheet and Dashboard.DeleteSheet: neither resets the name
  input or closes a modal; those are interface state. The page's initial
  list `['default']` is not the server's, which starts empty, so
  `Dashboard.ViewMirrorsRegistry` requires the lists to agree before the
  request.
- Dashboard.SortDesc: the sort is stable, but no lemma states that;
  `Array.prototype.sort` compares records by `new Date(b.date) - new
  Date(a.date)`, and the model compares the date strings, which agree on
  `YYYY-MM-DD` dates (`Dashboard.RecentChronological`).
- `console` logging, `alert`, and the reload of the lists after an import:
  these are I/O.
- The `sheet_name` column is not part of the schema, and expense and income
  forms' own submission code is interface; both are outside this model.

## Findings

| source | as written | input that shows it | evidently intended | confidence | as-written member | corrected member |
|---|---|---|---|---|---|---|
| pages/api/sheets.js:1-4 | imports `initializeDatabase` from `utils/db.js`, which declares it without `export`, so the handler's first statement throws and every request ends in an error | `POST /api/sheets` with body `{ "name": "trip" }` on an empty registry | the duplicate check, the insert, the listing and the cascade the handler's body goes on to describe | not executed | Api.SheetsAsWritten, Api.SheetsAsWrittenCannotCreate | Api.Sheets |
| pages/index.js:405 | the delete request is ``fetch(`/api/sheets?name=${sheetToDelete}`)``, with the name not encoded, so `&`, `#` and `+` in a name change what the server reads | deleting the sheet `R&D` while a sheet `R` exists: the server deletes `R` and keeps `R&D`, the page drops `R&D` and keeps `R` | the name passed through `encodeURIComponent`, so the server deletes the sheet the page drops | not executed | Dashboard.DeleteAmpersandDiverges | Dashboard.ViewMirrorsRegistry |
