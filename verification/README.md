# Finance tracker transaction logic in Dafny

This project models the transaction logic of a single-page personal finance
tracker. The page keeps a list of income and expense records, newest first,
and mirrors that list in the browser's local storage. On top of the list it
offers:

- a summary of income, expenses and balance;
- a form validator that lists every problem with a new record;
- a search and category filter for the transactions page;
- a per-category breakdown of spending;
- a CSV export.

Modules follow the pieces of the program:

- `Transactions`: the records and the store, meaning the page's list plus the copy that storage holds. It has load, save, add and delete.
- `Statistics`: income, expenses and balance.
- `Validation`: the add form's checks and their messages.
- `Views`: the search and category filter.
- `Breakdown`: the per-category expense totals, built by a loop as the page builds them.
- `CsvExport`: the export rows and the text. It also has a reader for that text, used to state what the export preserves.
- `Text` and `Seqs`: the string and list primitives the page relies on, namely `trim`, `toLowerCase`, `includes`, `join`, number-to-text and `filter`.
- `Scenarios`: two concrete runs of the store.

Choices made in the model:

- Amounts are integers (whole currency units).
- The record's date and creation time are kept as the text the page stores.
- The random id and the current time are parameters.
- Parsing a date into an instant is a parameter `parse`, and so is the last millisecond of the current day.

## Model

| member | source | states |
|---|---|---|
| Transactions.Load | script.js:52-56 | Loading yields the stored list, or the empty list when nothing was ever stored; it leaves storage alone, and a store whose list already matches storage is unchanged by it |
| Transactions.Save | script.js:58-60 | Storage is overwritten with the page's list, so a load right after returns exactly that list |
| Transactions.Add | script.js:62-75 | The new record is at index 0 with the trimmed description and the given id, amount, date, category and time; the old list follows unchanged, the length grows by one, storage holds the new list, and ids stay unique when the new id is fresh |
| Transactions.FindIndex | script.js:78 | The result is -1 exactly when no record has the id, and otherwise the first position holding it |
| Transactions.Delete | script.js:77-85 | Reports success exactly when some record has the id; on failure the list and storage are untouched; on success exactly the first matching record is removed, the others keep their order and storage holds the new list; with unique ids no record with that id remains |
| Transactions.ValidPreserved | script.js:58-85 | Unique ids with storage in step are kept by add with a fresh id and by delete |
| Transactions.LoadEstablishesValid | script.js:52-56 | A load, from any store, makes the page's list what storage holds, so unique stored ids give a store with unique ids in step with storage |
| Transactions.DeleteFront | script.js:77-85 | Deleting the id of the first record removes just that record and saves the rest |
| Transactions.DeleteUndoesAdd | script.js:62-85 | Deleting the id just added restores the previous list, and storage then holds that list |
| Statistics.Total | script.js:89-92 | The left-to-right sum of the amounts is what the positive amounts bring in less the magnitudes of the negative ones |
| Statistics.IncomeIsEarned | script.js:87-89 | Totalling the records kept by `amount > 0` gives the positive amounts added record by record |
| Statistics.ExpensesAreSpent | script.js:90-92 | Totalling the records kept by `amount < 0` gives the negated sum of the negative amounts' magnitudes |
| Statistics.GetTransactionStats | script.js:87-98 | Income is the sum of the positive amounts and expenses the sum of the magnitudes of the negative ones, both never negative; the balance is income minus expenses and equals the sum of all amounts; the empty list gives all zeros |
| Statistics.IncomeAndExpensesCoverTotal | script.js:88-95 | The positive amounts and the negative amounts together add up to the sum of every amount |
| Statistics.StatsOfOne | script.js:87-98 | A single positive record is all income and a single negative one all expense |
| Statistics.ZeroAmountIgnored | script.js:88-93 | Inserting a zero-amount record anywhere leaves income, expenses and balance unchanged |
| Validation.Validate | script.js:100-129 | Problems come in the fixed order description, amount, date, category, future date, each at most once; each is listed exactly when its condition holds; the list is empty exactly when every field is acceptable |
| Validation.ValidateTransactionForm | script.js:100-129 | One message per problem, in the same order, with the page's wording |
| Validation.InOrderDeterminedByMembers | script.js:100-129 | Two problem lists in checking order with the same members are equal, so the result is fixed by which checks fail |
| Validation.AllEmptyInput | script.js:103-126 | An empty form, with the amount as empty text or as the number zero, yields exactly the four required-field problems and not the future-date one |
| Validation.BlankDescriptionRejected | script.js:103-105 | A description of whitespace only is reported as missing |
| Validation.ZeroAmountsRejected | script.js:107-109 | The empty text, the text "0" and the number zero are each reported as a zero amount |
| Validation.DateOnlyInput | script.js:119-124 | With the other fields valid and the date read as midnight UTC, on a page between UTC-12 and UTC+14: today's date always passes, and tomorrow's is reported as in the future exactly when the zone is not behind UTC |
| Validation.FutureDateAlone | script.js:119-126 | With the other fields valid, a date after the end of today yields exactly the future-date problem, and a date up to the end of today yields none |
| Validation.ZeroWithDecimalsPasses | script.js:107-109 | The amount text "0.00" passes the amount check |
| Seqs.Filter | script.js:221-228 | Every kept element passes the test, and no more elements are kept than the list holds |
| Seqs.FilterIsSubsequence | script.js:221-228 | The kept elements are a subsequence of the list, in their original order |
| Seqs.FilterComplete | script.js:221-228 | An element that passes the test is kept exactly as often as it occurs in the list |
| Seqs.FilterAppend | script.js:88-93 | Filtering a concatenation is concatenating the filtered parts |
| Views.Matches | script.js:222-226 | A record matches exactly when the search term occurs at some offset of its lower-cased description or of its lower-cased category, and its category equals the chosen one when one is chosen |
| Views.FilterTransactions | script.js:217-231 | The shown records are an order-preserving subsequence; each contains the lower-cased search term in its lower-cased description or category and has the chosen category when one is set; every record meeting both is shown as often as it occurs |
| Views.NoFilterShowsAll | script.js:218-228 | An empty search with no category chosen shows the whole list |
| Views.FilterIdempotent | script.js:221-228 | Filtering the shown records again by the same criteria changes nothing |
| Breakdown.FirstSeen | script.js:312-316 | The category keys are distinct and are exactly the categories met |
| Breakdown.FirstSeenOrder | script.js:312-322 | The keys come in the order of their first occurrences: an earlier key first occurs at an earlier position than a later key |
| Breakdown.Accumulate | script.js:315 | Adding to a category keeps the key order and appends the category only when it is new |
| Breakdown.AccumulateLookup | script.js:315 | Adding an amount to a category changes that category's total by the amount and no other total |
| Breakdown.AccumulateSum | script.js:315 | Adding an amount to a category raises the sum of all totals by that amount |
| Breakdown.CategoryTotals | script.js:303-316 | One entry per category of the negative-amount records, in first-seen order; each entry is the sum of the magnitudes of that category's expenses and is positive; the entries add up to the summary's expenses figure |
| Breakdown.GroupedAll | script.js:303-316 | Entries grouped over all the expense records are the breakdown of the whole list: first-seen category order, each category's spend, positive totals adding up to the expenses figure |
| Breakdown.SpendOfExpenses | script.js:303 | Dropping the non-negative records first does not change any category's spend |
| CsvExport.Fields | script.js:446-452 | Description, amount, date and category, then "Income" exactly when the amount is positive and "Expense" otherwise, zero included; the amount is the numeral of its value with no leading zero, and a minus sign only for a negative amount |
| CsvExport.Rows | script.js:445-454 | The header, then one row per record in list order |
| CsvExport.ExportToCsv | script.js:439-456 | Nothing is exported exactly when the list is empty |
| CsvExport.RowTextCons | script.js:455 | A row's text is its first field in double quotes, a comma, and the text of the remaining fields |
| CsvExport.RenderCons | script.js:454-456 | The export text is the first row's text, then a newline and the text of the other rows when there are any |
| CsvExport.ExportReadsBack | script.js:445-456 | When no description, category or date holds a double quote, the exported text reads back as the header and one row per record in order, field by field |
| CsvExport.ReadRowsQuoteFree | script.js:455 | Every row the reader recovers has at least one field and no field holding a double quote, since a quoted field ends at the first quote |
| CsvExport.QuotedFieldBreaksReadBack | script.js:446-456 | When any record's description, date or category holds a double quote, the export is written unescaped and no longer reads back as its rows |
| CsvExport.ExportReadsBackExactly | script.js:445-456 | A non-empty export reads back as its rows exactly when no description, date or category holds a double quote |
| CsvExport.QuoteInFieldIsNotEscaped | script.js:455 | An example: the one-field text for `5" screen` does not read back at all, because the field ends at its inner quote |
| Text.Trim | script.js:65 | The trimmed text sits in the original surrounded only by whitespace, neither starts nor ends with whitespace, and is empty exactly when the original is all whitespace |
| Text.TrimIdempotent | script.js:65 | Trimming twice is trimming once |
| Text.ToLower | script.js:218-223 | Same length; each ASCII capital becomes its small letter, every other character is kept, and no ASCII capital is left |
| Text.Contains | script.js:222-223 | True exactly when the term occurs at some offset |
| Text.Join | script.js:455-456 | No parts join to the empty text, and otherwise the text starts with the first part; the full layout is stated through `CsvExport.RowTextCons`, `CsvExport.RenderCons` and `CsvExport.ExportReadsBack` |
| Text.JoinLength | script.js:455-456 | The joined text is as long as the parts plus one separator between each neighbouring pair |
| Text.IntToString | script.js:448 | The numeral is non-empty and denotes the integer: digits with no leading zero for a non-negative one, a minus sign and digits starting with a non-zero digit for a negative one |
| Scenarios.SalaryOnly | script.js:62-98 | A salary of 5000 on a fresh store gives income 5000, expenses 0 and balance 5000 |
| Scenarios.RentThenSalary | script.js:62-98 | Rent of 1200 and then a salary of 5000 list the salary first and give a balance of 3800 |

## Left out

- Local storage and JSON: storage is modelled as an optional copy of the list. Serialisation, quota errors and malformed stored text are browser and library behaviour.
- `generateId` and `new Date().toISOString()`: random and clock values. The id and the creation time are parameters of `Add`, and `Add` does not require a fresh id, just as the page does not check for one.
- Amounts: `parseFloat`, NaN and floating-point sums are not modelled. Amounts are integers, and the CSV amount is the decimal numeral of an integer. JavaScript writes numbers of magnitude 1e21 and above in exponent form ("1e+21"); the model always writes plain digits.
- Dates: `new Date(date)` and the end-of-day `setHours` are parameters of `Validate`, namely `parse` and `endOfToday`. The browser's time zone is a parameter of `Validation.DateOnlyInput`, which states what a date-only text, read as midnight UTC, does on either side of UTC.
- Validation.FutureDateAlone: states its result for the parsed instant, not for the date text. Because `parse` is a parameter, the model cannot name today's date itself; the page always accepts it, and `Validation.DateOnlyInput` states that under the midnight-UTC reading.
- Text.ToLower: maps only the ASCII capitals. Full Unicode case mapping is a host library table.
- Breakdown.FirstSeen: gives insertion order for the object's keys, with every category a plain key. The category is the raw value of the form's category field (script.js:149), checked only for being non-empty (script.js:115). JavaScript lists integer-like keys such as "42" first, in numeric order, and treats `__proto__` specially. For a name the object inherits, such as `toString` or `constructor`, `categoryTotals[category] || 0` (script.js:315) reads the inherited function, so that category's "total" becomes a string concatenation and not a sum. None of this is modelled.
- The canvas bar chart, `formatCurrency`, `formatDate`, `showMessage`, the rendered table HTML, the Blob download, `confirm`, the event listeners and the hash routing are display and browser glue with no data logic.
- The amount check as written lets "0.00" and similar spellings of zero through, because it compares text. `Validation.ZeroWithDecimalsPasses` records this; the model keeps the page's behaviour.
- The CSV export does not escape double quotes inside fields. `CsvExport.ExportReadsBackExactly` states that the export reads back exactly when no field holds one.
