# Expense ledger — a verified model

This project models the expense ledger: a table of income and expense records.

- **Server.** The Flask server (`app.py`) validates and stores records, lists them, deletes them and computes statistics.
- **Client.** The browser client (`static/js/app.js`) recomputes the same figures from the list it fetches:
  - the dashboard totals;
  - the five most recent transactions;
  - the filtered table;
  - the per-category doughnut chart and breakdown.

The model proves what each of these computes. It also proves that the client's figures equal the server's when the client works on the server's listing. That holds for every category whose name is not the name of an `Object.prototype` member (see `Client.GroupByCategory` under "## Left out").

Modules, one per file:

- `Wrappers` (`wrappers.dfy`): the `Option` and `Result` types.
- `Digits` (`digits.dfy`): decimal digit strings and their values.
- `Sequences` (`sequences.dfy`): filtering, summing, reversing and a generic stable insertion sort over a comparison, with their lemmas.
- `PyText` (`pytext.dfy`): Python's `str.strip()` and `float()` on a string, as the server's validation uses them. The two trim different sets: `strip()` removes every whitespace character, while `float()` keeps the separators U+001C to U+001F and so rejects text that carries them.
- `Ledger` (`ledger.dfy`): the shared data model.
  - `Record` is one row of the table.
  - `LexLess` is text order, which is SQLite's default collation.
  - `DateIdLe` and its strict form `ListedBefore` order rows by date, then id.
  - `Total`, `OfKind` and `InCategory` are per-type and per-category sums.
  - `GroupTotals` is the per-category fold that both `GROUP BY category` and the client's `categoryData` loop compute.
- `Dates` (`dates.dfy`): on `YYYY-MM-DD` text, text order is calendar order. It reads the date fields with `Digits`.
- `Server` (`server.dfy`):
  - request validation (`Validate`);
  - SQLite's rowid assignment (`NextRowId`);
  - the statistics query (`StatisticsOf`);
  - the listing (`Listing`);
  - the class `ExpenseTable`, which holds the `expenses` table as a sequence of records and has one method per route.
- `Client` (`client.dfy`): the client's computations, and the lemma tying them to the server.

Amounts are exact `real` numbers, not binary floats. Dates are strings.

### Id reuse

Ids are not kept unique over the table's history. The key is a plain `INTEGER PRIMARY KEY` (models.py:9), so SQLite gives a new row one more than the largest id in use. If the newest row is deleted, the next insert gets its id again. `Server.DeleteUndoesAdd` proves this. The model states only what the code guarantees: ids are unique among the rows present at any moment.

## Model

| member | source | states |
|---|---|---|
| Server.MessageDistinct | app.py:64-79 | The three refusals carry three different `error` texts. |
| Server.Validate | app.py:62-79 | "Invalid JSON" exactly when the body is absent, unparseable, falsy or `{}`. On success: the description is non-empty and is the given one stripped; the amount is what `float()` makes of the given amount; the date is the given string; category and type are taken as given, defaulting to "Other" and "expense" only when the key is absent. |
| Server.ValidateMissingFields | app.py:66-74 | For a non-empty body, "Missing required fields" exactly when the description is absent or all whitespace, or the amount or the date is absent or null. |
| Server.ValidateInvalidAmount | app.py:76-79 | "Invalid amount" exactly when every required field is present but `float()` rejects the amount. |
| Server.AmountAccepted | app.py:73-83 | Any amount `float()` accepts is stored as that value, including zero and negatives: there is no sign check. |
| PyText.StripEmptyIffAllSpace | app.py:66 | The stripped description is empty exactly when the given one is all whitespace. |
| PyText.StripIdempotent | app.py:66 | Stripping an already stripped description changes nothing. |
| PyText.ParseCentsDigits | app.py:77 | `float()` reads a decimal with two fraction digits back as exactly that number of hundredths. |
| PyText.ParseMinusValue | app.py:77 | A leading minus on a decimal makes `float()` return the negated value, so negative amounts given as text pass. This general lemma is the model's only statement about negative amounts given as text. |
| PyText.FloatTrimPadding | app.py:77 | `float()` sees past exactly the surrounding whitespace it trims: every whitespace character except U+001C to U+001F. |
| PyText.ParseFloatJunk | app.py:76-79 | For every non-empty run of digits followed by an ASCII character that is not a digit, a point, an exponent mark, an underscore or whitespace that `float()` trims, `float()` rejects the text, whatever follows. U+001C to U+001F count as such characters, so `"12\u001c"` is rejected. |
| Server.NextRowId | app.py:81-84 | The id of an inserted row is larger than every id in use, and at least 1 when the ids in use are positive. |
| Server.WithoutId | app.py:90 | Deleting by id keeps exactly the rows with another id, and no copies of anything. |
| Server.DeleteIdempotent | app.py:88-91 | Deleting the same id twice gives the same table as deleting it once. |
| Server.DeleteCount | app.py:90 | With unique ids, a delete removes exactly one row when the id is in use and none otherwise. |
| Server.DeleteUndoesAdd | app.py:81-90 | Deleting the row just added restores the table, and the next insert gets the deleted id again. |
| Server.StatisticsOf | app.py:101-103 | The balance is income minus expenses. |
| Server.StatisticsOfNone | app.py:101-106 | A type with no rows totals 0, and with no expense rows `by_category` is empty. |
| Server.StatisticsCategories | app.py:106 | `by_category` has a key for exactly the categories that occur among expense rows. |
| Server.StatisticsSnoc | app.py:101-106 | One more row adds its amount to its own type's total only. It adds to its category's total only when it is an expense, so income rows never reach `by_category`. |
| Server.StatisticsPermutation | app.py:101-112 | The statistics do not depend on the order of the rows. |
| Server.ByCategoryPartition | app.py:102-106 | The category totals, summed in any order of the categories, equal the expense total. |
| Server.Listing | app.py:57 | The listing is a permutation of the table, sorted by `(date, id)`. |
| Server.ListingOrder | app.py:57 | With unique ids, every stored row is listed exactly once, in strictly increasing `(date, id)` order. |
| Server.ExpenseTable.GetExpenses | app.py:55-58 | Returns every stored row exactly once, ordered by date and then by id. |
| Server.ExpenseTable.AddExpense | app.py:60-86 | A refused request returns the validation error and leaves the table unchanged. An accepted one appends exactly one row, with an id no current row has, and returns that row. Ids stay unique and positive. |
| Server.ExpenseTable.DeleteExpense | app.py:88-91 | Removes the rows with that id and nothing else, and answers with the id whether or not a row had it. |
| Server.ExpenseTable.DeleteAllExpenses | app.py:93-96 | Leaves the table empty and answers `deleted_all: true`. |
| Server.ExpenseTable.GetStatistics | app.py:98-112 | Returns the statistics of the current table, whose balance is income minus expenses. |
| Ledger.GroupTotalsKeys | app.py:106 | The grouped totals have a key for exactly the categories present. |
| Ledger.LookupGroupTotals | app.py:106 | Each category's grouped total is the sum of that category's amounts, and 0 for a category that is absent. |
| Ledger.GroupTotalsPermutation | app.py:106 | The grouped totals do not depend on the order of the rows. |
| Ledger.GroupTotalsPartition | app.py:106 | The grouped totals, summed over the categories in any order, equal the total of all amounts. |
| Ledger.DateIdLeIsTotalPreorder | app.py:57 | `ORDER BY date, id` compares any two rows and is transitive. |
| Dates.IsoDateOrder | static/js/app.js:235 | On `YYYY-MM-DD` dates, text order (the server's) is calendar order (the order of the client's `Date` values). |
| Client.UpdateDashboard | static/js/app.js:165-173 | The balance is income minus expenses, and all three are 0 on an empty list. |
| Client.DashboardSnoc | static/js/app.js:165-171 | One more record moves only the total of its own type, by its amount. |
| Client.RecentTransactions | static/js/app.js:182 | The recent list holds `min(5, n)` records: the last ones of the list, last first. |
| Client.DisplayTransactions | static/js/app.js:182-187 | The placeholder is shown exactly when the list is empty. Otherwise 1 to 5 recent records are shown. |
| Client.RecentAreLatest | static/js/app.js:182 | Over the server's listing, the panel shows the latest records in `(date, id)` order, latest first. Every record it leaves out comes before every record it shows. |
| Client.FilterExpensesList | static/js/app.js:227-236 | The table holds exactly the records both filters match, each as often as in the list, with non-increasing dates. |
| Client.FilteredMembers | static/js/app.js:231-234 | A record is in the table exactly when it is in the list and matches both filters. An empty filter matches everything. |
| Client.FilteredNewestFirst | static/js/app.js:235 | For `YYYY-MM-DD` dates, the table is newest first by the calendar. |
| Client.NoFilterShowsAll | static/js/app.js:231-235 | With both filters empty, the table is a reordering of the whole list. |
| Client.GroupByCategory | static/js/app.js:284-286 | The `categoryData` loop computes the per-category totals. Its keys are listed once each, and are exactly the map's keys. This holds for ordinary category names; names of `Object.prototype` members are listed under "## Left out". |
| Client.CollectCategoryData | static/js/app.js:281-286 | The chart's and the breakdown's `categoryData` holds the per-category totals of the expense records only. |
| Client.GroupTotalsMeaning | static/js/app.js:344-349 | `categoryData` has a key for exactly the expense categories, each mapped to that category's expense total. |
| Client.ValuesSum | static/js/app.js:290 | The sum of `Object.values` in key order equals the sum of the entries' totals. |
| Client.CategoryDataSum | static/js/app.js:351-356 | The values of `categoryData` add up to the dashboard's expense total. |
| Client.CategorySlices | static/js/app.js:289-290 | The chart's labels and data form one slice per expense category, sized by its expense total. |
| Client.UpdateCategoryChart | static/js/app.js:278-302 | One slice per expense category, sized by its total. The slices add up to the expense total. Colours follow the fixed palette, and there are none past the sixth slice. |
| Client.EntriesMembers | static/js/app.js:358 | `Object.entries` holds exactly the listed keys, each with its value. |
| Client.SortedEntriesMembers | static/js/app.js:358-359 | Sorting the entries keeps exactly the same entries. |
| Client.SortedEntriesOrder | static/js/app.js:358-359 | The sorted entries name each category once, largest total first. |
| Client.UpdateCategoryBreakdown | static/js/app.js:342-359 | Shows "no data" exactly when there are no expense records. Otherwise the entries are exactly the expense categories with their totals, each once, largest first, and the grand total is the expense total. |
| Client.SubmittedRefused | static/js/app.js:100-106 | When the form's description is blank or its amount is `NaN` (posted as `null`), the server answers "Missing required fields". |
| Client.SubmittedStored | static/js/app.js:100-106 | Any other form is accepted, an empty date included. It is stored with the description stripped and the other fields as typed. |
| Client.ClientAgreesWithServer | static/js/app.js:165-173 | Computed from the server's listing, the dashboard's income, expenses and balance are the server's statistics, and the per-category totals are the server's `by_category`. The per-category part is about the grouping as modelled, which differs from the browser's for the categories named under `Client.GroupByCategory` in "## Left out". |
| Sequences.SortBySorted | static/js/app.js:235 | Sorting by a total preorder gives a sorted sequence; `SortBy` itself keeps the multiset. |

## Left out

- Flask wiring, CORS, templates, the health route, HTTP status codes and `app.run`. Only the outcome kinds are modelled: the stored row, the three error messages, and the delete answers.
- SQLite sessions and connections (`get_db`, `query_db`, `execute_db`, `close_connection`). The table is a sequence held by `Server.ExpenseTable`, and a failing database is not modelled.
- SQLite column affinity. The description, category and type columns have TEXT affinity and keep text as text. The `date` column is declared `DATE`, which has NUMERIC affinity: a date text that reads as a number is stored as a number, which sorts before every text. The model keeps every date as text.
- Binary floating point, in both Python and JavaScript. Amounts are exact reals, so rounding in sums, `toFixed` in `formatCurrency` and the percentage rounding are not modelled.
- ParseFloat: models `float()` on decimal literals only. `inf`, `nan`, `infinity`, underscores between digits and non-ASCII digits are treated as rejected, but Python accepts them.
- Non-string field values are excluded by `Server.WellTyped`. A description that is not a string, or a truthy body that is not an object, makes the handler raise. A `null` category or type violates the NOT NULL constraint. A number or boolean as category, type or date is accepted and stored by the server, as text in the TEXT columns and as a number in the `date` column. The model covers string values for these fields only.
- `parseFloat` in the browser is not modelled. Its result is a parameter of `Client.SubmittedRefused` and `Client.SubmittedStored`: a number, or `NaN`, which is posted as `null`. `Infinity` cannot be represented.
- Client.GroupByCategory: reads a missing category as 0, as `categoryData[k] || 0` does for ordinary names. `categoryData` is a plain object, so for a category named like an `Object.prototype` member the browser behaves differently. For `constructor`, `toString`, `valueOf`, `hasOwnProperty` and the like, the first addition reads the inherited function and the total becomes a string. For `__proto__`, the assignment is ignored and those expenses drop out of the chart and the breakdown. The server's `GROUP BY` has neither effect, so for such categories the client's chart and breakdown do not match `by_category`. The model does not cover these names.
- JavaScript's `Object.keys` order: keys that look like array indices come first. The model promises only that the labels are distinct and are exactly the expense categories, not their order.
- `Sequences.SortBy` is a stable insertion sort. Stability is not proved, so nothing is claimed about the order of rows that compare equal.
- Row order inside `by_category`. It is a map keyed by category; SQLite's order of the grouped rows is left open.
- Server.ExpenseTable.DeleteExpense: Flask's `<int:>` converter has no upper bound. An id of 2^63 or more makes the sqlite3 module raise `OverflowError` when it binds the parameter, and the request fails with a server error. The model deletes nothing and answers with the id.
- Server.ToFloat: a JSON integer beyond the range of a double makes `float(amount)` raise `OverflowError`, which `except ValueError` does not catch, so the request fails with a server error. The model reads every number as itself, so `Server.Validate` and `Server.ExpenseTable.AddExpense` store such an amount.
- Rowid overflow: SQLite picks a random unused id once the largest id reaches 2^63 - 1, and ids here are unbounded.
- Calendar validity of dates. `Dates.IsoDate` checks the shape only, and dates that are not `YYYY-MM-DD` are compared as text. For those, `new Date` in the browser may give `NaN`, which makes the comparator inconsistent.
- The monthly chart (`updateMonthlyChart`): it depends on locale and time zone.
- DOM rendering, `fetch`, `localStorage`, themes, currency symbols, `confirm`, `setTimeout` and notifications.
- `init_db.py` and `config.py`: sample data and environment lookup. They are not part of this model.
