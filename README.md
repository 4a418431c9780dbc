# Personal finance manager — verified model

`finance_manager.py` is a desktop application: a window with three pages in
front of a MySQL database that has two tables. `transactions` holds one row
per income or expense entry, and `categories` holds the category names offered
for each kind. This project models what the application does with its data and
proves properties about that model. The screens, charts and database connection
are not modelled; see "Left out".

What is modelled:

- **Dates** (`calendar.dfy`, module `Calendar`). Every date the user types is
  checked with `datetime.strptime(text, '%Y-%m-%d')`. `ParseDate` models that
  check exactly:
  - a four-digit year;
  - a month of one or two digits;
  - a day of one or two digits, or a space followed by one digit;
  - the whole text must be consumed;
  - the result must be a real calendar date in year 1 or later (leap years
    included).

  It is proved sound and complete with respect to the set of spellings of a
  date (`Spells`), and it inverts the canonical `YYYY-MM-DD` rendering.
- **Text helpers** (`text.dfy`, module `Text`):
  - Python's `str.strip()` on whitespace;
  - the code-unit order that `ORDER BY name` yields;
  - the insertion that builds the sorted name list.
- **Records** (`records.dfy`, module `Records`). The two row types and the
  column limits:
  - `VARCHAR(50)` category name;
  - `DECIMAL(10,2)` amount, kept as integer cents;
  - `VARCHAR(255)` description.
- **Transaction listing** (`query.dfy`, module `TransactionQuery`).
  `load_transactions` builds a statement from the type filter and the two date
  bounds, one condition and one parameter per filter that is set. The model
  proves that the statement's WHERE clause keeps exactly the rows the filter
  admits. Running the statement gives those rows, latest date first.
- **Transaction writes** (`ledger.dfy`, module `TransactionStore`).
  - `add_transaction` and `save_changes` share the three form checks; the model
    adds the column limits MySQL enforces.
  - The class `TransactionTable` keeps the table and the AUTO_INCREMENT
    counter.
  - Ids stay unique and every stored row passed the checks.
- **Categories** (`registry.dfy`, module `CategoryRegistry`).
  - Seeding the fourteen default categories: any insert that the UNIQUE name
    constraint rejects is skipped.
  - `save_category`: strip, refuse an empty name, refuse a duplicate name.
  - `update_categories`: the names of one kind in ascending order, with the
    first one pre-selected.
  - The class `CategoryTable` keeps the table.
- **Reports** (`reports.dfy`, module `Reports`).
  - `generate_report` validates the bounds, then dispatches on the report
    type.
  - The summary gives income, expenses and balance, with the pie chart drawn
    exactly when one total is positive.
  - As written, a summary over a period fails: its statement text has two
    WHERE keywords (see "Findings"). `GenerateReport` models that;
    `GenerateReportIntended` uses the corrected summary.
  - The category report gives per-category sums of one kind, in descending
    order of sum.
  - The per-category sums add up to the summary's total for that kind.
- **Worked cases** (`scenarios.dfy`, module `Scenarios`). Three sample rows
  with their summary, expense breakdown and one-day listing; accepted and
  refused date spellings; categories after seeding.

Modelling choices:

- An amount is a whole number of cents. The form's `DoubleVar` is taken to hold
  a value with at most two decimals.
- SQL `SUM` over no rows is NULL. The code turns NULL into 0 with `or 0`;
  `SqlSum` and `OrZero` model both steps.
- `ORDER BY` does not fix the order of rows with equal keys. The listing and the
  category report are therefore specified by relations:
  - the result is a permutation of the selected rows (or groups);
  - it is sorted by the key.

  `LatestFirst` and `Breakdown` compute one such order.
- The store compares a date bound's text with the `DATE` column. The model reads
  the bound as the calendar date that `strptime` parsed.
- MySQL's refusal of a statement is a foreign behaviour. It is named by one
  predicate, `Reports.MySqlRefuses`: a SELECT whose text has " WHERE " at two
  places is a syntax error. The as-written summary fails exactly when that
  predicate holds of a statement it builds.
- **Category name uniqueness.** The table's UNIQUE constraint is on `name`
  alone (`finance_manager.py:91`), not on the pair of name and kind. So a name
  cannot be reused for the other kind, and seeding stores thirteen defaults:
  the second `Other` is rejected.
- **Editing a missing id.** `save_changes` issues an `UPDATE ... WHERE id = %s`
  and does not check the row count. Editing an id that no row has succeeds and
  changes nothing; there is no not-found error.

## Model

| member | source | states |
|---|---|---|
| Calendar.ParseDate | finance_manager.py:239-243 | no contract beyond a valid date; `ParseDateSound` and `ParseDateComplete` state both directions of what `strptime('%Y-%m-%d')` accepts (also used at 348, 358, 456, 552, 554) |
| Calendar.ParseDateSound | finance_manager.py:239-243 | every text `strptime('%Y-%m-%d')` accepts is a spelling of the date it returns: four digits, an accepted month form, an accepted day form, joined by '-' |
| Calendar.ParseDateComplete | finance_manager.py:239-243 | every spelling of a valid date is accepted and yields exactly that date |
| Calendar.ParseIsoText | finance_manager.py:239-243 | the canonical `YYYY-MM-DD` text of any valid date parses back to that date |
| Calendar.DateKeyOrder | finance_manager.py:368 | the date order used by `ORDER BY date` agrees with the integer key `year*10000+month*100+day` in both directions |
| Calendar.FourDigitsOfYearField | finance_manager.py:239-243 | reading a four-digit year and rendering it again gives back the same four characters |
| Calendar.YearFieldOfFourDigits | finance_manager.py:239-243 | rendering a year as four digits and reading it back gives the year |
| Calendar.MonthFieldOfForm | finance_manager.py:239-243 | every accepted spelling of a month (with or without a leading zero) reads as that month |
| Calendar.DayFieldOfForm | finance_manager.py:239-243 | every accepted spelling of a day (leading zero, leading space, or none) reads as that day |
| Text.Strip | finance_manager.py:202 | no contract of its own; `StripKeepsInfix`, `StripEmptyIff` and `StripIdempotent` state it |
| Text.StripKeepsInfix | finance_manager.py:202 | `strip()` returns a contiguous infix of the input with only whitespace cut off on each side |
| Text.StripEmptyIff | finance_manager.py:202-205 | the stripped name is empty exactly when the input is all whitespace |
| Text.StripIdempotent | finance_manager.py:202 | the stripped name neither starts nor ends with whitespace, and stripping it again changes nothing |
| Text.Join | finance_manager.py:365-366 | `" AND ".join(conditions)`: a single condition is kept as is, and every character of the joined text comes from a condition or from the separator (also at 584 and 653); the meaning of the joined clause is stated over its condition list by `BuiltConditionsMean` |
| Text.LexLessTransitive | finance_manager.py:178 | the name order of `ORDER BY name` is transitive |
| Text.LexLessTotal | finance_manager.py:178 | any two different names are ordered one way or the other |
| Text.AscendingUnique | finance_manager.py:178-179 | two strictly ascending name lists with the same members are equal, so the sorted listing is determined |
| Text.InsertAscending | finance_manager.py:178-179 | inserting a new name into an ascending list keeps it strictly ascending and adds exactly that name |
| Sorting.SortDesc | finance_manager.py:655 | the result is sorted by descending key and is a permutation of the input |
| Sorting.DistinctPermutation | finance_manager.py:655 | reordering a list without duplicates leaves it without duplicates |
| Records.KindNameRoundTrip | finance_manager.py:138-140 | the stored type text of a kind (`income`/`expense`) reads back as that kind |
| TransactionQuery.Matches | finance_manager.py:340-366 | no contract of its own; the meaning of the filter, to which `BuiltConditionsMean` ties the built conditions |
| TransactionQuery.ReadClause | finance_manager.py:340-366 | no contract of its own; reads one condition with its parameter; `ReadClauses` and `BuiltConditionsMean` state what the clauses select |
| TransactionQuery.ParseFilter | finance_manager.py:340-363 | a bad From bound is refused first, then a bad To bound; otherwise the filter keeps the selector, a given bound is the date `strptime` parsed from it, and an empty text means no bound |
| TransactionQuery.CollectConditions | finance_manager.py:338-363 | one condition and one parameter per filter that is set, in the order type, From, To; stops with the error of the first bad bound |
| TransactionQuery.BuildTransactionQuery | finance_manager.py:336-368 | the error cases are exactly `ParseFilter`'s; on success the statement's clauses, read with their parameters, keep exactly the rows the filter admits, and the SQL text is the SELECT, the WHERE clause when there are conditions, and `ORDER BY date DESC` |
| TransactionQuery.BuiltConditionsMean | finance_manager.py:340-366 | the conditions and parameters collected for an accepted filter express that filter |
| TransactionQuery.WhereIffConditions | finance_manager.py:365-366 | the statement contains a WHERE clause exactly when at least one condition was collected |
| TransactionQuery.SelectWhereAgrees | finance_manager.py:370-372 | evaluating clauses equivalent to a filter selects the same rows, in table order, as the filter |
| TransactionQuery.SelectWhere | finance_manager.py:370-372 | the store evaluating the WHERE clause: a row is returned exactly when it is stored and satisfies every clause, never more often than stored; `SelectWhereAgrees` ties it to the filter |
| TransactionQuery.Select | finance_manager.py:370-372 | a row is selected exactly when it is in the table and passes the filter; no row is selected more often than stored |
| TransactionQuery.LatestFirst | finance_manager.py:368 | the listing is a permutation of the selected rows with dates in descending order |
| TransactionQuery.ListingIdempotent | finance_manager.py:330-372 | listing a listing with the same filter keeps all of it |
| TransactionQuery.ListingAllIsTable | finance_manager.py:341-368 | with type "all" and no bounds the listing holds every row of the table |
| TransactionStore.Validate | finance_manager.py:231-243 | the checks in order: no category, then a non-positive amount, then a date `strptime` refuses; each error exactly in its case; otherwise the parsed date |
| TransactionStore.AcceptedInputs | finance_manager.py:231-243 | the form accepts exactly a non-empty category, a positive amount and a parsable date |
| TransactionStore.Entry | finance_manager.py:245-263 | a refused form gives its error; a value too wide for its column is a database error; otherwise the stored row holds the inputs and the parsed date |
| TransactionStore.Add | finance_manager.py:245-263 | an accepted entry is appended under the next id and nothing else changes; a refused one gives its error |
| TransactionStore.Update | finance_manager.py:445-476 | every row with the edited id takes the new values and every other row is unchanged; a refused form gives its error |
| TransactionStore.AddAndEditCheckAlike | finance_manager.py:231-243 | adding and editing refuse the same inputs with the same error |
| TransactionStore.UpdateMissingId | finance_manager.py:461-467 | editing an id that no row has leaves the table unchanged |
| TransactionStore.UpdateIdempotent | finance_manager.py:461-467 | saving the same edit twice gives the same table as saving it once |
| TransactionStore.UpdateChangesOneRow | finance_manager.py:461-467 | with unique ids, an edit changes at most one row and no row's id |
| TransactionStore.Replace | finance_manager.py:461-467 | the effect of `UPDATE transactions ... WHERE id = %s`: same length, every row with that id takes the new values and every other row is unchanged; `UpdateIdempotent` and `UpdateChangesOneRow` state its properties |
| TransactionStore.AddedIsListed | finance_manager.py:245-251 | a row just added appears in every listing whose filter it passes |
| TransactionStore.TransactionTable.AddTransaction | finance_manager.py:223-263 | on success the row is appended under the counter's id and the counter advances; on refusal table and counter are unchanged; ids stay unique |
| TransactionStore.TransactionTable.SaveChanges | finance_manager.py:445-476 | the table becomes `Update` of the old table; on refusal it is unchanged; the counter never moves; ids stay in place and at most one row changes |
| TransactionStore.TransactionTable.LoadTransactions | finance_manager.py:330-382 | refuses exactly the bad bounds with their error; otherwise the result is a date-descending permutation of the rows the filter admits |
| CategoryRegistry.Insert | finance_manager.py:91 | a name over 50 characters is a database error; a name already present is an integrity error whatever its kind; otherwise the row is appended |
| CategoryRegistry.InsertKeepsStored | finance_manager.py:89-93 | inserting keeps names unique and within the column width |
| CategoryRegistry.SeedStep | finance_manager.py:114-118 | no contract of its own; the lemmas below state what the loop built from it does |
| CategoryRegistry.SeedAll | finance_manager.py:114-118 | no contract of its own; `SeedAllStored`, `SeedAllExtends`, `SeedAllCovers`, `SeedAllPresent`, `SeedIdempotent` and `SeedFromEmpty` state it |
| CategoryRegistry.SeedAllStored | finance_manager.py:114-118 | seeding keeps names unique and within the column width |
| CategoryRegistry.SeedAllExtends | finance_manager.py:114-118 | seeding only appends rows |
| CategoryRegistry.SeedAllCovers | finance_manager.py:114-118 | after seeding, every default name that fits the column is present |
| CategoryRegistry.SeedAllPresent | finance_manager.py:114-118 | when every default name is present, seeding changes nothing |
| CategoryRegistry.SeedIdempotent | finance_manager.py:68-124 | running table creation and seeding a second time leaves the categories as they were |
| CategoryRegistry.SeedFromEmpty | finance_manager.py:97-118 | seeding an empty table stores the first thirteen defaults; the second `Other` is rejected by the UNIQUE name |
| CategoryRegistry.DefaultsFit | finance_manager.py:97-112 | every default name fits `VARCHAR(50)` |
| CategoryRegistry.AddCategory | finance_manager.py:201-219 | an all-whitespace name is refused as empty; a stripped name already present is "already exists"; one over 50 characters is a database error; otherwise the stripped name is appended with the chosen kind |
| CategoryRegistry.NameTakenForBothKinds | finance_manager.py:201-219 | once a name is added for one kind, adding it again for either kind is refused as already existing |
| CategoryRegistry.ListingDetermined | finance_manager.py:178-179 | the ascending listing of the names of a kind is unique |
| CategoryRegistry.AddedIsListed | finance_manager.py:209-215 | after adding, the refreshed list of that kind shows the new name and the other kind's list is unchanged |
| CategoryRegistry.CategoryTable.Seed | finance_manager.py:114-118 | the loop leaves the table equal to seeding the old table with all defaults, keeping names unique |
| CategoryRegistry.CategoryTable.SaveCategory | finance_manager.py:201-219 | the table becomes `AddCategory` of the old table on success, and is unchanged with its error otherwise |
| CategoryRegistry.CategoryTable.UpdateCategories | finance_manager.py:174-185 | the names of the chosen kind in strictly ascending order; something is selected exactly when the list is non-empty, and then it is the first name |
| Reports.SumCents | finance_manager.py:588-594 | no contract of its own; `SqlSum` and `CategorySumsTotal` state it is the SUM of the rows |
| Reports.OrZero | finance_manager.py:590-594 | no contract of its own; `SummaryReport` states that a side with no row totals 0 |
| Reports.SqlSum | finance_manager.py:588-594 | `SUM` is NULL exactly when no row passes, otherwise the sum of the passing rows |
| Reports.DateBoundConditions | finance_manager.py:575-582 | one date condition and one parameter per non-empty bound, From before To |
| Reports.BuildSummaryQueries | finance_manager.py:571-586 | the two statements are `SummaryQuery` of the income and the expense base query, the parameters one per non-empty bound |
| Reports.SummaryQuery | finance_manager.py:571-586 | no contract of its own; `SummaryQueryRefused` states what it builds: a statement MySQL refuses exactly when a bound is given |
| Reports.SecondWhere | finance_manager.py:571-586 | appending the bound clause to a query that already has WHERE puts WHERE at two positions |
| Reports.BaseAccepted | finance_manager.py:571-572 | a base sum query alone has " WHERE " at one place only, so MySQL accepts it |
| Reports.SummaryQueryRefused | finance_manager.py:571-586 | each summary statement has two " WHERE " keywords, and is refused, exactly when a From or To bound is given |
| Reports.MySqlRefuses | finance_manager.py:583-586 | no contract of its own; the one assumption about MySQL: a SELECT with " WHERE " at two places is refused |
| Reports.SummaryReportAsWritten | finance_manager.py:566-630 | derived from the statements it builds: a database error exactly when a bound is given, otherwise the totals of the whole table |
| Reports.SummaryReport | finance_manager.py:566-605 | income and expenses are the sums of the rows of that kind within the bounds; the balance is their difference |
| Reports.BuildCategoryQuery | finance_manager.py:632-655 | parameters: the kind, then each non-empty bound; the clauses keep exactly the rows of that kind within the bounds; the SQL ends with the grouping and descending order |
| Reports.DistinctCategories | finance_manager.py:655 | each category of the selected rows appears exactly once |
| Reports.Breakdown | finance_manager.py:632-662 | one group per category of the selected rows, each with the sum of its rows, in descending order of sum |
| Reports.BreakdownTotal | finance_manager.py:632-662 | the per-category sums add up to the sum of all selected rows |
| Reports.BreakdownMatchesSummary | finance_manager.py:566-662 | the category report of a kind adds up to the summary's total for that kind over the same bounds |
| Reports.BreakdownEmpty | finance_manager.py:657-660 | the category report is empty exactly when no row passes the filter |
| Reports.ReorderedNames | finance_manager.py:655 | reordering the groups keeps the same set of categories |
| Reports.ReportKindNamed | finance_manager.py:559-564 | `summary`, `income_categories` and `expense_categories` are recognised, each exactly as its report |
| Reports.ShowsPie | finance_manager.py:613-626 | no contract of its own; `PieIffData` states when it holds |
| Reports.SummaryShown | finance_manager.py:599-626 | the summary is shown with its totals, and the pie is drawn exactly when income or expenses is positive, otherwise the "no data" label |
| Reports.PieIffData | finance_manager.py:613-626 | with positive amounts, the pie is drawn exactly when some income or expense row lies in the period |
| Reports.CategoryReport | finance_manager.py:657-687 | the "no data" label exactly when no row of that type lies in the period, otherwise a non-empty breakdown of that type |
| Reports.GenerateReport | finance_manager.py:537-564 | a bad bound is refused with the date error before any report; `summary` with a bound ends in the database error, without one it shows the totals of the whole table; a category type gives `CategoryReport`; any other type shows nothing |
| Reports.GenerateReportIntended | finance_manager.py:537-564 | the intended dispatch: only a bad bound is an error, and `summary` shows the corrected totals of the period; every other report type agrees with `GenerateReport` |
| Reports.SummaryWithBoundFails | finance_manager.py:571-586 | with a From bound the summary and the report as written fail with a database error, while the intended report gives the bounded totals |
| Scenarios.SampleSummary | finance_manager.py:566-597 | the three sample rows give income 1000.00, expenses 55.50, balance 944.50 |
| Scenarios.SampleExpenseBreakdown | finance_manager.py:632-662 | the expense report of the sample rows is the single row (Food, 55.50) |
| Scenarios.BreakdownOfOneCategory | finance_manager.py:632-662 | when every selected row has one category, the report is that category with the whole sum |
| Scenarios.SampleOneDay | finance_manager.py:330-372 | From = To = 2024-01-06 lists exactly the one row of that day |
| Scenarios.RefusedDates | finance_manager.py:239-243 | month 13, a non-date, 29 February 2023 and year 0000 are refused |
| Scenarios.ShortMonthAndDay | finance_manager.py:239-243 | `2024-1-5` is accepted as 5 January 2024 |
| Scenarios.SpacePaddedDay | finance_manager.py:239-243 | `2024-01- 5` is accepted as 5 January 2024 |
| Scenarios.LeapDay | finance_manager.py:239-243 | 29 February 2024 is accepted |
| Scenarios.FoodTakenAfterSeeding | finance_manager.py:97-219 | after seeding, `Food` cannot be added as income, and `  Travel ` is added as `Travel` |

## Left out

- The tkinter window, its widgets, message boxes and the edit dialog's
  pre-filled values are user interface. The model returns the outcome each
  message box reports (an error value or the new table).
- The MySQL connection, `USE`, commits and cursors are left out. A failure to
  connect or to create the tables is not modelled. The tables are values held
  by the two classes.
- `delete_transaction` is a single `DELETE ... WHERE id` with a confirmation
  dialog; it is not modelled.
- `export_data` (CSV export) is file I/O and is not modelled.
- The matplotlib charts, percentages and the `$%.2f` formatting are drawing and
  formatting. A report records what is shown: the totals and whether the pie
  is drawn, or the category groups, or a "no data" label.
- Amounts are `DoubleVar` floats in the source. The model uses integer cents, so
  binary floating point, MySQL's rounding to two decimals and the `TclError` of
  a non-numeric amount are not modelled.
- The date fields' default of `datetime.now()` is a clock read. Every date is a
  parameter.
- `ParseDate`: Python's `\d` also matches non-ASCII decimal digits; the model
  accepts ASCII digits only.
- Collation is not modelled. MySQL compares names case-insensitively, both for
  UNIQUE and for `ORDER BY name`. The model uses exact equality and code-unit
  order.
- A failed insert still consumes an AUTO_INCREMENT value in MySQL. The model
  advances the counter only on success, so id gaps are not modelled.
- SQL text is modelled with the exact strings the code builds, but the
  whitespace inside the category query's triple-quoted text is normalised.
- `save_changes` edits the row selected in the list. Its id is a parameter.
- TransactionStore.Entry: the stored date is the one `strptime` parsed. This
  assumes that MySQL reads every spelling `strptime` accepts (`2024-1-5`,
  `2024-01- 5`) as that same `DATE`. If MySQL refuses a spelling, the source
  shows a database error on add or edit, and the model does not capture that.
  The same assumption is made for filter and report bounds.
- CategoryRegistry.SeedStep: the source's seed loop swallows only the
  duplicate-name IntegrityError, and any other MySQL error ends the loop. The
  model skips every refused default. The two agree for the fourteen defaults,
  none of which is too long for the column (`DefaultsFit`). The general
  `SeedAll*` lemmas describe the skipping loop.

## Findings

| source | as written | input that shows it | evidently intended | confidence | as-written member | corrected member |
|---|---|---|---|---|---|---|
| finance_manager.py:571-586 | each sum query already ends in `WHERE type = '...'`, and a non-empty bound appends `" WHERE " + ...`, so the query has two WHERE keywords and MySQL refuses it; the summary then shows a database error | report type `summary` with From = `2024-01-01` | the bound conditions joined with ` AND `, as in the category report (finance_manager.py:652-653) | not executed | Reports.SummaryReportAsWritten, Reports.GenerateReport, Reports.SummaryWithBoundFails | Reports.SummaryReport, Reports.GenerateReportIntended |
