# Personal finance ledger — a Dafny model

The system is a console ledger for household money, kept in SQLite. It has six tables:

- categories, tagged `income` or `expense`;
- subcategories filed under a category;
- planning periods ("Месяц" and the like), each with how many of it fit in a year;
- per-subcategory budget plans, with a history of amount changes;
- dated operations, each an income or an expense;
- reports over the operations: totals, per-category shares and monthly statistics.

It also has two pieces of menu logic:

- turning typed text into a subcategory when an operation is entered;
- seeding the default category tree into an empty database.

This project models that core as pure functions over an immutable `Store`. The store holds one `seq` per table, in rowid order. Every query, insert, update and delete becomes a function from store to result and new store. The contracts state what each call returns and what it changes. Lemmas relate the operations to each other:

- read-back after write;
- idempotence of the create calls;
- invariants kept: unique ids, one plan per subcategory, forecast equals amount times period count;
- joins containing exactly the rows whose references resolve;
- report totals that agree with the summary.

Files, one module each:

- `common.dfy`: generic helpers.
  - first-match lookup, filters;
  - the text comparison SQLite applies to `TEXT` columns;
  - an insertion sort by a total preorder.
- `ledger.dfy`: the record types, the store, and the unique-id invariant `Wf`.
- `categories.dfy`, `periods.dfy`, `plans.dfy`, `subcategories.dfy`, `operations.dfy`: one per manager class.
- `dates.dfy`: the date validation of `Operation.validate_date` and ISO date text.
- `reports.dfy`: the statistics of `main.py`.
- `app.dfy`: subcategory resolution and default seeding from `main.py`.

Environment inputs become parameters:

- **uuids**: a fresh id the caller supplies, with `Fresh(s, id)` saying the store does not use it;
- **console answers**: `Option`/`bool`/`string` parameters;
- **the clock**: the history timestamp `now`.

An SQL failure the code catches and turns into `None`/`False` is modelled as that result. An example is a type outside the `CHECK` constraint.

Three behaviours of the code differ from what the schema declares or the managers suggest; the model follows the code:

- `DatabaseManager` never turns on `PRAGMA foreign_keys`, so the declared `ON DELETE CASCADE` and `ON DELETE SET NULL` never fire.
  - Deleting a subcategory leaves its plans and operations in place.
  - Deleting a category removes only what `delete_category` removes by hand: its subcategories.
- `create_subcategory` compares the name case-sensitively and refuses a name the category already holds, returning `None`. It does not return the existing subcategory's id, and names differing only in case ("Кино", "кино") can coexist.
- `create_default_budget` does not check for an existing plan. A second call adds a second plan for the same subcategory.

## Model

| member | source | states |
|---|---|---|
| Categories.CreateCategory | Category.py:14-27 | a type outside income/expense is refused and the store is unchanged; otherwise exactly one row with the new id, name and type is appended and its id returned, other tables untouched |
| Categories.CreateCategoryReadBack | Category.py:14-27 | after a successful create the new id reads back as exactly the record created, and unique ids are kept |
| Categories.NameOrderTotal | Category.py:33-36 | ordering by name is a total preorder, so the listing order is well defined |
| Categories.GetAllCategories | Category.py:29-49 | the listing is sorted by name and holds every stored category of the given type (all when no type is given), each as often as stored, and nothing else |
| Categories.GetCategoryById | Category.py:51-66 | a found record is stored with that id; nothing is found exactly when no category has the id |
| Categories.GetCategoryByIdExact | Category.py:51-66 | with unique ids, looking up a stored category's id gives that very category |
| Categories.UpdateCategory | Category.py:85-115 | a rename succeeds exactly when the category exists and a name was given or typed; failure changes nothing; success renames only the rows with that id |
| Categories.UpdateCategoryReadBack | Category.py:85-115 | a renamed category reads back with the new name and its old type; unique ids are kept |
| Categories.DeleteCategory | Category.py:117-152 | delete succeeds exactly when the category exists and either has no subcategories or the cascade was confirmed; success removes the category and its subcategories and leaves periods, plans, history and operations as they were |
| Categories.DeleteCategoryNoOrphans | Category.py:143-147 | after a delete neither the category nor any subcategory filed under it remains; unique ids are kept |
| Periods.GetPeriodByName | Period.py:69-84 | a found period is stored under that name; nothing is found exactly when no period has the name |
| Periods.GetPeriodById | Period.py:106-122 | a found period is stored with that id; nothing is found exactly when no period has the id |
| Periods.CreatePeriod | Period.py:16-32 | an existing name returns that period's id and changes nothing; a new name appends one period and returns its id |
| Periods.CreatePeriodResolves | Period.py:16-32 | after the call the name resolves to the returned id, and unique names and unique ids are preserved |
| Periods.CreatePeriodIdempotent | Period.py:16-32 | a second call with the same name returns the same id and leaves the store as the first call left it |
| Periods.GetAllPeriods | Period.py:34-50 | the listing is ordered by period count and is a permutation of the stored periods |
| Periods.DefaultPeriod | PlanSubcategory.py:28-38 | the default period exists exactly when any period does; it is a period named "Месяц" when one exists, otherwise the first period in table order |
| Plans.PlanRowsJoin | PlanSubcategory.py:185-189 | the three-way inner join yields rows built from a stored plan and the period, category and subcategory it references; every plan whose references resolve appears, and no plan with a dangling reference does |
| Plans.CreateDefaultBudget | PlanSubcategory.py:12-66 | a plan is added exactly when the subcategory exists and some period exists; it has amount 0 and forecast 0, sits on the default period and is filed under the subcategory's category; otherwise nothing changes |
| Plans.CreateDefaultBudgetAddsPlan | PlanSubcategory.py:12-66 | each successful call adds one plan for the subcategory, so calling it when a plan exists breaks one-plan-per-subcategory; unique ids are kept |
| Plans.GetBudgetBySubcategory | PlanSubcategory.py:68-103 | a found row belongs to that subcategory and is joined from stored rows; nothing is found exactly when no plan of the subcategory has all its references resolving |
| Plans.DefaultBudgetReadBack | PlanSubcategory.py:12-103 | for a subcategory with no plan whose category exists, the default budget just created is what the budget query returns |
| Plans.NewPlanReadBack | PlanSubcategory.py:68-103 | a plan appended for a subcategory that had none, with its references resolving, is what the budget query returns |
| Plans.UpdatePlan | PlanSubcategory.py:105-174 | the update succeeds exactly when the plan exists and the needed period count is found; failure changes nothing; a history entry with old and new amount is appended exactly when a new amount differing from the old one was given; other tables are untouched |
| Plans.YearForecast | PlanSubcategory.py:119-146 | a new period decides the forecast as the new or kept amount times that period's count, and its absence fails the update, whatever explicit forecast is given; without a new period an explicit forecast is taken as given; otherwise a new amount is multiplied by the current period's count, which must exist; with nothing given the forecast is kept |
| Plans.UpdatePlanForecastRules | PlanSubcategory.py:119-156 | read back from the stored plan after `update_plan`: a new period overrides an explicit forecast and the call succeeds exactly when that period exists; an explicit forecast without a new period is stored as given; a new amount alone is multiplied by the current period's count; with nothing given the call succeeds and keeps the forecast |
| Plans.UpdatePlanReadBack | PlanSubcategory.py:105-174 | after a successful update the plan reads back with the new amount, period and forecast and keeps its id, category and subcategory; every other plan is still stored |
| Plans.UpdatePlanKeepsForecastConsistent | PlanSubcategory.py:119-146 | without an explicit forecast, a successful update leaves the forecast equal to the amount times the period's yearly count |
| Plans.UpdatePlanKeepsWf | PlanSubcategory.py:105-174 | with a fresh history id, an update keeps every table's ids unique |
| Plans.UpdatePlanKeepsOnePlan | PlanSubcategory.py:148-156 | an update never moves a plan to another subcategory, so one plan per subcategory is preserved |
| Plans.PlanOrderTotal | PlanSubcategory.py:207 | ordering by category type descending, category name, then subcategory name is a total preorder |
| Plans.GetAllPlans | PlanSubcategory.py:176-231 | the listing is sorted by that order and holds exactly the joined plans the category and period filters select, each as often as in the join |
| Plans.IncomePlansFirst | PlanSubcategory.py:207 | in every plan listing, no expense plan comes before an income plan |
| Plans.CreatePlan | PlanSubcategory.py:233-270 | an existing plan of the subcategory is returned unchanged; an unknown period is refused; otherwise one plan is appended with forecast equal to amount times the period's count |
| Plans.CreatePlanKeepsOnePlan | PlanSubcategory.py:233-270 | after the call the returned id is the subcategory's plan; one plan per subcategory and unique ids are preserved |
| Plans.CreatePlanIdempotent | PlanSubcategory.py:237-242 | a second call for the same subcategory returns the same id and changes nothing |
| Plans.CreatePlanReadBack | PlanSubcategory.py:233-270 | a plan created for a subcategory without one, with its references resolving, is what the budget query returns |
| Subcategories.ResolveCategory | Subcategory.py:15-26 | a 36-character identifier is looked up by id and anything else by name; the result exists exactly when a category matches that way |
| Subcategories.CreateSubcategory | Subcategory.py:12-85 | creation succeeds exactly when the category resolves and has no subcategory of that name; success appends the subcategory and, when a period exists, its default plan; failure changes nothing |
| Subcategories.ViewsJoin | Subcategory.py:93-105 | every joined row comes from a stored subcategory and its category; a subcategory appears exactly when its category exists |
| Subcategories.ViewOrdersTotal | Subcategory.py:97-105 | ordering by subcategory name, and by category name then subcategory name, are total preorders |
| Subcategories.GetAllSubcategories | Subcategory.py:88-122 | the listing holds exactly the joined rows of the category (all when none is given), each as often as in the join, ordered by name, or by category then name for the full listing |
| Subcategories.GetSubcategoryById | Subcategory.py:124-146 | a found row has that id and is joined from stored rows; nothing is found exactly when no subcategory with the id has an existing category |
| Subcategories.CreateSubcategoryViews | Subcategory.py:39-42 | a successful create appends exactly the new subcategory's row to the join |
| Subcategories.CreateSubcategoryReadBack | Subcategory.py:12-85 | the new subcategory reads back by id with its name and its category's id and name |
| Subcategories.CreateSubcategoryBudget | Subcategory.py:46-79 | the new subcategory gets a budget exactly when a period exists; the plan has the given plan id, amount 0, forecast 0 and the default period |
| Subcategories.CreateSubcategoryKeepsWf | Subcategory.py:12-85 | creation keeps every table's ids unique |
| Subcategories.CreateSubcategoryKeepsOnePlan | Subcategory.py:12-85 | creation keeps at most one plan per subcategory |
| Subcategories.CreateSubcategoryOnce | Subcategory.py:32-37 | a second create of the same name in the same category is refused and changes nothing |
| Subcategories.LookupSubcategory | Subcategory.py:151-170 | a 36-character identifier finds a stored subcategory by id; any other text finds one by name whose category exists |
| Subcategories.UpdateSubcategory | Subcategory.py:148-205 | an unknown subcategory, a cancel, a bad choice or an empty answer changes nothing; otherwise only the rows with the found id are renamed or moved |
| Subcategories.UpdateSubcategoryReadBack | Subcategory.py:148-205 | the edited subcategory reads back by id with the edit applied |
| Subcategories.UpdateSubcategoryKeepsWf | Subcategory.py:148-205 | edits keep every table's ids unique |
| Subcategories.MoveToMissingCategoryHides | Subcategory.py:196-200 | moving a subcategory to a category id that does not exist hides it from the joined lookup by id |
| Subcategories.DeleteTarget | Subcategory.py:207-242 | a 36-character identifier targets a stored subcategory by id; a name targets the chosen one of the joined rows with that name, which is a stored subcategory of that name whose category exists, and nothing when the pick is out of range |
| Subcategories.DeleteSubcategory | Subcategory.py:207-253 | delete succeeds exactly when a target is found and confirmed; success removes just that id's rows; nothing else changes |
| Subcategories.DeleteSubcategoryLeavesPlans | Subcategory.py:244-248 | after a delete the subcategory is gone by id, the plans that referenced it remain, and unique ids are kept |
| Dates.ValidateDate | Operation.py:16-23 | an accepted text parses to a real calendar date, is eight to ten characters long and starts with a four-digit year followed by a dash |
| Dates.ParseDate | Operation.py:16-23 | a parsed date is a real calendar date: month 1 to 12, day within the month, leap years by the Gregorian rule |
| Dates.ParseIsoText | Operation.py:16-23 | every valid date written as zero-padded `YYYY-MM-DD` parses back to itself |
| Dates.IsoOrderIsChronological | Operation.py:69 | the text order of zero-padded dates is their chronological order |
| Dates.IsoDatesCompareChronologically | Operation.py:55-69 | for dates in the strict `YYYY-MM-DD` form, comparing the text compares the dates |
| Dates.ValidateIsoDateExactly | Operation.py:16-23 | every valid date's padded text passes the strict check |
| Dates.UnpaddedDateAccepted | Operation.py:16-23 | the validator accepts "2024-1-5" as 5 January 2024, the strict check refuses it, and its first seven characters are not the month "2024-01" |
| Dates.UnpaddedDateMisordered | Operation.py:55-69 | as text, "2024-1-5" lies between "2024-06-01" and "2024-12-31" though it is earlier than June |
| Dates.Feb30Rejected | Operation.py:16-23 | 30 February is refused |
| Dates.Feb29RejectedInCommonYear | Operation.py:16-23 | 29 February is refused in a common year |
| Dates.Feb29AcceptedInLeapYear | Operation.py:16-23 | 29 February is accepted in a leap year |
| Operations.CreateOperation | Operation.py:25-39 | an invalid type is refused and nothing changes; otherwise one operation with the new id and given fields is appended and its id returned |
| Operations.OperationViewsJoin | Operation.py:47-51 | every listed row is joined from a stored operation, its category and, when one resolves, its subcategory's name; an operation appears exactly when its category exists |
| Operations.LaterFirstTotal | Operation.py:69 | ordering by date descending is a total preorder |
| Operations.GetAllOperations | Operation.py:41-90 | the listing is sorted by date descending and holds exactly the joined operations the date range and type filters select, each as often as in the join |
| Operations.DateFilterIsChronological | Operation.py:55-67 | for strict `YYYY-MM-DD` dates, an operation is inside the date range exactly when its date lies between the bounds on the calendar |
| Operations.GetOperationById | Operation.py:92-118 | a found row has that id and is joined from stored rows; nothing is found exactly when no operation with the id has an existing category |
| Operations.CreateOperationReadBack | Operation.py:25-39 | an operation created under an existing category reads back by id with exactly the stored fields |
| Operations.CreateOperationKeepsWf | Operation.py:25-39 | creation under a fresh id keeps every table's ids unique |
| Operations.WithDefault | Operation.py:129-156 | an empty answer keeps the shown default when there is one, else stays empty; any other answer replaces it |
| Operations.EditedOperation | Operation.py:129-156 | the edit is abandoned exactly when the amount, date or category prompt is cancelled; otherwise id and type are kept, amount and date are replaced, and description, category and subcategory fall back to the old values on an empty answer; a cancelled subcategory prompt is not checked and clears the subcategory |
| Operations.UpdateOperation | Operation.py:120-170 | the update succeeds exactly when the operation is found and the edit is complete; failure changes nothing; success rewrites only the rows with that id |
| Operations.UpdateOperationReadBack | Operation.py:120-170 | after an update the operation reads back as the edited record |
| Operations.UpdateOperationKeepsWf | Operation.py:120-170 | updates keep every table's ids unique |
| Operations.InterruptedSubcategoryClears | Operation.py:152-166 | an update whose subcategory prompt is cancelled still succeeds, and the operation reads back with no subcategory even if it had one |
| Operations.UpdateOperationKeepsDatesValid | Operation.py:129-166 | with the positive amount and accepted date the prompts' validation functions guarantee, the rewritten row has both, so dates that all pass `validate_date` still do after an update |
| Operations.DeleteOperation | Operation.py:172-189 | delete succeeds exactly when the operation is found and confirmed; success removes exactly that id's rows |
| Operations.DeleteOperationRemoves | Operation.py:172-189 | after a delete the operation is no longer found, and unique ids are kept |
| Operations.OrphanedOperationIsStuck | Operation.py:92-189 | an operation whose category no longer exists is hidden by the inner join of the id lookup, so it can be neither updated nor deleted through the managers |
| Reports.KindCountsPartition | main.py:551-553 | the income and expense counts add up to the number of operations |
| Reports.Summarize | main.py:543-556 | the count is the number of operations and the sum of both counts; the totals are the income and expense sums; the balance is their difference |
| Reports.BalanceIsSignedSum | main.py:543-545 | the balance is the sum of the amounts with expenses negated |
| Reports.AddTo | main.py:562-566 | adding to a category tally keeps keys distinct, adds the key, credits the amount to that key only, and raises the grand total by the amount |
| Reports.CategorySums | main.py:580-584 | there is one entry per category that has operations of the kind; each entry's amount is that category's total; the entries add up to the kind's total |
| Reports.CategoryRows | main.py:562-577 | the rows are sorted by amount descending, are exactly the categories with their totals, and add up to the kind's total |
| Reports.CategorySharesAddUp | main.py:572-595 | with a positive total the category percentages add up to 100; with none they are all 0 |
| Reports.MonthKey | main.py:600 | the key is the date's first seven characters, a prefix of it |
| Reports.MonthKeyOfIsoDate | main.py:600 | for a strict `YYYY-MM-DD` date the key is its padded year and month |
| Reports.AddToMonth | main.py:601-607 | adding to a month keeps months distinct, adds the month, credits the income or expense column of that month only, and treats every non-income operation as an expense |
| Reports.MonthlyTally | main.py:598-610 | there is one row per month that has operations; each row's columns are that month's income and expense sums; the columns add up to the overall totals |
| Reports.MonthlyStats | main.py:598-624 | the rows are sorted by month descending, are exactly the monthly tallies, and their columns add up to the overall income and expense totals |
| Reports.ReportsAgree | main.py:543-624 | the per-category tables add up to the summary's income and expense totals, and the monthly table's income minus expense is the summary's balance |
| App.LowerChar | main.py:374 | Latin and Cyrillic capitals, Ё included, map to their small letters; every other character is unchanged |
| App.Lower | main.py:374 | lowering keeps the length and lowers each character |
| App.ResolveSubcategory | main.py:365-381 | empty text files under no subcategory; an id of the category's own subcategory is taken as is; otherwise the first name match of the category's name-ordered listing is taken when it has an id or no create was requested; a found subcategory belongs to the category and matches by id or by name ignoring case; the store changes only by a requested create |
| App.FirstNameMatch | main.py:372-376 | the match is the first subcategory, in the category's name-ordered listing, whose name equals the input ignoring case: no earlier one matches; none is found exactly when no subcategory of the category matches |
| App.ResolvedBelongs | main.py:357-381 | whatever resolves, found or created, is listed under the chosen category afterwards |
| App.UnresolvedMeansNoMatch | main.py:357-381 | with non-empty ids, resolution fails only when no subcategory of the category matches and creating one was declined or refused |
| App.CreateKeepsOtherIds | main.py:377-381 | creating a subcategory leaves the id lookup of every other id unchanged |
| App.CreatedIsFirstMatch | main.py:372-381 | when nothing matched, the subcategory created on request is the first name match afterwards |
| App.ResolveIsStable | main.py:357-381 | resolving the same text again against the store the first resolution left gives the same subcategory and creates nothing |
| App.CategoryIds | main.py:816-825 | the id map holds exactly the inserted names, each mapped to the id of a row carrying that name |
| App.EntryRows | main.py:860-868 | one row per listed name is made under the entry's category id, taking the supplied ids in order; rows exist only for a seeded category |
| App.SeedRowsAttached | main.py:860-868 | every inserted subcategory is filed under the id of its entry's category and has a listed name; every listed name of a seeded category is inserted |
| App.Seed | main.py:765-875 | a database with categories is left as it is; an empty one receives the category rows and the subcategory rows; other tables are untouched |
| App.CreateDefaultCategories | main.py:765-875 | seeding with the built-in lists inserts exactly the listed categories, only into an empty database, and touches no plans, periods, operations or history |
| App.SeededSubcategoriesAttached | main.py:828-868 | every seeded subcategory is filed under an inserted category whose name is its entry's key |
| App.SeededNamesPresent | main.py:828-868 | every name listed for a seeded category is inserted under that category |
| App.SeedingKeepsWf | main.py:765-875 | with distinct fresh uuids, seeding keeps every table's ids unique |
| App.SeedingIsOnce | main.py:771-774 | once any category exists, seeding again changes nothing, whatever uuids it would draw |

## Left out

- SQLite errors beyond the `CHECK` on `type` are not modelled. Examples: a locked or missing database file. Each manager catches them and returns `None`/`False`/`[]`.
- `create_tables` never creates `periods`, `plan_subcategories` or `plan_subcategory_history`. The model treats those tables as existing. Otherwise every plan call would fail with "no such table".
- Foreign-key actions and `PRAGMA foreign_keys` are not modelled: the code never enables them, so SQLite ignores them.
- Money is SQLite `REAL` and Python `float`. It is modelled as exact `real`, so rounding is not modelled. The `:.2f`/`:.1f` formatting of reports is output only.
- `uuid.uuid4()` becomes a fresh-id parameter, `datetime.now()` the `now` parameter, and `input()` answers plain parameters. `print` output, screen clearing and the `show_*_table` methods are output only.
- Operations.GetAllOperations: compares the date bounds and stored dates as text. The `operations.date` column is declared `DATETIME` (main.py:733), which gives it NUMERIC affinity, so SQLite compares a bound or a stored date that reads as a number numerically. For example, `start_date="2024"` becomes the integer 2024, which every text date exceeds. The model does not cover such values. Stored dates pass `validate_date` and the date-range screen fails before filtering, so no caller in the program passes one.
- Dates.ParseDate: `strptime` also accepts non-ASCII Unicode digits. Only ASCII digits are modelled.
- App.LowerChar: `str.lower` is modelled for the Latin and basic Cyrillic alphabets only. Other scripts are left unchanged.
- Subcategories.DeleteTarget: takes the answer to the "which one" prompt as an integer `pick`. A non-numeric answer is caught and ends the call, which has the same outcome as an out-of-range number: nothing is deleted.
- Query results with ties come back in SQLite's order. The model breaks such ties in table order and does not claim which order SQLite picks; `ORDER BY` is modelled only up to the sort key. Single-row lookups without `ORDER BY` (`fetchone`, `LIMIT 1`) return the first row in table order. Python's stable `sorted` is modelled the same way.
- The menu loops of `main.py` are not modelled: `show_main_menu`, the `handle_*` methods and `run`. Two exceptions are modelled: subcategory resolution inside `handle_operation_creation` and the statistics of the listing and report screens. The category selection menu and the amount parsing of `handle_operation_creation` are input plumbing.
- `handle_operation_list` passes `self.operation_manager._validate_date` (main.py:432 and main.py:437), a method the class does not define. The date-range screen therefore fails before filtering. The filter itself is modelled in `Operations.GetAllOperations`.
- `test.py`, `ConsoleFormatter.py` and `DatabaseManager.py` are context; only the absence of `PRAGMA foreign_keys` in the last is relied on.
- The commented-out `get_category_by_name` in `Category.py` and the first `get_period_by_id` in `Period.py` are not modelled. The second definition of `get_period_by_id` replaces the first.

## Findings

| source | as written | input that shows it | evidently intended | confidence | as-written member | corrected member |
|---|---|---|---|---|---|---|
| Operation.py:16-23 | `validate_date` accepts any text `strptime("%Y-%m-%d")` parses, including unpadded months and days | "2024-1-5" passes, yet as text it sorts between "2024-06-01" and "2024-12-31", and its `[:7]` month key is "2024-1-" instead of "2024-01" | only zero-padded `YYYY-MM-DD` dates are stored, so that the text comparisons of the date filter and `ORDER BY o.date`, and the month key of the report, follow the calendar | not executed | Dates.UnpaddedDateAccepted, Dates.UnpaddedDateMisordered | Dates.IsoDatesCompareChronologically, Operations.DateFilterIsChronological, Reports.MonthKeyOfIsoDate |
