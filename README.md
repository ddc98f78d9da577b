# OrganizeMe client: the task collection, in Dafny

OrganizeMe is a task manager. A user's tasks are fetched from the server as an
object `tasksByCategory` that maps each category to an array of tasks. This
project models the client logic that works on that object:

- the **by-category page** (`TasksByCategoriesPage.jsx`): it sorts each bucket
  (Active, then Not Finished, then Done; within a status by due date), filters
  by status, importance and date range, and adds tasks;
- the **task row** (`TaskItem.jsx`): the updaters its edit, delete and complete
  handlers apply to the table, and its status colour;
- the **search box** (`SearchTaskByName.jsx`): a trimmed, lower-cased query
  matched against each task's category and name;
- the **filter panel** (`TaskFilter.jsx`): option toggling and the date-range
  check;
- the **profile statistics** (`ProfilePage.jsx`): per-status counts for a
  year, the category list, the bar-chart counts and the y-axis step;
- the **add form** (`TaskForm.jsx`) and the **edit modal** (`EditTask.jsx`):
  field handlers, mandatory-field checks, reset and close, and the past-date
  guard.

Files and modules:

| file | module | models |
|---|---|---|
| `dates.dfy` | `Dates` | `YYYY-MM-DD` strings; JavaScript's string `<`; `new Date(a) <= new Date(b)`; the sort's date difference; the add form's `getCurrentDate` |
| `text.dfy` | `Text` | `trim`, `toLowerCase`, `includes` |
| `tasks.dfy` | `Tasks` | the task record, statuses, the by-category table with its key order, fetch outcomes, `indexOf` |
| `task_item.dfy` | `TaskItem` | the row's colour and the edit/delete/complete updaters |
| `categories_page.dfy` | `CategoriesPage` | comparator, in-place sort, filter, add, and the page's state as a class |
| `search.dfy` | `Search` | `handleSearch` |
| `task_filter.dfy` | `Filter` | the filter panel as a class |
| `profile.dfy` | `Profile` | `calculateStatistics` and the chart data |
| `task_form.dfy` | `Form` | the add form as a class |
| `edit_task.dfy` | `Edit` | the edit modal as a class, with its own `getCurrentDate` |

Modelling choices:

- **Dates stay strings.** The client compares them in two ways:
  - `EditTask` uses JavaScript's `<` on strings. That is `Dates.LexLess` on
    strings without characters above U+FFFF, which includes every date string
    (`Dates.IsoDateInBmp`).
  - The page and the filter panel compare `new Date(...)` values. That is
    `Dates.DateLe`. A string that is not a well-formed date gives `NaN`, so
    every comparison with it is false.
  - For the sort comparator, the `NaN` difference becomes 0 (`Dates.DateCompare`).
  - `Dates.IsoOrderIsDayOrder` proves that, on well-formed dates, the string
    order is the (year, month, day) order.
- **The table keeps its key order.** `Tasks.Table` holds the keys in
  insertion order (the order of `Object.entries`) and a map from key to bucket.
- **Ids can be missing.** A task added on the page is the form's data, which
  has no `taskId`. The model writes that as `NoId`.
- **I/O becomes parameters.**
  - `fetch` outcomes are a `Reply` parameter: ok, not ok, or thrown.
  - `window.confirm` is a `confirmed` parameter.
  - The clock is the `(year, monthIndex, day)` that `getCurrentDate` reads.
- **The sort.** `Array.prototype.sort` is modelled as an insertion sort
  (`CategoriesPage.SortTasks`). Like JavaScript's sort, it is stable: tasks
  with the same status and due date keep their order
  (`CategoriesPage.SortTasksStable`). The page calls `tasks.sort` on the arrays
  held in its state, so the render sorts each bucket's array in place
  (`CategoriesPage.SortInPlace`). The table therefore stays sorted after the
  render (`CategoriesPage.CategoriesPage.RenderFilteredTasks`).
- **The page uses the corrected behaviour of the two findings below.** Its
  filter uses the corrected importance test, and its save handler uses the
  corrected edit updater. The code as written is modelled beside them, and
  lemmas show where the two differ.
- **Status is a closed type.** It is always Active, Not Finished or Done.
- **The add form accepts a past due date.** Its handlers accept any non-empty
  due date, including one before today. Only the date input's browser `min`
  attribute discourages a past date, and that is not modelled. So
  `Form.TaskForm.HandleSubmit` accepts any non-empty date.
- **Two date behaviours the model reproduces as written:**
  - The edit modal's past-date test compares strings. Emptying its date field
    is therefore refused as a past date (`Edit.EmptyDateIsPast`).
  - In the filter panel, clearing the start date while an end date is set
    goes down the error branch (`Filter.RangeCheck`), because `new Date("")`
    is not a date.

## Model

| member | source | states |
|---|---|---|
| Dates.LexLessIrreflexive | client/src/components/EditTask.jsx:84 | no date string is before itself under JavaScript's string `<` |
| Dates.LexLessAsymmetric | client/src/components/EditTask.jsx:84 | string `<` never holds both ways |
| Dates.LexLessTransitive | client/src/components/EditTask.jsx:84 | string `<` is transitive |
| Dates.LexLessTotal | client/src/components/EditTask.jsx:84 | any two different strings are ordered one way or the other |
| Dates.IsoDateInBmp | client/src/components/EditTask.jsx:84 | a well-formed date has no character above U+FFFF, so code-point order and JavaScript's code-unit order agree on it |
| Dates.IsoOrderIsDayOrder | client/src/components/EditTask.jsx:84 | on well-formed dates, string `<` holds exactly when the first day is earlier, and equality is same day |
| Dates.DateLeIsDayOrder | client/src/pages/TasksByCategoriesPage.jsx:84-85 | `new Date(a) <= new Date(b)` holds exactly when both are dates and a's day is not after b's |
| Dates.DateLeTransitive | client/src/components/TaskFilter.jsx:45-69 | the date comparison the range check uses is transitive |
| Dates.FormatDateIsIsoDate | client/src/components/TaskForm.jsx:67-73 | `getCurrentDate` gives a zero-padded `YYYY-MM-DD` whose fields read back as the clock's year, month (one-based) and day |
| Edit.CurrentDate | client/src/components/EditTask.jsx:44-50 | the edit modal's own `getCurrentDate`: a well-formed date with the clock's fields |
| Text.TrimProperties | client/src/components/SearchTaskByName.jsx:20 | `trim()` returns a middle slice of its input with only white space cut at either end; the slice has no white space at either end, is empty exactly for all-white-space input, and is the input itself when that is already trimmed |
| Text.ToLowerOfTrimmed | client/src/components/SearchTaskByName.jsx:20 | lower-casing keeps a trimmed query trimmed and is idempotent |
| Tasks.StatusNameInjective | client/src/pages/TasksByCategoriesPage.jsx:82 | different statuses have different status strings, so the status filter cannot confuse them |
| TaskItem.StatusColor | client/src/components/TaskItem.jsx:20-29 | green exactly for Active, red exactly for Not Finished, gray exactly for Done |
| TaskItem.CompletedTaskOffersNothing | client/src/components/TaskItem.jsx:200-214 | after completing an id, no task with it shows the edit and complete buttons; every other task keeps them; a task shows them exactly when its status colour is not gray |
| TaskItem.ReplaceByIdAt | client/src/components/TaskItem.jsx:53-59 | the same-category edit keeps the bucket's length and order and replaces exactly the tasks with the edited id |
| TaskItem.RemoveByIdKeepsOthers | client/src/components/TaskItem.jsx:69 | removing by id keeps, in order and with their multiplicity, exactly the tasks with another id |
| TaskItem.RemoveByIdRemovesAll | client/src/components/TaskItem.jsx:105-107 | after the filter no task with the id is left in the bucket |
| TaskItem.MarkDoneAt | client/src/components/TaskItem.jsx:146-151 | completing sets status Done on exactly the tasks with the id and changes nothing else |
| TaskItem.MarkDoneIdempotent | client/src/components/TaskItem.jsx:146-151 | completing a task twice is completing it once |
| TaskItem.DeleteFromAll | client/src/components/TaskItem.jsx:102-110 | the delete updater keeps every key and applies the id filter to every bucket |
| TaskItem.CompleteInAll | client/src/components/TaskItem.jsx:141-155 | the complete updater keeps every key and marks the id Done in every bucket |
| TaskItem.SaveEdit | client/src/components/TaskItem.jsx:43-78 | the edit updater leaves a well-formed table: distinct keys matching the buckets |
| TaskItem.SaveEditSameCategory | client/src/components/TaskItem.jsx:48-62 | an edit within one category replaces the task in its bucket and touches no other key or bucket |
| TaskItem.SaveEditMovesTask | client/src/components/TaskItem.jsx:63-78 | a category change removes the task from the old bucket, whose key stays, appends it to the new bucket (created at the end of the key order if new), and leaves other buckets alone |
| TaskItem.EditFromSearchDuplicates | client/src/pages/TasksByCategoriesPage.jsx:217 | as written, saving an edit from the search results leaves the old copy and appends the edited one; the corrected updater replaces it |
| TaskItem.SaveEditOfKeepsTaskInOneBucket | client/src/components/TaskItem.jsx:43-78 | with the previous category taken from the edited task, the edited task ends up in its category's bucket and its id in no other bucket |
| CategoriesPage.CompareIsRankThenDate | client/src/pages/TasksByCategoriesPage.jsx:59-78 | the comparator orders by status (Active, Not Finished, Done), then by due day |
| CategoriesPage.CompareAntisymmetric | client/src/pages/TasksByCategoriesPage.jsx:59-78 | a > b in the comparator exactly when b < a |
| CategoriesPage.CompareTransitive | client/src/pages/TasksByCategoriesPage.jsx:59-78 | on well-formed due dates the comparator is transitive |
| CategoriesPage.SortTasksPermutation | client/src/pages/TasksByCategoriesPage.jsx:59 | sorting a bucket neither loses nor adds a task |
| CategoriesPage.SortTasksSorted | client/src/pages/TasksByCategoriesPage.jsx:59-78 | a bucket of well-formed due dates comes out ordered by the comparator |
| CategoriesPage.SortTasksStable | client/src/pages/TasksByCategoriesPage.jsx:59-78 | the sort is stable: tasks with the same status and due date, which the comparator ranks equal, keep their relative order |
| CategoriesPage.SortTasksOfSorted | client/src/pages/TasksByCategoriesPage.jsx:59 | an already ordered bucket is left as it is |
| CategoriesPage.SortTasksIdempotent | client/src/pages/TasksByCategoriesPage.jsx:58-59 | sorting again on the next render changes nothing |
| CategoriesPage.SortedOrderFacts | client/src/pages/TasksByCategoriesPage.jsx:60-77 | in a sorted bucket Active tasks come first, Not Finished before Done, and one status's tasks earliest due first |
| CategoriesPage.InsertAt | client/src/pages/TasksByCategoriesPage.jsx:59 | one step of the in-place sort inserts the next task into the sorted prefix of the array |
| CategoriesPage.SortInPlace | client/src/pages/TasksByCategoriesPage.jsx:59-78 | `tasks.sort` leaves the array holding the sorted bucket |
| CategoriesPage.FilterTasksKeepsMatches | client/src/pages/TasksByCategoriesPage.jsx:80-88 | the filtered bucket is a subsequence keeping exactly the tasks that pass every test (importance by the corrected test), as often as they occur |
| CategoriesPage.NoFiltersKeepAll | client/src/pages/TasksByCategoriesPage.jsx:82-85 | with nothing selected and no dates the filter keeps the whole bucket |
| CategoriesPage.NoStatusOptionPassesStatus | client/src/pages/TasksByCategoriesPage.jsx:82 | a selection without status options does not constrain status |
| CategoriesPage.NoImportanceOptionPassesImportance | client/src/pages/TasksByCategoriesPage.jsx:83 | a selection without importance options does not constrain importance |
| CategoriesPage.DateBoundsInclusive | client/src/pages/TasksByCategoriesPage.jsx:84-85 | a task due on a bound's day passes that bound |
| CategoriesPage.DateMatchIsDayRange | client/src/pages/TasksByCategoriesPage.jsx:84-85 | with both bounds set a task passes exactly when its due day is within them |
| CategoriesPage.ImportanceAsWrittenHidesFormTasks | client/src/pages/TasksByCategoriesPage.jsx:83 | as written, selecting any importance option hides every task whose importance is "low", "medium" or "high" |
| CategoriesPage.ImportanceSelectsStoredValue | client/src/pages/TasksByCategoriesPage.jsx:83 | corrected, with an importance option selected a form-created task passes exactly when its level's option is selected |
| CategoriesPage.FilteredTasksCoversCategories | client/src/pages/TasksByCategoriesPage.jsx:58-94 | the view (with the corrected importance test) lists every category once, in key order, even when empty, each with tasks from its own bucket |
| CategoriesPage.AddTask | client/src/pages/TasksByCategoriesPage.jsx:111-124 | adding a task leaves a well-formed table |
| CategoriesPage.AddTaskAppends | client/src/pages/TasksByCategoriesPage.jsx:115-121 | the task is appended to its category's bucket, a new category gets a one-task bucket at the end of the key order, other buckets are unchanged |
| CategoriesPage.SortedCopy | client/src/pages/TasksByCategoriesPage.jsx:59 | a bucket copied into an array and sorted there is the sorted bucket |
| CategoriesPage.CategoriesPage.constructor | client/src/pages/TasksByCategoriesPage.jsx:14-22 | the page starts with an empty table, form hidden, no messages |
| CategoriesPage.CategoriesPage.FetchTasksByCategory | client/src/pages/TasksByCategoriesPage.jsx:28-44 | the fetched table replaces the state only on an ok reply |
| CategoriesPage.CategoriesPage.HandleTaskFormSubmit | client/src/pages/TasksByCategoriesPage.jsx:96-143 | ok: task added, form closed, success shown; not ok: only the error "Failed to add task"; thrown: nothing changes |
| CategoriesPage.CategoriesPage.SaveTask | client/src/components/TaskItem.jsx:41-88 | the corrected edit updater is applied, the success message set and the error cleared |
| CategoriesPage.CategoriesPage.DeleteTask | client/src/components/TaskItem.jsx:90-127 | confirmed and ok: the id is removed from every bucket and success shown; otherwise the table is kept and the matching error set |
| CategoriesPage.CategoriesPage.CompleteTask | client/src/components/TaskItem.jsx:129-173 | confirmed and ok: the id is marked Done everywhere and success shown; otherwise the table is kept and the matching error set |
| CategoriesPage.CategoriesPage.RenderFilteredTasks | client/src/pages/TasksByCategoriesPage.jsx:58-94 | the render returns the filtered view (with the corrected importance test) and leaves every bucket of the state sorted |
| Search.HandleSearch | client/src/components/SearchTaskByName.jsx:19-45 | the empty-query flag implies no results and no no-results flag; the no-results flag implies no results |
| Search.NormalizeIdempotent | client/src/components/SearchTaskByName.jsx:20 | normalising a normalised query changes nothing |
| Search.NormalizeEmptyIffBlank | client/src/components/SearchTaskByName.jsx:20-22 | the query is empty exactly when the typed text is all white space |
| Search.MatchingCount | client/src/components/SearchTaskByName.jsx:32-33 | each filter keeps a hitting task as often as the bucket holds it and drops the others |
| Search.MatchingInOrder | client/src/components/SearchTaskByName.jsx:32-33 | each filter keeps its tasks in their bucket order |
| Search.FlatResultsOrder | client/src/components/SearchTaskByName.jsx:31-36 | the results run entry by entry in key order, and within an entry its category matches come before its name matches |
| Search.FlatResultsCount | client/src/components/SearchTaskByName.jsx:31-36 | a task occurs in the results once per category hit plus once per name hit |
| Search.TableTasks | client/src/components/SearchTaskByName.jsx:31 | the entries walked hold exactly the tasks of the table's buckets |
| Search.FlatResultsMembers | client/src/components/SearchTaskByName.jsx:31-36 | a task is a result exactly when it is in the table and hits; one hitting on both appears at least twice |
| Search.HandleSearchResults | client/src/components/SearchTaskByName.jsx:29-44 | for a non-blank query: results are exactly the hitting tasks of the table, double hits appear twice, the no-results flag is set exactly when nothing hits, and otherwise the results are the flattened matches in the order of `Search.FlatResultsOrder` |
| Search.HandleSearchBlank | client/src/components/SearchTaskByName.jsx:22-27 | a blank query shows no results, sets the empty-query flag and clears the no-results flag |
| Tasks.FirstIndex | client/src/components/TaskFilter.jsx:27 | `indexOf` finds the first occurrence |
| Filter.TaskFilter.constructor | client/src/components/TaskFilter.jsx:16-18 | the panel starts with no selection, no dates and no error, and the invariant holds |
| Filter.ToggleMembers | client/src/components/TaskFilter.jsx:24-31 | toggling appends an absent option, removes a present one, keeps every other option's membership and keeps the selection free of repeats |
| Filter.ToggleTwice | client/src/components/TaskFilter.jsx:24-31 | toggling twice restores membership, and the very selection when the option was absent |
| Filter.TaskFilter.OptionChange | client/src/components/TaskFilter.jsx:24-34 | the selection is toggled, the date error cleared, and the invariant kept |
| Filter.TaskFilter.ClearFilters | client/src/components/TaskFilter.jsx:36-43 | selection, both dates and the error are emptied |
| Filter.TaskFilter.StartDateChange | client/src/components/TaskFilter.jsx:45-56 | a start on or before the end (or with no end) is taken; otherwise the start is cleared and "Invalid date range" shown; a set range stays ordered |
| Filter.TaskFilter.EndDateChange | client/src/components/TaskFilter.jsx:58-69 | an end on or after the start (or with no start) is taken; otherwise the end is cleared and "Invalid date range" shown; a set range stays ordered |
| Filter.RangeCheck | client/src/components/TaskFilter.jsx:47 | the range check on dates is the day order, and an empty start fails it while an end is set |
| Profile.TasksInYearCount | client/src/pages/ProfilePage.jsx:63-66 | the year filter keeps exactly the tasks due in the selected year, as often as they occur |
| Profile.StatusCountsPartition | client/src/pages/ProfilePage.jsx:69-75 | the three status counts add up to the number of tasks counted |
| Profile.StatisticsAddUp | client/src/pages/ProfilePage.jsx:61-81 | the statistics count only the selected year's tasks, and Active + Not Finished + Done equals the year total |
| Profile.Dedup | client/src/pages/ProfilePage.jsx:77 | `[...new Set(...)]` has no repeats and the same values as its input |
| Profile.DedupFirstOccurrenceOrder | client/src/pages/ProfilePage.jsx:77 | the values appear in the order of their first occurrences |
| Profile.DistinctCategoriesProperties | client/src/pages/ProfilePage.jsx:77 | the category list holds each category of all tasks, whatever the year, once |
| Profile.CategoryChartDataAt | client/src/pages/ProfilePage.jsx:110-115 | bar i counts the tasks of category i due in the chart's year |
| Profile.ChartTotalIsYearTotal | client/src/pages/ProfilePage.jsx:110-115 | when every category has a bar, the bars add up to the number of tasks due in the year |
| Profile.ChartAccountsForYear | client/src/pages/ProfilePage.jsx:77-80 | with one year selected for both charts, the bars add up to the statistics' total |
| Profile.MaxOf | client/src/pages/ProfilePage.jsx:128 | `Math.max` of the bar data is a bar's value and no bar exceeds it |
| Profile.StepSize | client/src/pages/ProfilePage.jsx:129 | the y-axis step is the ceiling of the tallest bar divided by 5 |
| Form.Submitted | client/src/components/TaskForm.jsx:42-47 | a task is emitted exactly when the four mandatory fields are set, as the entered fields with no id and status Active |
| Form.TaskForm.constructor | client/src/components/TaskForm.jsx:11-16 | the form starts empty with no error |
| Form.TaskForm.TaskNameChange | client/src/components/TaskForm.jsx:20-22 | sets the name within its 30-character bound |
| Form.TaskForm.DueDateChange | client/src/components/TaskForm.jsx:24-26 | sets the due date |
| Form.TaskForm.CategoryChange | client/src/components/TaskForm.jsx:28-30 | sets the category |
| Form.TaskForm.ImportanceChange | client/src/components/TaskForm.jsx:32-34 | sets the importance |
| Form.TaskForm.CommentsChange | client/src/components/TaskForm.jsx:36-38 | sets the comments within their 130-character bound |
| Form.TaskForm.HandleSubmit | client/src/components/TaskForm.jsx:40-53 | a missing field sets the error, emits nothing and keeps the fields; otherwise the entered task is emitted, the error cleared and the form emptied |
| Form.TaskForm.HandleClose | client/src/components/TaskForm.jsx:55-64 | all fields and the error are emptied |
| Edit.PastDateIsEarlierDay | client/src/components/EditTask.jsx:80-90 | for a well-formed date the past-date test holds exactly when its day is before today's |
| Edit.EmptyDateIsPast | client/src/components/EditTask.jsx:84 | an emptied date field counts as a past date |
| Edit.SaveResult | client/src/components/EditTask.jsx:52-78 | a save goes through exactly when all mandatory fields are set and the server answers ok, and sends the working copy |
| Edit.RefusedSaveExplains | client/src/components/EditTask.jsx:53-56 | a refused save always shows a message, and a missing field refuses it whatever the server would answer |
| Edit.SubmittedTaskSaves | client/src/components/EditTask.jsx:53-56 | the edit modal's mandatory-field check is the add form's (TaskForm.jsx:42): a task the form emits is saved on an ok reply, and a task the modal saves would pass the form |
| Edit.EditTaskModal.constructor | client/src/components/EditTask.jsx:17-18 | the working copy starts as the task, with no error |
| Edit.EditTaskModal.TaskNameChange | client/src/components/EditTask.jsx:22-24 | only the name of the working copy changes |
| Edit.EditTaskModal.CategoryChange | client/src/components/EditTask.jsx:26-28 | only the category of the working copy changes |
| Edit.EditTaskModal.ImportanceChange | client/src/components/EditTask.jsx:30-32 | only the importance of the working copy changes |
| Edit.EditTaskModal.CommentsChange | client/src/components/EditTask.jsx:34-36 | only the comments change, within their 120-character bound |
| Edit.EditTaskModal.CloseModal | client/src/components/EditTask.jsx:38-42 | the working copy is restored to the task and the error cleared |
| Edit.EditTaskModal.DueDateChange | client/src/components/EditTask.jsx:80-90 | a date before today is refused with "Please select a future date." and the working copy kept; otherwise it becomes the due date and the error is cleared |
| Edit.EditTaskModal.HandleSaveTask | client/src/components/EditTask.jsx:52-78 | a successful save hands over the working copy and closes the modal; a refused one keeps the copy and shows the reason |

## Left out

- Network, server and database: every `fetch` is reduced to its outcome, and the
  server's response body to a table parameter.
- Rendering, React state scheduling, Chart.js, loading spinners and the
  `setTimeout` that clears messages after three seconds.
- Firebase authentication and the profile's user data; only the statistics are
  modelled.
- Time zones: `new Date("YYYY-MM-DD")` is read as UTC while `getFullYear` reads
  local time, so near New Year the year can differ. The model reads the year
  from the string.
- Date formats other than `YYYY-MM-DD` are treated as not dates (`NaN`), as
  the model's `Dates.IsIsoDate` requires that form.
- Day validity per month is not checked. The model accepts any day from 01 to
  31, so "2024-02-30" counts as a date. It is ordered after 02-29 and before
  03-01. A JavaScript engine either rejects such a string or rolls it over to
  03-01.
- Case mapping beyond ASCII in `toLowerCase`.
- Dates.LexLess: JavaScript's string `<` compares UTF-16 code units, while
  `Dates.LexLess` compares code points. The two differ only when a character
  from U+E000 to U+FFFF meets one above U+FFFF. No well-formed date contains
  either (`Dates.IsoDateInBmp`).
- `Object.entries` lists integer-like keys first in ascending order. The model
  keeps plain insertion order.
- `Array.prototype.sort` with an inconsistent comparator. Ordering is proved
  only for well-formed due dates. Stability is stated for tasks with the same
  status and due-date string. It is not stated for tasks that compare equal
  only because an invalid date makes the difference `NaN`.
- `Math.max()` of an empty list is `-Infinity`. `Profile.MaxOf` and
  `Profile.StepSize` require at least one category.
- The browser's `maxLength` and `min` attributes. The change handlers require
  their input within `maxLength`; `min` is not modelled.
- The edit modal's 120-character comment bound is enforced only on typing, so
  a task created with up to 130 characters can be opened unchanged.
- Deleting or completing a task that has no `taskId` (one just added on the
  page) affects every other task without an id. The model reproduces this,
  since `TaskId` has a `NoId` value.
- Profile.StatisticsAddUp: the sum equals the year total unconditionally,
  because status is a closed type; on the server's data a status outside the
  three would only make the sum smaller.
- CategoriesPage.FilterTasksKeepsMatches, CategoriesPage.FilteredTasksCoversCategories
  and CategoriesPage.CategoriesPage.RenderFilteredTasks: these use the
  corrected importance test `CategoriesPage.ImportanceMatch`, not the test as
  written at TasksByCategoriesPage.jsx:83. With an importance option selected,
  the page as written hides every task the forms created
  (`CategoriesPage.ImportanceAsWrittenHidesFormTasks`). The model shows such a
  task when its level is selected (first finding below).
- CategoriesPage.CategoriesPage.SaveTask: this applies the corrected edit
  updater `TaskItem.SaveEditOf`, which takes the previous category from the
  edited task. It does not take it from the row's `category` prop (TaskItem.jsx:45).
  The two agree for rows in the by-category list. They differ for rows in the
  search results, where the prop is missing (`TaskItem.EditFromSearchDuplicates`,
  second finding below).
- The overdue sweep and the upcoming-tasks query run on the server, whose code
  is not part of this model.

## Findings

| source | as written | input that shows it | evidently intended | confidence | as-written member | corrected member |
|---|---|---|---|---|---|---|
| client/src/pages/TasksByCategoriesPage.jsx:83 | the importance test looks for the task's importance among the selected labels "Low"/"Medium"/"High", but the forms store "low"/"medium"/"high" | select "Low"; a task with importance "low" is hidden | a selected label matches the lower-case value the forms store | high; not executed | CategoriesPage.ImportanceAsWrittenHidesFormTasks | CategoriesPage.ImportanceSelectsStoredValue |
| client/src/pages/TasksByCategoriesPage.jsx:217 | the search-results list renders the row without `category`, so the edit updater's previous category is "undefined" | task "report" in bucket "work"; edit its name from the search results; "work" then holds the old and the new task | the previous category is the edited task's own | high; not executed | TaskItem.EditFromSearchDuplicates | TaskItem.SaveEditOfKeepsTaskInOneBucket |
