# BrickByBrick view layer, in Dafny

BrickByBrick is a house-building expense tracker. This project models the
client-side view layer: the React code that turns the list of expense
records fetched from the server, plus the controls the user has set, into
what is shown.

- **Expense table** (`ExpenseTable.jsx`): the filter option lists, the
  nine-clause filter, the stable sort by date or amount, and the filter,
  sort and multi-select state updates.
- **Dashboard** (`Dashboard.jsx`): the newest-first list, the views grouped
  by category or phase with their totals, and the delete flow.
- **Summary bar** (`SummaryBar.jsx`): the invested total and the
  per-category breakdown, largest first.
- **Statistics page** (`StatusDashboard.jsx`): the per-label pie chart
  data and the per-day time series.
- **Management page** (`Management.jsx`): taxonomy search, expanded
  categories, and the add/edit dialog with its blank-input guard and
  titles.
- **Expense form** (`ExpenseFormModal.jsx`): new and prefilled forms, field
  updates, tag toggling, the submit payload, and the sub-category choices.
- **File picker** (`FileUploader.jsx`): the bounded file list, removal by
  position, and the icon chosen from the extension.

Records are Dafny datatypes (`Records`). Amounts are integer cents and
dates are day numbers. A missing relation is `None`, and a missing tag
list is empty.

Each `useState` setter becomes a function from the old state to the new
one. Where the component loops and accumulates into a `Set` or a plain
object, the model is a method with a loop:

- `getUnique` and the tag option set;
- `groupedExpenses`;
- `categoryBreakdown`;
- `processData` and `timeSeriesData`.

Those methods are proved against specification functions. `FirstKeys`
gives the keys in first-encounter order, which is the order
`Object.entries` lists them. `Members` gives a key's records, and
`SortSpec` gives the stable sort.

Three sorts run an insertion sort in place on a copied array, proved equal
to `SortSpec`:

- the table's `[...filtered].sort(cmp)`;
- the dashboards' sorts of `Object.entries`;
- the fetch's `response.data.sort(cmp)` (frontend/src/pages/Dashboard.jsx:35).

The fetch sorts the response in place rather than a copy. Sorting a copy
gives the same list, because nothing reads the unsorted response again. JavaScript's sort is stable, and `SortSpec` is
proved to be:

- a permutation;
- ordered by the key;
- order-preserving among elements with equal keys.

Module layout:

- shared foundations: `Wrappers`, `Text`, `Numbers`, `Seqs`, `Records`,
  `StableSort`, `Aggregation`;
- one module per component file: `ExpenseTable`, `Dashboard`,
  `SummaryBar`, `StatusDashboard`, `Management`, `ExpenseForm`,
  `FileUploader`.

## Model

| member | source | states |
|---|---|---|
| Seqs.Toggle | frontend/src/components/ExpenseTable.jsx:23-28 | a selected option is removed (every copy), an unselected one is appended at the end; nothing else is added or lost |
| Seqs.ToggleTwiceRestores | frontend/src/components/ExpenseTable.jsx:23-28 | toggling an unselected option twice gives back exactly the original list |
| Seqs.ToggleTwiceMovesToEnd | frontend/src/components/ExpenseTable.jsx:23-28 | toggling a selected option twice moves it to the end of the list |
| Seqs.Filter | frontend/src/components/ExpenseTable.jsx:115 | `filter` returns only passing elements and never lengthens the list |
| Seqs.FilterMembers | frontend/src/components/ExpenseTable.jsx:115 | a value is in the filtered list exactly when it is in the input and passes |
| Seqs.FilterSelects | frontend/src/components/ExpenseTable.jsx:114-141 | a filter result is the elements at strictly increasing positions, exactly those whose element passes |
| Seqs.FilterKeepsAll | frontend/src/components/ExpenseTable.jsx:114-141 | a filter every element passes returns the list unchanged |
| Seqs.FilterCommutes | frontend/src/pages/Dashboard.jsx:106 | two filters give the same list in either order |
| Seqs.FindFirst | frontend/src/pages/Dashboard.jsx:45 | `find` returns the first element satisfying the test, and nothing exactly when no element does |
| Text.Lower | frontend/src/components/ExpenseTable.jsx:123 | lower-casing keeps the length and maps each character on its own |
| Text.ContainsIff | frontend/src/components/ExpenseTable.jsx:123 | `includes` holds exactly when the searched text occurs at some position |
| Text.EmptyFoundEverywhere | frontend/src/components/ExpenseTable.jsx:123 | an empty search text is found in every title, whatever its case |
| Text.StrLessIrreflexive | frontend/src/components/ExpenseTable.jsx:95 | the default string order never puts a string before itself |
| Text.StrLessTransitive | frontend/src/components/ExpenseTable.jsx:95 | the default string order is transitive |
| Text.StrLessTotal | frontend/src/components/ExpenseTable.jsx:95 | any two different strings are ordered one way or the other |
| Text.TrimEmptyIff | frontend/src/pages/Management.jsx:77 | `trim()` is empty exactly when the text is all white space |
| Text.AfterLast | frontend/src/components/ui/FileUploader.jsx:20 | `split('.').pop()` is the suffix after the last dot, has no dot, and is the whole name when there is no dot |
| Numbers.ParseInt | frontend/src/components/ExpenseFormModal.jsx:95-97 | `parseInt` is `NaN` exactly when no digit follows the leading white space and optional sign |
| Numbers.ParseDigits | frontend/src/components/ExpenseFormModal.jsx:95-97 | the digits after the sign give a number exactly when the first of them is a decimal digit |
| Numbers.ParseIntOfIntToString | frontend/src/components/ExpenseFormModal.jsx:31-33 | reading back the decimal text of an id gives the id |
| Records.LabelOr | frontend/src/pages/StatusDashboard.jsx:32 | `rel?.title \|\| fallback` is the title when present and non-empty, the fallback otherwise |
| Records.TotalAppend | frontend/src/components/SummaryBar.jsx:6-8 | the amount total of two lists joined is the sum of their totals |
| StableSort.StrictlyOrderedUnique | frontend/src/components/ExpenseTable.jsx:143-171 | two strictly ordered arrangements of the same elements are the same sequence |
| StableSort.DescendingReversesAscending | frontend/src/components/ExpenseTable.jsx:143-171 | when no two elements share a key, the descending sort is the ascending sort reversed, so flipping the direction reverses the rows |
| StableSort.SortSpecProperties | frontend/src/components/ExpenseTable.jsx:143-171 | the stable sort is a permutation, never puts an element after one it is strictly before, and keeps equal keys in input order |
| StableSort.SortSpecKeeps | frontend/src/components/SummaryBar.jsx:16 | sorting keeps the sum of any weight over the elements and keeps distinct labels distinct |
| StableSort.InsertInPlace | frontend/src/components/ExpenseTable.jsx:146 | one insertion step on the array places the next element as the stable insertion does and leaves the rest of the array alone |
| StableSort.SortInPlace | frontend/src/components/ExpenseTable.jsx:146 | sorting the array in place leaves it equal to the stable sort of its old contents |
| StableSort.Sort | frontend/src/components/ExpenseTable.jsx:144-170 | sorting a copy returns a permutation, ordered by the key, ties in input order, the input untouched |
| Aggregation.FirstKeysSpec | frontend/src/pages/Dashboard.jsx:74-79 | the object's keys are distinct and are exactly the keys of the records |
| Aggregation.FirstKeysOrder | frontend/src/pages/Dashboard.jsx:93 | keys are listed in the order of their first record |
| Aggregation.FirstKeysOrderAt | frontend/src/pages/Dashboard.jsx:93 | before any record of a later key there is a record of each earlier key |
| Aggregation.GroupBy | frontend/src/pages/Dashboard.jsx:72-82 | the grouping loop yields each key, in first-encounter order, with exactly its records in list order |
| Aggregation.SumBy | frontend/src/pages/StatusDashboard.jsx:30-34 | the summing loop yields each key, in first-encounter order, with the total amount of its records |
| Aggregation.TotalsAddUp | frontend/src/pages/Dashboard.jsx:94 | the per-key totals add up to the total of all records |
| Aggregation.GroupsPartition | frontend/src/pages/Dashboard.jsx:72-82 | the groups together hold every record exactly once |
| Aggregation.KeyTotalsFacts | frontend/src/pages/StatusDashboard.jsx:29-36 | the per-key totals name each record key once, each with its own total, and sum to the overall total |
| Aggregation.SortKeepsTotals | frontend/src/components/SummaryBar.jsx:16 | sorting the per-key totals keeps all of that |
| ExpenseTable.LeastExists | frontend/src/components/ExpenseTable.jsx:95 | every non-empty set of strings has a least element in the default order |
| ExpenseTable.SortedStrings | frontend/src/components/ExpenseTable.jsx:95 | `Array.from(set).sort()` lists exactly the set's strings, strictly ascending |
| ExpenseTable.GetUnique | frontend/src/components/ExpenseTable.jsx:88-96 | the options are sorted, duplicate-free, and exactly the non-empty titles of the records the filter accepts |
| ExpenseTable.TagOptions | frontend/src/components/ExpenseTable.jsx:104-110 | the tag options are sorted, duplicate-free, and exactly the tag titles present, the empty title included |
| ExpenseTable.UniqueValues | frontend/src/components/ExpenseTable.jsx:98-111 | categories and phases list every non-empty title, sub-categories only those of records in the chosen category (all when none is chosen), tags every tag title |
| ExpenseTable.SomeTagSelected | frontend/src/components/ExpenseTable.jsx:128 | `tags.some(...)` holds exactly when some tag title is among the selected ones |
| ExpenseTable.FilteredExpenses | frontend/src/components/ExpenseTable.jsx:114-141 | the table keeps, in order, exactly the records passing all nine clauses (inclusive bounds, unset criteria ignored) |
| ExpenseTable.NoFiltersKeepEverything | frontend/src/components/ExpenseTable.jsx:70-83 | with every criterion unset every record is kept, in order |
| ExpenseTable.UntaggedFailsTagFilter | frontend/src/components/ExpenseTable.jsx:127-129 | a record without tags fails any non-empty tag filter |
| ExpenseTable.SortedExpenses | frontend/src/components/ExpenseTable.jsx:143-171 | the rows are a permutation of the filtered list, non-decreasing on the key for `asc`, non-increasing for `desc`, ties in input order |
| ExpenseTable.VisibleRows | frontend/src/components/ExpenseTable.jsx:114-171 | the rows shown are exactly the passing records, sorted on the chosen column (non-decreasing for `asc`, non-increasing for `desc`) with equal keys in filtered order |
| ExpenseTable.HandleFilterChange | frontend/src/components/ExpenseTable.jsx:173-180 | a change sets only its own field, except that choosing a category also clears the sub-category |
| ExpenseTable.CategoryChangeDropsSubCategory | frontend/src/components/ExpenseTable.jsx:175-176 | after a category is chosen the table shows the records of that category matching the other criteria, whatever sub-category was chosen before |
| ExpenseTable.RequestSort | frontend/src/components/ExpenseTable.jsx:182-188 | the new key is the clicked one; the direction is `desc` exactly when that key was already sorted `asc` |
| ExpenseTable.FirstClickSortsAscending | frontend/src/components/ExpenseTable.jsx:85 | from the initial newest-first order, the first click on either header sorts that column ascending |
| ExpenseTable.RequestSortAgainFlips | frontend/src/components/ExpenseTable.jsx:182-188 | clicking the same header twice always flips the direction |
| Dashboard.LoadExpenses | frontend/src/pages/Dashboard.jsx:35 | the loaded list is the response, newest first, same-day records in server order |
| Dashboard.GroupLabel | frontend/src/pages/Dashboard.jsx:75-77 | the heading is the category title or "Uncategorized" in the category view, the phase title or "No Phase" otherwise, and never empty |
| Dashboard.GroupsMatchKeys | frontend/src/pages/Dashboard.jsx:93-94 | groups listing each key with its records concatenate and total as the keys' records do |
| Dashboard.GroupedExpenses | frontend/src/pages/Dashboard.jsx:72-82 | one non-empty group per distinct heading, in first-encounter order, each holding exactly its records in list order; together a permutation of the list, totals adding up to the list total |
| Dashboard.FilteringWithinGroup | frontend/src/pages/Dashboard.jsx:106 | a group's own table filter shows the filtered records carrying that heading, in order |
| Dashboard.ConfirmDelete | frontend/src/pages/Dashboard.jsx:44-51 | the dialog opens for the id, titled with the first matching record's title or "Expense" when none matches |
| Dashboard.RemoveExpense | frontend/src/pages/Dashboard.jsx:59 | deleting removes exactly the records with that id and keeps the others in order |
| Dashboard.RemoveAbsentIdKeepsList | frontend/src/pages/Dashboard.jsx:59 | deleting an id no record has leaves the list unchanged |
| Dashboard.RemoveExpenseTotal | frontend/src/pages/Dashboard.jsx:59 | after a delete the invested total drops by exactly the removed records' amounts |
| SummaryBar.BreakdownFacts | frontend/src/components/SummaryBar.jsx:10-17 | the per-category totals sorted largest first still list each title once with its own total, summing to the invested total, with non-increasing amounts |
| SummaryBar.CategoryBreakdown | frontend/src/components/SummaryBar.jsx:10-17 | one entry per category title ("Uncategorized" when missing), each the total of its records, distinct titles, non-increasing amounts with ties in first-appearance order, summing to the invested total |
| StatusDashboard.ProcessData | frontend/src/pages/StatusDashboard.jsx:29-40 | one slice per title ("Uncategorized" when missing, for every relation), in first-appearance order, valued at its records' total, summing to the overall total |
| StatusDashboard.DailyTotalsFacts | frontend/src/pages/StatusDashboard.jsx:42-52 | the per-day totals sorted by date still list each day once with its own total, summing to the overall total, with strictly ascending dates |
| StatusDashboard.TimeSeries | frontend/src/pages/StatusDashboard.jsx:42-52 | one point per purchase date, valued at that day's total, strictly ascending by date, summing to the overall total |
| Management.SomeSubCategoryMatches | frontend/src/pages/Management.jsx:156 | `sub_categories.some(...)` holds exactly when some sub-category title contains the search text, ignoring case |
| Management.FilteredCategories | frontend/src/pages/Management.jsx:154-157 | keeps, in order, exactly the categories whose title or some sub-category title contains the search text, ignoring case |
| Management.FilteredLabels | frontend/src/pages/Management.jsx:159-165 | keeps, in order, exactly the phases (or tags) whose title contains the search text, ignoring case |
| Management.EmptySearchKeepsAll | frontend/src/pages/Management.jsx:154-165 | an empty search lists every category, phase and tag |
| Management.MatchingSubCategoryKeepsParent | frontend/src/pages/Management.jsx:156 | a search matching a sub-category keeps its parent category listed |
| Management.ToggleCategory | frontend/src/pages/Management.jsx:55-57 | flips only that category's flag; a never-toggled category becomes expanded |
| Management.ToggleCategoryTwice | frontend/src/pages/Management.jsx:55-57 | toggling a category twice shows every category as before |
| Management.OpenModal | frontend/src/pages/Management.jsx:61-68 | the dialog opens with the given type, data and initial text |
| Management.CloseModal | frontend/src/pages/Management.jsx:70-72 | the dialog is closed, with no type, no data and empty input |
| Management.RequestFor | frontend/src/pages/Management.jsx:80-107 | each type sends to its own collection, creates for the four add types and updates the item otherwise, with the title as typed; renaming a category sends back its existing description, and no other update carries one |
| Management.HandleModalSubmit | frontend/src/pages/Management.jsx:74-114 | blank input changes nothing; otherwise the type's request is sent (none without a type) and the dialog closes |
| Management.BlankInputIgnored | frontend/src/pages/Management.jsx:77 | input made only of white space is ignored, and other input is sent untrimmed |
| Management.ModalTitle | frontend/src/pages/Management.jsx:167-179 | "" exactly when there is no type; otherwise "Add " or "Edit " followed by the name of the collection the submission goes to ("Category", "Sub-Category", "Phase" or "Tag") |
| Management.ModalTitleIdentifiesKind | frontend/src/pages/Management.jsx:167-179 | two dialogs share a title exactly when they add, or edit, the same kind of item |
| Management.ModalTitleFollowsDialog | frontend/src/pages/Management.jsx:70-72 | a closed dialog has no title and an opened one always has one |
| ExpenseForm.NewForm | frontend/src/components/ExpenseFormModal.jsx:37-48 | a new form has empty title, amount, ids and notes, no tags, and today's date |
| ExpenseForm.IdField | frontend/src/components/ExpenseFormModal.jsx:31-33 | `rel?.id \|\| ''` is empty exactly for a missing relation or the id 0 |
| ExpenseForm.TagIds | frontend/src/components/ExpenseFormModal.jsx:34 | the prefilled tags are the expense's tag ids, in order |
| ExpenseForm.Prefill | frontend/src/components/ExpenseFormModal.jsx:26-36 | an edited expense fills title, amount and date, its relation ids or "", its tag ids, and its notes or "" |
| ExpenseForm.HandleChange | frontend/src/components/ExpenseFormModal.jsx:68-76 | a change sets only the named field, except that a category change also clears the sub-category |
| ExpenseForm.ToggleTag | frontend/src/components/ExpenseFormModal.jsx:78-87 | a chosen tag id is removed, another appended; no other field changes |
| ExpenseForm.ToggleTagTwiceRestores | frontend/src/components/ExpenseFormModal.jsx:78-87 | toggling an unchosen tag twice gives back the same form |
| ExpenseForm.OptionalId | frontend/src/components/ExpenseFormModal.jsx:96-97 | an empty id field is sent as `null`, a non-empty one as its parsed integer |
| ExpenseForm.ToPayload | frontend/src/components/ExpenseFormModal.jsx:92-99 | the payload parses the category id, sends empty sub-category and phase ids as `null`, and passes the other fields through |
| ExpenseForm.PrefillPayloadRoundTrip | frontend/src/components/ExpenseFormModal.jsx:26-99 | saving an edited expense untouched sends back its relation ids (`null` for missing ones), its tag ids and its amount |
| ExpenseForm.SubCategoryOptions | frontend/src/components/ExpenseFormModal.jsx:117-118 | the choices are the first category with the chosen id's sub-categories, and none when the id does not parse or matches no category |
| ExpenseForm.PrefilledSubCategoryOptions | frontend/src/components/ExpenseFormModal.jsx:117-118 | a form prefilled from an expense offers its own category's sub-categories |
| FileUploader.OnDrop | frontend/src/components/ui/FileUploader.jsx:6-9 | the new list is a prefix of old files then accepted ones, at most `maxFiles` long, with the old list kept whole when it fits |
| FileUploader.OnDropBounds | frontend/src/components/ui/FileUploader.jsx:7 | a drop onto a full list keeps only its first `maxFiles` files; a drop that fits keeps everything |
| FileUploader.RemoveFile | frontend/src/components/ui/FileUploader.jsx:13-17 | a valid position is cut out of the list; any other index leaves it unchanged |
| FileUploader.RemoveFileKeepsOthers | frontend/src/components/ui/FileUploader.jsx:15 | removal shortens the list by one and shifts only the later files |
| FileUploader.Extension | frontend/src/components/ui/FileUploader.jsx:20 | the extension is the lower-cased text after the last dot, has no dot, and is the whole lower-cased name when there is no dot |
| FileUploader.FileIcon | frontend/src/components/ui/FileUploader.jsx:19-25 | the image icon is chosen exactly for jpg, jpeg, png, gif and webp |
| FileUploader.FileIconIgnoresCase | frontend/src/components/ui/FileUploader.jsx:20 | the icon does not depend on the case of the file name |

## Left out

- Network calls (`api.get/post/put/delete`), the `async` fetch and submit bodies, their error branches and notifications are not modelled. A fetch's response is a parameter, and a submission is modelled as succeeding.
- Rendering, currency formatting, the click-outside listener of the multi-select, theme and notification contexts are not modelled.
- Amounts are integer cents rather than floating-point numbers. `Number(...) || 0` at frontend/src/pages/Dashboard.jsx:94 therefore never applies, and `NaN` from `Number` or `parseFloat` is not modelled.
- ExpenseTable.FilteredExpenses: a non-numeric amount bound (typed text that `Number` turns into `NaN`, which rejects every record) is not representable; a bound is either unset or a number.
- Dates are day numbers; `new Date` string parsing is not modelled.
- ExpenseTable.SortedStrings: strings are compared by Unicode scalar value, not UTF-16 code unit, so names with characters outside the Basic Multilingual Plane may order differently.
- Text.Lower: lower-casing covers ASCII letters only.
- Text.TrimEmptyIff, Management.HandleModalSubmit, Numbers.ParseInt: the white space that `trim` and `parseInt` skip is modelled as the ASCII white space, the no-break space (U+00A0) and the byte order mark (U+FEFF). JavaScript also skips U+1680, U+2000 to U+200A, U+2028, U+2029, U+202F, U+205F and U+3000, and the model treats these as ordinary characters.
- Aggregation.GroupBy, Aggregation.SumBy: keys are listed in first-encounter order; JavaScript lists integer-like string keys (such as a category named "2024") first, in numeric order, which is not modelled.
- Aggregation.GroupBy: a heading equal to an `Object.prototype` property name ("constructor", "toString", "__proto__", ...) is treated as an ordinary key. In the source, `!groups[key]` is then false for the inherited property, and the following `push` throws (frontend/src/pages/Dashboard.jsx:78-79). For `__proto__`, `groups[key]` is `Object.prototype`, which is truthy, so the push throws in the same way.
- Aggregation.SumBy: for such a title the source adds the amount to the inherited value, giving a string rather than a number, and a `__proto__` entry is dropped; the model gives every title an ordinary total.
- Dashboard.GroupedExpenses: inherits the GroupBy limitation for category and phase titles that are `Object.prototype` property names.
- SummaryBar.CategoryBreakdown: inherits the SumBy limitation (frontend/src/components/SummaryBar.jsx:14).
- StatusDashboard.ProcessData: inherits the SumBy limitation (frontend/src/pages/StatusDashboard.jsx:33).
- Numbers.ParseInt: the `0x` hexadecimal prefix `parseInt` accepts without a radix is not modelled; ids are decimal.
- Management.HandleModalSubmit: the dialog's type and data are one datatype, so a type opened with data of the wrong shape is not representable.
- `processData` without a nested key (frontend/src/pages/StatusDashboard.jsx:32, second branch) is never called and is not modelled.
- `Records.Expense` and the form keep the fields the view layer reads; description fields and file attachments are opaque or omitted.
