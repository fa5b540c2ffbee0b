# Employee and department admin: a Dafny model

This project models the statable logic of a React and Django CRUD admin for departments
and employees. It covers five parts:

- **The two list screens, in both UI versions.** The styled UI is `ui/tailwind-project` and the original UI is `ui/my-app`. Each screen keeps the list as last fetched and the rows it displays. The rows come from the fetched list by a filter, by a sort that always restarts from the fetched list, or by a drag that splices a copy of the list.
- **The edit draft of each screen.** Add resets the draft to the unsaved id `0`. Edit copies a record. A change overwrites one named field. Save picks POST or PUT by the id. A photo upload either replaces the file name or leaves the draft alone.
- **The pure helpers of the styled UI.** These are search filtering, sorting by a field, image URLs, word capitalisation and the e-mail check.
- **Shared UI state.** This is the application reducer with its notification list, and the sort toggle of the shared table.
- **The computed columns of the Django admin.** These are the tenure badge with its floor arithmetic, the plural labels and the photo cell.

JavaScript is modelled in Dafny's terms:

- Strings are `seq<char>`.
- Numbers are integers.
- `toLowerCase`, `toUpperCase`, `trim`, `includes` and `Number#toString` are defined in `JsText`.
- `Array#filter` and the two-`splice` move are in `Seqs`. The move is also given as an in-place array method.
- `Array#sort` with the screens' comparator is a stable insertion sort in `Ordering`.

Network responses are parameters of the handlers. A failed `fetch`, or a failed `.json()`, is `None`, and an accepted save is a `saved` flag.

The screens are classes. Their fields are the components' state variables, and each handler is a method. A method's `ensures` states the whole new state of the fields the model keeps; the state it leaves out is listed under "Left out". Where React re-runs an effect, the method runs it too: the styled Department screen re-filters whenever the fetched list or a filter changes.

The old Department screen runs `filterFn` inside the input handler, right after `setState`. There the closure still sees the filter value from before the keystroke. `LegacyDepartmentScreen` reproduces this: its filter handlers filter with `old(...)` values.

Where the old and the new screens differ, a lemma relates them:

- the old AND-filter against the new guarded filter;
- the old save path against the new one.

Files:

- `wrappers.dfy`, `seqs.dfy`, `jstext.dfy`, `ordering.dfy` and `records.dfy` hold the shared vocabulary.
- `department_page.dfy` and `employee_page.dfy` model the styled screens.
- `legacy_department.dfy` and `legacy_employee.dfy` model the original screens.
- `helpers.dfy`, `appcontext.dfy`, `table.dfy` and `admin.dfy` model the rest.

## Model

Paths under `ui/tailwind-project/src/` are the styled UI, paths under `ui/my-app/src/` the original UI. A function that only computes an operation (for example `AppContext.Reduce`, `Admin.TenureDisplay` or `SortTable.HandleSort`) has no row of its own. The rows of the lemmas that name it state what it promises.

| member | source | states |
|---|---|---|
| Seqs.FilterIsSubsequence | ui/tailwind-project/src/pages/Department.js:300-319 | `Array#filter` keeps an order-preserving subsequence, every kept element is from the input, and every input element passing the test is kept |
| Seqs.FilterMultiplicity | ui/tailwind-project/src/pages/Department.js:300-319 | `Array#filter` keeps each passing value exactly as often as the input holds it, and no failing value |
| Seqs.FilterAllTrue | ui/tailwind-project/src/pages/Department.js:300-319 | a filter every element passes returns the list unchanged |
| Seqs.FilterThenFilter | ui/tailwind-project/src/pages/Department.js:303-316 | two successive filters are one filter by the conjunction |
| Seqs.FilterIdempotent | ui/tailwind-project/src/context/AppContext.js:67-73 | filtering twice by the same test is filtering once |
| Seqs.SubsequenceSubMultiset | ui/tailwind-project/src/pages/Department.js:300-319 | a subsequence holds no element more often than the list it came from |
| Seqs.FilterAppend | ui/tailwind-project/src/context/AppContext.js:58-73 | filtering distributes over concatenation |
| Seqs.Position | ui/tailwind-project/src/pages/Employee.js:648-653 | the index in the full list of the k-th row of a filtered view: it passes the test, k passing elements precede it, and it is the view's row k |
| Seqs.FilterOfMoved | ui/tailwind-project/src/pages/Employee.js:457-468 | moving the full-list rows behind two view rows moves exactly those rows within the view |
| Seqs.MovedIsPermutation | ui/tailwind-project/src/pages/Department.js:484-493 | the two-splice move is a permutation that puts the dragged row at the hover index |
| Seqs.MovedAt | ui/tailwind-project/src/pages/Department.js:484-493 | the element at every index after the move, by cases on the index |
| Seqs.MoveInPlace | ui/tailwind-project/src/pages/Department.js:486-490 | the two `splice` calls done in place on an array leave it equal to the move of its old contents |
| Seqs.SpliceMove | ui/tailwind-project/src/pages/Department.js:484-493 | the move done on a fresh copy returns the moved list |
| JsText.TrimEmpty | ui/tailwind-project/src/pages/Department.js:304 | `trim()` gives the empty string exactly for all-white-space input |
| JsText.TrimNoSpace | ui/tailwind-project/src/pages/Department.js:304-306 | a string without white space is its own `trim()` |
| JsText.IncludesIffOccurs | ui/tailwind-project/src/pages/Department.js:305-316 | `includes` holds exactly when the needle occurs at some index |
| JsText.NatToStringDecimal | ui/tailwind-project/src/pages/Department.js:306 | `toString()` of a natural number is its canonical decimal numeral: digits only, no leading zero, and it reads back as the number |
| JsText.IntToStringSign | ui/tailwind-project/src/pages/Department.js:306 | a numeral starts with `-` exactly for a negative number |
| JsText.IntToStringInjective | ui/tailwind-project/src/pages/Department.js:385-386 | different integers have different numerals |
| JsText.DigitsOnly | ui/tailwind-project/src/pages/Department.js:476 | `replace(/[^0-9]/g, "")` leaves only digits, in their order, one for each digit of the input |
| Ordering.StrLessTransitive | ui/tailwind-project/src/pages/Department.js:332-335 | string `<` is transitive |
| Ordering.StrLessTotal | ui/tailwind-project/src/pages/Department.js:332-335 | of two different strings one is `<` the other |
| Ordering.CompareThreeWay | ui/tailwind-project/src/pages/Department.js:332-335 | on keys of one kind the comparator returns -1, 0 or 1, returns 0 only for equal keys, is antisymmetric, and descending is ascending with its arguments swapped |
| Ordering.InOrderTransitive | ui/tailwind-project/src/pages/Department.js:332-335 | the comparator's order is transitive |
| Ordering.SortBySorted | ui/tailwind-project/src/pages/Department.js:331-337 | the sort of keys of one kind is ordered by the comparator |
| Ordering.SortByOfSorted | ui/tailwind-project/src/pages/Department.js:331-337 | the stable sort leaves an already ordered list as it is |
| Ordering.SortByIdempotent | ui/tailwind-project/src/pages/Department.js:331-337 | sorting twice is sorting once |
| Records.SetField | ui/tailwind-project/src/pages/Employee.js:311-317 | `{...prev, [name]: value}` sets the named field, keeps the other fields and keeps the id |
| Records.FieldsDetermineEmployee | ui/tailwind-project/src/pages/Employee.js:311-317 | a draft is determined by its id and its four fields |
| Records.SetFieldLaws | ui/tailwind-project/src/pages/Employee.js:311-317 | setting a field to its own value changes nothing, and the last of two settings wins |
| Records.NewDraft | ui/tailwind-project/src/pages/Employee.js:319-330 | a fresh draft has the unsaved id `0`, empty name, department and joining date, and the given default photo |
| DepartmentPage.FilterDepartmentsSpec | ui/tailwind-project/src/pages/Department.js:300-319 | `filterFn` equals one filter by the conjunction of the active filters. Its rows are exactly the fetched rows passing every non-blank filter, in fetched order and as often as fetched, and blank filters show the whole list |
| DepartmentPage.FilterDepartmentsIsOneFilter | ui/tailwind-project/src/pages/Department.js:300-319 | the two guarded filter passes equal one pass with the guarded conjunction |
| DepartmentPage.FilterSamePredicate | ui/tailwind-project/src/pages/Department.js:300-319 | two tests that agree everywhere filter alike |
| DepartmentPage.DigitFilterNeedsNoTrim | ui/tailwind-project/src/pages/Department.js:304-306 | an id filter of digits is unchanged by `trim()` |
| DepartmentPage.SortDepartmentsSpec | ui/tailwind-project/src/pages/Department.js:331-337 | the sorted rows are a permutation of the fetched list, not of the rows on screen. They are non-decreasing ascending and non-increasing descending by id or by name, and sorting is idempotent |
| DepartmentPage.DepartmentSaveRequest | ui/tailwind-project/src/pages/Department.js:353-416 | nothing is sent exactly when the name is blank, because the button is disabled at lines 895-910. Otherwise a POST of the name to `department` exactly when the id is 0, else a PUT of id and name to `department/<id>` |
| DepartmentPage.UpdatePathNamesRecord | ui/tailwind-project/src/pages/Department.js:385-386 | two update paths are equal only for the same id |
| DepartmentPage.DepartmentScreen.constructor | ui/tailwind-project/src/pages/Department.js:258-267 | the initial state: empty lists (departments and employees) and filters, the draft id 0, the modal closed, loading |
| DepartmentPage.DepartmentScreen.FilterFn | ui/tailwind-project/src/pages/Department.js:300-329 | the rows on screen become `filterFn` of the fetched list and current filters, and every row shown stays a fetched row |
| DepartmentPage.DepartmentScreen.RefreshList | ui/tailwind-project/src/pages/Department.js:282-298 | loading ends cleared whatever the outcome. When the department fetch succeeds, both department lists take the data and the filter effect re-derives the rows; otherwise they are unchanged. The employee list changes only when both fetches succeed |
| DepartmentPage.DepartmentScreen.HandleFilterChange | ui/tailwind-project/src/pages/Department.js:471-482 | the id filter keeps only the digits typed and the name filter the raw text. The other filter is unchanged. The rows are re-filtered with the new value exactly when the stored value changed |
| DepartmentPage.DepartmentScreen.SortResult | ui/tailwind-project/src/pages/Department.js:331-337 | the rows become the sorted fetched list, dropping any filter or reorder |
| DepartmentPage.DepartmentScreen.MoveRow | ui/tailwind-project/src/pages/Department.js:484-493 | the rows on screen become the two-splice move of the old rows; the fetched list is untouched |
| DepartmentPage.DepartmentScreen.HandleAddClick | ui/tailwind-project/src/pages/Department.js:339-344 | an empty draft with id 0, the modal open, and the save button disabled |
| DepartmentPage.DepartmentScreen.HandleEditClick | ui/tailwind-project/src/pages/Department.js:346-351 | the draft takes the clicked department's id and name, and the modal opens |
| DepartmentPage.DepartmentScreen.SetDepartmentName | ui/tailwind-project/src/pages/Department.js:847 | the name input sets the draft's name |
| DepartmentPage.DepartmentScreen.HandleSaveClick | ui/tailwind-project/src/pages/Department.js:353-416 | the request sent is the save request of the draft. An accepted save closes the modal and refetches, ending not loading; otherwise only a toast is shown and the state is unchanged |
| EmployeePage.GetPhotoUrlSpec | ui/tailwind-project/src/pages/Employee.js:205-210 | the row's photo URL agrees with the `getImageUrl` helper for the same name. It lies under the photo base URL and falls back to the anonymous photo exactly when the admin shows a placeholder |
| EmployeePage.MatchesIffFound | ui/tailwind-project/src/pages/Employee.js:465-468 | the search test holds exactly when the lower-cased text occurs in the lower-cased name or department |
| EmployeePage.FilterEmployeesSpec | ui/tailwind-project/src/pages/Employee.js:465-468 | `filteredEmployees` is an order-preserving subsequence of the employees holding exactly those found by the search, each as often as fetched, and the empty search shows everyone |
| EmployeePage.EmployeeSaveRequestSpec | ui/tailwind-project/src/pages/Employee.js:349-354 | a save POSTs exactly the drafts with id 0 and sends the whole draft. No update goes to the create path, and two update paths are equal only for the same id |
| EmployeePage.MovedInViewSpec | ui/tailwind-project/src/pages/Employee.js:457-468 | the corrected drag reorders the rows on screen exactly as dragged and keeps the same employees |
| EmployeePage.DragMovesWrongRow | ui/tailwind-project/src/pages/Employee.js:457-463 | with a search active, the drag as written can move a row that is not on screen, leaving the rows on screen unchanged |
| EmployeePage.DragWithoutSearchIsIntended | ui/tailwind-project/src/pages/Employee.js:457-468 | with an empty search, the drag as written reorders the rows on screen as dragged |
| EmployeePage.EmployeeScreen.constructor | ui/tailwind-project/src/pages/Employee.js:262-279 | the initial state: empty lists and search, a fresh draft naming `anonymous.jpg`, the preview at the base URL, loading |
| EmployeePage.EmployeeScreen.SetEmployeeFilter | ui/tailwind-project/src/pages/Employee.js:608 | the search input sets the search text, and the rows on screen become the search of the employees |
| EmployeePage.EmployeeScreen.RefreshList | ui/tailwind-project/src/pages/Employee.js:290-305 | employees are stored when their fetch succeeds. Departments are stored only when both fetches succeed, and loading ends either way |
| EmployeePage.EmployeeScreen.HandleChange | ui/tailwind-project/src/pages/Employee.js:311-317 | the named field of the draft takes the value |
| EmployeePage.EmployeeScreen.HandleAddClick | ui/tailwind-project/src/pages/Employee.js:319-330 | a fresh draft that a save will POST, the anonymous photo previewed, and the modal open |
| EmployeePage.EmployeeScreen.HandleEditClick | ui/tailwind-project/src/pages/Employee.js:332-347 | the draft equals the clicked employee, and the preview is the same URL the row shows |
| EmployeePage.EmployeeScreen.HandleSaveClick | ui/tailwind-project/src/pages/Employee.js:349-387 | the request sent is the save request of the draft. An accepted save resets the preview to the base URL, refetches and closes the modal; a rejected one changes nothing |
| EmployeePage.EmployeeScreen.HandleImageUpload | ui/tailwind-project/src/pages/Employee.js:435-455 | a successful upload sets only the draft's photo and previews it; a failed one changes nothing |
| EmployeePage.EmployeeScreen.MoveRow | ui/tailwind-project/src/pages/Employee.js:457-463 | as written: the full list is moved at the indices of the rows on screen, keeping the same employees |
| EmployeePage.EmployeeScreen.MoveRowInView | ui/tailwind-project/src/pages/Employee.js:457-468 | corrected: the rows on screen become the dragged reorder of the old rows on screen, keeping the same employees |
| LegacyDepartmentPage.LegacyFilterSpec | ui/my-app/src/Department.js:28-34 | the old filter keeps an order-preserving subsequence; every kept row passes both tests, every fetched row that passes both is kept as often as fetched, and blank filters keep everything |
| LegacyDepartmentPage.TrimLowerBlank | ui/my-app/src/Department.js:30-31 | a filter is blank after `toLowerCase().trim()` exactly when it is blank after `trim()` |
| LegacyDepartmentPage.LowerOfNumeral | ui/my-app/src/Department.js:30 | lower-casing an id's numeral changes nothing |
| LegacyDepartmentPage.DigitFilterUnchanged | ui/my-app/src/Department.js:30 | an id filter of digits is unchanged by `toLowerCase().trim()` |
| LegacyDepartmentPage.LegacyAgreesWithStyled | ui/my-app/src/Department.js:28-34 | for an id filter of digits, the old unguarded AND-filter keeps the same rows as the styled screen's guarded filter |
| LegacyDepartmentPage.LegacySaveRequestSpec | ui/my-app/src/Department.js:56-93 | the old screen POSTs exactly the drafts with id 0 (the choice is at line 294), always to `department`, with the id of an update in the body. For a non-blank name it sends the styled screen's method and body |
| LegacyDepartmentPage.FilterLagsOneKeystroke | ui/my-app/src/Department.js:132-135 | typing into a filter still shows the rows of the previous filter value |
| LegacyDepartmentPage.LegacyDepartmentScreen.constructor | ui/my-app/src/Department.js:5-11 | the initial state: empty lists, filters and draft |
| LegacyDepartmentPage.LegacyDepartmentScreen.RefreshList | ui/my-app/src/Department.js:17-26 | on success both lists take the data unfiltered; on failure nothing changes |
| LegacyDepartmentPage.LegacyDepartmentScreen.OnIdFilterInput | ui/my-app/src/Department.js:132-135 | the id filter takes the value typed, but the rows are filtered with the id filter from before the keystroke |
| LegacyDepartmentPage.LegacyDepartmentScreen.OnNameFilterInput | ui/my-app/src/Department.js:177-180 | the name filter takes the value typed, but the rows are filtered with the name filter from before the keystroke |
| LegacyDepartmentPage.LegacyDepartmentScreen.FilterFn | ui/my-app/src/Department.js:28-34 | the rows become the old filter of the fetched list with the captured filter values |
| LegacyDepartmentPage.LegacyDepartmentScreen.SortResult | ui/my-app/src/Department.js:36-42 | the rows become the fetched list sorted exactly as on the styled screen |
| LegacyDepartmentPage.LegacyDepartmentScreen.HandleAddClick | ui/my-app/src/Department.js:44-48 | an empty draft with id 0, which a save creates |
| LegacyDepartmentPage.LegacyDepartmentScreen.HandleEditClick | ui/my-app/src/Department.js:50-54 | the draft takes the clicked department's id and name |
| LegacyDepartmentPage.LegacyDepartmentScreen.SetDepartmentName | ui/my-app/src/Department.js:288 | the name input sets the draft's name |
| LegacyDepartmentPage.LegacyDepartmentScreen.HandleSaveClick | ui/my-app/src/Department.js:56-93 | the request is the old save request of the draft. The list is refetched only after the server answered |
| LegacyEmployeePage.LegacySaveRequestSpec | ui/my-app/src/Employee.js:65-82 | the old screen POSTs exactly the drafts with id 0, always to `employee` with the whole draft. The styled screen sends the same method and body, and the same path exactly for a create |
| LegacyEmployeePage.LegacyEmployeeScreen.constructor | ui/my-app/src/Employee.js:5-15 | the initial state: empty lists, a fresh draft naming `anonymous.png`, and the preview base URL |
| LegacyEmployeePage.LegacyEmployeeScreen.RefreshList | ui/my-app/src/Employee.js:17-29 | employees are stored when their fetch succeeds, and departments only when both fetches succeed |
| LegacyEmployeePage.LegacyEmployeeScreen.HandleChange | ui/my-app/src/Employee.js:35-41 | the named field of the draft takes the value |
| LegacyEmployeePage.LegacyEmployeeScreen.HandleAddClick | ui/my-app/src/Employee.js:43-52 | a fresh draft with id 0 naming `anonymous.png`, which a save will POST |
| LegacyEmployeePage.LegacyEmployeeScreen.HandleEditClick | ui/my-app/src/Employee.js:54-63 | the draft equals the clicked employee, and the preview shows its photo |
| LegacyEmployeePage.LegacyEmployeeScreen.HandleSaveClick | ui/my-app/src/Employee.js:65-82 | the request is the old save request of the draft. The lists are refetched only after the server answered |
| LegacyEmployeePage.LegacyEmployeeScreen.HandleImageUpload | ui/my-app/src/Employee.js:103-121 | a successful upload sets only the draft's photo and the preview shows it; a failed one leaves the draft as it was |
| Helpers.AnyFieldMatchesIff | ui/tailwind-project/src/utils/helpers.js:91-93 | `some` over the search fields holds exactly when one listed field matches |
| Helpers.FilterBySearchSpec | ui/tailwind-project/src/utils/helpers.js:86-95 | an empty term returns the array. Otherwise the result is an order-preserving subsequence holding exactly the items with a truthy field whose string contains the lower-cased term, each as often as in the array |
| Helpers.SortByFieldSpec | ui/tailwind-project/src/utils/helpers.js:104-115 | for a field of one kind, the sort is a permutation ordered ascending or descending, and sorting again changes nothing |
| Helpers.GetImageUrl | ui/tailwind-project/src/utils/helpers.js:123-126 | the URL starts with the base URL, followed by the file name, or by the default photo when the name is empty |
| Helpers.RunLength | ui/tailwind-project/src/utils/helpers.js:74 | the length of the `\S*` run at the start of a string: no white space inside it, and white space right after it |
| Helpers.CapitalizeWords | ui/tailwind-project/src/utils/helpers.js:72-77 | capitalising keeps the length, and the empty string gives the empty string |
| Helpers.CapitalizeIsScan | ui/tailwind-project/src/utils/helpers.js:72-77 | the run-by-run replacement equals a one-pass scanner: a word character outside a word is upper-cased and starts a word, and letters inside a word are lower-cased up to the next white space |
| Helpers.IsValidEmailIff | ui/tailwind-project/src/utils/helpers.js:62-65 | the e-mail pattern matches exactly when the text has no white space, exactly one `@` with text before it, and after it a `.` with text on both sides |
| Helpers.EmailExamples | ui/tailwind-project/src/utils/helpers.js:62-65 | `a@b.c` is accepted; `a@b`, `@b.c`, `a@.c` and `a b@c.d` are rejected |
| AppContext.InitialStateSpec | ui/tailwind-project/src/context/AppContext.js:4-10 | no user, the dark theme, no notifications, not loading, no error |
| AppContext.SetLoadingFrame | ui/tailwind-project/src/context/AppContext.js:27-31 | `SET_LOADING` changes only `loading`, and setting it to its value changes nothing |
| AppContext.SetErrorFrame | ui/tailwind-project/src/context/AppContext.js:33-38 | `SET_ERROR` records the error and stops loading; nothing else changes |
| AppContext.ClearErrorFrame | ui/tailwind-project/src/context/AppContext.js:40-44 | `CLEAR_ERROR` clears only the error, and undoes `SET_ERROR` except for the loading flag |
| AppContext.SetUserAndThemeFrame | ui/tailwind-project/src/context/AppContext.js:46-56 | `SET_USER` and `SET_THEME` change only their field |
| AppContext.AddNotificationAppends | ui/tailwind-project/src/context/AppContext.js:58-65 | one entry is appended, carrying the payload's id if it has one and the clock otherwise, and the payload's message, type, duration and timestamp; the rest is unchanged |
| AppContext.RemoveNotificationSpec | ui/tailwind-project/src/context/AppContext.js:67-73 | removal keeps, in order, exactly the entries with another id, as many as there are; removing twice is removing once |
| AppContext.RemoveNotificationCounts | ui/tailwind-project/src/context/AppContext.js:67-73 | removal keeps each entry with another id as often as it was stored, and none with the given id |
| AppContext.RemoveUndoesAdd | ui/tailwind-project/src/context/AppContext.js:58-73 | removing by the id an addition assigned restores the list, when that id was not in use |
| AppContext.ClearAndUnknown | ui/tailwind-project/src/context/AppContext.js:75-83 | `CLEAR_NOTIFICATIONS` empties the list, and an unknown action returns the state |
| AppContext.IdsDefinedPreserved | ui/tailwind-project/src/context/AppContext.js:25-84 | every action keeps every stored id defined, starting from the initial state, so removing by `undefined` removes nothing |
| AppContext.ShowNotificationNeverRemoved | ui/tailwind-project/src/context/AppContext.js:126-139 | as written, the notification shown is still in the list after the timer fires |
| AppContext.ShowNotificationRemoved | ui/tailwind-project/src/context/AppContext.js:126-139 | corrected: after the timer fires the list is as before the call |
| SortTable.HandleSortSpec | ui/tailwind-project/src/components/common/Table.js:24-32 | nothing is emitted exactly when sorting is off. Otherwise the clicked column is emitted, descending exactly when it was the current column sorted ascending |
| SortTable.ClickToggles | ui/tailwind-project/src/components/common/Table.js:24-32 | a click on the current column flips its direction |
| SortTable.ClicksAlternate | ui/tailwind-project/src/components/common/Table.js:24-32 | repeated clicks on one header alternate: period two, with opposite directions on consecutive clicks |
| SortTable.IconAfterClick | ui/tailwind-project/src/components/common/Table.js:34-41 | after a click the clicked column shows the arrow of its new direction and every other column the neutral icon |
| SortTable.GetSortIcon | ui/tailwind-project/src/components/common/Table.js:34-41 | no icon exactly when the table is not sortable. When it is sortable: on the current column, the up arrow for ascending and the down arrow for descending; with no sort set, or on any other column, the neutral icon |
| SortTable.HeaderRow | ui/tailwind-project/src/components/common/Table.js:87-111 | one header cell per column in order, then "Actions" when there are actions |
| SortTable.EmptyRowSpansHeader | ui/tailwind-project/src/components/common/Table.js:115-118 | the empty-data row spans exactly the header row |
| Admin.TenureParts | api/DjangoAPI/EmployeeApp/admin.py:149-150 | the floor quotients split the days into whole years, months between 0 and 12, and fewer than 30 days left over |
| Admin.TenureColors | api/DjangoAPI/EmployeeApp/admin.py:145-160 | for a past joining date the colour is blue from 730 days, orange from 365, green from 30, and purple below 30 with the raw day count |
| Admin.TenureTexts | api/DjangoAPI/EmployeeApp/admin.py:152-160 | the text names years only when there is one, otherwise the months, and otherwise the days |
| Admin.FutureJoinDate | api/DjangoAPI/EmployeeApp/admin.py:145-160 | a future joining date never shows years: 10 days ahead reads "11m", 365 days ahead reads "-365d" |
| Admin.LabelsPlural | api/DjangoAPI/EmployeeApp/admin.py:47-48 | both labels end in `s` exactly when the count is not one |
| Admin.EmployeeCountSpec | api/DjangoAPI/EmployeeApp/admin.py:39-53 | the link is shown exactly when there are employees. It filters the changelist by the department name, and its label is plural unless the count is one |
| Admin.EmployeePhotoSpec | api/DjangoAPI/EmployeeApp/admin.py:99-112 | the image is shown exactly for a stored, non-default file name, and its source is that file under `/Photos/` |

## Left out

- The network: every `fetch` and `.json()` result is a parameter of the handler that awaits it. A failure is `None` or `saved == false`. The order of the awaits is kept, but not their interleaving with other events.
- Toasts, `alert`, `console.error`, modal titles, timers, the delete confirmation state and the delete handlers are left out. They change no state that the model keeps, apart from the delete confirmations, which only refetch.
- The styled Department screen's employee list is modelled as state, but the "Total Employees" card that shows its length (`ui/tailwind-project/src/pages/Department.js:603-605`) is rendering and is not modelled.
- `js/Variables.js` is not part of this model. The styled Employee screen's `PhotoUrl` takes the `PHOTO_URL` value of `constants/index.js:9`. The original Employee screen takes the base URL as a constructor parameter.
- Drag geometry: the hover handler's bounding-box test decides whether `moveRow` is called at all. That decision is not modelled; the model takes the indices `moveRow` receives.
- Case mapping is ASCII only. Characters are code points, not UTF-16 code units, so string order differs from JavaScript's only for characters outside the Basic Multilingual Plane.
- JavaScript numbers are integers here. Floating-point ids, dates and `Date.now()` are taken as given integers.
- A `null` or `undefined` search term, file name or string argument of the helpers is represented by `""`: the `!x` guards of `ui/tailwind-project/src/utils/helpers.js:73`, `:87` and `:124` treat all three alike. `null` and `undefined` item field values are the `Value` datatype of the helpers. On the screens a missing file name is the empty string.
- The `timestamp` of a notification is the text `new Date().toISOString()` returns, taken as a parameter; no clock is modelled.
- A notification payload that carries an explicit `id: undefined` is not distinguished from one with no `id` field.
- Helpers.SortByFieldSpec: proved only for a field whose values are all numbers or all strings. For mixed kinds, JavaScript's coercing `>` makes the comparator inconsistent, and the engine's order is implementation-defined.
- Helpers.CapitalizeWords: its own contract gives only the length and the empty case; the contents are stated through Helpers.CapitalizeIsScan.
- Django's `reverse`, `format_html` and markup, and `date.today()`, are left out. The admin functions take the changelist URL, the employee count and the day count as parameters.
- The other helpers (`formatDate`, `calculateDaysSinceJoining`, `generateId`, `debounce`) and the hooks and services are not part of this model.
- SortTable.HandleSort: the column's own `sortable: false` flag is modelled by passing `sortable` as false for that column.

## Findings

| source | as written | input that shows it | evidently intended | confidence | as-written member | corrected member |
|---|---|---|---|---|---|---|
| ui/tailwind-project/src/context/AppContext.js:126-139 | the timer removes by `notification.id` of the local object, which never has an `id`; the reducer assigned `Date.now()` to the stored copy only | any `showNotification(message)` call: after `duration` the notification is still listed | the notification is removed after `duration` | high; not executed | AppContext.ShowNotificationNeverRemoved | AppContext.ShowNotificationRemoved |
| ui/tailwind-project/src/pages/Employee.js:457-463 | `moveRow` splices `employees` at indices of `filteredEmployees` (rows at lines 648-653) | employees Ann, Bob, Amy, search "a"; drag row 1 (Amy) onto row 0: Bob is moved and the screen still shows Ann, Amy | the screen shows Amy, Ann | high; not executed | EmployeePage.DragMovesWrongRow | EmployeePage.MovedInViewSpec |
