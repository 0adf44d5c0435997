# GPA-Giggles: a Dafny model of the GPA pipeline

GPA-Giggles is a React Native app. A student enters a roll number and picks a department, a semester and two optional elective categories (OEC and H&M). The app resolves the course list from a static catalog and collects one letter grade per course. It computes the credit-weighted GPA and stores it in AsyncStorage under `cgpa_data_<roll number>`. A results screen lists the stored roll numbers. For each one it shows the saved semesters and a per-semester average with an overall average. A semester or a whole roll number can be deleted there.

This project models that pipeline in Dafny, one module per source file:

- `Getcgpa` (app/Getcgpa.tsx) covers:
  - the grade table;
  - the GPA loop, proved against a tally over the course list;
  - course resolution with the elective categories;
  - the selection map;
  - the read-modify-write save.
- `RollNumberDetails` (components/RollNumberDetails.tsx) covers:
  - loading a record and deleting a semester;
  - the display filter;
  - the two aggregation loops, proved against the mean of a per-semester column;
  - the overall mean.
- `ViewResults` (app/Viewresults.tsx) covers the roll-number list, its removal and the selection state.
- `DeptInput` (components/Deptinput.tsx with context/DeptContext.tsx folded in) covers the selection form and its reset effect.
- `GetDept` (app/Getdept.tsx) covers the ordered required-field check and the alert state.
- Shared modules:
  - `Catalog` holds the catalog types and the first-match lookups.
  - `Records` holds the stored record and storage as an in-memory map.
  - `JsText` holds the JavaScript `trim`, `parseInt`, `Number` and `toString` behaviour the screens rely on.
  - `Wrappers` holds `Option`.

The screens' state lives in classes: `GpaScreen`, `ResultView`, `ResultsScreen`, `DeptForm` and `HomeScreen`. AsyncStorage is a `Store` object whose `items` map the handlers change in place. The GPA and the averages are exact `real`s.

Where the code's apparent intent and what it does differ, the model follows what it does:

- `calculateCGPA` passes the department to `saveData` (app/Getcgpa.tsx:99), which suggests a result filed under its department. `saveData` never reads it, and always writes under the literal top-level key `"semesters"` (app/Getcgpa.tsx:117-128). The result view, which reads top-level keys as departments (components/RollNumberDetails.tsx:122, 148), then shows `"semesters"` as a department (`SavedSemesterDisplayed`).
- The result view hides semesters with no courses (components/RollNumberDetails.tsx:72, 153-157), yet `aggregateCGPABySemester` averages every leaf (components/RollNumberDetails.tsx:122-128). So a hidden semester still moves the averages (`HiddenLeafStillAveraged`).
- `saveData` catches a storage error and only logs it (app/Getcgpa.tsx:132-134). `SaveData` therefore leaves storage unchanged and returns no status, while the screen already shows the new GPA.
- `handleDeleteSemester` updates the view's state before the write (components/RollNumberDetails.tsx:43-46). A write that throws still shows the deletion, together with an "Error" alert.
- `handleNoSemesterData` would delete a roll number with no semester data (app/Viewresults.tsx:49-64). It is passed as `onNoSemesterData` (app/Viewresults.tsx:73), but `RollNumberDetails` never reads that prop (components/RollNumberDetails.tsx:8).

## Model

| member | source | states |
|---|---|---|
| Catalog.FindDepartment | app/Getcgpa.tsx:38 | a department is found iff one has that name, and the result is the first such department |
| Catalog.FindSemester | app/Getcgpa.tsx:40 | a semester is found iff one has that number, and the result is the first such semester |
| Catalog.ElectiveCourses | app/Getcgpa.tsx:64-69 | the courses of the first elective set of the category, or none when no set has it |
| JsText.TrimStart | app/Getdept.tsx:21 | the result is a suffix of the input; it does not start with whitespace, and only whitespace was dropped |
| JsText.TrimEnd | app/Getdept.tsx:21 | the result is a prefix of the input; it does not end with whitespace, and only whitespace was dropped |
| JsText.IsWhitespace | app/Getdept.tsx:21 | the WhiteSpace and LineTerminator characters that `trim()` removes and `parseInt` skips |
| JsText.Trim | app/Getdept.tsx:21 | `trim()` leaves no whitespace at either end, and leaves nothing exactly when the string is whitespace only |
| JsText.TrimEmptyIffBlank | app/Getdept.tsx:21 | `s.trim() === ''` exactly when every character of `s` is whitespace |
| JsText.DigitValue | app/Getcgpa.tsx:40 | a digit's value is below 36, the largest radix `parseInt` reads |
| JsText.DigitPrefix | app/Getcgpa.tsx:40 | the longest prefix made of digits of the radix, as `parseInt` reads it |
| JsText.DigitsValue | app/Getcgpa.tsx:40 | the value `parseInt` gives a run of digits of the radix, most significant first |
| JsText.ParseInt | app/Getcgpa.tsx:40 | `parseInt` with no radix, over optional whitespace, sign and `0x` prefix; a blank string is `NaN` (its reading of decimal numerals is `ParseIntDecimal`) |
| JsText.NumberValue | components/Deptinput.tsx:82 | `Number` of a blank string is 0, and of a string of decimal digits its value |
| JsText.NatToString | components/Deptinput.tsx:168 | `toString` of a non-negative number is a non-empty string of decimal digits |
| JsText.DigitsValueNatToString | components/Deptinput.tsx:168 | the digits of `n.toString()` read back as `n` |
| JsText.DecimalDigitIsPlain | app/Getcgpa.tsx:40 | a decimal digit is not whitespace, a sign or the `x` of a hex prefix, so `parseInt` reads it as a digit |
| JsText.ParseIntDecimal | app/Getcgpa.tsx:40 | `parseInt` of a non-empty string of decimal digits is its decimal value |
| JsText.ParseIntNatToString | app/Getcgpa.tsx:40 | `parseInt(n.toString()) === n` |
| JsText.NumberValueNatToString | components/Deptinput.tsx:82 | `Number(n.toString()) === n` |
| JsText.AllDigitsPrefix | app/Getcgpa.tsx:40 | on a string made only of digits, `parseInt` reads the whole string |
| JsText.StartsWith | app/Viewresults.tsx:18 | `key.startsWith(prefix)` |
| Records.RollKey | app/Getcgpa.tsx:113 | every storage key built from a roll number starts with `cgpa_data_` |
| Records.StripPrefix | app/Viewresults.tsx:19 | stripping the prefix gives a roll number whose key is the original key |
| Records.StripRollKey | app/Viewresults.tsx:19 | stripping the prefix from a roll number's key gives the roll number back |
| Records.Store.constructor | app/Getcgpa.tsx:114 | storage starts with the given contents |
| DeptInput.SemestersFor | components/Deptinput.tsx:65-70 | an unknown department has no semesters |
| DeptInput.SemesterOptions | components/Deptinput.tsx:164-169 | one picker option per semester |
| DeptInput.OptionReadsBack | components/Deptinput.tsx:164-169 | `parseInt` and `Number` both read option `i` back as semester `i`'s number |
| DeptInput.IsHigherSemester | components/Deptinput.tsx:82 | `selectedSemester && Number(selectedSemester) > 2`, with `NaN > 2` false |
| DeptInput.DeptForm.ShowsElectives | components/Deptinput.tsx:174 | the OEC and H&M toggles are shown exactly when the selected semester is a higher one |
| DeptInput.HigherSemesterOption | components/Deptinput.tsx:82 | the elective toggles are offered for option `i` iff that semester's number exceeds 2 |
| DeptInput.DeptForm.constructor | components/Deptinput.tsx:34-59 | after mounting, the empty roll number has reset the form and the context to the cleared session |
| DeptInput.DeptForm.ChangeRollNo | components/Deptinput.tsx:46-59 | a cleared roll number resets the department, the semester and the semester list (locally and in context) and both elective flags; any other change only copies the roll number; no change runs no effect |
| DeptInput.DeptForm.HandleDeptChange | components/Deptinput.tsx:61-74 | the department is set locally and in context; the semester list becomes that department's (or empty); the semester is reset; the roll number and both elective flags are left stale |
| DeptInput.DeptForm.HandleSemesterChange | components/Deptinput.tsx:76-79 | the semester is set locally and in context to the same value; nothing else changes |
| DeptInput.DeptForm.SetOec | components/Deptinput.tsx:174-185 | the OEC toggle, shown only for a higher semester, sets only the OEC flag |
| DeptInput.DeptForm.SetHm | components/Deptinput.tsx:186-195 | the H&M toggle, shown only for a higher semester, sets only the H&M flag |
| Getcgpa.GradePoint | app/Getcgpa.tsx:137-148 | a grade point is at most 10, and any string other than the seven letters gives 0 |
| Getcgpa.GradeScale | app/Getcgpa.tsx:137-148 | the letter at position `i` of S..F is worth `10 - i`, except F, which is worth 0 |
| Getcgpa.GradeOf | app/Getcgpa.tsx:85-86 | a course's selection, where a missing entry (`undefined`) reads as ungraded like `''` |
| Getcgpa.CourseTotals | app/Getcgpa.tsx:85-90 | an ungraded course adds nothing; a graded one adds its credit (an F too) and at most ten points per credit |
| Getcgpa.Weighted | app/Getcgpa.tsx:89 | the weighted points are at most ten per credit when the point is at most ten |
| Getcgpa.WeightedIsProduct | app/Getcgpa.tsx:89 | the weighted points are exactly point times credit |
| Getcgpa.Tally | app/Getcgpa.tsx:84-91 | the two running sums of the `forEach`, course by course in list order (its properties are the `Tally…` lemmas) |
| Getcgpa.TallyBounded | app/Getcgpa.tsx:84-91 | the accumulated points never exceed ten per accumulated credit |
| Getcgpa.Gpa | app/Getcgpa.tsx:93 | the GPA lies in [0, 10]; it is 0 when no credit is graded, and otherwise points over credits |
| Getcgpa.Quotient | app/Getcgpa.tsx:93 | points over a positive credit total is their exact ratio and lies in [0, 10] |
| Getcgpa.ComputeGpa | app/Getcgpa.tsx:80-93 | the `forEach` loop with its two accumulators computes the specified GPA, within [0, 10] |
| Getcgpa.TallyAppend | app/Getcgpa.tsx:84-91 | the tally of a concatenation is the sum of the two tallies |
| Getcgpa.TallyRemove | app/Getcgpa.tsx:84-91 | taking one course out of the list takes exactly its contribution out of the tally |
| Getcgpa.TallyPermutation | app/Getcgpa.tsx:84-91 | the tally of two lists with the same courses (as a multiset) is the same |
| Getcgpa.GpaPermutation | app/Getcgpa.tsx:84-93 | permuting the course list does not change the GPA |
| Getcgpa.TallyCongruent | app/Getcgpa.tsx:85 | the GPA reads the selections only at the listed course codes |
| Getcgpa.TallyUngraded | app/Getcgpa.tsx:86 | a list with no graded course tallies to zero credits and zero points |
| Getcgpa.FailedCourseCountsCredits | app/Getcgpa.tsx:86-93 | S on 4 credits with F on 2 gives 40/6: the F's credits stay in the denominator |
| Getcgpa.HmOecCourses | app/Getcgpa.tsx:60-74 | the list has exactly as many entries as the ticked categories' courses; the OEC courses open it when ticked, the H&M courses close it when ticked, so each category appears once; a course is in it iff it belongs to a ticked category; no flag adds nothing |
| Getcgpa.ReadyToResolve | app/Getcgpa.tsx:37 | the effect's guard: a truthy department, a non-`null` semester and a truthy roll number |
| Getcgpa.ResolvedCourses | app/Getcgpa.tsx:37-46 | a list is resolved iff the guard passes, a department has that name, and a semester of the first such department has the number `parseInt` reads |
| Getcgpa.ResolvedCourseList | app/Getcgpa.tsx:37-46 | the installed list is the core courses of the first matching department and semester, in catalog order, followed by exactly `getHmOecCourses()`; a course is in it iff it is a core course or an elective of a ticked category |
| Getcgpa.InitialSelections | app/Getcgpa.tsx:48-53 | the initial selections have exactly the listed codes as keys, each mapped to `''` |
| Getcgpa.InitialGpaIsZero | app/Getcgpa.tsx:48-53 | a calculation right after resolution gives 0 |
| Getcgpa.SavedCourses | app/Getcgpa.tsx:101-106 | one saved entry per resolved course, in order; entry `i` carries course `i`'s code and its selected grade |
| Getcgpa.LeafCourses | app/Getcgpa.tsx:101-106 | reading the saved courses back gives one course per entry |
| Getcgpa.LeafSelectionsAgree | app/Getcgpa.tsx:105 | the grades read back from a saved list are the grades it was saved with |
| Getcgpa.SavedLeafRegrades | app/Getcgpa.tsx:101-107 | the saved courses keep the resolved order and catalog fields; the grades read back are the selections of every resolved course; regrading gives the saved GPA |
| Getcgpa.WithLeaf | app/Getcgpa.tsx:117-128 | the leaf is written at `"semesters"`/semester; every other semester and every other top-level key is unchanged |
| Getcgpa.LastWriteWins | app/Getcgpa.tsx:125-128 | saving the same semester twice leaves only the second leaf |
| Getcgpa.SemesterKey | app/Getcgpa.tsx:121-125 | the property key made from `data.semester`, where a `null` semester becomes `"null"` |
| Getcgpa.ExistingRecord | app/Getcgpa.tsx:114-115 | the parsed stored record, or `{}` when the key is absent |
| Getcgpa.SaveData | app/Getcgpa.tsx:111-135 | storage gets the roll number's record with the leaf written in; unparsable stored text or a throwing storage call writes nothing |
| Getcgpa.GpaScreen.constructor | app/Getcgpa.tsx:30-32 | the screen starts with no courses, no selections and no GPA |
| Getcgpa.GpaScreen.LoadCourses | app/Getcgpa.tsx:34-57 | a resolved list is installed with every selection ungraded; a failed guard or an unknown department or semester leaves the screen unchanged |
| Getcgpa.GpaScreen.HandleGradeChange | app/Getcgpa.tsx:76-78 | exactly one course's grade is set and all other selections are unchanged |
| Getcgpa.GpaScreen.CalculateCgpa | app/Getcgpa.tsx:80-109 | the shown GPA is the specified GPA; storage gets that GPA with every listed course and its selection under the context's semester; every listed course has a selection, and its saved grade is that selection |
| Getcgpa.ChosenOptionResolves | app/Getcgpa.tsx:37-46 | picking option `i` of a found department, with a roll number, resolves to a list that starts with a matching semester's core courses |
| RollNumberDetails.MapSumRemove | components/RollNumberDetails.tsx:135 | the unordered sum does not depend on which value is taken first |
| RollNumberDetails.MapSumInsert | components/RollNumberDetails.tsx:127 | adding a value under a new key adds it to the sum |
| RollNumberDetails.TimesIsProduct | components/RollNumberDetails.tsx:136 | `n` copies of `x` added up is `n * x` |
| RollNumberDetails.MapSumBounds | components/RollNumberDetails.tsx:135 | values within [lo, hi] sum to between `n` copies of lo and `n` copies of hi |
| RollNumberDetails.QuotientBounds | components/RollNumberDetails.tsx:136 | a sum between `n * lo` and `n * hi`, divided by `n`, lies in [lo, hi] |
| RollNumberDetails.MeanBounds | components/RollNumberDetails.tsx:133-137 | a mean lies between the smallest and the largest of its inputs |
| RollNumberDetails.Column | components/RollNumberDetails.tsx:122-128 | a semester's column is keyed by departments of the record |
| RollNumberDetails.SemesterIdColumn | components/RollNumberDetails.tsx:122-128 | a semester id is in use iff some GPA is stored under it |
| RollNumberDetails.ColumnUpdate | components/RollNumberDetails.tsx:40 | replacing one department's semesters changes only that department's entry of each column |
| RollNumberDetails.SemesterIdsUpdate | components/RollNumberDetails.tsx:40 | replacing one department's semesters changes the ids in use to the others' plus its new ones |
| RollNumberDetails.AddLeaf | components/RollNumberDetails.tsx:123-127 | adding one more semester of a department touches only that semester's column |
| RollNumberDetails.ColumnsWithout | components/RollNumberDetails.tsx:122 | a department that is not yet collected appears in no column |
| RollNumberDetails.ColumnAddDepartment | components/RollNumberDetails.tsx:122-128 | each column of the record with one more department is the old column plus that department's GPA |
| RollNumberDetails.ColumnsAddKeys | components/RollNumberDetails.tsx:122-128 | the semester ids with one more department are the old ids plus that department's |
| RollNumberDetails.ColumnsAddDepartment | components/RollNumberDetails.tsx:122-128 | the columns of the record with one more department are the old columns with its semesters added |
| RollNumberDetails.TallyLeaf | components/RollNumberDetails.tsx:124-127 | pushing a GPA onto a semester's list matches adding it to that semester's column |
| RollNumberDetails.CollectStep | components/RollNumberDetails.tsx:123-128 | one step of the inner loop keeps the lists in step with the columns collected so far |
| RollNumberDetails.AddNothing | components/RollNumberDetails.tsx:123 | adding no semester of a department leaves the columns as they were |
| RollNumberDetails.CollectDone | components/RollNumberDetails.tsx:123-128 | once no semester of a department remains, the whole department is collected |
| RollNumberDetails.CollectDepartment | components/RollNumberDetails.tsx:123-128 | the inner loop pushes every GPA of one department, so the lists stand for the columns with that department added |
| RollNumberDetails.CollectCgpas | components/RollNumberDetails.tsx:119-129 | the lists collected over all departments stand for every semester's column, with empty leaves included |
| RollNumberDetails.CollectAllDepartments | components/RollNumberDetails.tsx:122-129 | once no department remains, every department is collected |
| RollNumberDetails.TakeDepartment | components/RollNumberDetails.tsx:122 | taking a department off the remaining ones adds exactly it to the collected part |
| RollNumberDetails.AverageLists | components/RollNumberDetails.tsx:132-137 | each semester's average is its list's left-to-right sum over its length |
| RollNumberDetails.SeqSum | components/RollNumberDetails.tsx:135 | the `reduce` sum of a list, left to right from 0 |
| RollNumberDetails.TalliedMean | components/RollNumberDetails.tsx:133-137 | a collected list averages to the mean of its semester's column |
| RollNumberDetails.ColumnsKeys | components/RollNumberDetails.tsx:122-128 | there is one column per semester id in use |
| RollNumberDetails.TalliedNonEmpty | components/RollNumberDetails.tsx:124-127 | a collected list is never empty, so no average divides by zero |
| RollNumberDetails.TalliedAverages | components/RollNumberDetails.tsx:132-137 | the averages have exactly the ids in use as keys, each being that semester's mean |
| RollNumberDetails.AggregateCgpaBySemester | components/RollNumberDetails.tsx:118-140 | the aggregate's keys are the union of all departments' semester ids, and each value is the mean of every GPA stored under that id |
| RollNumberDetails.OverallAverage | components/RollNumberDetails.tsx:142-145 | the overall average is a number iff there is at least one per-semester average |
| RollNumberDetails.OverallWithinBounds | components/RollNumberDetails.tsx:142-145 | the overall average lies between the smallest and the largest per-semester average |
| RollNumberDetails.ColumnMeanBounds | components/RollNumberDetails.tsx:133-137 | when every saved GPA lies in [lo, hi], every per-semester average does |
| RollNumberDetails.MeanOfTwo | components/RollNumberDetails.tsx:133-137 | two values average to half their sum |
| RollNumberDetails.AggregateExample | components/RollNumberDetails.tsx:118-140 | 8.0 and 9.0 saved under semester "3" in two departments average to 8.5 |
| RollNumberDetails.FilteredDepartments | components/RollNumberDetails.tsx:147-161 | only departments of the loaded record are displayed, and none when nothing is loaded |
| RollNumberDetails.HasValidSemester | components/RollNumberDetails.tsx:154-157 | some semester of the department has at least one course |
| RollNumberDetails.DisplayedHasAggregate | components/RollNumberDetails.tsx:171-184 | when a department is displayed, the aggregate has at least one semester |
| RollNumberDetails.HiddenLeafStillAveraged | components/RollNumberDetails.tsx:122-128 | a leaf with no courses is hidden by the filter but still averaged: 8.0 with 4.0 gives 6.0 |
| RollNumberDetails.DeleteSemester | components/RollNumberDetails.tsx:37-40 | exactly the semester key leaves the department; its other semesters and all other departments are unchanged, and the department stays |
| RollNumberDetails.DeleteSemesterColumns | components/RollNumberDetails.tsx:37-40 | a deletion takes that department's GPA out of that semester's column only |
| RollNumberDetails.EmptiedDepartmentHidden | components/RollNumberDetails.tsx:40 | a department emptied by deletion stays as an empty map but is no longer displayed |
| RollNumberDetails.SavedSemesterDisplayed | app/Getcgpa.tsx:117-128 | a saved semester with courses is displayed under `"semesters"` and its GPA is in that semester's column |
| RollNumberDetails.ResultView.constructor | components/RollNumberDetails.tsx:9-11 | the view starts with nothing loaded and the spinner shown |
| RollNumberDetails.ResultView.FetchData | components/RollNumberDetails.tsx:13-33 | a stored record is loaded and flagged as found; an absent key flags nothing found; a throwing read or unparsable text changes neither; loading always ends |
| RollNumberDetails.ResultView.HandleDeleteSemester | components/RollNumberDetails.tsx:35-54 | with the department present, the view shows the record without the semester and storage gets it, with a "Success" notice, or storage is unchanged with an "Error" notice; with it absent nothing changes and nothing is written |
| RollNumberDetails.ResultView.ShowsNoData | components/RollNumberDetails.tsx:171 | the no-data screen shows when no record was found or no department passes the filter |
| RollNumberDetails.ResultView.Summary | components/RollNumberDetails.tsx:171-184 | when a department is displayed, the per-semester averages are the means of the columns, there is at least one, and the overall average is a number |
| ViewResults.RollNumberOf | app/Viewresults.tsx:18-19 | a prefixed key gives the roll number whose key it is; any other key gives nothing |
| ViewResults.RollNumbersOf | app/Viewresults.tsx:18-19 | no more roll numbers than keys |
| ViewResults.RollNumberOfKey | app/Viewresults.tsx:18-19 | a key gives roll number `r` iff it is `r`'s key |
| ViewResults.ListedIffStored | app/Viewresults.tsx:17-19 | a roll number is listed iff its key is among the stored keys |
| ViewResults.RollNumbersAppend | app/Viewresults.tsx:18-19 | the list of a concatenation is the two lists in turn, so the list follows key order |
| ViewResults.UnprefixedKeysIgnored | app/Viewresults.tsx:18 | keys without the prefix produce no roll number |
| ViewResults.SavedRollNumberListed | app/Viewresults.tsx:18-19 | a record saved under `cgpa_data_` + r is listed as r |
| ViewResults.Without | app/Viewresults.tsx:40-42 | the filtered list holds exactly the entries other than `r` |
| ViewResults.WithoutAppend | app/Viewresults.tsx:40-42 | filtering keeps the relative order of the remaining entries |
| ViewResults.WithoutAbsent | app/Viewresults.tsx:40-42 | filtering out an unlisted roll number changes nothing |
| ViewResults.RemovalMatchesListing | app/Viewresults.tsx:39-42 | removing `r`'s key and listing again gives the old list with `r` filtered out |
| ViewResults.ResultsScreen.constructor | app/Viewresults.tsx:9-10 | the screen starts with an empty list and nothing selected |
| ViewResults.ResultsScreen.FetchRollNumbers | app/Viewresults.tsx:14-27 | the list becomes the roll numbers of the keys, in key order, holding exactly the stored roll numbers; a throwing read leaves it as it was |
| ViewResults.ResultsScreen.RemoveRollNumber | app/Viewresults.tsx:37-47 | the key is deleted, every entry equal to `r` leaves the list and the selection is cleared; a throwing removal changes nothing |
| ViewResults.ResultsScreen.ShowsDetails | app/Viewresults.tsx:68 | the details view shows (and the header hides, app/Viewresults.tsx:32) when the selection is truthy: set and not `''` |
| ViewResults.ResultsScreen.Select | app/Viewresults.tsx:79 | tapping a roll number selects it |
| ViewResults.ResultsScreen.Back | app/Viewresults.tsx:70 | "Back to Roll Numbers" clears the selection |
| GetDept.Present | app/Getdept.tsx:23-25 | a context field is truthy: set and not `''` |
| GetDept.CheckInput | app/Getdept.tsx:20-30 | a blank roll number alerts first, then a missing department, then a missing semester; it navigates to `/Getcgpa` iff all three are present |
| GetDept.ClearedSessionAsksRollNo | app/Getdept.tsx:21-22 | right after the form is cleared, the button asks for the roll number |
| GetDept.SpacesAreNoRollNo | app/Getdept.tsx:21-22 | a roll number of spaces is refused whatever else is selected |
| GetDept.NavigationPassesGuard | app/Getdept.tsx:28 | whenever the button navigates, the GPA screen's loading guard passes |
| GetDept.HomeScreen.constructor | app/Getdept.tsx:12-13 | the screen starts with no alert |
| GetDept.HomeScreen.ShowAlert | app/Getdept.tsx:15-18 | the alert message is set and the alert shown |
| GetDept.HomeScreen.HandleNavigation | app/Getdept.tsx:20-30 | exactly one outcome: an alert with the decided message and no route pushed, or `/Getcgpa` pushed with the alert untouched |
| GetDept.HomeScreen.DismissAlert | app/Getdept.tsx:51 | OK hides the alert |

## Left out

- Rendering, styles, navigation chrome and the charts are not modelled. Only the conditions that decide what is shown are modelled: the display filter, the no-data screen, the elective toggles and the details view.
- The confirm-deletion modal in components/RollNumberList.tsx is not modelled; it only forwards to `removeRollNumber`.
- AsyncStorage is modelled as an in-memory map, without its asynchronous I/O. A throwing call is a boolean parameter of the method that makes it. The order of `getAllKeys` is a parameter of `FetchRollNumbers`.
- JSON is not modelled. A stored value either parses to a record or is unparsable. Records of any other shape, and the `{}` that `saveData` puts at a missing semester just before overwriting it, are not represented.
- A stored JSON value that is not an object (`null`, a number, an array) is treated as unparsable. `fetchData` would load it as found and then show no departments; the no-data screen shows either way, and the app never writes such text.
- A stored empty string is not represented. Both screens would treat it as absent, but every write stores `JSON.stringify` of an object, so it never arises.
- Floating point and `toFixed(2)` are not modelled. The GPA and the averages are exact reals, and credits are natural numbers.
- Key order is not modelled: JavaScript enumerates integer-like keys in ascending order, which fixes the chart labels. The aggregation is proved for every order in which the departments and semesters are visited, because each loop picks its next key arbitrarily.
- React scheduling is not modelled: effect ordering, batching, and interleaving between state updates and storage writes. Each handler runs to completion. The header effect of app/Viewresults.tsx:30-34 is reduced to `ShowsDetails`.
- The `onNoSemesterData` path of app/Viewresults.tsx:49-64 is not modelled, because `RollNumberDetails` never calls it.
- The static catalogs (all_dept.json, hm_oec_data.json) are parameters; their contents are not part of this model.
- JsText.NumberValue: models `Number` only on strings that are decimal digits after trimming, plus the empty string, which reads as 0. Every other string reads as `NaN`, although `Number` also accepts signs and hex, exponent and fraction forms. The semester options are decimal numerals, so only a semester set outside the picker could differ.
- RollNumberDetails.FilteredDepartments: its own contract states only the subset and the empty cases. Which departments are kept is stated by `EmptiedDepartmentHidden`, `SavedSemesterDisplayed`, `HiddenLeafStillAveraged` and `DisplayedHasAggregate`.
- RollNumberDetails.OverallAverage: it is the mean of an unordered map, whereas the source folds the values left to right. The two agree under exact arithmetic but not under floating point.
