# SmartStudent: the student-records computation layer in Dafny

SmartStudent is a Java/Swing desk application for keeping student records: name, roll
number, department, email, phone and marks. This project models the part of it that
computes:
- how marks become a letter grade, a GPA point and a pass/fail verdict (`GradeCalculator`);
- the `Student` entity with its setters, derived grade, equality and hash;
- the statistics summary of a list of students (`GradeCalculator.Statistics`);
- the CSV and fixed-width text exports (`ExportUtil`);
- the search dispatch and table refresh of the main window (`MainFrame`);
- the add/edit dialog's grade preview, validation, department list and save rule (`StudentForm`);
- the statistics tab's distribution rows and percentages (`StatisticsPanel`).

Modules, one per source class plus two support modules:

- `Wrappers` (wrappers.dfy): `Option` and `Result`.
- `JavaLang` (java_lang.dfy): `String.trim`, `String.split` on one character, `String.hashCode` with 32-bit wrap-around, `Integer.toString`, `%-Ns` padding, and Java's `double` comparisons, where NaN compares false.
- `GradeCalculator` (grade_calculator.dfy): the threshold table, grade, GPA and pass.
- `StudentModel` (student.dfy): `StudentRecord`, the value of a student at one moment, and the mutable class `Student`.
- `Statistics` (statistics.dfy): the `Statistics` summary as a datatype built by functions; distributions are lists of (key, count) entries.
- `StudentDao` (student_dao.dfy): the store: a map from roll number to record that may be unavailable, and the searches as `Query` values answered from outside.
- `ExportUtil` (export_util.dfy): CSV escaping with a CSV reader to state the round trip, truncation, and both reports as lists of lines.
- `MainFrame` (main_frame.dfy): `PlanSearch`, the pure dispatch decision, and the frame class that runs it.
- `StudentForm` (student_form.dfy): the dialog's pure rules and the dialog class.
- `StatisticsPanel` (statistics_panel.dfy): the rows and text of both distributions, and the panel class.

Some behaviour is supplied from outside rather than modelled:
- `Double.parseDouble` is a parameter `parse: string -> Option<JavaDouble>`. `None` stands for a `NumberFormatException`.
- `"%.2f"` and `"%.1f"` are parameters `fmt`, `fmt1` and `fmt2` of type `real -> string`.
- The store's answers to searches are a parameter `answers: Query -> Result<seq<StudentRecord>>`. `Err` carries an `SQLException`'s message.
- The report timestamp is a parameter.
- Error dialogs are modelled as messages appended to an `errors` list.
- Marks are exact `real`s inside a student. Where the source compares a freshly parsed `double`, the model uses `JavaDouble`, which has NaN and the infinities.

## Model

Source paths are relative to the repository root.

| member | source | states |
|---|---|---|
| GradeCalculator.CalculateGrade | src/main/java/com/smartstudent/util/GradeCalculator.java:42-49 | the grade is the first row of the threshold table the marks reach: A+ exactly for marks of at least 90, A for [80,90), B for [70,80), C for [60,70), D for [50,60), F below 50 |
| GradeCalculator.IsPassed | src/main/java/com/smartstudent/util/GradeCalculator.java:60-62 | a student passes exactly when the marks reach a band above F |
| GradeCalculator.CalculateGPA | src/main/java/com/smartstudent/util/GradeCalculator.java:78-85 | the GPA is the point of the band the grade comes from, and lies in [0,4] |
| GradeCalculator.PassedIffNotFailing | src/main/java/com/smartstudent/util/GradeCalculator.java:60-62 | passing, marks of at least 50, a grade other than F and a positive GPA are one condition |
| GradeCalculator.BandAntitone | src/main/java/com/smartstudent/util/GradeCalculator.java:42-49 | higher marks never fall into a lower band |
| GradeCalculator.GpaMonotone | src/main/java/com/smartstudent/util/GradeCalculator.java:78-85 | the GPA is non-decreasing in the marks |
| GradeCalculator.GpaFollowsGrade | src/main/java/com/smartstudent/util/GradeCalculator.java:78-85 | two marks with the same letter grade have the same GPA |
| StudentModel.Student.Empty | src/main/java/com/smartstudent/model/Student.java:44 | the no-argument constructor leaves every field at its default |
| StudentModel.Student.New | src/main/java/com/smartstudent/model/Student.java:56-63 | the six-argument constructor copies its arguments and leaves id at 0 |
| StudentModel.Student.WithId | src/main/java/com/smartstudent/model/Student.java:76-84 | the seven-argument constructor copies all seven arguments, id included |
| StudentModel.Student.SetId | src/main/java/com/smartstudent/model/Student.java:98 | only the id changes |
| StudentModel.Student.SetName | src/main/java/com/smartstudent/model/Student.java:110 | only the name changes |
| StudentModel.Student.SetRollNo | src/main/java/com/smartstudent/model/Student.java:122 | only the roll number changes |
| StudentModel.Student.SetDepartment | src/main/java/com/smartstudent/model/Student.java:134 | only the department changes |
| StudentModel.Student.SetEmail | src/main/java/com/smartstudent/model/Student.java:146 | only the email changes |
| StudentModel.Student.SetPhone | src/main/java/com/smartstudent/model/Student.java:158 | only the phone changes |
| StudentModel.Student.SetMarks | src/main/java/com/smartstudent/model/Student.java:170 | only the marks change, and afterwards the grade and the pass flag follow the new marks |
| StudentModel.Student.GetGrade | src/main/java/com/smartstudent/model/Student.java:211-218 | the entity's own copy of the grade table agrees with GradeCalculator for every marks value |
| StudentModel.Student.IsPassed | src/main/java/com/smartstudent/model/Student.java:227-229 | agrees with GradeCalculator.isPassed, and holds exactly when the grade is not F |
| StudentModel.StudentRecord.StatusText | src/main/java/com/smartstudent/util/ExportUtil.java:65 | the status text is "Pass" exactly for marks of at least 50 and "Fail" exactly below |
| StudentModel.EqualsIffSameRollNo | src/main/java/com/smartstudent/model/Student.java:253-258 | two students are equal exactly when their roll numbers are, whatever their other fields |
| StudentModel.EqualsRejectsOthers | src/main/java/com/smartstudent/model/Student.java:255 | null and objects of any other class are never equal to a student |
| StudentModel.EqualsImpliesSameHash | src/main/java/com/smartstudent/model/Student.java:266-268 | equal students have equal hash codes |
| JavaLang.StringHash | src/main/java/com/smartstudent/model/Student.java:267 | the roll number's hash wraps into the 32-bit int range |
| JavaLang.ToInt32 | src/main/java/com/smartstudent/model/Student.java:267 | the 32-bit reduction is in range and congruent to its argument modulo 2^32 |
| JavaLang.Trim | src/main/java/com/smartstudent/gui/MainFrame.java:224 | trimming gives the empty string exactly for all-blank text; otherwise it is the slice between the blanks at either end and neither starts nor ends with a blank |
| JavaLang.TrimIdempotent | src/main/java/com/smartstudent/gui/MainFrame.java:224 | trimming twice is trimming once |
| JavaLang.JoinPieces | src/main/java/com/smartstudent/gui/MainFrame.java:246 | the pieces between separators, joined back with the separator, give the original text |
| JavaLang.SplitTwoPieces | src/main/java/com/smartstudent/gui/MainFrame.java:246-247 | "a-b" followed by any number of dashes splits into exactly [a, b] when b is not empty |
| JavaLang.SplitTwoShape | src/main/java/com/smartstudent/gui/MainFrame.java:246-247 | conversely, a split into two pieces means the text is the first piece, a dash, a non-empty second piece and only dashes after it |
| JavaLang.PadRight | src/main/java/com/smartstudent/util/ExportUtil.java:109 | "%-ws" keeps the text whole at its start and fills with spaces up to the width, never cutting |
| JavaLang.IntToString | src/main/java/com/smartstudent/util/ExportUtil.java:57 | a printed integer holds only digits and minus signs, so it never needs CSV quoting |
| JavaLang.NatToStringValue | src/main/java/com/smartstudent/util/ExportUtil.java:98 | the digits printed for a count read back as that count |
| JavaLang.IntToStringValue | src/main/java/com/smartstudent/gui/MainFrame.java:200 | Integer.parseInt of Integer.toString gives the integer back, so "Total Students: n" and "Loaded n students" carry n itself |
| Statistics.PassedAndFailedPartition | src/main/java/com/smartstudent/util/GradeCalculator.java:118-120 | the passing and the failing students together are the whole list |
| Statistics.Compute | src/main/java/com/smartstudent/util/GradeCalculator.java:116-136 | the total is the list size and passed is the number of students with marks of at least 50 (PassedCount, partnered by Statistics.PassedAndFailedPartition and Statistics.FailuresAreFGrades), with failed = total - passed; for an empty list the marks figures are 0 and both distributions are null, and only then |
| Statistics.ComputeMarks | src/main/java/com/smartstudent/util/GradeCalculator.java:124-126 | for a non-empty list the marks figures are the mean, the maximum and the minimum of the marks |
| Statistics.Max | src/main/java/com/smartstudent/util/GradeCalculator.java:125 | the maximum is one of the values and no value exceeds it |
| Statistics.Min | src/main/java/com/smartstudent/util/GradeCalculator.java:126 | the minimum is one of the values and no value is below it |
| Statistics.AverageBetweenExtrema | src/main/java/com/smartstudent/util/GradeCalculator.java:124-126 | in exact arithmetic the mean lies between the minimum and the maximum |
| Statistics.Extrema | src/main/java/com/smartstudent/util/GradeCalculator.java:123-126 | highest and lowest are marks some student has, bound every student's marks, and bracket the average |
| Statistics.CountByFacts | src/main/java/com/smartstudent/util/GradeCalculator.java:129-134 | groupingBy/counting gives each distinct key once, with its number of occurrences, each at least 1, summing to the list size; the model's first-seen key order stands for the HashMap's unspecified order |
| Statistics.FirstSeen | src/main/java/com/smartstudent/util/GradeCalculator.java:129-130 | the keys of a distribution are distinct and are exactly the values that occur |
| Statistics.DepartmentDistribution | src/main/java/com/smartstudent/util/GradeCalculator.java:129-130 | the department counts have one key per department that occurs, each count at least 1, each count the number of students in that department, summing to the total |
| Statistics.GradeDistribution | src/main/java/com/smartstudent/util/GradeCalculator.java:133-134 | the grade counts have distinct keys drawn from A+ to F, sum to the total, and count F exactly total - passed times |
| Statistics.FailuresAreFGrades | src/main/java/com/smartstudent/util/GradeCalculator.java:133-134 | the number of F grades is the number of failing students |
| Statistics.Statistics.PassPercentage | src/main/java/com/smartstudent/util/GradeCalculator.java:193-195 | 0 for an empty list; otherwise the percentage p with p * total = passed * 100, within [0,100] |
| Statistics.Statistics.FailPercentage | src/main/java/com/smartstudent/util/GradeCalculator.java:202-204 | 0 for an empty list; otherwise the percentage p with p * total = failed * 100, within [0,100] |
| Statistics.PercentagesComplement | src/main/java/com/smartstudent/util/GradeCalculator.java:193-204 | with at least one student the pass and fail percentages add up to 100 in exact arithmetic |
| ExportUtil.EscapeCsvField | src/main/java/com/smartstudent/util/ExportUtil.java:153-162 | null gives ""; a field without comma, double quote or line feed (a carriage return alone included) is unchanged; any other field is wrapped in quotes |
| ExportUtil.ReadQuotedField | src/main/java/com/smartstudent/util/ExportUtil.java:159 | reading a doubled-quote body up to its closing quote recovers the field and stops at the next separator |
| ExportUtil.QuotedRoundTrip | src/main/java/com/smartstudent/util/ExportUtil.java:157-159 | a quoted field, read back by dropping the outer quotes and collapsing each doubled quote, is the original field |
| ExportUtil.PlainRoundTrip | src/main/java/com/smartstudent/util/ExportUtil.java:161 | an unquoted field is read back verbatim up to the next comma |
| ExportUtil.EscapeRoundTrip | src/main/java/com/smartstudent/util/ExportUtil.java:153-162 | every escaped field reads back as the original, followed by exactly the rest of the line |
| ExportUtil.CsvLineRoundTrip | src/main/java/com/smartstudent/util/ExportUtil.java:56-66 | any list of fields, escaped and joined by commas, parses back into exactly that list |
| ExportUtil.CsvCellsEscaped | src/main/java/com/smartstudent/util/ExportUtil.java:56-66 | the row's cells are its nine values escaped (id, grade and status are never changed by escaping) when the formatted marks need no quoting |
| ExportUtil.CsvRowRoundTrip | src/main/java/com/smartstudent/util/ExportUtil.java:56-66 | each CSV data line parses back into the student's nine values when the formatted marks need no quoting |
| ExportUtil.ExportToCsv | src/main/java/com/smartstudent/util/ExportUtil.java:52-67 | the exact header line, then one line per student in list order |
| ExportUtil.Truncate | src/main/java/com/smartstudent/util/ExportUtil.java:175-184 | null gives ""; a string within the limit is unchanged; a longer one keeps its first limit - 3 characters and ends in "...", exactly the limit long |
| ExportUtil.TruncateFits | src/main/java/com/smartstudent/util/ExportUtil.java:175-184 | the result never exceeds the limit |
| ExportUtil.PaddedTruncation | src/main/java/com/smartstudent/util/ExportUtil.java:109-114 | a cut-and-padded column has exactly its width and shows the text or its cut with "..." |
| ExportUtil.TextCellsLayout | src/main/java/com/smartstudent/util/ExportUtil.java:109-119 | name and department are cut to 18 and email to 23 characters and fill their columns exactly, while roll number and phone are printed in full |
| ExportUtil.SummaryCounts | src/main/java/com/smartstudent/util/ExportUtil.java:126-128 | the summary prints the total, the passing count and a Failed count equal to the total minus the passing count |
| ExportUtil.TextReportParts | src/main/java/com/smartstudent/util/ExportUtil.java:95-139 | the report is the 7 header lines, the student rows and the summary, with the three marks lines only for a non-empty list |
| ExportUtil.TextReportRows | src/main/java/com/smartstudent/util/ExportUtil.java:108-120 | the lines after the header are the students' rows in list order |
| ExportUtil.WriteTextRows | src/main/java/com/smartstudent/util/ExportUtil.java:108-120 | the loop writes exactly one row per student, in list order |
| ExportUtil.ExportToText | src/main/java/com/smartstudent/util/ExportUtil.java:88-142 | the lines written are the whole report: header, rows and summary |
| MainFrame.TableRowShowsCsvValues | src/main/java/com/smartstudent/gui/MainFrame.java:209-218 | the table's nine cells show the values the CSV export writes for the same student, and the status is "Pass" exactly when the student passes |
| MainFrame.PlanSearch | src/main/java/com/smartstudent/gui/MainFrame.java:223-263 | blank text reloads everything; "Name", "Roll No" and "Department" run exactly the matching search with the trimmed text; "Marks Range" alone leads to a range search or a range error |
| MainFrame.PlanRange | src/main/java/com/smartstudent/gui/MainFrame.java:244-258 | a marks range either runs a range search or is rejected; the format message comes exactly when the split does not give two pieces, and the number message exactly when there are two pieces and one of the trimmed pieces does not parse |
| MainFrame.OtherTypesReload | src/main/java/com/smartstudent/gui/MainFrame.java:260-262 | any other search type, "All" included, reloads everything |
| MainFrame.SearchIgnoresSurroundingBlanks | src/main/java/com/smartstudent/gui/MainFrame.java:224 | blanks around the search text never change the decision |
| MainFrame.MarksRangeUsesRangeRule | src/main/java/com/smartstudent/gui/MainFrame.java:244-258 | a marks-range search of non-blank text is decided by the range rule alone |
| MainFrame.MarksRangeRuns | src/main/java/com/smartstudent/gui/MainFrame.java:246-250 | "a-b" with both trimmed parts parsing runs the range search with the bounds in the order written, unchecked |
| MainFrame.MarksRangeShape | src/main/java/com/smartstudent/gui/MainFrame.java:246-250 | a range search runs only for text of the form a-b (plus trailing dashes) whose trimmed parts parse to the bounds passed on |
| MainFrame.TrailingDashIsRejected | src/main/java/com/smartstudent/gui/MainFrame.java:246-253 | "70-" leaves one piece after split and gets the format error |
| MainFrame.LeadingDashIsRejected | src/main/java/com/smartstudent/gui/MainFrame.java:246-253 | "-5-10" makes three pieces and gets the format error |
| MainFrame.MainFrame.UpdateTable | src/main/java/com/smartstudent/gui/MainFrame.java:206-221 | the table is cleared and then holds exactly one row per student, in list order |
| MainFrame.MainFrame.LoadStudents | src/main/java/com/smartstudent/gui/MainFrame.java:196-204 | on success the table shows every student with the "Loaded n students" status; on failure only an error is shown |
| MainFrame.MainFrame.PerformSearch | src/main/java/com/smartstudent/gui/MainFrame.java:223-270 | the table and status change only after a store call that succeeded; a rejected range or a failed call leaves both as they were and shows one error |
| StudentDao.StudentStore.IsRollNoExists | src/main/java/com/smartstudent/gui/StudentForm.java:259 | the answer is whether the roll number is stored, or the failure |
| StudentDao.StudentStore.InsertStudent | src/main/java/com/smartstudent/gui/StudentForm.java:263 | the student is stored under its roll number; a roll number already stored is reported as a duplicate key and changes nothing, as is an unavailable store |
| StudentDao.StudentStore.UpdateStudent | src/main/java/com/smartstudent/gui/StudentForm.java:267 | the record stored under the given roll number is replaced, or nothing changes and the failure is reported |
| StudentForm.CalculateGrade | src/main/java/com/smartstudent/gui/StudentForm.java:233-240 | the dialog's own copy of the grade table agrees with GradeCalculator for every input |
| StudentForm.UpdateGrade | src/main/java/com/smartstudent/gui/StudentForm.java:198-231 | "-" exactly for blank text; a grade exactly when the trimmed text parses into [0,100], with that grade and Pass exactly when the marks pass; "Invalid" otherwise |
| StudentForm.EmailScanMatchesPattern | src/main/java/com/smartstudent/gui/StudentForm.java:336-338 | the email scan accepts exactly what "^[A-Za-z0-9+_.-]+@(.+)$" matches: allowed characters, '@', then a non-empty rest without line terminators |
| StudentForm.ValidateFindsFirstInvalid | src/main/java/com/smartstudent/gui/StudentForm.java:281-334 | input is accepted exactly when every field passes; a rejection names a failing field, every earlier field passes, and the message is that field's |
| StudentForm.NaNMarksPassAsWritten | src/main/java/com/smartstudent/gui/StudentForm.java:320-331 | marks that parse to NaN pass validation as written, while the preview shows Invalid; the intended check rejects them with the range message |
| StudentForm.ValidationAgreesWithPreview | src/main/java/com/smartstudent/gui/StudentForm.java:320-331 | with the intended range check, the marks pass validation exactly when the preview shows a grade |
| StudentForm.AcceptedMarksInRange | src/main/java/com/smartstudent/gui/StudentForm.java:320-331 | accepted marks are a finite number in [0,100] |
| StudentForm.AsWrittenAcceptsRangeOrNaN | src/main/java/com/smartstudent/gui/StudentForm.java:320-331 | the validation as written lets through marks that parse to a number in [0,100] or to NaN, and nothing else |
| StudentForm.ValidationsDifferOnlyOnNaN | src/main/java/com/smartstudent/gui/StudentForm.java:320-331 | the written and the intended validation disagree exactly when every other field is valid and the marks parse to NaN |
| StudentForm.MergeKeepsPrefix | src/main/java/com/smartstudent/gui/StudentForm.java:156-171 | the built-in departments stay first, in their order |
| StudentForm.MergeContents | src/main/java/com/smartstudent/gui/StudentForm.java:166-171 | the merged list holds exactly the built-ins and the store's departments |
| StudentForm.MergeDistinct | src/main/java/com/smartstudent/gui/StudentForm.java:166-171 | merging never introduces a duplicate |
| StudentForm.LoadedDepartmentsDistinct | src/main/java/com/smartstudent/gui/StudentForm.java:156-175 | the department list the dialog fills has no department twice |
| StudentForm.NewStudent | src/main/java/com/smartstudent/gui/StudentForm.java:248-255 | the saved student has id 0, the trimmed name, roll number, email and phone (name and roll number non-empty), the selected department, and the parsed marks within [0,100] |
| StudentForm.StudentForm.constructor | src/main/java/com/smartstudent/gui/StudentForm.java:28-49 | the dialog opens with the department list loaded and, when editing, the roll number fixed to the edited student's |
| StudentForm.StudentForm.AddItem | src/main/java/com/smartstudent/gui/StudentForm.java:159-164 | an item is appended, and the first item added to an empty combo becomes the selection |
| StudentForm.StudentForm.IsDepartmentInCombo | src/main/java/com/smartstudent/gui/StudentForm.java:177-184 | the scan finds a department exactly when the combo lists it |
| StudentForm.StudentForm.LoadDepartments | src/main/java/com/smartstudent/gui/StudentForm.java:156-175 | on success the combo is the six built-ins then the new store departments, with the first built-in selected; on failure it stays empty and an error is shown |
| StudentForm.StudentForm.LoadStudentData | src/main/java/com/smartstudent/gui/StudentForm.java:186-196 | the fields show the edited student, the roll number is disabled, and the department is selected when the combo lists it |
| StudentForm.StudentForm.Type | src/main/java/com/smartstudent/gui/StudentForm.java:189 | the typed field now holds the text and every other field keeps its text; a disabled roll-number field ignores typing, so an edit keeps its roll number |
| StudentForm.StudentForm.Choose | src/main/java/com/smartstudent/gui/StudentForm.java:191 | selecting an item the combo does not list leaves the selection unchanged |
| StudentForm.StudentForm.HandleSave | src/main/java/com/smartstudent/gui/StudentForm.java:242-279 | input the intended check rejects shows its message and changes nothing; adding refuses an existing roll number and otherwise stores the student; editing updates the record under the original roll number; only a successful save confirms |
| StatisticsPanel.Percentage | src/main/java/com/smartstudent/gui/StatisticsPanel.java:169 | 0 without a positive total; otherwise count/total*100, within [0,100] for a count within the total |
| StatisticsPanel.EntryRows | src/main/java/com/smartstudent/gui/StatisticsPanel.java:166-172 | one row per map entry, in entry order, each with its count's percentage |
| StatisticsPanel.KeyRows | src/main/java/com/smartstudent/gui/StatisticsPanel.java:187-192 | one row per listed key, in key order, counting getOrDefault(key, 0) |
| StatisticsPanel.GradeRowsInOrder | src/main/java/com/smartstudent/gui/StatisticsPanel.java:185-192 | exactly six grade rows, A+ to F, and a grade missing from the map has count 0 |
| StatisticsPanel.LookupAbsent | src/main/java/com/smartstudent/gui/StatisticsPanel.java:188 | getOrDefault of a missing key is 0 |
| StatisticsPanel.DepartmentRowsPerEntry | src/main/java/com/smartstudent/gui/StatisticsPanel.java:166-172 | one department row per map entry with its key and count |
| StatisticsPanel.PercentagesScale | src/main/java/com/smartstudent/gui/StatisticsPanel.java:169 | percentages of a common positive total add up to the counts' sum scaled by 100/total |
| StatisticsPanel.EntryRowsCount | src/main/java/com/smartstudent/gui/StatisticsPanel.java:164 | the department rows' counts add up to the sum of the map's values |
| StatisticsPanel.DepartmentPercentagesSum | src/main/java/com/smartstudent/gui/StatisticsPanel.java:164-172 | with a positive total the department percentages add up to 100 |
| StatisticsPanel.KeyRowsCount | src/main/java/com/smartstudent/gui/StatisticsPanel.java:187-188 | the grade rows' counts are the getOrDefault values of the listed grades |
| StatisticsPanel.SumLookupsTotal | src/main/java/com/smartstudent/gui/StatisticsPanel.java:182-188 | with distinct keys all listed, the getOrDefault values sum to the map's total |
| StatisticsPanel.GradePercentagesSum | src/main/java/com/smartstudent/gui/StatisticsPanel.java:182-191 | with a positive total and every key one of the six grades, the grade percentages add up to 100 |
| StatisticsPanel.RosterDepartmentPercentages | src/main/java/com/smartstudent/gui/StatisticsPanel.java:159-172 | fed from a non-empty roster, the department total is the number of students and the percentages add up to 100 |
| StatisticsPanel.RosterGradePercentages | src/main/java/com/smartstudent/gui/StatisticsPanel.java:177-192 | fed from a non-empty roster, the grade total is the number of students and the percentages add up to 100 |
| StatisticsPanel.StatisticsPanel.UpdateDepartmentStats | src/main/java/com/smartstudent/gui/StatisticsPanel.java:159-175 | the text area is the header, then one line per map entry in map order |
| StatisticsPanel.StatisticsPanel.UpdateGradeStats | src/main/java/com/smartstudent/gui/StatisticsPanel.java:177-195 | the text area is the header, then one line per grade from A+ to F |
| StatisticsPanel.StatisticsPanel.Render | src/main/java/com/smartstudent/gui/StatisticsPanel.java:133-149 | the overview labels are set; with null distributions rendering fails after the labels and leaves both text areas as they were |
| StatisticsPanel.StatisticsPanel.LoadStatistics | src/main/java/com/smartstudent/gui/StatisticsPanel.java:128-157 | a store failure shows one error and changes nothing else; an empty roster sets the labels and then fails on the null distributions; otherwise both text areas show the roster's distributions |

## Left out

- Swing presentation is not modelled: layouts, colours, focus, mouse listeners, and the success dialogs after a save. Error dialogs are kept as a list of messages.
- File output, the timestamped file names and `LocalDateTime.now()` are not modelled. The exporters return their lines, and the timestamp is a parameter. Line separators (`%n`) are not modelled.
- `%.2f` and `%.1f` are not modelled, so their locale is not either. They are parameters. A locale whose decimal separator is a comma would break the CSV columns, which is why the CSV round trip requires formatted marks that need no quoting.
- The `Double.parseDouble` grammar is not modelled: the parser is a parameter. Floating-point rounding, including `DoubleStream.average`, is not modelled: marks inside a student are exact reals.
- HashMap iteration order is unspecified in Java. A distribution is kept in first-seen order and stands for whatever order the map yields.
- The `Long::intValue` casts and the `int` sum in StatisticsPanel.java:164 and :182 are exact in the model, because a roster never nears 2^31 students. The `(int)` cast of the passed count in GradeCalculator.java:119 is exact for the same reason.
- Null strings are not modelled: only `escapeCsvField` and `truncate` handle null, through `Option`. Other fields are never null in the model.
- The `createdAt` and `updatedAt` fields and their accessors carry no logic and are not modelled.
- `Student.toString` is not modelled.
- Strings are sequences of Unicode scalar values, while Java's `String` counts UTF-16 units. Every string length and index in the model therefore agrees with Java only for text outside the supplementary planes: `String.hashCode`, `trim`, `split`, `length()`, `substring`, and "%-Ns" padding. This affects JavaLang.StringHash, JavaLang.Trim, JavaLang.PadRight, ExportUtil.Truncate and ExportUtil.TextCellsLayout. For example, a name of 10 emoji is 20 UTF-16 units, so the text report cuts it to 15 units plus "...", splitting a surrogate pair; the model counts 10 characters and keeps the name whole.
- The StudentDAO source is not part of this model. Its SQL semantics are not modelled: search matching and ordering, and `getTopPerformers`. Its searches are answered by a parameter. The store the form writes to is a map keyed by roll number.
- `StatisticsPanel.exportStatistics` and its file output are not modelled. `GradeCalculator.calculateStatistics` only calls the `Statistics` constructor, so `Statistics.Compute` stands for both.
- LoginFrame, User, DatabaseConnection and SmartStudentApp are UI, plumbing or thin holders and are not modelled.
- ExportUtil.TextHeaderRow, ExportUtil.EqualsRule and ExportUtil.DashRule: the column titles padded by "%-Ns" and the 80-character rules are written out as literals, not derived from the format string and `repeat`.
- ExportUtil.SummaryCounts: states the count lines only; the marks lines are stated by ExportUtil.TextReportParts as present exactly for a non-empty list, not by content.
- StudentForm.StudentForm.constructor: when editing, it states only the department list and the fixed roll number; the other loaded fields are stated by StudentForm.StudentForm.LoadStudentData.
- StudentDao.StudentStore.UpdateStudent: an unknown roll number leaves the store unchanged and is not reported, as an SQL UPDATE matching no row would behave; the DAO's actual reaction is not visible.
- StudentForm.StudentForm.HandleSave: the save validates with the intended marks check, StudentForm.ValidateInput, and not with the check as written. Marks that parse to NaN are therefore rejected with "Marks must be between 0 and 100" and nothing is stored, where the source stores the student with NaN marks and confirms the dialog. A stored record's marks are exact reals and cannot hold NaN. On every other input the two checks agree (StudentForm.ValidationsDifferOnlyOnNaN), so the save is as written there.
- StudentForm.NewStudent: built only from input the intended check accepts, so its marks lie in [0,100]; the source also builds a student from NaN marks, which StudentForm.AsWrittenAcceptsRangeOrNaN shows the written check lets through.
- StudentDao.StudentStore.InsertStudent: the driver's message for a duplicate roll number is not visible; StudentDao.DuplicateKey stands for it. handleSave checks the roll number before inserting, so it never reaches this failure.
- The "Invalid marks format" branch of handleSave (StudentForm.java:276-278) is not modelled as a separate path: validation has already parsed the same text, so it cannot be reached.

## Findings

| source | as written | input that shows it | evidently intended | confidence | as-written member | corrected member |
|---|---|---|---|---|---|---|
| src/main/java/com/smartstudent/gui/StudentForm.java:322 | the test `marks < 0` or `marks > 100` rejects out-of-range marks, but both comparisons are false for NaN | marks field "NaN" with the other fields valid: validation accepts, and the grade preview shows "Invalid" | marks must be a number in [0, 100], as the preview (StudentForm.java:203) already requires; the save (StudentForm.StudentForm.HandleSave) uses the corrected check | not executed | StudentForm.NaNMarksPassAsWritten | StudentForm.ValidateInput |
