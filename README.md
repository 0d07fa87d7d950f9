# educatch tutoring app — a verified model of its core

educatch is a tutoring administration app. A Flask backend (`Backend/main.py`) keeps
lessons, their dated occurrences and per-occurrence exceptions, weekly tutor invoices and
per-lesson reports. A React app (`WebApp/src/components/…`) lets admins and tutors plan
lessons, record attendance, fill in reports and move invoices and reports through their
statuses. This project models the rules both halves apply, in Dafny, and proves what they
promise.

What is modelled:

- **Backend** (`Backend/main.py`)
  - recurrence rule text: the `KEY=VALUE;…` parser and printer (`RecurrenceRule`);
  - expanding a lesson into occurrences (`Occurrences`), on proleptic Gregorian calendar
    arithmetic (`CivilTime`) and the date texts the two halves exchange (`DateText`);
  - weekly invoices: creating the missing weeks and the status machine of
    `update_invoice_status` (`Invoices`, `InvoiceUpdate`);
  - the database as one object whose tables those handlers rewrite (`Store`, `Tables`);
  - report and attendance texts, and the weekly and per-student report summaries
    (`ReportStatus`, `WeeklyReports`);
  - the lesson-editing decisions: clashes, exception columns, invoice reassignment, the routing
    of `update_lesson` and the delete guards (`LessonEdits`, `Payload`);
  - small formatters (`Formatters`).
- **Browser app**, one module per component:
  - the timetable page, month grid, filters and download menus (`CalendarPage`, `CalendarView`,
    `CalendarFilter`, `Choices`, `DownloadMenus`);
  - the lesson editor (`LessonEditor`) and the attendance panel (`Attendance`);
  - the reports page, table, modal and questions (`ReportsPage`, `ReportsTable`, `ReportModal`,
    `ReportQuestion`);
  - the invoices page, table and drawer (`InvoicesPage`, `InvoicesTable`, `InvoiceDrawer`);
  - the settings tables (`EditableTable`, `UsersTable`);
  - the array idioms they share (`Listing`).

How the source is represented:

- SQL tables are sequences of records.
- `COALESCE(exception value, base value)` is an occurrence's effective value.
- JSON bodies are maps from keys to a small JSON datatype.
- Components that keep state (the lesson editor, the attendance panel, the settings table,
  the report modal, the table selections, the download menu) are classes whose methods change
  their fields.
- The clock (`datetime.now()`, `NOW()`, `new Date()`) is a parameter. So is the choice
  between the MySQL and SQLite databases, where their SQL differs.
- Time zones are not modelled: every instant is read in one fixed zone.

## Model

| member | source | states |
|---|---|---|
| Attendance.Toggle | src/components/Calendar/Attendance.jsx:67-89 | a status button sends `null` exactly when the lesson already has that status, and its own status otherwise |
| Attendance.ToggleTwice | src/components/Calendar/Attendance.jsx:67-89 | pressing the same button twice restores a status that was already that button's and clears any other |
| Attendance.Merge | src/components/Calendar/Attendance.jsx:45-49 | the keys of the update replace the panel's values; every other value is kept |
| Attendance.Sent | src/components/Calendar/Attendance.jsx:50-64 | the request body carries exactly the update's keys (a cleared status as `null`, actual times in the database form), never the "missing" marker `false` |
| Attendance.BackendSetsUpdate | Backend/main.py:1138-1148 | `update_lesson_occurrence` sets each of its four columns to the value sent when the panel sent it and leaves it otherwise, and a panel update is never refused as empty |
| Attendance.PickerTimes | src/components/Calendar/Attendance.jsx:147-148 | the time picker starts from the recorded actual times, falling back to the planned ones |
| Attendance.Panel.constructor | src/components/Calendar/Attendance.jsx:27-32 | the panel's copy starts from the occurrence's recorded attendance values |
| Attendance.Panel.UpdateDetails | src/components/Calendar/Attendance.jsx:45-65 | the panel's copy becomes the merge of the old copy and the update, and the update is what is sent |
| Attendance.Panel.Press | src/components/Calendar/Attendance.jsx:67-89 | once the lesson has ended, a button toggles the status in the copy and sends only that status |
| Attendance.Panel.ChooseCode | src/components/Calendar/Attendance.jsx:155-171 | for an absent or disrupted lesson, choosing a code records it and sends only `attendance_code` |
| Attendance.Panel.SetActualTime | src/components/Calendar/Attendance.jsx:91-100 | for a disrupted lesson, the actual times are recorded and sent together |
| Attendance.StatusChangeKeepsDetails | src/components/Calendar/Attendance.jsx:45-89 | changing away from absent or disrupted sends only the status: the code and actual times stay recorded, and after "present" the code selector is hidden |
| CalendarFilter.Values | src/components/Timetable/CalendarFilter.jsx:20 | the selection after unticking holds one value per option, in the options' order |
| CalendarFilter.FilterChange | src/components/Timetable/CalendarFilter.jsx:14-22 | the filter's own flag becomes the checkbox value and every other flag is kept; unticking selects every option's value, ticking keeps the selection |
| CalendarFilter.ShownOptions | src/components/Timetable/CalendarFilter.jsx:35-37 | the select lists a copy of the options sorted by label, with every option kept (a permutation) |
| CalendarFilter.OffSelectsEverything | src/components/Timetable/CalendarFilter.jsx:14-22 | after a filter is turned off, every option's value is selected and the select is hidden |
| CalendarFilter.OffThenOn | src/components/Timetable/CalendarFilter.jsx:14-32 | turning a filter off and then on shows the select with every option selected |
| Choices.SortByLabel | src/components/Timetable/CalendarFilter.jsx:35-37 | the sorted copy is ordered by label and is a permutation of the options |
| Choices.InsertByLabel | WebApp/src/components/Timetable/DownloadMenu.jsx:33 | inserting one option into a label-sorted list keeps it sorted and adds exactly that option |
| Choices.InsertByLabelStable | WebApp/src/components/Timetable/DownloadMenu.jsx:33 | the inserted option goes in front of every option with the same label, which keep their order |
| Choices.SortByLabelStable | src/components/Timetable/CalendarFilter.jsx:35-37 | the sort is stable: the options sharing any one label come out in their original order |
| Choices.IncludesAt | src/components/Timetable/CalendarFilter.jsx:38-40 | `includes` holds exactly when the search text occurs at some position of the label |
| Choices.MatchesIgnoresCase | src/components/Timetable/CalendarFilter.jsx:38-40 | the search test gives the same answer after lowercasing either side |
| Choices.AccentedMatches | src/components/Timetable/CalendarFilter.jsx:38-40 | an accented capital is found by its small letter: `é` finds `Émile` |
| Choices.EmptySearchMatches | src/components/Timetable/CalendarFilter.jsx:38-40 | an empty search text matches every option |
| Choices.PieceMatches | WebApp/src/components/Timetable/DownloadMenu.jsx:99-101 | any piece of a label finds that label |
| CalendarPage.GroupByDay | WebApp/src/components/Calendar/index.jsx:264-278 | a date has an entry exactly when some lesson that passes the filters starts on it, and the entry lists those lessons in input order (a missing entry reads as `[]`, as `getDayLessons` does) |
| CalendarPage.GroupMapDays | WebApp/src/components/Calendar/index.jsx:264-278 | the map built one lesson at a time has an entry for exactly the days with a matching lesson, and that entry lists them in input order |
| CalendarPage.OnDayCounts | WebApp/src/components/Calendar/index.jsx:267-277 | a lesson that passes the filters is listed under its own start date exactly as often as it occurs in the input and under no other date; a lesson that fails them is listed nowhere |
| CalendarPage.FormattedTimeParse | WebApp/src/components/Calendar/index.jsx:37-57 | the backend's `string_to_datetime` reads both formatted times back as the chosen day at the chosen hours and minutes, with zero seconds (four-digit years) |
| CalendarPage.CancelBodyPlan | WebApp/src/components/Calendar/index.jsx:211-217 | a cancellation reaches `add_lesson_exception` as an upsert of the single column `exception_type = 'CANCEL'` that does not move the occurrence to another invoice |
| CalendarPage.Pick | WebApp/src/components/Calendar/index.jsx:224-226 | the filtered object keeps exactly the keys of the data that are listed as modified, with their values |
| CalendarPage.ModifyOccurrenceColumns | WebApp/src/components/Calendar/index.jsx:219-233 | an occurrence edit sets an exception column (other than the type) exactly when its key was both modified and given, and to the given value |
| CalendarPage.ModifyLessonBody | WebApp/src/components/Calendar/index.jsx:235-253 | the series-edit body holds the header keys and the modified keys of the content; header values win unless the content overrides them with a modified key, and without content it is the header |
| CalendarPage.DeleteSeriesTruncates | WebApp/src/components/Calendar/index.jsx:147-156 | "delete all future occurrences" makes `update_lesson` cut the series at this occurrence: no extension, no split, and the occurrences from here on are deleted |
| CalendarView.ShownFrom | WebApp/src/components/Calendar/CalendarView.jsx:60-62 | the cell's filter keeps only lessons of the day, never more than it was given |
| CalendarView.ShownFromTail | WebApp/src/components/Calendar/CalendarView.jsx:60-62 | past the first two positions, at most one lesson (the selected one) passes the filter when ids are distinct |
| CalendarView.DisplayedBounds | WebApp/src/components/Calendar/CalendarView.jsx:58-66 | a cell shows at most three lessons, always the first two and the selected one whenever the day has it, nothing that is not the day's, and the "n more" count lies between 0 and the day's size |
| CalendarView.SmallDayShowsAll | WebApp/src/components/Calendar/CalendarView.jsx:58-66 | a day with at most two lessons shows all of them and "0 more" |
| CalendarView.RefetchFrom | WebApp/src/components/Calendar/CalendarView.jsx:52-56 | lessons are fetched again, from the new date, exactly when a refetch date is known and the new date lies after it |
| CalendarView.MenuItems | WebApp/src/components/Calendar/CalendarView.jsx:160-166 | the context menu is empty exactly on the selected lesson or for a user who is not an admin, and otherwise offers report, modify and delete |
| CalendarView.MenuClick | WebApp/src/components/Calendar/CalendarView.jsx:42-50 | each key leads to its own action; delete asks about future occurrences exactly for a recurring lesson that is not an exception; any other key does nothing |
| CalendarView.DeleteNeedsAdmin | WebApp/src/components/Calendar/CalendarView.jsx:42-50 | an action reached from the menu implies an admin user and a lesson that is not the open one |
| CivilTime.DaysInMonth | Backend/main.py:529-530 | a month has 28 to 31 days, and 29 exactly for February of a leap year (the clamp `relativedelta` applies) |
| CivilTime.AddDays | Backend/main.py:523-524 | `+ timedelta(days=n)` gives a valid date exactly `n` days later in day-number order |
| CivilTime.AddDaysTime | Backend/main.py:523-524 | shifting a date-time by whole days keeps its clock time and moves its instant by `n` days |
| CivilTime.Weekday | Backend/main.py:354 | `weekday()` lies in 0..6 |
| CivilTime.JsDay | WebApp/src/components/Reports/index.jsx:14-21 | `getDay()` lies in 0..6 and is Python's weekday shifted by one (Sunday first) |
| CivilTime.MondayOf | Backend/main.py:354-355 | `d - timedelta(days=d.weekday())` is a valid Monday `weekday()` days before `d` |
| CivilTime.MondayOfMonotone | Backend/main.py:354-355 | a later date never has an earlier week start |
| CivilTime.SundayOf | Backend/main.py:2682 | `d + timedelta(days=6 - d.weekday())` is the Sunday that ends the week of `d`, six days after its Monday |
| CivilTime.SameWeekSameMonday | Backend/main.py:354-355 | every date of the week starting at a date's Monday has that same Monday |
| CivilTime.AddMonths | Backend/main.py:529-530 | `+ relativedelta(months=n)` moves the month index by exactly `n` and keeps the day, clamped to the new month's length |
| CivilTime.AddMonthsLater | Backend/main.py:529-530 | a step of one month or more always gives a later date |
| CivilTime.DayNumberInjective | Backend/main.py:374-375 | distinct valid dates have distinct day numbers, so comparing weeks by day number is comparing the weeks |
| CivilTime.AddDaysAdd | Backend/main.py:375 | day steps compose: `n` days then `m` days is `n + m` days |
| DateText.NatText | Backend/main.py:169 | `str(n)` of a non-negative integer is a non-empty run of digits that denotes `n`, without leading zeros |
| DateText.ZeroPad | WebApp/src/components/Calendar/index.jsx:63-67 | `padStart(w, "0")` gives the text's own length when it is long enough and exactly `w` characters otherwise |
| DateText.ZeroPadIsFixed | WebApp/src/components/Calendar/index.jsx:63-67 | zero-padding the digits of a number that fits in `w` digits gives exactly its `w` low digits |
| DateText.FixedValue | WebApp/src/components/Calendar/index.jsx:63-67 | the `w` fixed-width digits of a number below `10^w` denote that number |
| DateText.MicroField | Backend/main.py:118 | `%f` reads one to six digits as a fraction of a second |
| DateText.StringToDateTime | Backend/main.py:115-128 | `string_to_datetime` returns a valid date-time from year 1 on when one of its three formats matches, and fails otherwise |
| DateText.DbFormParse | Backend/main.py:115-128 | a text in the exact form `YYYY-MM-DD HH:MM:SS` is rejected by both ISO formats and read by the third exactly as its digits spell it |
| DateText.DbFormPrintBack | Backend/main.py:163-170 | a database-form text that parses is printed back unchanged by `str()` |
| DateText.PyTextParse | Backend/main.py:163-170 | `str()` of a whole-second date-time (years 1 to 9999) is in database form and `string_to_datetime` reads it back as the same value |
| DateText.DbTextParse | WebApp/src/components/Calendar/index.jsx:59-79 | the browser's database form of a four-digit-year time is Python's `str()` of it without milliseconds, and the backend reads it back as that time |
| DownloadMenus.JsDate | WebApp/src/components/Timetable/DownloadMenu.jsx:52-53 | `new Date(year, monthIndex, day)` always names a valid date, carrying an out-of-range month into the year and counting days from the first of the month |
| DownloadMenus.Dates | WebApp/src/components/Timetable/DownloadMenu.jsx:43-59 | "this week" sends today's instant as both ends and a custom span sends the picked dates |
| DownloadMenus.JsFirstDay | WebApp/src/components/Timetable/DownloadMenu.jsx:52 | `new Date(y, m - 1, 1)` is the first of month `m` |
| DownloadMenus.JsLastDay | WebApp/src/components/Timetable/DownloadMenu.jsx:53 | `new Date(y, m, 0)` is the last day of month `m`, February 29th in a leap year |
| DownloadMenus.MonthIsCurrentMonth | WebApp/src/components/Timetable/DownloadMenu.jsx:50-55 | "this month" runs from midnight on the first to midnight on the last day of the current month |
| DownloadMenus.AsChoices | WebApp/src/components/Timetable/DownloadMenu.jsx:28-32 | one `{value: id, label: name}` option per record, in order |
| DownloadMenus.PeopleOptions | WebApp/src/components/Timetable/DownloadMenu.jsx:27-41 | the tutor or student options are sorted by name and are a permutation of the records' options |
| DownloadMenus.TimetableMenu.constructor | WebApp/src/components/Timetable/DownloadMenu.jsx:13-17 | the menu starts closed, on "tutor", with nobody selected, on "this week" and without a picked range |
| DownloadMenus.TimetableMenu.ChooseRole | WebApp/src/components/Timetable/DownloadMenu.jsx:80-83 | choosing a role empties the selection and changes nothing else |
| DownloadMenus.TimetableMenu.ChooseIds | WebApp/src/components/Timetable/DownloadMenu.jsx:106 | the selection becomes the chosen ids and nothing else changes |
| DownloadMenus.TimetableMenu.ChooseSpan | WebApp/src/components/Timetable/DownloadMenu.jsx:124 | the span becomes the chosen one and nothing else changes |
| DownloadMenus.TimetableMenu.PickDates | WebApp/src/components/Timetable/DownloadMenu.jsx:141 | the picked range (or `null` when cleared) is stored and nothing else changes |
| DownloadMenus.TimetableMenu.Download | WebApp/src/components/Timetable/DownloadMenu.jsx:43-67 | when the button is enabled, an admin asks for the chosen role and people and anyone else for their own timetable, with the span's dates; the request is sent once and the menu closes |
| DownloadMenus.TimetableWeekIsWholeWeek | Backend/main.py:2677-2682 | "this week" reaches the server as today twice, which it widens to the Monday and the Sunday of today's week |
| DownloadMenus.AttendanceDownload | src/components/Settings/DownloadAttendanceReportMenu.jsx:22-47 | the row's student, its name and the checkbox value (`null` until first clicked) go through unchanged, with the span's dates |
| DownloadMenus.AttendanceWeekIsOneInstant | src/components/Settings/DownloadAttendanceReportMenu.jsx:26-28 | as written, the attendance report for "this week" keeps a lesson exactly when it starts at the instant of the download |
| DownloadMenus.AttendanceMonthMissesLastDay | src/components/Settings/DownloadAttendanceReportMenu.jsx:29-34 | as written, "this month" ends at midnight on the last day: a lesson at 09:00 on October 31st is not counted for October |
| DownloadMenus.IntendedRange | src/components/Settings/DownloadAttendanceReportMenu.jsx:22-38 | the corrected range keeps a custom pick unchanged and otherwise spans whole days |
| DownloadMenus.WholeDays | Backend/main.py:2858 | `BETWEEN` midnight of one day and the last microsecond of another holds exactly for the dates between the two days |
| DownloadMenus.IntendedWeekIsWholeWeek | src/components/Settings/DownloadAttendanceReportMenu.jsx:26-28 | with the corrected range, the week report keeps exactly the lessons of today's week |
| DownloadMenus.IntendedMonthIsWholeMonth | src/components/Settings/DownloadAttendanceReportMenu.jsx:29-34 | with the corrected range, the month report keeps exactly the lessons of the current month |
| LessonEditor.TrimStart | WebApp/src/components/Calendar/EditableLesson.jsx:86-88 | `parseInt` skips leading white space: what is left is a suffix of the text that does not start with JavaScript white space |
| LessonEditor.TrimStartDropsSpace | WebApp/src/components/Calendar/EditableLesson.jsx:86-88 | every character skipped is JavaScript white space (the ECMAScript white space and line terminators) |
| LessonEditor.DigitPrefix | WebApp/src/components/Calendar/EditableLesson.jsx:86-88 | the leading run of digits `parseInt` reads in base 10 or 16: all digits of that base, followed by a non-digit or the end |
| LessonEditor.ParseDigits | WebApp/src/components/Calendar/EditableLesson.jsx:86-88 | after an optional `0x`/`0X` prefix that switches to base 16, a number is read exactly when at least one digit of the base follows |
| LessonEditor.ParseInt | WebApp/src/components/Calendar/EditableLesson.jsx:86-88 | `parseInt` gives a whole number or `NaN`, and `NaN` for `undefined` |
| LessonEditor.ParseIntDecimal | WebApp/src/components/Calendar/EditableLesson.jsx:86-88 | decimal digits followed by anything that is not a digit (and not an `x` after a lone `0`) read as their value: the rest of the text is ignored |
| LessonEditor.ParseIntSkipsSpace | WebApp/src/components/Calendar/EditableLesson.jsx:86-88 | a leading white-space character does not change what `parseInt` reads |
| LessonEditor.ParseIntNegated | WebApp/src/components/Calendar/EditableLesson.jsx:86-88 | a leading `-` negates the number read from the rest, and `NaN` stays `NaN` |
| LessonEditor.ParseDigitsHex | WebApp/src/components/Calendar/EditableLesson.jsx:86-88 | `0x10` reads as 16 and `0XfF` as 255: the prefix and the hexadecimal digits are read in either case |
| LessonEditor.ParseDigitsHexBare | WebApp/src/components/Calendar/EditableLesson.jsx:86-88 | `0x` alone, or followed by no hexadecimal digit, reads as no number |
| LessonEditor.ParseIntSpaced | WebApp/src/components/Calendar/EditableLesson.jsx:86-88 | the interval text `" 3"` reads as 3 |
| LessonEditor.ParseIntHexText | WebApp/src/components/Calendar/EditableLesson.jsx:86-88 | the interval text `"0x10"` reads as 16 |
| LessonEditor.ParseIntNatText | WebApp/src/components/Calendar/EditableLesson.jsx:86-88 | `parseInt` of the decimal text of a whole number is that number |
| LessonEditor.Nth | WebApp/src/components/Calendar/EditableLesson.jsx:89 | `parts[i]` is defined exactly for an index inside the array |
| LessonEditor.ReadRule | WebApp/src/components/Calendar/EditableLesson.jsx:80-95 | reading a rule text gives its parts, with a frequency and a numeric or `NaN` interval; it fails with the `TypeError` exactly when the text has no `;` or its first component has no `=` |
| LessonEditor.InitialRule | WebApp/src/components/Calendar/EditableLesson.jsx:80-100 | a new lesson or one without a rule starts from weekly, every week, no end |
| LessonEditor.RuleRoundTrip | WebApp/src/components/Calendar/EditableLesson.jsx:131-145 | a lowercase frequency and a whole-number interval survive a save and a reopening, and the end date comes back as dayjs's reading of the written text |
| LessonEditor.BackendReadsRule | WebApp/src/components/Calendar/EditableLesson.jsx:131-145 | `parse_recurrence_rule` reads a rule the editor wrote as the FREQ and INTERVAL texts and the end's date and time without milliseconds, in that order |
| LessonEditor.UntilFormatMismatch | WebApp/src/components/Calendar/EditableLesson.jsx:89-93 | the end date is written as the 19 characters `YYYY-MM-DD HH:MM:SS`, not the `YYYYMMDD` the editor asks dayjs for, while the backend reads it as the end's date and time |
| LessonEditor.RewrittenRuleLosesParts | WebApp/src/components/Calendar/EditableLesson.jsx:131-145 | writing the rule text over the form's own state leaves a second call `FREQ=undefined;INTERVAL=undefined` |
| LessonEditor.Complete | WebApp/src/components/Calendar/EditableLesson.jsx:254-269 | `handleValidateData` accepts a well-formed form exactly when it has a date and a time |
| LessonEditor.Content | WebApp/src/components/Calendar/EditableLesson.jsx:145-152 | `getFormattedData` returns every other form value unchanged, `recurrence_rule` as the given rule text, and `start_time` and `end_time` as the formatted times of the form's date and time |
| LessonEditor.NextClash | WebApp/src/components/Calendar/EditableLesson.jsx:227-251 | the clash times change only on a date edit with a time set or a time edit with a date set, and the tutor or student only on an edit of that field |
| LessonEditor.DeleteChoiceOf | WebApp/src/components/Calendar/EditableLesson.jsx:773-779 | Delete asks about future occurrences exactly for a recurring lesson whose rule is untouched and that is not an exception |
| LessonEditor.DeleteAgreesWithMenu | WebApp/src/components/Calendar/EditableLesson.jsx:773-779 | while the rule is untouched, the editor's Delete asks the same question as the calendar's context menu |
| LessonEditor.SaveRouteOf | WebApp/src/components/Calendar/EditableLesson.jsx:806-925 | Save is disabled exactly when nothing was modified, sends nothing for an incomplete form, asks "all or one" exactly for an untouched recurring non-exception, edits an exception on its own, and confirms a frequency or interval change |
| LessonEditor.SeriesEditSendsTimes | WebApp/src/components/Calendar/EditableLesson.jsx:911-924 | a series edit from Save always carries the content's start and end times |
| LessonEditor.TitleOnlyUpdatesSeries | WebApp/src/components/Calendar/EditableLesson.jsx:848-857 | "edit all occurrences" after changing only the title sends neither times nor a rule, so `update_lesson` updates the series in place |
| LessonEditor.RefusedUntilStillMarksRule | WebApp/src/components/Calendar/EditableLesson.jsx:193-249 | a refused end date leaves the form unchanged but still records `recurrence_rule` as modified, so Delete opens the single-lesson dialog and Save no longer asks "all or one" |
| LessonEditor.UntilEditOutcome | WebApp/src/components/Calendar/EditableLesson.jsx:193-211 | an applied end-date edit changes only the end date, and either clears a set end date or falls on or after the lesson's day |
| LessonEditor.Editor.constructor | WebApp/src/components/Calendar/EditableLesson.jsx:48-101 | the editor starts with the lesson's values and rule, its tutor and student as clash details, the switch on exactly for a recurring lesson, and nothing modified |
| LessonEditor.Editor.InputChange | WebApp/src/components/Calendar/EditableLesson.jsx:191-252 | an edit updates the form, the clash details and the modified-field list as the step functions say, and raises the recurrence-type and date flags on the matching edits |
| LessonEditor.Editor.ToggleRecurrence | WebApp/src/components/Calendar/EditableLesson.jsx:683-692 | the switch takes the new value and `recurrence_rule` is recorded as modified whichever way it is turned |
| LessonEditor.Editor.FormattedData | WebApp/src/components/Calendar/EditableLesson.jsx:131-153 | the content carries the rule text (empty with the switch off) and both formatted times, and the form's rule becomes that text |
| LessonEditor.Editor.AddLesson | WebApp/src/components/Calendar/EditableLesson.jsx:271-276 | a new lesson is sent exactly when the form is complete, as `getFormattedData` builds it, and then the form's rule is the text written; an incomplete form is left as it was; the clash details, modified fields, switch and flags never change |
| LessonEditor.SecondContentLosesRule | WebApp/src/components/Calendar/EditableLesson.jsx:131-145 | a second request from the same editor carries `FREQ=undefined;INTERVAL=undefined`, whatever the rule was |
| EditableTable.ServerDataType | Backend/main.py:1771-1774 | the settings endpoints report `number` exactly for cursor type code 3 and `string` otherwise |
| EditableTable.ServerColumnsSortAsText | WebApp/src/components/Settings/EditableTable.jsx:90-98 | no column the server reports is sorted numerically, since the table tests for `int` and the server never says `int` |
| EditableTable.Capitalised | WebApp/src/components/Settings/EditableTable.jsx:89-93 | the default title keeps the name's length, turns every underscore into a space and upper-cases only the first letter |
| EditableTable.Title | WebApp/src/components/Settings/EditableTable.jsx:124-135 | every column other than rate, account number and sort code has the capitalised default title |
| EditableTable.Present | WebApp/src/components/Settings/EditableTable.jsx:87-119 | a data column shows its own field, under its title, sorts numerically exactly for `int` and has a colour picker exactly for a name that lower-cases to `color` |
| EditableTable.Presented | WebApp/src/components/Settings/EditableTable.jsx:87-119 | one data column per server column, in the same order |
| EditableTable.WithActions | WebApp/src/components/Settings/EditableTable.jsx:158-188 | the data columns come first, then a download column on the students table only, and delete last |
| EditableTable.ActionColumns | WebApp/src/components/Settings/EditableTable.jsx:184-188 | a download column appears exactly on the students table, and every table has a delete column |
| EditableTable.NamedIs | WebApp/src/components/Settings/EditableTable.jsx:121-139 | `find` by name picks the first column with that name, and only a column the server listed |
| EditableTable.ArrangedKeepsColumns | WebApp/src/components/Settings/EditableTable.jsx:121-156 | the arranged columns are exactly the server's ordinary columns plus the first occurrence of each of name, rate, account number, sort code and color |
| EditableTable.ArrangedDistinct | WebApp/src/components/Settings/EditableTable.jsx:121-156 | with distinct names, every server column is shown and nothing else |
| EditableTable.ArrangedEnds | WebApp/src/components/Settings/EditableTable.jsx:149-156 | `name` is the first data column and `color` the last whenever the server lists them |
| EditableTable.Spread | WebApp/src/components/Settings/EditableTable.jsx:34 | `{...item, ...row}` has both sets of fields, the row's values winning |
| EditableTable.UpdatedRecords | WebApp/src/components/Settings/EditableTable.jsx:30-35 | an edit keeps the number of records, except that an empty table gets one |
| EditableTable.Spliced | WebApp/src/components/Settings/EditableTable.jsx:30-35 | the copy built with `findIndex` and `splice` (an unknown key answers -1 and the splice then counts from the end) is exactly that edit |
| EditableTable.EditKnownRow | WebApp/src/components/Settings/EditableTable.jsx:30-35 | an edit of a row the table holds merges the row into the first record with its key and changes no other record |
| EditableTable.EditCellChangesOneField | WebApp/src/components/Settings/EditableTable.jsx:99-117 | a cell edit changes that one field of that one record |
| EditableTable.EditUnknownRowOverwritesLast | WebApp/src/components/Settings/EditableTable.jsx:32-34 | an edit of a row whose key no record has replaces the last record by the row |
| EditableTable.UpdateOf | WebApp/src/components/Settings/EditableTable.jsx:37-38 | the update sent carries the row's id and every other field of the row except `id` and `key`, with the row's values |
| EditableTable.Defaults | WebApp/src/components/Settings/EditableTable.jsx:45-54 | a new record has exactly one field per column, each with its default (empty, a colour by table, or a rate of 20) |
| EditableTable.NewRecord | WebApp/src/components/Settings/EditableTable.jsx:42-55 | the new record has a `key` and the columns' fields with their defaults, and the key is the fresh uuid unless a column is named `key` |
| EditableTable.PageOf | WebApp/src/components/Settings/EditableTable.jsx:215-217 | the page a record is on, eight to a page, counted from 1 |
| EditableTable.LastPageHoldsLast | WebApp/src/components/Settings/EditableTable.jsx:64 | `Math.ceil(n / 8)` is the page of the last of n records |
| EditableTable.Resyncs | WebApp/src/components/Settings/EditableTable.jsx:191-198 | the server's data replaces the local copy exactly when it has arrived and the table has no columns yet, or a change failed and the record counts differ |
| EditableTable.Table.constructor | WebApp/src/components/Settings/EditableTable.jsx:20-28 | the table starts on page 1 with the server's data, or empty, and nothing pending or sent |
| EditableTable.Table.UpdateCell | WebApp/src/components/Settings/EditableTable.jsx:30-39 | the records take the edit at once and the update waits in the debouncer, replacing any earlier one |
| EditableTable.Table.Flush | WebApp/src/components/Settings/EditableTable.jsx:24-28 | the debouncer sends only the last pending update, once |
| EditableTable.Table.Add | WebApp/src/components/Settings/EditableTable.jsx:41-57 | adding sends the new record and leaves the table as it was until the server answers |
| EditableTable.Table.Added | WebApp/src/components/Settings/EditableTable.jsx:58-70 | on success the record with the server's id is appended and its page is shown |
| EditableTable.Table.DeleteRow | WebApp/src/components/Settings/EditableTable.jsx:75-82 | every record with that id is removed, the others keep their order, and the deletion is sent |
| EditableTable.Table.Sync | WebApp/src/components/Settings/EditableTable.jsx:191-198 | the local copy becomes the server's data exactly when it resyncs, and stays otherwise |
| EditableTable.DeleteRemovesExactly | WebApp/src/components/Settings/EditableTable.jsx:76 | a deletion keeps each record without that id as often as it occurred and removes all with it |
| EditableTable.DeleteUndoesAdd | WebApp/src/components/Settings/EditableTable.jsx:58-82 | deleting the id the server gave an added record removes that record and leaves the earlier records as a deletion of that id would |
| Formatters.IdTextValue | Backend/main.py:175 | `str(id).zfill(5)` is all digits, at least five of them, exactly five below 100000, and reads back as the id |
| Formatters.NatTextLeading | Backend/main.py:175 | `str(n)` has no leading zero: a number written with more than one digit is at least the matching power of ten |
| Formatters.InvoiceTitleRoundTrip | Backend/main.py:175 | an invoice title is `INV-` followed by digits that read back as the invoice id |
| Formatters.InvoiceTitleInjective | Backend/main.py:175 | different invoices get different titles |
| Formatters.ReportTitleRoundTrip | Backend/main.py:589-590 | a report title is `Report No. ` followed by digits that read back as the report id |
| Formatters.Shorten | Backend/main.py:2750-2752 | a name of at most 20 characters is kept; a longer one becomes its first 20 characters and `...` |
| Formatters.TimetableRange | Backend/main.py:2680-2682 | the timetable's start moves back to the Monday of its week and its end forward to the Sunday, each by at most six days and keeping its time of day |
| InvoiceDrawer.ReduceAdds | WebApp/src/components/Invoices/InvoiceDrawer.jsx:145-149 | the `reduce` under the table adds every row's rate times hours to its starting value |
| InvoiceDrawer.SumIsRateTimesTime | WebApp/src/components/Invoices/InvoiceDrawer.jsx:64-69 | the Total column sums to the rate times the students' lesson time together |
| InvoiceDrawer.RowWithinSum | WebApp/src/components/Invoices/InvoiceDrawer.jsx:64-69 | no row's total exceeds the column's sum |
| InvoiceDrawer.GrandTotalIsSum | WebApp/src/components/Invoices/InvoiceDrawer.jsx:145-149 | the invoice total is the sum of the Total column, the rate times all lesson time, and at least every row's total |
| InvoiceDrawer.NextStatus | WebApp/src/components/Invoices/InvoiceDrawer.jsx:199-202 | the submit button sends `ready` exactly for a submitted invoice and `submitted` for any other |
| InvoiceDrawer.SubmitLabel | WebApp/src/components/Invoices/InvoiceDrawer.jsx:205-215 | the label is one of five; it offers to unsubmit exactly a submitted invoice and to mark unpaid exactly an admin's paid one |
| InvoiceDrawer.SubmitTooltip | WebApp/src/components/Invoices/InvoiceDrawer.jsx:184-196 | the tooltip is empty exactly when the submit button is enabled |
| InvoiceDrawer.DrawerClick | WebApp/src/components/Invoices/InvoiceDrawer.jsx:158-218 | a click sends an update exactly when its button is shown and enabled, for this invoice alone |
| InvoiceDrawer.DrawerAgreesWithTable | WebApp/src/components/Invoices/InvoiceDrawer.jsx:168-218 | for an admin or a tutor and any of the five statuses, the drawer's buttons make exactly the status moves the table's row links make |
| InvoiceUpdate.EmptyIds | Backend/main.py:410-421 | the ids collected are exactly those of invoices no uncancelled occurrence counts towards, by effective invoice and effective tutor |
| InvoiceUpdate.Detach | Backend/main.py:406-409 | step 1 sets an exception's invoice to NULL exactly when it points at an empty invoice, and changes nothing else in the row |
| InvoiceUpdate.DetachAll | Backend/main.py:406-423 | step 1 treats every exception row alike and keeps the table's length and order |
| InvoiceUpdate.ExceptionOfCleared | Backend/main.py:406-423 | after step 1 the exception of an occurrence is the cleared form of the one it had |
| InvoiceUpdate.ClearedPointAtNonEmpty | Backend/main.py:406-423 | after step 1 no exception points at an invoice that had no lessons |
| InvoiceUpdate.ClearKeepsCounts | Backend/main.py:406-442 | an occurrence that counted towards an invoice still does after step 1, so step 2 deletes only invoices step 1 found empty |
| InvoiceUpdate.DeleteIds | Backend/main.py:426-428 | step 2 keeps exactly the rows whose id is not deleted, in order |
| InvoiceUpdate.DeleteEmptyKeepsNonEmpty | Backend/main.py:426-442 | with unique ids, step 2 keeps an invoice exactly when it holds a lesson |
| InvoiceUpdate.YearDay | Backend/main.py:448 | the day of the year, counted from 0 on January 1st |
| InvoiceUpdate.WeekNumber | Backend/main.py:448 | `WEEK()` and `strftime('%W')` give a number from 0 to 53 |
| InvoiceUpdate.WeekNumberZero | Backend/main.py:448 | week 0 is exactly the days before the year's first Sunday (`WEEK`) or Monday (`%W`) |
| InvoiceUpdate.WeekNumberStep | Backend/main.py:448 | seven days later in the same year is the next week number |
| InvoiceUpdate.CloseWeek | Backend/main.py:445-450 | step 3 makes an invoice incomplete exactly when it was upcoming and today's week number exceeds its week's, and changes nothing else |
| InvoiceUpdate.YearlessWeekStaysUpcoming | Backend/main.py:448 | an invoice for the last week of 2024 is still upcoming in the second week of January 2025 |
| InvoiceUpdate.YearlessWeekClosesEarly | Backend/main.py:448 | an invoice for a January 2025 week becomes incomplete in December 2024, before its week begins |
| InvoiceUpdate.PendingInvoices | Backend/main.py:456-465 | the pending ids are exactly the base invoices of uncancelled occurrences, not handed to another tutor, with a report that is not submitted |
| InvoiceUpdate.NextStatus | Backend/main.py:453-478 | step 4 leaves every status other than incomplete and ready alone |
| InvoiceUpdate.NextStatusRules | Backend/main.py:453-478 | after step 4 an incomplete or ready invoice is ready exactly when it is not pending and incomplete exactly when it is |
| InvoiceUpdate.Advance | Backend/main.py:445-478 | steps 3 and 4 keep an invoice's id, week and tutor |
| InvoiceUpdate.AdvanceAll | Backend/main.py:445-478 | steps 3 and 4 treat every row alike and keep the table's length and order |
| InvoiceUpdate.AdvanceOutcome | Backend/main.py:445-478 | after steps 3 and 4 an invoice is ready exactly when it was open and is not pending, incomplete exactly when open and pending, and unchanged when not open |
| InvoiceUpdate.PendingUsesBaseInvoice | Backend/main.py:456-465 | an outstanding report on an occurrence moved to another invoice blocks its base invoice, so the invoice that holds the lesson still becomes ready |
| InvoiceUpdate.AdvanceAllSource | Backend/main.py:445-478 | every row after steps 3 and 4 is the advanced form of a row before them |
| InvoiceUpdate.AdvanceKeepsEmptiness | Backend/main.py:445-478 | steps 3 and 4 do not change whether an invoice holds lessons |
| InvoiceUpdate.AdvanceKeepsInvariants | Backend/main.py:445-478 | steps 3 and 4 keep the invoice table's valid weeks, one invoice per tutor and week, unique ids and the id bound |
| InvoiceUpdate.UpdateOutcome | Backend/main.py:403-478 | after all four steps every invoice that holds a lesson is kept and advanced, every kept one holds a lesson, ready ones have no outstanding report and incomplete ones have one |
| Invoices.ParseStatus | Backend/main.py:188-196 | a status text that is read is the name of the status it reads as |
| Invoices.ParseStatusName | Backend/main.py:188-196 | every status's stored name reads back as that status |
| Invoices.Description | Backend/main.py:189-195 | no known status is described as "Status unknown" |
| Invoices.InvoiceStatusText | Backend/main.py:188-196 | the text is "Status unknown" exactly for a text that names no status, and the status's description otherwise |
| Invoices.WeekIds | Backend/main.py:367 | the map's keys are exactly the rows' weeks |
| Invoices.WeekIdsOf | Backend/main.py:367 | a week whose rows all carry one id is sent to that id |
| Invoices.WeekIdsSource | Backend/main.py:367 | every entry of the map comes from a row of that week with that id |
| Invoices.TutorRowsBetween | Backend/main.py:359-364 | the query returns exactly the tutor's invoices whose week lies between the two Mondays |
| Invoices.TutorRows | Backend/main.py:388-392 | the re-read returns exactly the tutor's invoices |
| Invoices.WeekLater | Backend/main.py:375 | one week later is seven days on, on the same weekday |
| Invoices.MissingWeeks | Backend/main.py:370-375 | every collected week lies in the range and has no invoice |
| Invoices.MissingWeeksStep | Backend/main.py:372-375 | one turn of the loop collects the current week unless it has an invoice, then goes on a week later |
| Invoices.CollectFromMissing | Backend/main.py:370-375 | finishing the loop appends the missing weeks from the current one on to what was collected |
| Invoices.CollectMissingWeeks | Backend/main.py:370-375 | the loop collects exactly the missing weeks of the range, in order |
| Invoices.MissingWeeksWeekday | Backend/main.py:370-375 | every collected week falls on the start week's weekday |
| Invoices.MissingWeeksDistinct | Backend/main.py:370-375 | no week is collected twice |
| Invoices.MissingWeeksComplete | Backend/main.py:370-375 | every Monday of the range without an invoice is collected |
| Invoices.NewInvoices | Backend/main.py:379-384 | one row per collected week, for the tutor, upcoming from the current week on and incomplete before it, with consecutive ids |
| Invoices.CreatedWeekListed | Backend/main.py:387-394 | a created week is among the keys of the re-read map |
| Invoices.InvoiceIdsCover | Backend/main.py:352-400 | after the call every Monday from the week of the start date to the week of the end date has an invoice id |
| Invoices.InvoiceIdsSound | Backend/main.py:352-400 | every week in the returned map has an invoice of the tutor once the call is done |
| Invoices.CreatedRow | Backend/main.py:379-384 | a row the call added is the invoice of the collected week its id's offset names |
| Invoices.CreatedStatus | Backend/main.py:383-384 | a created invoice is the tutor's, for a Monday, upcoming exactly when its week is not before the current week and incomplete exactly when it is |
| Invoices.ExistingWeeks | Backend/main.py:359-367 | every stored invoice of the tutor in the range is found by the first query |
| Invoices.CreatedUnique | Backend/main.py:352-385 | creating only the missing weeks keeps one invoice per tutor and week |
| Invoices.ExistingKeepIds | Backend/main.py:352-400 | with one invoice per tutor and week, a stored invoice keeps its id in the returned map |
| Invoices.CreatedFreshIds | Backend/main.py:379-385 | the new rows' auto-increment ids keep all ids unique and below the advanced counter |
| Invoices.AppendedFresh | Backend/main.py:379-385 | rows numbered on from a counter above every stored id keep the ids unique |
| InvoicesPage.TabInvoices | WebApp/src/components/Invoices/index.jsx:133-160 | the tab lists exactly the received invoices its filter accepts, in the order received |
| InvoicesPage.TabsPartition | WebApp/src/components/Invoices/index.jsx:135-159 | an invoice with one of the five statuses whose week is shown is listed by exactly one tab: unsubmitted for upcoming, incomplete and ready, else the tab of its status |
| InvoicesPage.SwitchOnlyAdds | WebApp/src/components/Invoices/index.jsx:136-155 | turning "Show upcoming" on only adds invoices to a tab, exactly those of weeks that start after now, and an unknown tab lists nothing |
| InvoicesPage.TabKeys | WebApp/src/components/Invoices/index.jsx:93-122 | the same three tabs for everyone, admins starting with the submitted ones and everyone else with the unsubmitted ones |
| InvoicesPage.DefaultView | WebApp/src/components/Invoices/index.jsx:23-25 | the first tab shown is one of the tabs, and it is "unsubmitted" exactly for tutors |
| InvoicesPage.StoredText | WebApp/src/components/Invoices/index.jsx:193-196 | a boolean is stored as "true" exactly when it is true |
| InvoicesPage.ToggleUpcoming | WebApp/src/components/Invoices/index.jsx:33-35 | the switch flips, and what it stores reads back as the new state (with lines 191-198) |
| InvoicesPage.DisableUnsubmit | WebApp/src/components/Invoices/index.jsx:63-70 | a report opened from the page may be unsubmitted exactly on the unsubmitted tab or by an admin |
| InvoicesPage.UpdateRequest | WebApp/src/components/Invoices/index.jsx:77-91 | the mutation carries the bulk status when it is truthy and the single status otherwise, the selected ids and the role as given, and the invoice's id exactly when an invoice is given |
| InvoicesPage.SelectInvoice | WebApp/src/components/Invoices/index.jsx:162-178 | the drawer shows an invoice of the list whose id the address gives, nothing without an id, and reports the invoice missing exactly when the list has none with that id |
| InvoicesPage.OpenInvoice | WebApp/src/components/Invoices/index.jsx:55-57 | opening an invoice navigates to a non-empty address segment |
| InvoicesPage.OpenThenSelect | WebApp/src/components/Invoices/index.jsx:55-57 | with distinct invoice ids, opening an invoice of the list shows that invoice in the drawer (with lines 162-170) |
| InvoicesTable.Badge | WebApp/src/components/Invoices/InvoicesTable.jsx:18-31 | success exactly for ready, paid and submitted, processing exactly for incomplete, error exactly for upcoming, default for anything else |
| InvoicesTable.TabBadges | WebApp/src/components/Invoices/InvoicesTable.jsx:86-91 | every row of the submitted and paid tabs shows a success badge; on the unsubmitted tab exactly the ready ones do |
| InvoicesTable.RowActions | WebApp/src/components/Invoices/InvoicesTable.jsx:103-184 | a row shows submit exactly for ready, upcoming and incomplete, unsubmit exactly for submitted, and mark paid or unpaid only to admins on submitted or paid invoices |
| InvoicesTable.RowClick | WebApp/src/components/Invoices/InvoicesTable.jsx:103-184 | a link sends an update exactly when the row shows it and it responds, for that invoice alone and with the link's status |
| InvoicesTable.RowTransitions | WebApp/src/components/Invoices/InvoicesTable.jsx:103-184 | without a selection the rows' links make exactly the allowed moves: to submitted from ready (and from incomplete for admins), submitted to ready, and submitted to paid and back for admins |
| InvoicesTable.SelectionSilencesRows | WebApp/src/components/Invoices/InvoicesTable.jsx:108-113 | while rows are selected no row link sends anything (with lines 137-139) |
| InvoicesTable.BulkStatuses | WebApp/src/components/Invoices/InvoicesTable.jsx:225-291 | with a selection, paid is offered exactly to admins on the submitted tab, ready exactly on the submitted tab, submitted exactly on the paid and unsubmitted tabs; nothing without a selection |
| InvoicesTable.TutorBulk | WebApp/src/components/Invoices/InvoicesTable.jsx:215-291 | a tutor's bulk buttons never mark invoices paid and appear only on the submitted and unsubmitted tabs |
| InvoicesTable.Table.constructor | WebApp/src/components/Invoices/InvoicesTable.jsx:16 | a table starts with nothing selected |
| InvoicesTable.Table.Select | WebApp/src/components/Invoices/InvoicesTable.jsx:215-223 | where selection is enabled, the selection becomes the chosen keys |
| InvoicesTable.Table.Bulk | WebApp/src/components/Invoices/InvoicesTable.jsx:227-289 | a bulk button sends its status for the selection and then clears the selection |
| InvoicesTable.BulkSendsSelection | WebApp/src/components/Invoices/InvoicesTable.jsx:227-289 | a bulk update names no single invoice and sends its button's status for exactly the selected ids |
| InvoicesTable.BulkSubmitBypassesRowGating | WebApp/src/components/Invoices/InvoicesTable.jsx:108-129 | a tutor can submit an upcoming or incomplete invoice by selecting it, although its own submit link does not respond (with lines 267-278) |
| InvoicesTable.GetColumns | WebApp/src/components/Invoices/InvoicesTable.jsx:70-199 | the columns are Invoice, Week, Status and the actions, with Tutor inserted third for admins |
| LessonEdits.OverlapsShareInstant | Backend/main.py:749-750 | two non-empty half-open intervals pass the clash query's time test exactly when they share an instant |
| LessonEdits.EffectiveTimesValid | Backend/main.py:749-750 | an occurrence's effective times, its exception's where set and its own otherwise, are real date-times |
| LessonEdits.ClashCount | Backend/main.py:744-760 | the count is at most the number of occurrences and positive exactly when some occurrence clashes: it overlaps by effective times, has the tutor or the student, is not cancelled and is not the one edited |
| LessonEdits.LessonClash | Backend/main.py:730-764 | an unreadable start or end time is the error answer; otherwise a clash is reported, with its count, exactly when some occurrence clashes |
| LessonEdits.EditedAndCancelledNeverClash | Backend/main.py:752-756 | the occurrence being edited never clashes with itself, and a cancelled occurrence never clashes |
| LessonEdits.ExceptionFieldsDistinct | Backend/main.py:826-835 | the eight exception columns have distinct names |
| LessonEdits.OccurrenceFieldsDistinct | Backend/main.py:1139-1144 | the attendance columns have distinct names |
| LessonEdits.ReassignsInvoice | Backend/main.py:843 | the condition is true whenever a tutor is set, and raises `KeyError` exactly when no tutor is set, a start is and the body has no `exception_type` |
| LessonEdits.ReassignAgreesUnlessCancelWithTutor | Backend/main.py:843 | the condition as written and as its comment describes it differ exactly on a cancellation that names a tutor |
| LessonEdits.CancelWithTutorReassigns | Backend/main.py:843 | cancelling an occurrence with a tutor id in the body still moves it to an invoice |
| LessonEdits.PlanException | Backend/main.py:819-884 | the handler answers "No valid fields to update" exactly when the body names the occurrence and sets no exception column, and otherwise writes exactly the columns given |
| LessonEdits.FalseIsMissing | Backend/main.py:838 | an explicit `false` is dropped like a missing key, while `null` and `0` are written |
| LessonEdits.LessonData | Backend/main.py:905-908 | the lesson data is the body without `lesson_occurrence_id` and `update_type`, with the same values |
| LessonEdits.RouteUpdate | Backend/main.py:899-1115 | a body without both keys fails, one with nothing else is "No lesson data provided", and a lesson without a rule is updated on its own exactly when the rows are found |
| LessonEdits.ChangeSeriesCases | Backend/main.py:943-1067 | a series change never both extends and splits; a MODIFY does exactly one, deleting the later occurrences exactly when it splits; a DELETE only truncates |
| LessonEdits.DeleteWithRule | Backend/main.py:934-1067 | a DELETE naming a readable rule for a lesson with a rule cuts the series at this occurrence |
| LessonEdits.RetimedBody | Backend/main.py:943-947 | a body with exactly the occurrence, the update type, the start, the end and the rule |
| LessonEdits.RouteNewRule | Backend/main.py:934-1067 | once the new rule and the old one parse, a MODIFY extends exactly when only the times and the rule change and FREQ and INTERVAL are kept, and splits otherwise, failing when the body does not give both times as readable text |
| LessonEdits.UntilEditExtends | Backend/main.py:943-995 | changing only the UNTIL of a recurring lesson's rule edits the series in place |
| LessonEdits.ExtraColumnSplits | Backend/main.py:943-1067 | the same edit with any other column as well starts a new lesson and cuts the old series when both times are readable, and fails otherwise |
| LessonEdits.RetimeWhen | Backend/main.py:934 | a recurring lesson's later occurrences are retimed exactly when the body has a start on the same day, a readable end and no new rule (with lines 1071-1093) |
| LessonEdits.RetimeWithoutEndFails | Backend/main.py:1071-1082 | a same-day start with no readable end fails before any occurrence is rewritten |
| LessonEdits.LowerChar | Backend/main.py:1860 | a capital (`A`-`Z`, or a Latin-1 capital other than `×`) becomes the small letter 0x20 further on, anything else is kept, and no capital is left |
| LessonEdits.Lower | Backend/main.py:1860 | lower-casing keeps the length and lower-cases every character |
| LessonEdits.BlockingCount | Backend/main.py:1855-1862 | the count of blocking occurrences is at most the number of occurrences |
| LessonEdits.CanDeleteIff | Backend/main.py:1851-1875 | a tutor, student, location or subject may be deleted exactly when no occurrence of its lessons blocks it, that is every one is cancelled |
| LessonEdits.CancelledLessonBlocksDelete | Backend/main.py:1860 | compared exactly, a lesson cancelled as "CANCEL" still blocks deleting its tutor; compared ignoring case it does not |
| LessonEdits.Upserted | Backend/main.py:864-884 | the occurrence's exception gets the given columns, a blank one being inserted when it has none, and no other occurrence's exception changes |
| LessonEdits.Reopened | Backend/main.py:862 | exactly the row with that id, if submitted, becomes ready; every other row stays |
| LessonEdits.ReopenedSource | Backend/main.py:862 | each reopened row comes from a row with the same id, tutor and week, and that id is no longer submitted |
| LessonEdits.ReopenedPair | Backend/main.py:862 | two reopened rows come from two rows, equal when those are |
| LessonEdits.ReopenedKeeps | Backend/main.py:862 | reopening keeps the invoice table's valid weeks, one invoice per tutor and week, unique ids and the id bound |
| LessonEdits.ReopenedKeepsRows | Backend/main.py:862 | no invoice disappears when one is reopened |
| LessonEdits.RetimeOneFacts | Backend/main.py:1072-1093 | an occurrence of the lesson from the edited one on keeps its id, lesson, invoice and date and takes the new clock times; every other occurrence is unchanged |
| Listing.Find | WebApp/src/components/Invoices/index.jsx:163-165 | `find` returns nothing exactly when no row satisfies the test, and otherwise the row at the position `findIndex` gives: the first one that does |
| Listing.FindUnique | WebApp/src/components/Invoices/index.jsx:163-165 | when exactly one row satisfies the test, `find` returns it |
| Listing.Filter | WebApp/src/components/Settings/EditableTable.jsx:76 | `filter` keeps exactly the rows that satisfy the test, and is empty exactly when none does |
| Listing.FilterCounts | WebApp/src/components/Settings/EditableTable.jsx:76 | `filter` keeps each accepted row as often as it occurs and drops the others entirely |
| Listing.FilterMonotone | WebApp/src/components/Invoices/index.jsx:135-159 | a stricter test keeps a sub-multiset of what a weaker one keeps |
| Listing.FindIndex | WebApp/src/components/Settings/EditableTable.jsx:32 | `findIndex` is the position of the first row satisfying the test, and -1 exactly when none does |
| Listing.Distinct | WebApp/src/components/Invoices/InvoicesTable.jsx:33 | `[...new Set(xs)]` holds exactly the values of the list, each once, in the order of first occurrence |
| Listing.Options | WebApp/src/components/Invoices/InvoicesTable.jsx:33-68 | one filter option per distinct value, in the order of first occurrence, labelled with the text of the first row that has it |
| Listing.OptionsCover | WebApp/src/components/Invoices/InvoicesTable.jsx:33-68 | there is a filter option for a value exactly when some row has that value |
| Listing.Insert | WebApp/src/components/Invoices/InvoicesTable.jsx:192-199 | `splice(i, 0, x)` puts x at position i and shifts the rest, losing nothing |
| Occurrences.FreqOf | Backend/main.py:500-532 | the loop steps daily, weekly or monthly exactly for the FREQ texts `daily`, `weekly` and `monthly`; anything else, a missing FREQ included, stops it |
| Occurrences.ParseIntText | Backend/main.py:499 | `int()` reads back the decimal text of a natural number |
| Occurrences.ParseIntNegative | Backend/main.py:499 | `int()` reads back the decimal text of a negative number |
| Occurrences.UntilOf | Backend/main.py:501 | the bound is a real date, and 180 days after the first start when the rule has no UNTIL |
| Occurrences.Step | Backend/main.py:522-530 | a step keeps the clock time and, with a positive interval, moves the date forward |
| Occurrences.StepSpacing | Backend/main.py:522-530 | a step moves the date by the interval in days, in weeks of seven days or in calendar months |
| Occurrences.StepWhole | Backend/main.py:517-530 | dropping the microseconds before or after a step gives the same date-time |
| Occurrences.ExpandStep | Backend/main.py:511-534 | one step that neither stops nor fails adds its occurrence to those already recorded |
| Occurrences.ExpandSeries | Backend/main.py:510-534 | the loop records exactly the expansion of the rule from the first start and end |
| Occurrences.ExpandCons | Backend/main.py:511-534 | a recording step is followed by the rest of the loop, which succeeds too |
| Occurrences.ExpandTagged | Backend/main.py:512-520 | every recorded occurrence is of the lesson and carries the invoice of the week its start falls in |
| Occurrences.ExpandPlaced | Backend/main.py:511-530 | every recorded occurrence starts between the first start and the bound, at the first start's clock time without microseconds, and ends at the first end's clock time |
| Occurrences.CoveredNoMissing | Backend/main.py:503-519 | with an invoice for every week from the first start to the bound, no `KeyError` is raised |
| Occurrences.ExpandHead | Backend/main.py:514-520 | without `ignore_first_occurrence` the first occurrence is the first start and end, without microseconds |
| Occurrences.ExpandStops | Backend/main.py:511 | the loop stops at the first start past the bound, which keeps the first start's clock time and is stored as `extended_until` (with lines 576-578) |
| Occurrences.ExpandChain | Backend/main.py:515-530 | each occurrence starts and ends one step after the previous one |
| Occurrences.ExpandLast | Backend/main.py:511-534 | the stored `extended_until` is one step after the last recorded start (with lines 576-578) |
| Occurrences.StepInstant | Backend/main.py:522-527 | a daily or weekly step moves a date-time by whole days |
| Occurrences.ExpandDuration | Backend/main.py:515-527 | with a daily or weekly FREQ every occurrence lasts as long as the first |
| Occurrences.MonthlyEndBeforeStart | Backend/main.py:528-530 | a monthly lesson from 23:00 on 30 January to 01:00 on 31 January of a common year recurs on 28 February ending before it starts |
| Occurrences.MonthlyDrift | Backend/main.py:528-530 | a monthly series from 31 January of a common year continues on 28 February and then on 28 March, not on 31 March |
| Occurrences.IgnoreFirstDropsFirst | Backend/main.py:514 | `ignore_first_occurrence` drops exactly the first occurrence and changes nothing else |
| Occurrences.OtherAtMostOne | Backend/main.py:531-532 | a FREQ other than daily, weekly or monthly records at most one occurrence and stores its own start |
| Occurrences.AddLessonOccurrences | Backend/main.py:483-578 | the call records exactly the occurrences the rule's expansion gives, or the single occurrence of a lesson without a rule, or the error the rule raises |
| Payload.GetOrNull | Backend/main.py:936 | `data.get(key)` is `None` for a missing key |
| Payload.Lookup | Backend/main.py:843 | `fields_to_update.get(column)` finds a value exactly for a column the dict holds |
| Payload.DropMissing | Backend/main.py:838 | the filtered dict keeps at most the listed columns and only those |
| Payload.DropMissingLookup | Backend/main.py:825-838 | a column is kept exactly when its body key was given and not `false`, with the body's value, `null` included |
| Payload.DropMissingEmpty | Backend/main.py:838-841 | no column is kept exactly when no key was given |
| RecurrenceRule.Get | Backend/main.py:499-501 | `rule.get(key)` finds a value exactly for a key the dict holds |
| RecurrenceRule.Put | Backend/main.py:165 | `rule_dict[key] = value` keeps the key order when the key is present, appends otherwise, and reads back the new value |
| RecurrenceRule.Split | Backend/main.py:160-162 | `split` gives at least one piece and no piece holds the separator |
| RecurrenceRule.JoinSplit | Backend/main.py:160-169 | joining the pieces of a split gives back the text |
| RecurrenceRule.SplitCount | Backend/main.py:160-162 | a text splits into one more piece than it has separators |
| RecurrenceRule.SplitSeveral | Backend/main.py:160-162 | a text splits into two or more pieces exactly when it holds the separator |
| RecurrenceRule.SplitJoin | Backend/main.py:160-169 | splitting a join of separator-free pieces gives the pieces back |
| RecurrenceRule.ParseEntry | Backend/main.py:162-164 | a component is read only when it has exactly one `=`, under the key before it |
| RecurrenceRule.ParseEntries | Backend/main.py:161-165 | the components are read exactly when every one of them is, one entry each |
| RecurrenceRule.EntryPrintBack | Backend/main.py:162-169 | a component read and printed back, with an UNTIL in `str()` form, is itself |
| RecurrenceRule.CollectDistinct | Backend/main.py:161-165 | filling the dict with entries of distinct new keys appends them in order |
| RecurrenceRule.FormatParse | Backend/main.py:158-170 | formatting a parsed rule whose keys are distinct and whose UNTIL is written `YYYY-MM-DD HH:MM:SS` gives the rule text back, keys in the same order |
| RecurrenceRule.ComponentOkIff | Backend/main.py:162-164 | a component is read exactly when it has one `=` and, for UNTIL, a value `string_to_datetime` recognises |
| RecurrenceRule.ParseRuleOk | Backend/main.py:158-166 | a rule parses exactly when every component is accepted |
| RecurrenceRule.NotKeyValueRaises | Backend/main.py:162 | a component without exactly one `=` makes the parse raise |
| RecurrenceRule.ParseTextEntry | Backend/main.py:162-165 | a plain `key=value` component other than UNTIL reads as the text after `=` |
| RecurrenceRule.PutRepeated | Backend/main.py:165 | putting k, j and k again into an empty dict overwrites the first k in place |
| RecurrenceRule.CollectRepeated | Backend/main.py:161-165 | filling the dict with k, j, k keeps k first with its last value |
| RecurrenceRule.RepeatedKey | Backend/main.py:158-170 | a rule such as `F=1;I=2;F=3` reads as `{F: 3, I: 2}` and prints back as `F=3;I=2` |
| ReportModal.Synced | WebApp/src/components/Reports/ReportModal.jsx:119-133 | the modal's copy takes the fetched report's id, status and content |
| ReportModal.SyncStep | WebApp/src/components/Reports/ReportModal.jsx:119-133 | the effect copies the fetched report exactly when one is loaded and the copy's id or status differs from it, and otherwise leaves the copy alone |
| ReportModal.SyncSettles | WebApp/src/components/Reports/ReportModal.jsx:119-133 | once synced, the effect does nothing more; a copy already matching in id and status is kept (unsaved answers survive a refetch); a fresh modal takes the loaded report |
| ReportModal.StatusOr | WebApp/src/components/Reports/ReportModal.jsx:52-57 | a truthy status argument wins, otherwise the fallback is used |
| ReportModal.FanOut | WebApp/src/components/Reports/ReportModal.jsx:48-61 | a weekly report sends one mutation per lesson report, in order, with that report's id, the invoice and student ids, the given status or the report's own, and the toast messages on the first mutation only |
| ReportModal.SingleUpdate | WebApp/src/components/Reports/ReportModal.jsx:62-76 | a single report's mutation carries its id and content, and asks for a status change exactly when a status was given, keeping the report's own status otherwise |
| ReportModal.FooterStatuses | WebApp/src/components/Reports/ReportModal.jsx:79-117 | save draft sends 'incomplete', submit 'submitted' and unsubmit 'incomplete'; on a weekly report every lesson report gets that status |
| ReportModal.Modal.constructor | WebApp/src/components/Reports/ReportModal.jsx:25-37 | the modal starts with an empty copy, no waiting update and nothing sent |
| ReportModal.Modal.Sync | WebApp/src/components/Reports/ReportModal.jsx:119-133 | the copy becomes SyncStep of the old copy; the waiting and sent updates are unchanged |
| ReportModal.Modal.Update | WebApp/src/components/Reports/ReportModal.jsx:39-77 | a weekly update hands the mutation one update per report, in order, at once (its FanOut); a single update replaces whatever update was waiting for the delay; the copy is unchanged |
| ReportModal.Modal.Flush | WebApp/src/components/Reports/ReportModal.jsx:33-37 | when the delay runs out the waiting update, if any, is appended to the sent ones and nothing is left waiting |
| ReportModal.Modal.Answer | src/components/Reports/ReportQuestion.jsx:15-45 | answering a question puts the answered question into the copy and leaves a single-report update waiting that keeps the report's status and asks for no status change |
| ReportModal.InsertByOrder | WebApp/src/components/Reports/ReportModal.jsx:389-391 | inserting a question into a list sorted by `order ?? 0` gives a sorted permutation of the list plus the question |
| ReportModal.SortByOrder | WebApp/src/components/Reports/ReportModal.jsx:389-391 | the questions are shown as a permutation of the report's questions, sorted by `order ?? 0` (also 412-414) |
| ReportModal.InsertByOrderStable | WebApp/src/components/Reports/ReportModal.jsx:389-391 | the inserted question goes after every question with the same key, which keep their order |
| ReportModal.SortByOrderStable | WebApp/src/components/Reports/ReportModal.jsx:389-391 | the sort is stable, as `Array.prototype.sort` is: the questions sharing any one `order ?? 0` come out in their original order |
| ReportModal.Footer | WebApp/src/components/Reports/ReportModal.jsx:147-171 | the footer always starts with the download button (weekly) or the open-lesson button (single), disabled while loading or on error, and has at least two buttons |
| ReportModal.Buttons | WebApp/src/components/Reports/ReportModal.jsx:147-261 | the footer's buttons are listed one for one, in order |
| ReportModal.FooterRules | WebApp/src/components/Reports/ReportModal.jsx:147-261 | unsubmit is offered exactly when a tutor or admin sees a submitted report, submit exactly otherwise; unsubmit is disabled while loading or when `disable_unsubmit` is "true", submit only while loading; save draft and save-and-close are disabled while nothing changed |
| ReportModal.UnsubmitFromInvoices | WebApp/src/components/Reports/ReportModal.jsx:24 | opened from the invoices page, a submitted report's unsubmit button is disabled exactly for a tutor outside the unsubmitted tab |
| ReportQuestion.Answered | src/components/Reports/ReportQuestion.jsx:15-22 | answering keeps the question's id, kind, title and order; a text question takes the typed value, a boolean one the ticked state, and any other kind is unchanged |
| ReportQuestion.Replace | src/components/Reports/ReportQuestion.jsx:30-34 | every question with the given id is replaced by the answered one, all others kept, the length unchanged |
| ReportQuestion.UpdatedContent | src/components/Reports/ReportQuestion.jsx:24-38 | the report's content keeps its length and each entry is updated on its own |
| ReportQuestion.SingleReportReplacesById | src/components/Reports/ReportQuestion.jsx:36-37 | in a single report, the entry whose id is the question's id becomes the answered question and every other entry is unchanged |
| ReportQuestion.WeeklyReportReplacesInOwnReport | src/components/Reports/ReportQuestion.jsx:25-35 | in a weekly report, the lesson report being answered keeps its id and status and has only that question replaced; reports with other ids are unchanged |
| ReportQuestion.WeeklyReportIdClash | src/components/Reports/ReportQuestion.jsx:24-38 | because the id test is shared, with lesson reports 5 and 7 answering question 7 of report 5 turns report 7 into the answered question |
| ReportQuestion.AnswerReadBack | src/components/Reports/ReportQuestion.jsx:15-38 | after answering a text question of a single report, the entry with its id holds the typed answer and all other entries are unchanged |
| ReportStatus.ReportStatusText | Backend/main.py:180-186 | the text is "Status unknown" exactly for a status other than 'empty', 'incomplete' and 'submitted'; 'submitted' reads "Submitted" |
| ReportStatus.ReportStatusTextInjective | Backend/main.py:180-186 | the three known statuses have three different texts |
| ReportStatus.AttendanceCodeText | Backend/main.py:198-211 | a known code reads as its entry in the code map; a missing or unknown code reads as code N's "No known reason"; the text is always one of the map's |
| ReportStatus.CompleteAttendanceStatus | Backend/main.py:213-224 | an absent lesson reads "Absent - " and its code text; a disrupted one names its time window and its code text |
| ReportStatus.CompleteAttendanceStatusClass | Backend/main.py:213-224 | the attendance text always tells which of present, absent, disrupted or not recorded the lesson is |
| ReportStatus.WeeklyStatusCases | Backend/main.py:619-636 | a week with reports is 'empty' exactly when all are empty, 'submitted' exactly when all are submitted, and 'incomplete' otherwise |
| ReportStatus.SetStatuses | Backend/main.py:1284-1285 | exactly the reports with a non-empty status contribute a status |
| ReportStatus.StudentStatusCases | Backend/main.py:1289-1297 | with reports, a student is 'submitted' exactly when all are, 'empty' exactly when none is incomplete or submitted, and 'incomplete' when some is but not all are submitted |
| ReportStatus.NoReportsReadsSubmitted | Backend/main.py:1291-1292 | with no report status set, the invoice view calls the student 'submitted' while the weekly rule calls an empty week 'empty' |
| ReportsPage.JsDayShift | WebApp/src/components/Reports/index.jsx:16-18 | moving a date by k days moves JavaScript's `getDay()` by k modulo 7 |
| ReportsPage.BeforeSaturday | WebApp/src/components/Reports/index.jsx:16-18 | no day before the computed Saturday, from the date on, is a Saturday |
| ReportsPage.SaturdayOf | WebApp/src/components/Reports/index.jsx:14-21 | the date moved by `6 - getDay()` days is a Saturday, 0 to 6 days later, with no Saturday in between |
| ReportsPage.NoSaturdayBefore | WebApp/src/components/Reports/index.jsx:14-21 | no day from the date up to its week's Saturday, exclusive, is a Saturday |
| ReportsPage.WeekEnd | WebApp/src/components/Reports/index.jsx:14-21 | `getEndOfWeek` gives the first Saturday on or after the date, at 23:59:59.999 |
| ReportsPage.TabReports | WebApp/src/components/Reports/index.jsx:106-145 | a tab lists exactly the received reports that belong to it: unsubmitted or submitted ones (hiding upcoming ones unless shown), overdue unsubmitted ones, or those with a safeguarding concern; never more than received |
| ReportsPage.TabReportsCounts | WebApp/src/components/Reports/index.jsx:113-144 | the filter keeps every report of the tab as many times as it was received and drops every other |
| ReportsPage.TabFacts | WebApp/src/components/Reports/index.jsx:122-143 | the overdue and safeguarding tabs ignore the upcoming switch, an unknown tab lists nothing, and no report is in both the unsubmitted and submitted tabs |
| ReportsPage.TabsIgnoreSwitch | WebApp/src/components/Reports/index.jsx:133-139 | the overdue and safeguarding tabs list the same reports whatever the upcoming switch says |
| ReportsPage.OverdueIsPast | WebApp/src/components/Reports/index.jsx:114-127 | a lesson report in the overdue tab is also in the unsubmitted tab with upcoming reports hidden, as its lesson has started |
| ReportsPage.WeeklyRowsNeverUpcoming | WebApp/src/components/Reports/index.jsx:114 | a weekly row has no start time, so hiding upcoming reports never hides it |
| ReportsPage.TabKeys | WebApp/src/components/Reports/index.jsx:93-104 | every user has the unsubmitted and submitted tabs; the overdue and safeguarding tabs exist exactly for admins |
| ReportsPage.DefaultTab | WebApp/src/components/Reports/index.jsx:29-31 | the first tab shown is one of the user's tabs, and it is "unsubmitted" exactly for tutors |
| ReportsPage.OpenReport | WebApp/src/components/Reports/index.jsx:68-78 | in the weekly view the address names an invoice and a student, otherwise a report id only |
| ReportsPage.SelectReport | WebApp/src/components/Reports/index.jsx:146-176 | a report named by id is looked up among the lesson reports, one named by invoice and student among the weekly rows; the selection is reset without an error exactly when the address names neither |
| ReportsPage.OpenThenSelect | WebApp/src/components/Reports/index.jsx:68-78 | opening a lesson report and reading its address back selects that report again, when report ids are distinct (with 146-160) |
| ReportsPage.OpenWeeklyThenSelect | WebApp/src/components/Reports/index.jsx:73-76 | opening a weekly row and reading its address back selects that row again, when rows differ in invoice or student (with 153-157) |
| ReportsTable.Toggled | src/components/Reports/ReportsTable.jsx:56-60 | a submitted report goes back to 'incomplete', any other becomes 'submitted' |
| ReportsTable.StatusRequest | src/components/Reports/ReportsTable.jsx:20-65 | a bulk status wins over the report's own toggle; the ids sent are the explicit list if one is given, else the selection; the report id is the row's |
| ReportsTable.RowTogglesAgree | src/components/Reports/ReportsTable.jsx:189-208 | the per-lesson and weekly row links move a row to the same status; the weekly one sends all the row's report ids, the per-lesson one, usable only with nothing selected, sends none |
| ReportsTable.BulkStatus | src/components/Reports/ReportsTable.jsx:278-315 | a bulk button appears exactly when rows are selected on the submitted, overdue or unsubmitted tab, and it unsubmits exactly on the submitted tab |
| ReportsTable.AllReportIds | src/components/Reports/ReportsTable.jsx:268-270 | the weekly selection holds exactly the report ids of the selected rows |
| ReportsTable.AllReportIdsLength | src/components/Reports/ReportsTable.jsx:268-270 | every selected weekly row contributes all of its report ids |
| ReportsTable.Selection.constructor | src/components/Reports/ReportsTable.jsx:17 | the table starts with nothing selected |
| ReportsTable.Selection.Select | src/components/Reports/ReportsTable.jsx:266-273 | selecting rows stores their report ids in the weekly view and the row keys otherwise |
| ReportsTable.Selection.UpdateStatus | src/components/Reports/ReportsTable.jsx:20-65 | sending a status change builds the request from the selection held before, and then clears the selection |
| ReportsTable.BulkSendsSelection | src/components/Reports/ReportsTable.jsx:278-315 | a bulk button sends exactly the selected ids with its tab's status and no report id |
| ReportsTable.Badge | src/components/Reports/ReportsTable.jsx:67-78 | the badge is "default" exactly for a status other than the three known ones |
| ReportsTable.BadgeInjective | src/components/Reports/ReportsTable.jsx:67-78 | the three known statuses get three different badges |
| ReportsTable.GetColumns | src/components/Reports/ReportsTable.jsx:127-243 | the four combinations of view and role give the columns in the stated order: weekly moves Week first, drops Report and Lesson Date & Time and adds Reports before the last two; admins get Tutor third |
| Store.Database.GetOrCreateInvoices | Backend/main.py:352-395 | the tutor's invoices gain exactly the missing weeks from the week of the first date to the week of the last, numbered from the counter; the map returned gives every week's invoice; the other tables are unchanged and the invariants (real weeks, one invoice per tutor and week, unique ids below the counter) are kept |
| Store.Database.InsertInvoices | Backend/main.py:379-384 | the insert appends one invoice per week, in order, numbered from the counter, and advances the counter by the number of weeks |
| Store.Database.InsertInvoice | Backend/main.py:384 | one inserted row is the week's invoice with the next id, 'upcoming' from the current week on and 'incomplete' before it |
| Store.Database.GetOrCreateInvoice | Backend/main.py:398-399 | in single mode the invoice of the last date's week is returned, and it exists whenever the first date is not after the last |
| Store.Database.UpdateInvoiceStatus | Backend/main.py:403-478 | afterwards no invoice is empty, exceptions no longer point at deleted invoices, a 'ready' invoice has no outstanding report and an 'incomplete' one has; the invariants are kept and the lessons, occurrences and reports are unchanged |
| Store.Database.RetimeFrom | Backend/main.py:1070-1093 | every occurrence of the lesson starting at or after the given time keeps its date and takes the new clock times; all other rows are unchanged |
| Store.Database.MoveToInvoice | Backend/main.py:843-862 | the edited occurrence's invoice is the tutor's invoice for the week of its start, created if missing and numbered from the counter, which advances by the number of weeks created, and it is no longer 'submitted' |
| Store.Database.ReopenInvoice | Backend/main.py:862 | a submitted invoice with that id is set back to 'ready', every other invoice unchanged, and the invariants kept |
| Store.Database.AddLessonException | Backend/main.py:819-885 | the exception row of the occurrence is inserted or merged with the given columns and no other occurrence's exception changes; when the tutor or start changes, the move succeeds exactly when the tutor and start can be found (the given ones, else the occurrence's effective ones), the invoice of that tutor for the Monday of that start is found or created and reopened, the counter advances by the weeks created, the returned id is that invoice's, and the row is upserted with it; a missing occurrence changes nothing |
| Store.ReassignTarget | Backend/main.py:843-856 | the moved occurrence's tutor and start are found exactly when each is given in the body (a tutor other than 0) or its lookup finds the occurrence (and, for the tutor, its lesson), and the start is a valid time whenever the stored and given times are |
| Tables.LessonOf | Backend/main.py:239 | the join finds the lesson with that id when there is one, and nothing exactly when no lesson has it |
| Tables.OccurrenceOf | Backend/main.py:845-849 | the occurrence with that id is found when there is one, and nothing exactly when no occurrence has it |
| Tables.ExceptionOf | Backend/main.py:244 | the left join finds the exception row of the occurrence when there is one, and `NULL` exactly when there is none |
| UsersTable.RowValue | src/components/Settings/UsersTable.jsx:42-46 | a user without a role shows an empty value, an admin `[role]` and a tutor or student `[role, role_id]` |
| UsersTable.CascaderValue | src/components/Settings/UsersTable.jsx:39-47 | a local change to the user wins over the row's own value |
| UsersTable.UpdateBody | src/components/Settings/UsersTable.jsx:14-17 | the body's role and role id are the value's first and second entries, absent where the value is shorter, and both null when the value is missing |
| UsersTable.HandleUpdateUser | src/components/Settings/UsersTable.jsx:12-18 | the change is recorded for that user only, every other recorded change kept, and the update body is sent |
| UsersTable.ChangeShowsForThatUserOnly | src/components/Settings/UsersTable.jsx:12-18 | a change shows in that user's cascader and leaves every other user's cascader as it was (with 39-47) |
| UsersTable.RowValueRoundTrip | src/components/Settings/UsersTable.jsx:39-48 | choosing the value a row already shows sends back its role, with its role id for a tutor or student and without one for an admin |
| WeeklyReports.Formatted | Backend/main.py:588-596 | a formatted report keeps its query row and is keyed by its own id |
| WeeklyReports.AddToMatching | Backend/main.py:614-617 | adding a report to the weekly rows keeps their number |
| WeeklyReports.AppendToMatching | Backend/main.py:614-617 | the loop appends the report's id to every weekly row of its invoice and student id, and leaves every other row unchanged |
| WeeklyReports.GroupReports | Backend/main.py:587-617 | the first loop formats every report, in order, and builds the weekly rows: a new row for each unseen invoice and student name, the id appended to the matching rows otherwise |
| WeeklyReports.SetWeeklyStatuses | Backend/main.py:619-638 | the second loop gives each weekly row the summary status, and its text, of the lesson reports of its invoice and student id |
| WeeklyReports.FormatReports | Backend/main.py:583-640 | the lesson-based list is the formatted reports in order, and the weekly list is the grouped rows, each with its summary status |
| WeeklyReports.GroupedKeys | Backend/main.py:598-600 | there is one weekly row per invoice and student name seen, and no two rows share one |
| WeeklyReports.GroupedSound | Backend/main.py:601-617 | no weekly row is empty, and every id in a row is a report of that row's invoice and student |
| WeeklyReports.GroupedComplete | Backend/main.py:598-617 | when student names identify students within an invoice, every report's id is in the row of its invoice and student |
| WeeklyReports.SharedNameLosesReport | Backend/main.py:598-617 | rows are keyed by student name but filled by student id: two students of the same name in one invoice get one row, and the second one's report is in no row |
| WeeklyReports.StatusesOfFormatted | Backend/main.py:623-627 | the statuses the second loop gathers for a row are exactly those of the query rows of its invoice and student id |
| WeeklyReports.WeeklyStatusOfReports | Backend/main.py:630-636 | over some reports, the summary is 'submitted' exactly when all are submitted, 'empty' exactly when all are empty, and 'incomplete' otherwise |
| WeeklyReports.RowHasReport | Backend/main.py:601-612 | every weekly row has at least one report of its invoice and student |
| WeeklyReports.WeeklyRowStatus | Backend/main.py:619-638 | a weekly row is 'submitted' exactly when all its student's reports in that invoice are submitted, 'empty' exactly when all are empty, and 'incomplete' otherwise |

## Left out

- Flask routing, authentication (JWT, bcrypt, the origin check), database connections, SQL execution and JSON responses: I/O plumbing. Only the rules the queries state are modelled, over in-memory tables.
- PDF generation through the external PDF service, zip assembly and `send_file`: foreign calls and I/O. The download menus are modelled up to the range and body they send.
- Time zones, and display formatting with `strftime`, dayjs and `Intl`. Texts such as `week_short` and `lesson_time_short` are carried as given strings, and every instant is read in one fixed zone.
- Floating-point hours: lesson time is counted in whole minutes. The backend's hour totals (Backend/main.py:1267-1284) and the attendance statistics (Backend/main.py:2473-2478) are not modelled.
- React rendering, react-query caching and invalidation, toast messages and navigation. Navigation is modelled only as the address it produces.
- Debounce timing: a debounced update is a pending slot that an explicit `Flush` hands on. How long the timer waits is not modelled.
- The tables' column sorter functions are not modelled. One of them is the Email column of the users table, which sorts by name (src/components/Settings/UsersTable.jsx:24).
- Choices.SortByLabel: `localeCompare` is modelled as code-point order of the labels, without locale collation.
- The `!dataSource.columns` guard (WebApp/src/components/Settings/EditableTable.jsx:85): the model's table always has a column list.
- JSON key order: request bodies are maps.
- Years above 9999, where Python raises `OverflowError`: the model's calendar is unbounded. The JavaScript date texts are stated for four-digit years.
- Occurrences.ExpandSeries: an INTERVAL below 1 with a repeating FREQ is reported as `NoProgress`. The source loops without end for 0. For a negative INTERVAL it walks backwards until a week has no invoice and `invoice_ids[week]` raises `KeyError`.
- LessonEdits.Lower: case folding covers `A`-`Z` and the Latin-1 capitals `À`-`Þ` only. Other Unicode capitals (Greek, Cyrillic, Latin Extended), the mappings that change the length (`İ` becomes two characters) and the final sigma are not modelled. The same fold stands for Python's `lower()`, the case-insensitive collation at Backend/main.py:1860 and JavaScript's `toLowerCase()` in Choices.Matches, EditableTable.Present and LessonEditor.ReadRule, so those are exact only for such labels.
- LessonEditor.ParseInt: the result is an exact whole number. JavaScript rounds one beyond 2^53 to the nearest double, and `-0` is not told apart from `0`.
- Occurrences.ParseInt: `int()` is modelled for ASCII digits, a sign and surrounding whitespace. Underscore separators and non-ASCII digits are not modelled.
- Tables.NotCancelled: `exception_type <> 'CANCEL'` is an exact comparison, as in SQLite or under a case-sensitive MySQL collation. Under MySQL's default case-insensitive collation a row typed `cancel` or `Cancel` also counts as cancelled in the listings, the invoice queries and the clash query (Backend/main.py:305, 420, 439, 463, 473, 752); the model keeps such a row, while `LessonEdits.CancelJoined` does take the collation into account.
- LessonEdits.ClashCount: the tutor and student are compared as integers, as MySQL does once it converts the query-string text. On SQLite, `COALESCE(...) = ?` compares an integer with the bound text without conversion and never matches, so the `/demo/lessons/clash` route counts no clash at all; that is not modelled. The same holds for LessonEdits.LessonClash.
- LessonEdits.LessonClash: see LessonEdits.ClashCount; the answer is the MySQL one.
- LessonEdits.Upserted: an exception's title, description and location columns are not modelled. Its type, invoice, tutor, student, start and end are.
- The hooks under `src/hooks` and `WebApp/src/hooks`, routing tables, Sidebar, Login, Tabs, FiltersMenu, the Timetable page and UserContext are not part of this model. They are thin wrappers around API calls, or rendering and session state.

## Reproduced quirks

The model keeps these behaviours of the source as they are, and a lemma exhibits each one:

- `format_reports` opens a weekly row per invoice and student *name* but fills rows by student *id*: WeeklyReports.SharedNameLosesReport.
- The upcoming → incomplete rule compares week numbers without the year: InvoiceUpdate.YearlessWeekStaysUpcoming, InvoiceUpdate.YearlessWeekClosesEarly.
- The delete guards test `'cancel'` while the client sends `"CANCEL"`; only a case-insensitive comparison treats them as equal: LessonEdits.CancelledLessonBlocksDelete.
- `A or B and C` at Backend/main.py:843 moves a cancelled occurrence to an invoice when a tutor is named: LessonEdits.ReassignAgreesUnlessCancelWithTutor, LessonEdits.CancelWithTutorReassigns.
- The lesson editor reads UNTIL in a different form from the one it writes: LessonEditor.UntilFormatMismatch.
- `getFormattedData` writes the rule over the editor's own state, so a second request loses FREQ and INTERVAL: LessonEditor.RewrittenRuleLosesParts, LessonEditor.SecondContentLosesRule.
- A refused end date still marks the rule as modified: LessonEditor.RefusedUntilStillMarksRule.
- A weekly report row has no start time, so it is never hidden as upcoming: ReportsPage.WeeklyRowsNeverUpcoming.
- In a weekly report, answering a question also replaces a report whose id equals the question's id: ReportQuestion.WeeklyReportIdClash.
- A cell edit of a row whose key no record has overwrites the last record: EditableTable.EditUnknownRowOverwritesLast.
- The server never reports the column type `int`, so no settings column sorts numerically: EditableTable.ServerColumnsSortAsText.
- A tutor can submit an invoice through the bulk button that its own row link refuses: InvoicesTable.BulkSubmitBypassesRowGating.
- Changing an attendance status keeps the code and the actual times already recorded: Attendance.StatusChangeKeepsDetails.
- A debounced update replaces the one still waiting, which is never sent: EditableTable.Table.Flush, ReportModal.Modal.Update.
- `include_incomplete_attendance` is `null` until the box is first clicked: DownloadMenus.AttendanceDownload.
- Monthly steps clamp the day, so a lesson can end before it starts and the series drifts to earlier days: Occurrences.MonthlyEndBeforeStart, Occurrences.MonthlyDrift.
- An outstanding report on a moved occurrence blocks the occurrence's base invoice, not the one that holds it: InvoiceUpdate.PendingUsesBaseInvoice.
- A student with no report status set reads as 'submitted' in the invoice view: ReportStatus.NoReportsReadsSubmitted.
- A repeated rule key keeps its first position and its last value: RecurrenceRule.RepeatedKey.

## Findings

| source | as written | input that shows it | evidently intended | confidence | as-written member | corrected member |
|---|---|---|---|---|---|---|
| src/components/Settings/DownloadAttendanceReportMenu.jsx:26-34 | "This week" sends the current instant as both start and end. "This month" ends at midnight at the start of the month's last day. The attendance report compares lesson start times with that range (Backend/main.py:2858). | now = 2026-10-15 10:00. "This week" keeps only a lesson starting at exactly that instant. "This month" leaves out a lesson on 2026-10-31 at 09:00. | The week and month ranges cover whole days: Monday to Sunday of the current week, and the first to the last day of the current month. | not executed | DownloadMenus.AttendanceWeekIsOneInstant, DownloadMenus.AttendanceMonthMissesLastDay | DownloadMenus.IntendedRange, DownloadMenus.IntendedWeekIsWholeWeek, DownloadMenus.IntendedMonthIsWholeMonth |
