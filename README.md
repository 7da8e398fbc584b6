# Event scheduling core: calendar, staff assignment, new-event form

This project models the scheduling logic of an event-staffing app's
screens in Dafny and proves properties of it. It covers three parts:

- **Month calendar** (`calendar.dfy`, with `dates.dfy`). The component lists
  every day of the selected month. Each day is classified against the event
  day and a list of time-off days as plain, event, time-off or conflict. The
  text is highlighted on a classified day, and a dot marks a conflict.
- **Staff assignment** (`assign.dfy`). A set of selected staff ids is
  toggled one id at a time. A fixed fifteen-day schedule preview
  (10–24 March 2025) shows, for one staff member, the event day (15 March),
  their time-off days and the conflicts. The day texts are compared as
  `YYYY-MM-DD` strings. A "Time-off conflict" warning on a staff row follows
  the member's `hasTimeOff` flag.
- **New-event form** (`new_event.dfy`, with `lists.dfy` and `strings.dfy`).
  Validation depends on the event type. The task list is edited from a
  fixed catalogue: add, rename, remove, toggle. For each event type, a
  selection of the tasks is shown in a fixed order, with check-out moved to
  the end. The check-out task gets a different label per event type.

Both screens classify a day with the same truth table, `Calendar.Category`.
The month grid picks one style by testing conflict, then time-off, then
event. The preview stacks one style per true flag, and React Native lets the
last entry of a style array win. Both are proved to give the
`Calendar.Classify` category of the day.

The form's state is modelled as classes: `Assign.Selection` and
`NewEvent.NewEventScreen`. Their methods update the fields the screens keep
in React state. The pure computations are functions with lemmas.
`renderCalendarView` and `validateForm` are methods with their loop and
branches.

JavaScript `undefined` in the optional `isPredefined`, `isSelected` and
`?.isSelected` reads is modelled as `false`. An omitted `timeOffDates` is
`None`. JavaScript's `Array.prototype.sort` is stable. For the visible tasks
its outcome is a stable bucket sort by the comparator's rank (`SortRank`):
the three ordered check-ins, then other predefined tasks, then custom tasks.
`ComparatorOrdersByRank` shows the comparator agrees with that rank whenever
the comparator is consistent.

## Model

| member | source | states |
|---|---|---|
| Calendar.GetDayStyle | app/components/Calender.tsx:25-46 | a day is a conflict iff it is both the event day and a time-off day; time-off iff only time-off; event iff only the event day; plain iff neither |
| Calendar.IsTimeOff | app/components/Calender.tsx:23-27 | a day is time-off when some time-off entry, taken at its midnight, falls on the same calendar day (`TimeOffIsMembership` proves this is list membership) |
| Calendar.IsEvent | app/components/Calender.tsx:29-31 | a day is the event day when it falls on the event's calendar day |
| Calendar.IsConflict | app/components/Calender.tsx:33-35 | a day is a conflict when it is both time-off and the event day |
| Calendar.RenderDay | app/components/Calender.tsx:65-80 | one cell's style is the classifier's category for its day; its text is highlighted iff the day is time-off or the event day, i.e. iff the style is not plain; its dot shows iff the day is a conflict |
| Calendar.RenderDays | app/components/Calender.tsx:64-81 | one cell per day of the selected month, in order; each cell styled as the classifier says for its day against the event day and the set of time-off days; the text is highlighted iff the day is styled; the conflict dot shows iff the day is a conflict |
| Calendar.TimeOffIsMembership | app/components/Calender.tsx:23-27 | a day is time-off iff its calendar day is in the time-off list, whatever the time of day |
| Calendar.GetDayStyleClassifies | app/components/Calender.tsx:33-46 | the grid's style equals the shared truth table over (is event, is time-off), and the classifier over the set of time-off days |
| Calendar.TimeOffIgnoresOrderAndDuplicates | app/components/Calender.tsx:23-27 | two time-off lists with the same members give every day the same time-off flag and style |
| Calendar.OmittedTimeOffMeansNone | app/components/Calender.tsx:15 | with `timeOffDates` omitted no day is time-off or a conflict, and a day is the event style iff it is the event day |
| Calendar.TimeOffDates | app/components/Calender.tsx:15 | the `timeOffDates = []` default: the given list, or the empty list when omitted (its consequence is `OmittedTimeOffMeansNone`) |
| Calendar.TimeOfDayIgnored | app/components/Calender.tsx:29-31 | two instants on the same day, with event instants on the same day, get the same style, highlight and dot |
| Calendar.MarchScenario | app/components/Calender.tsx:37-46 | the worked examples: event 15 March with time off 15–16 March gives conflict, time-off, plain on the 17th; event 18 March with time off 18–19 gives conflict, time-off, plain on the 20th |
| Dates.MonthDaysSpanMonth | app/components/Calender.tsx:19-21 | the month list starts on the 1st, stays in the month, steps by NextDay, contains the selected day and ends on the month's last day |
| Dates.MonthDays | app/components/Calender.tsx:19-21 | midnight of every day of the selected day's month, in order (its properties are `MonthDaysSpanMonth`) |
| Dates.NextDayIsSuccessor | app/components/Calender.tsx:21 | the next day is later than the day and no valid day lies strictly between them |
| Dates.FullDateInjective | app/events/assign.tsx:91-92 | two valid days have the same `YYYY-MM-DD` text iff they are the same day |
| Dates.FullDateAscending | app/events/assign.tsx:89-91 | comparing `YYYY-MM-DD` texts as strings orders days chronologically |
| Strings.NatToString | app/events/assign.tsx:91 | the decimal text of a number is non-empty and all digits, one digit exactly for numbers below ten |
| Strings.DecimalRoundTrip | app/events/assign.tsx:91 | reading back the decimal text of a number gives the number |
| Strings.PaddedDecimal | app/events/assign.tsx:91 | for a number below a hundred, `'0'` followed by its decimal text (below ten) or its decimal text (from ten) is its two-digit zero-padded text |
| Strings.TrimEmptyIffBlank | app/events/new.tsx:62-70 | a trimmed string is empty iff every character of the string is white space |
| Strings.Trim | app/events/new.tsx:62-70 | leading then trailing white space removed (`TrimEmptyIffBlank` gives `!s.trim()`) |
| Assign.Toggled | app/events/assign.tsx:60-68 | the id's membership flips and every other id keeps its membership |
| Assign.Selection.constructor | app/events/assign.tsx:56 | the selection starts empty |
| Assign.Selection.ToggleUserSelection | app/events/assign.tsx:60-68 | the new selection is the old one with that id's membership flipped, and the Assign button's count (assign.tsx:219) moves down by one if the id was selected, up by one otherwise |
| Assign.Selection.SelectedCount | app/events/assign.tsx:219 | `selectedUsers.size`, the Assign button's count (how a toggle moves it is in `ToggleUserSelection` and `ToggledSize`) |
| Assign.ToggleTwiceRestores | app/events/assign.tsx:60-68 | toggling the same id twice restores the selection |
| Assign.ToggledSize | app/events/assign.tsx:60-68 | each toggle changes the Assign button's count by exactly one, down if the id was selected, up otherwise |
| Assign.RenderCalendarView | app/events/assign.tsx:76-125 | no preview iff no user is selected; otherwise fifteen cells, cell i being day 10 + i built from the event day and the user's time-off list |
| Assign.DateString | app/events/assign.tsx:91 | the day's text `2025-03-DD`, zero-padded below ten (`DateStringIsFullDate` proves it is the RFC 3339 full-date) |
| Assign.Includes | app/events/assign.tsx:93 | `timeOffDates?.includes(text)`: false without a list, membership otherwise |
| Assign.PreviewDayFor | app/events/assign.tsx:90-122 | the cell one loop iteration builds: the flags, the stacked styles, the highlight and the tags (their properties are `DayStylesStack`) |
| Assign.DayStylesStack | app/events/assign.tsx:92-122 | a day is a conflict iff it is the event day and in the time-off list; the style list holds each kind iff its flag holds, in the order event, time-off, conflict, in the theme's variant; a conflict day has all three with conflict last; tags and highlight follow the flags |
| Assign.NoTimeOffListNoConflict | app/events/assign.tsx:93-94 | a user without a time-off list has no time-off or conflict day |
| Assign.PreviewAgreesWithCalendar | app/events/assign.tsx:96-109 | the style that shows (the last stacked) is the shared truth table's category for the day's flags |
| Assign.ShownStyle | app/events/assign.tsx:104-109 | the background that shows: none for an empty style list, otherwise the last entry's, since later entries of a style array override earlier ones (its agreement with the grid is `PreviewAgreesWithCalendar`) |
| Assign.FullDatesMembership | app/events/assign.tsx:93 | a day's text is in a list of day texts iff the day is in the list of days |
| Assign.DateStringIsFullDate | app/events/assign.tsx:91 | the preview's day text is the `YYYY-MM-DD` text of that day of March 2025 |
| Assign.PreviewMatchesClassifier | app/events/assign.tsx:89-99 | when the time-off texts are full-dates of some days, each preview day shows the category the classifier gives it against 15 March and those days |
| Assign.PreviewWindowDay | app/events/assign.tsx:87-91 | every day text of the window, the 10th to the 24th, is ten characters and the full-date of its day |
| Assign.PreviewWindowDates | app/events/assign.tsx:87-91 | any two day texts of the window are distinct and ascend in string order with the day |
| Assign.SarahSchedule | app/events/assign.tsx:17-25 | Sarah Wilson's 15 March is a conflict and her 16 March is time-off only |
| Assign.DavidSchedule | app/events/assign.tsx:40-51 | David Rodriguez's 18 and 19 March are time-off days that are not the event day, and no day of his window is a conflict |
| Assign.WarningIgnoresDates | app/events/assign.tsx:196-201 | the warning shows for Sarah and David and not for Michael or Emma; some warned user has no conflict in the window |
| Assign.ShowsTimeOffWarning | app/events/assign.tsx:196 | the warning shows exactly when the user's `hasTimeOff` flag is set |
| NewEvent.ValidateForm | app/events/new.tsx:59-79 | the title error is present iff the title is blank; the location error iff the type is not Events and the location is blank; the date error iff the end is before the start; each with its message; valid iff no error iff the form is acceptable |
| NewEvent.HandleSave | app/events/new.tsx:81-89 | the save goes ahead iff the form is acceptable |
| NewEvent.FindTask | app/events/new.tsx:109 | a task is found iff some task has the id; the one found has the id and is the first task with it |
| NewEvent.HasId | app/events/new.tsx:110 | `tasks.some(task => task.id === id)`: some task has the id (the same test guards the picker at new.tsx:460; `FindTask` finds a task iff it holds) |
| NewEvent.NewEventScreen.constructor | app/events/new.tsx:43-50 | a new form is a warehouse event with no tasks and nothing chosen |
| NewEvent.NewEventScreen.PickTask | app/events/new.tsx:459-462 | a catalogue task becomes the choice iff no listed task has its id; the task list is unchanged |
| NewEvent.NewEventScreen.AddTask | app/events/new.tsx:107-115 | with a non-empty, catalogued, not yet listed choice the catalogue task is appended unselected and the choice cleared; otherwise nothing changes; ids stay unique |
| NewEvent.CanAdd | app/events/new.tsx:108-110 | `addTask`'s guard: a non-empty choice, found in the catalogue, not yet listed (`AddTask` changes nothing when it fails) |
| NewEvent.WithTaskAdded | app/events/new.tsx:111 | the tasks with the catalogue task of the chosen id appended, unselected (its properties are `AddTaskAppendsOne`) |
| NewEvent.AddTaskAppendsOne | app/events/new.tsx:107-115 | a successful add keeps the old tasks as a prefix, appends one unselected catalogue task with the chosen id, which is then the only task with that id, and keeps ids unique |
| NewEvent.WithTaskRenamed | app/events/new.tsx:117-119 | same length; each task with the id gets the new name and every other task is unchanged |
| NewEvent.NewEventScreen.UpdateTaskName | app/events/new.tsx:117-119 | the tasks become the renamed list; the choice and type are unchanged; ids stay unique |
| NewEvent.NewEventScreen.RemoveTask | app/events/new.tsx:121-123 | the tasks become the list without the id; the choice and type are unchanged; ids stay unique |
| NewEvent.RemoveTaskAt | app/events/new.tsx:121-123 | with unique ids, removing the id of the task at position k leaves exactly the tasks before and after k |
| NewEvent.RemoveAbsentTask | app/events/new.tsx:121-123 | the remaining tasks are exactly those without the id; removing an id no task has changes nothing |
| NewEvent.WithoutTask | app/events/new.tsx:122 | the tasks without the id, in order (its properties are `RemoveTaskAt` and `RemoveAbsentTask`) |
| NewEvent.WithTaskToggled | app/events/new.tsx:125-132 | same length; each task with the id has its selection flipped and every other task is unchanged |
| NewEvent.NewEventScreen.TogglePredefinedTask | app/events/new.tsx:125-132 | the tasks become the toggled list; the choice and type are unchanged; ids stay unique |
| NewEvent.ToggleTwiceRestores | app/events/new.tsx:125-132 | toggling the same id twice restores the task list |
| NewEvent.RenameAndToggleKeepShape | app/events/new.tsx:117-132 | renaming changes only names of matching tasks, toggling only their selection; ids, order and length stay |
| NewEvent.EditsKeepIdsUnique | app/events/new.tsx:117-132 | renaming, removing and toggling keep ids unique |
| NewEvent.CatalogueIds | app/events/new.tsx:32-37 | the catalogue's ids are unique, all predefined and unselected, and do not include the vehicle or event check-in |
| NewEvent.VisibilityRules | app/events/new.tsx:136-166 | custom tasks always show; for warehouse events a predefined task shows iff it is the warehouse check-in or check-out; for Events and appointment the warehouse check-in, event check-in and check-out always show; the vehicle check-in shows iff not a warehouse event, the warehouse check-in is checked and the event check-in is not |
| NewEvent.IsChecked | app/events/new.tsx:154-155 | `tasks.find(t => t.id === id)?.isSelected`: the selection of the first task with the id, false when there is none |
| NewEvent.KeepVisible | app/events/new.tsx:136-166 | the filter's test, branch by branch as written (its properties are `VisibilityRules`) |
| NewEvent.Compare | app/events/new.tsx:170-180 | the sort comparator as written (its relation to the rank is `ComparatorOrdersByRank`) |
| NewEvent.IndexOf | app/events/new.tsx:175-176 | -1 iff the id is not in the order list; otherwise a position holding the id with no earlier occurrence |
| NewEvent.ComparatorOrdersByRank | app/events/new.tsx:170-180 | the comparator's sign is the order of the two ranks, unless both tasks are predefined and unordered, where it calls each greater than the other |
| NewEvent.SortByRank | app/events/new.tsx:170-180 | `visibleTasks.sort(comparator)` by its outcome, a stable sort by rank (its properties are `SortFromOrdered`, `SortByRankPermutes`, `SortKeepsUniqueIds`, `SortKeepsCustomOrder`) |
| NewEvent.SortFromOrdered | app/events/new.tsx:170-180 | the sorted list holds only input tasks and is ordered by rank |
| NewEvent.SortByRankPermutes | app/events/new.tsx:170-180 | the sorted list is a permutation of the input |
| NewEvent.SortKeepsUniqueIds | app/events/new.tsx:170-180 | sorting keeps ids unique |
| NewEvent.SortKeepsCustomOrder | app/events/new.tsx:170-180 | the custom tasks keep their relative order (the sort is stable) |
| NewEvent.CheckOutMovedLast | app/events/new.tsx:182-190 | moving the single check-out task to the end keeps every task, puts check-out last and the list in output order, and keeps custom tasks in order |
| NewEvent.GetVisibleTasks | app/events/new.tsx:135-193 | the result is a permutation of the visible tasks; a task is in it iff it is listed and visible; check-ins come first in TaskOrder, then custom tasks in their original order, then check-out last |
| NewEvent.GetTaskName | app/events/new.tsx:196-205 | a label differs from the task's name only for check-out on an Events or appointment event, with "Check out of events" and "Check out of warehouse-events" respectively |
| Lists.Filter | app/events/new.tsx:122 | the filtered list is no longer than the input and holds exactly the input's elements that satisfy the test |
| Lists.FilterMultiplicity | app/events/new.tsx:122 | each element that passes occurs in the result as often as in the input, any other not at all |
| Lists.FilterCons | app/events/new.tsx:122 | filtering a list with a new head keeps the head in front exactly when it passes, followed by the filtered rest |
| Lists.FilterAppend | app/events/new.tsx:122 | filtering a concatenation is the concatenation of the filtered parts, so the kept elements keep their order |
| Lists.BucketsPermute | app/events/new.tsx:170 | when every element has a rank below the bucket count, the stable bucket sort is a permutation of its input |

## Left out

- Rendering is left out: layout, styles and colours, the theme context, animations, icons, navigation (`router.back()`), modals, the pickers, the date-time picker, priority and the other screens.
- `onDatePress` on a calendar day is a callback into caller code and is not part of this model.
- The month grid's title formats the selected date as month name and year, and the preview's title formats the wall clock (`new Date()`, locale month name). Both titles, the clock and locale formatting are not modelled.
- Calendar.IsTimeOff: `new Date("YYYY-MM-DD")` parses a date-only text as UTC midnight. The model takes each time-off entry as that day at local midnight. The UTC-versus-local shift is not modelled.
- Strings.IsWhitespace covers the ASCII white-space and line-terminator characters, no-break space, U+2028, U+2029 and U+FEFF. It does not cover the other Unicode space separators that JavaScript's `trim` also removes.
- NewEvent.Form: start and end are integers (milliseconds). Date construction from the pickers is not modelled.
- NewEvent.ValidateForm: `setErrors` is modelled by returning the error map.
- NewEvent.HandleSave: the loading flag, the one-second wait and navigating back are left out. Only the validation guard is modelled.
- NewEvent.GetVisibleTasks: the sort is modelled by its outcome, a stable sort by the comparator's rank, not by JavaScript's sorting algorithm. This agrees with the comparator wherever the comparator is consistent. The method requires unique ids; the task list keeps them unique, so the inconsistent case cannot arise.
- `getVisibleTasks` has no caller in the form, which lists `tasks` as they are. The catalogue never supplies the vehicle or event check-in, so those rules are reachable only for lists built outside the form.
- The unused `dependsOn` field of a task is not modelled.
- Assign: the assign button's handler does nothing but navigate back, so only the selection count is modelled. `openCalendar` sets the user shown in the preview, which is the `selectedUser` argument of `Assign.RenderCalendarView`, and opens the preview modal, which is rendering and left out.
- Assign.User: `avatar` and `assignedEvents` are kept as data only.
