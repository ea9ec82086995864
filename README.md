# edt-hep timetable viewer: a Dafny model of its logic

edt-hep is a React application. It shows a student's weekly timetable from
the school's web timetable service ("Wigor"). This project models the
application's logic in Dafny and proves properties of that model:

- **Time and pixel helpers.** `"HH:mm"` becomes minutes since midnight, and
  minutes become the pixel `top` and `height` of a block. The grid starts at
  08:00, one hour is 45 px and a block is at least 36 px high.
- **Column layout of the week grid (`assignColumns`).** Courses are sorted
  by (start, end). Each course takes the first column free at its start, or
  opens a new column. Each course then gets a `colCount` equal to one more
  than the largest column among itself and the courses it overlaps. The
  layout is modelled as the original loops over sequences, with their
  invariants.
- **Schedule service.** This part covers:
  - the user-id check `letters.letters digits`;
  - the Monday-anchored work week for a week offset;
  - the rule that keeps a parsed timetable row;
  - the five proxy requests of a week;
  - colours from a palette, handed out round-robin in order of first
    appearance;
  - the list of distinct subjects.
- **Subject colours.** The 32-bit polynomial string hash gives the hue. The
  day view and the course block use saturation 70, the course dialog uses
  100.
- **Presentation rules:**
  - the day view's course order, block height, past/in-progress state,
    "now" label and room/teacher lines;
  - the course block's room segment;
  - the course dialog's render guard and location line;
  - the three-way room classifier.
- **Export.** The Google Calendar event URL and the line sequence of the
  `.ics` export. The lines are joined with CRLF and shaped like an iCalendar
  object (RFC 5545, section 3.4). The export omits `UID` and `DTSTAMP`, which
  section 3.6.1 of that RFC requires. The model states what is emitted and
  claims no conformance.
- **Pages and stores.**
  - The calendar page: loading, week navigation, the subject filter and its
    select-all, and logout.
  - The week navigator's label.
  - The recent-usernames list, the custom shortcut map and the built-in
    shortcut table.
  - The protected-login flow with its PIN step, both in the
    `useProtectedLogin` hook and on the login page.
  - The settings page's handlers.

Stateful pieces are classes whose methods update fields. These include the
pages, the hook, the store keys and the layout loops. Each method states its
whole new state in terms of specification functions. It gives the fields it
sets, and it keeps every other field unchanged, either by an `ensures` or by a
`modifies` frame naming only the fields it may set. Lemmas prove the
properties of those functions.

JavaScript built-ins used by the code are modelled in `JsText`:
`trim`, `toLowerCase`/`toUpperCase` for ASCII and most of Latin-1, `split` on one character,
`replace` of the first match, `encodeURIComponent` (UTF-8 percent
encoding), `padStart(2, "0")` and number-to-text conversion. Stable
`Array.prototype.sort` is modelled in `Sorting` as a stable insertion sort
on a key.

Strings are `seq<char>`. Dates are integer day numbers, with day 0 being
1970-01-01, a Thursday. The browser store appears as one field per key.
A key holds `None` when absent, or `Some(Json(v))` / `Some(Malformed)` for
text that does or does not parse.

Where the written specification and the code disagree, the model follows
the code:

- `fetchSchedule` returns `[]` for an invalid user id instead of failing.
- The service colours subjects round-robin from a palette. It does not
  derive the colour from a hash.
- `colCount` counts the course's own column as well as those of the courses
  it overlaps.
- A slow earlier load can still overwrite a newer week (see "Left out").

## Model

| member | source | states |
|---|---|---|
| TimeGrid.JsNumber | src/components/schedule/TimeGrid.tsx:18 | `Number` on one field, ignoring outer whitespace: blank text is 0, a digit run is its decimal value, a '+' or '-' sign before digits gives the signed value, and anything else is NaN (`None`) |
| TimeGrid.ParseTwoDigitClock | src/components/schedule/TimeGrid.tsx:17-20 | `"HH:mm"` parses to `h*60 + m` |
| TimeGrid.ParseHoursOnly | src/components/schedule/TimeGrid.tsx:17-20 | a missing minutes part counts as 0 |
| TimeGrid.MinutesToTop | src/components/schedule/TimeGrid.tsx:21-24 | never negative; 0 up to 08:00; afterwards three quarters of a pixel per minute past 08:00 |
| TimeGrid.DurationToHeight | src/components/schedule/TimeGrid.tsx:25-28 | never negative; zero exactly for empty or inverted intervals; otherwise 3/4 px per minute |
| TimeGrid.Round | src/components/schedule/TimeGrid.tsx:61-62 | `Math.round` gives the integer within half a unit, halves rounding up |
| TimeGrid.OverlapMeansSharedMinute | src/components/schedule/TimeGrid.tsx:29-31 | for non-empty intervals `isOverlap` holds iff some minute lies in both half-open intervals, and it is symmetric |
| TimeGrid.HoursAreHourly | src/constants/schedule.ts:5-11 | the 13 hour labels parse to 08:00 plus one hour per row, so the first is `DAY_START_MINUTES` |
| TimeGrid.HourLabel | src/constants/schedule.ts:5-8 | row `i` is the zero-padded hour `8 + i` followed by ":00" |
| TimeGrid.MakeItem | src/components/schedule/TimeGrid.tsx:34-44 | the item keeps the course and its interval; height is at least 36 and top at least 0 |
| TimeGrid.AssignColumns | src/components/schedule/TimeGrid.tsx:33-99 | one entry per course, in the order of the (start, end) sort, a permutation of the input, columns by first fit, counts by overlap maximum |
| TimeGrid.SortedCoursesStartInOrder | src/components/schedule/TimeGrid.tsx:46-49 | after the sort, start times never decrease |
| TimeGrid.PlaceFirstFit | src/components/schedule/TimeGrid.tsx:51-80 | the greedy loop gives every course, in order, the first column whose last course ended by its start |
| TimeGrid.FirstFreeColumn | src/components/schedule/TimeGrid.tsx:56-69 | the inner scan returns the lowest free column, or reports that every column is busy |
| TimeGrid.ChosenColumnIsFirstFit | src/components/schedule/TimeGrid.tsx:56-69 | the chosen column holds only courses that ended by the start, and every lower column holds a course still running |
| TimeGrid.PlacementKeepsTracking | src/components/schedule/TimeGrid.tsx:57-79 | updating or pushing `activeCols` keeps it equal to the end of the last course in each column |
| TimeGrid.PlacementKeepsFirstFit | src/components/schedule/TimeGrid.tsx:54-80 | placing one more course preserves the first-fit property of the prefix |
| TimeGrid.SetColumnCounts | src/components/schedule/TimeGrid.tsx:82-96 | the second pass changes only `colCount`, which becomes one more than the overlap maximum |
| TimeGrid.MaxOverlappingColumn | src/components/schedule/TimeGrid.tsx:85-94 | the result is the largest column among the course and the courses overlapping it |
| TimeGrid.OverlappingCoursesGetDistinctColumns | src/components/schedule/TimeGrid.tsx:54-80 | any two overlapping courses, identical intervals included, get different columns |
| TimeGrid.LoneCourseTakesColumnZero | src/components/schedule/TimeGrid.tsx:54-96 | a non-empty course that overlaps nothing gets column 0 of 1 |
| TimeGrid.ThreeCourseLayout | src/components/schedule/TimeGrid.tsx:54-96 | 09:00–10:00, 09:30–10:30 and 10:00–11:00 get columns 0, 1, 0, all with count 2 |
| TimeGrid.TenToHalfPastElevenPlacement | src/components/schedule/TimeGrid.tsx:34-62 | 10:00–11:30 is drawn at top 90 with height 68 (67.5 rounded) |
| TimeGrid.TenAndHalfPastElevenParse | src/components/schedule/TimeGrid.tsx:17-20 | "10:00" is 600 minutes and "11:30" is 690 |
| TimeGrid.ColumnGeometry | src/components/schedule/TimeGrid.tsx:196-198 | width is positive, left non-negative, and a column below the count ends within 100% |
| TimeGrid.PlacedColumnsFitTheDay | src/components/schedule/TimeGrid.tsx:194-198 | every laid-out course has `colCount >= 1` and is drawn within its day's width |
| Sorting.SortBy | src/components/schedule/TimeGrid.tsx:46-49 | the sort returns a permutation of its input, ordered by the key |
| Sorting.SortBySorted | src/components/schedule/TimeGrid.tsx:46-49 | sorting an already sorted list changes nothing |
| ScheduleService.LetterRun | src/services/scheduleService.ts:7 | the run of ASCII letters from a position stops exactly at the first non-letter or at the end |
| ScheduleService.IsStringDotStringIff | src/services/scheduleService.ts:6-9 | the check accepts exactly one or more ASCII letters, a dot, one or more letters, then only digits |
| ScheduleService.AcceptedUsername | src/services/scheduleService.ts:6-9 | "marius.bernard1" is accepted |
| ScheduleService.RejectsTwoDots | src/services/scheduleService.ts:6-9 | "a.b.c" is rejected |
| ScheduleService.RejectsTrailingDot | src/services/scheduleService.ts:6-9 | "jean." is rejected |
| ScheduleService.RejectsDigitBeforeDot | src/services/scheduleService.ts:6-9 | "j1.dupont" is rejected |
| ScheduleService.RejectsAccentedLetter | src/services/scheduleService.ts:6-9 | "mathéo.x" is rejected |
| ScheduleService.UsernameEncodesToItself | src/services/scheduleService.ts:99-101 | an accepted user id passes through `encodeURIComponent` unchanged |
| ScheduleService.WeekOffset | src/services/scheduleService.ts:31-36 | a string that is not an optionally signed run of digits gives offset 0 |
| ScheduleService.WeekOffsetReadsIntegers | src/services/scheduleService.ts:31-36 | a number is used as is; the text of any integer reads back as that integer; an ISO date or no input gives 0 |
| ScheduleService.Weekday | src/services/scheduleService.ts:42 | `getDay` is one of 0..6 |
| ScheduleService.GetWorkingDays | src/services/scheduleService.ts:28-56 | the loop returns five days, day i being the Monday of the shifted week plus i |
| ScheduleService.MondayOfIsMonday | src/services/scheduleService.ts:42-45 | the anchor is a Monday, at most six days before the reference day |
| ScheduleService.MondayOfUnique | src/services/scheduleService.ts:42-45 | any Monday at most six days before the day is that anchor |
| ScheduleService.SundayBelongsToPreviousMonday | src/services/scheduleService.ts:43 | a Sunday belongs to the week that began six days earlier |
| ScheduleService.MondayOfShift | src/services/scheduleService.ts:38-45 | shifting by n weeks shifts the Monday by 7n days |
| ScheduleService.WorkingDaysAreMondayToFriday | src/services/scheduleService.ts:47-53 | the five days are consecutive and fall on Monday to Friday in order |
| ScheduleService.FieldText | src/services/scheduleService.ts:64-71 | a missing field reads as "", a present one is trimmed |
| ScheduleService.ParseHtmlDay | src/services/scheduleService.ts:58-86 | the loop returns exactly the courses of the accepted rows, in document order |
| ScheduleService.KeptCoursesConcat | src/services/scheduleService.ts:63-83 | the rows of two consecutive parts give the courses of the first part, then those of the second |
| ScheduleService.KeptSingleRow | src/services/scheduleService.ts:73-82 | one row gives its course iff trimmed start, end and subject are all non-empty |
| ScheduleService.KeptCoursesMembers | src/services/scheduleService.ts:73-82 | a course is kept iff some accepted row produces it |
| ScheduleService.KeptCoursesAreClean | src/services/scheduleService.ts:64-81 | kept courses have trimmed, non-empty times and subject, trimmed room and teacher, and the blank colour |
| ScheduleService.MissingRoomAndTeacherBecomeEmpty | src/services/scheduleService.ts:67-71 | a row without room and teacher gives one course with trimmed fields and "" for both |
| ScheduleService.AllSubjectsLayout | src/services/scheduleService.ts:115-121 | the subjects are scanned days first, then courses |
| ScheduleService.CourseSubjectsListed | src/services/scheduleService.ts:115-121 | every course's subject is in the scanned list and in its deduplicated form |
| ScheduleService.GetUniqueSubjects | src/services/scheduleService.ts:115-121 | the loop returns the scanned subjects deduplicated, in order of first appearance |
| ScheduleService.AddSubjects | src/services/scheduleService.ts:117-119 | adding one day's subjects to the deduplicated list gives the deduplication of the longer scan |
| ScheduleService.UniqueSubjectsProperties | src/services/scheduleService.ts:115-121 | duplicate-free; every course's subject is present; nothing else; earlier entries appeared first |
| ScheduleService.AssignColors | src/services/scheduleService.ts:11-26 | the loops give the schedule with each course recoloured by its subject's rank modulo the palette |
| ScheduleService.ColorDay | src/services/scheduleService.ts:16-22 | one day's pass keeps the map and counter in step with the subjects seen, and recolours that day |
| ScheduleService.ColorCourse | src/services/scheduleService.ts:17-21 | one course takes its subject's rank colour, the map and counter extending to it |
| ScheduleService.ColorStep | src/services/scheduleService.ts:17-21 | a new subject gets `palette[colorIndex mod |palette|]` and the counter advances; a known one leaves both alone |
| ScheduleService.NewSubjectTakesNextSlot | src/services/scheduleService.ts:17-19 | an unseen subject's rank is the number of distinct subjects seen before it |
| ScheduleService.SameSubjectSameColor | src/services/scheduleService.ts:11-26 | courses with the same subject get the same colour across the week |
| ScheduleService.ColorIsRankModuloPalette | src/services/scheduleService.ts:11-26 | a course whose subject is the k-th distinct one gets `palette[k mod |palette|]`, nothing else changing |
| ScheduleService.RecolorDay | src/services/scheduleService.ts:15-23 | recolouring keeps the label, the date and the number of courses |
| ScheduleService.FetchSchedule | src/services/scheduleService.ts:88-113 | an invalid user gives `[]` and no request; otherwise one request per working day, and the parsed week coloured |
| ScheduleService.FetchWeek | src/services/scheduleService.ts:97-110 | five requests and five days: request i goes to day i's URL and yields day i |
| ScheduleService.FetchDay | src/services/scheduleService.ts:98-108 | the request URL of the date, and the day built from its response, failure included |
| ScheduleService.FetchedWeekShape | src/services/scheduleService.ts:95-110 | day i is labelled `DAYS[i]` (Lundi to Vendredi), carries its date, is empty when its request failed, and keeps the parsed course count |
| ScheduleService.TimeParameterEncoding | src/services/scheduleService.ts:101 | the fixed time "8:00" travels as "8%3A00" |
| ScheduleService.RequestCarriesUsername | src/services/scheduleService.ts:99-101 | for a valid user the URL is the proxy path with the user id verbatim, then the encoded date and the encoded time |
| SubjectColors.HashString | src/components/schedule/DayView.tsx:23-27 | the loop computes `h = (31h + unit) mod 2^32` over the UTF-16 units, 0 for "" |
| SubjectColors.HashIsPolynomialModulo | src/components/schedule/CourseBlock.tsx:8-12 | for non-negative units, reducing at every step equals reducing the whole polynomial once |
| SubjectColors.PolynomialAppend | src/components/schedule/CourseModal.tsx:6-10 | one more unit multiplies the polynomial by 31 and adds the unit |
| SubjectColors.ColorsFor | src/components/schedule/DayView.tsx:28-35 | hue is the hash mod 360, with the given saturation, lightness 50 and alphas 0.18 and 0.35 |
| SubjectColors.EmptySubjectHueZero | src/components/schedule/DayView.tsx:24-29 | the empty subject hashes to 0, so its hue is 0 |
| SubjectColors.ModalDiffersFromBlock | src/components/schedule/CourseModal.tsx:4-18 | the dialog's colours share the block's hue but differ from them, against the file's comment |
| SubjectColors.EqualHashSameColors | src/components/schedule/CourseBlock.tsx:13-20 | subjects with equal hashes get identical block and dialog colours |
| DayView.CoursesSortedByStart | src/components/schedule/DayView.tsx:79-81 | the sorted copy is a permutation of the courses, in non-decreasing start order |
| DayView.SortedCopyKeepsCourses | src/components/schedule/DayView.tsx:79-81 | the copy has the same length and only the day's courses |
| DayView.BlockTop | src/components/schedule/DayView.tsx:140 | the rounded top is never negative |
| DayView.BlockHeight | src/components/schedule/DayView.tsx:141 | the height is at least 36 |
| DayView.HeightRulesAgree | src/components/schedule/DayView.tsx:141 | rounding and then taking at least 36 gives the grid's rounded `max(height, 36)` |
| DayView.NowLineShownExactlyToday | src/components/schedule/DayView.tsx:123 | the now line shows iff the day is today |
| DayView.NowLabelReadsBack | src/components/schedule/DayView.tsx:130-131 | the label is five characters with a ':' at index 2, and parses back to the minute |
| DayView.StateOf | src/components/schedule/DayView.tsx:144-151 | past iff today and ended; in progress iff today and running; otherwise plain |
| DayView.StateOnlyMovesForward | src/components/schedule/DayView.tsx:144-151 | a past course stays past as time passes, and a course plain before its end was plain earlier |
| DayView.RoomLabel | src/components/schedule/DayView.tsx:182 | the corrected room line: a room starting with "SALLE" shows the dialog's remote label; any other room shows as is |
| DayView.RoomLabelMatchesModal | src/components/schedule/DayView.tsx:182 | the corrected label matches the dialog's location line |
| DayView.RemoteLabelIsMojibake | src/components/schedule/DayView.tsx:182 | the label as written is the house emoji's UTF-8 bytes read as Mac Roman, so it differs from the dialog's |
| DayView.TeacherLineNeedsVisibleName | src/components/schedule/DayView.tsx:185 | the teacher line shows iff the name has a non-whitespace character |
| DayView.BlockFor | src/components/schedule/DayView.tsx:137-196 | the block holds its course; top and height are the grid's rounded values; colours are the subject's; the state is past, in progress or plain by the clock; the room line is the garbled remote label as written for a "SALLE" room and the room otherwise; the teacher line shows the name iff it is visible |
| DayView.DayBlocks | src/components/schedule/DayView.tsx:137 | one block per course |
| DayView.DayBlocksDrawnInOrder | src/components/schedule/DayView.tsx:79-81 | the blocks' courses are a permutation of the day's courses, and their tops never decrease |
| DayView.TopIsMonotone | src/components/schedule/DayView.tsx:13-16 | later starts are drawn no higher |
| CourseBlock.RoomSegment | src/components/schedule/CourseBlock.tsx:64-71 | the segment shows iff the room is non-empty; it is the house icon iff the room starts with "SALLE" or is the icon itself |
| CourseBlock.Render | src/components/schedule/CourseBlock.tsx:33-80 | the title is the subject in the block colours; details are hidden exactly in month view; they hold the times as `start – end`, the room segment, and the teacher's name iff it is non-empty |
| CourseBlock.RemoteMarkersAgree | src/components/schedule/CourseBlock.tsx:68 | for a non-empty room that is not already a marker, the block shows the house icon iff the dialog shows the remote label |
| CourseBlock.SameSubjectSameColors | src/components/schedule/CourseBlock.tsx:13-20 | colours depend only on the subject, at saturation 70 |
| CourseModal.LocationLine | src/components/schedule/CourseModal.tsx:94 | "DISTANCIEL 🏠" iff the room starts with "SALLE", else the room |
| CourseModal.Render | src/components/schedule/CourseModal.tsx:59-104 | renders iff open with a course; the title is its subject, with its times as `start - end`, its location line, the teacher's name iff it is non-empty, and the dialog colours |
| CourseModal.RemoteLocationHidesRoom | src/components/schedule/CourseModal.tsx:94 | any two remote rooms show the same line |
| CourseModal.ModalColorsDifferFromBlock | src/components/schedule/CourseModal.tsx:11-18 | the dialog's colours differ from the block's for every course, with the same hue |
| ScheduleUtils.GetRoomInfo | src/utils/scheduleUtils.ts:1-26 | no room gives "Salle inconnue"; remote tests come first; then valid; otherwise error, with the trimmed room as text |
| ScheduleUtils.ExactlyOneOutcome | src/utils/scheduleUtils.ts:1-26 | exactly one of the four icons results, and `isError` holds only for the warning |
| ScheduleUtils.TrimmedInputSameInfo | src/utils/scheduleUtils.ts:4 | a room with visible text is classified like its trimmed form; a whitespace-only room is an error with empty text |
| ScheduleUtils.RemoteTakesPriority | src/utils/scheduleUtils.ts:7-21 | "N12 visio" would be valid but is remote |
| ScheduleUtils.DisplayRemoteImpliesRemote | src/utils/scheduleUtils.ts:7-13 | every room the views show as remote is classified remote |
| ScheduleUtils.RemoteNotDisplayRemote | src/utils/scheduleUtils.ts:7-13 | " salle 3" is remote, although the views show it as a room |
| GoogleCalendar.CompactDateReordersFields | src/utils/googleCalendar.ts:5-6 | "dd/mm/yyyy" becomes "yyyymmdd" |
| GoogleCalendar.CompactDateWithoutSlashes | src/utils/googleCalendar.ts:5-6 | a date without slashes yields "undefined" twice before it |
| GoogleCalendar.ClockLosesColon | src/utils/googleCalendar.ts:8-9 | the first ':' of the time is dropped |
| GoogleCalendar.HalfPastEightStamp | src/utils/googleCalendar.ts:8 | "08:30" gives the time stamp "083000" |
| GoogleCalendar.DateTimeStampLayout | src/utils/googleCalendar.ts:15 | a stamp is `<yyyymmdd>T<HHmm>00` |
| GoogleCalendar.ExportLocation | src/utils/googleCalendar.ts:12 | "DISTANCIEL" iff the room starts with "SALLE" or is "DISTANCIEL"; any other room is kept |
| GoogleCalendar.UrlQueryReadsBack | src/utils/googleCalendar.ts:15 | when date and times hold no '&', the URL is the render page plus a query that splits on '&' into its parameters |
| GoogleCalendar.ParametersHaveNoAmpersand | src/utils/googleCalendar.ts:11-15 | when date and times hold no '&', no parameter contains one, since the text values are URI-encoded |
| GoogleCalendar.EncodedHasNoAmpersand | src/utils/googleCalendar.ts:11-13 | `encodeURIComponent` never emits '&' |
| GoogleCalendar.ExportWeekToGoogleCalendar | src/utils/googleCalendar.ts:25-34 | the loops produce one event URL per course, days first, then courses |
| GoogleCalendar.DayUrls | src/utils/googleCalendar.ts:29-32 | one URL per course of the day, in order |
| GoogleCalendar.EntriesCount | src/utils/googleCalendar.ts:28-33 | the week visits exactly as many courses as it has |
| GoogleCalendar.EntriesOrder | src/utils/googleCalendar.ts:28-33 | course i of day d is visited at position (courses of earlier days) + i |
| GoogleCalendar.EventLines | src/utils/googleCalendar.ts:54-60 | seven lines from BEGIN:VEVENT to END:VEVENT |
| GoogleCalendar.PushEvent | src/utils/googleCalendar.ts:48-60 | the pushes append exactly the event's seven lines |
| GoogleCalendar.PushDayEvents | src/utils/googleCalendar.ts:47-61 | one day appends its courses' events in order |
| GoogleCalendar.ExportIcsLines | src/utils/googleCalendar.ts:38-64 | the loops build the header, every course's event and the footer |
| GoogleCalendar.IcsLineCount | src/utils/googleCalendar.ts:38-64 | `6 + 7N` lines for N courses, from BEGIN:VCALENDAR to END:VCALENDAR |
| GoogleCalendar.IcsBlock | src/utils/googleCalendar.ts:46-62 | the k-th seven-line block after the header is the k-th course's event |
| GoogleCalendar.IcsEventOfCourse | src/utils/googleCalendar.ts:46-62 | the event of course i of day d has its stamps, subject, location and teacher |
| GoogleCalendar.JoinCrlf | src/utils/googleCalendar.ts:66 | CRLF joining is LF joining of lines ending in CR |
| GoogleCalendar.ReadLinesJoin | src/utils/googleCalendar.ts:66 | for lines without line breaks, splitting the CRLF-joined text gives them back |
| CalendarPage.FilterSchedule | src/pages/Calendar.tsx:59-65 | the filter keeps the number of days |
| CalendarPage.SelectedCoursesMembers | src/pages/Calendar.tsx:62 | a course survives iff its subject is selected |
| CalendarPage.MatiereFilterDropsEveryCourse | src/pages/Calendar.tsx:62 | on the objects the service builds, which have no `matiere`, the filter as written keeps no course, whatever is selected |
| CalendarPage.MatiereFilterHidesSelectedCourse | src/pages/Calendar.tsx:62 | a course whose subject is selected is kept by the filter on `subject` and dropped by the filter as written |
| CalendarPage.SelectedCoursesConcat | src/pages/Calendar.tsx:62 | filtering keeps the original order |
| CalendarPage.FilterScheduleShape | src/pages/Calendar.tsx:59-65 | each day keeps its label and date |
| CalendarPage.FilterTwice | src/pages/Calendar.tsx:59-65 | filtering by a then b is filtering by their intersection |
| CalendarPage.FilterAllSubjects | src/pages/Calendar.tsx:31-41 | selecting every subject shows the whole week |
| CalendarPage.Calendar.constructor | src/pages/Calendar.tsx:13-19 | empty state, week 0, loading, nothing navigated or loaded |
| CalendarPage.Calendar.Mount | src/pages/Calendar.tsx:21-29 | with no stored username, or an empty one, the page goes to "/" and loads nothing, keeping its state; otherwise it adopts the name, loads week 0 and shows the outcome (`ShowsOutcome`) |
| CalendarPage.Calendar.LoadSchedule | src/pages/Calendar.tsx:43-57 | the load is recorded and loading ends; a resolved week becomes the schedule, and a non-empty one replaces the subjects with its distinct subjects, all selected, so it is shown whole; an empty week or a rejection keeps the subjects and selection, and a rejection keeps the week (`ShowsOutcome`) |
| CalendarPage.Calendar.SetSchedule | src/pages/Calendar.tsx:31-41 | a non-empty week resets the subjects to its distinct subjects, all selected, and shows it whole; an empty one keeps them |
| CalendarPage.Calendar.HandleWeekChange | src/pages/Calendar.tsx:67-71 | the week moves by the offset, that week is loaded, and its outcome is shown as by `loadSchedule` |
| CalendarPage.Calendar.Previous | src/pages/Calendar.tsx:122 | one week back, loaded, and its outcome shown as by `loadSchedule` |
| CalendarPage.Calendar.Next | src/pages/Calendar.tsx:123 | one week ahead, loaded, and its outcome shown as by `loadSchedule` |
| CalendarPage.Calendar.HandleToday | src/pages/Calendar.tsx:73-76 | back to week 0, which is loaded, and its outcome shown as by `loadSchedule` |
| CalendarPage.Calendar.HandleSubjectToggle | src/pages/Calendar.tsx:78-86 | the selection is toggled at that subject, the shown week follows, and nothing is reloaded |
| CalendarPage.Calendar.HandleLogout | src/pages/Calendar.tsx:88-91 | the username key is removed and the page goes to "/" |
| CalendarPage.ToggleTwiceRestores | src/pages/Calendar.tsx:78-86 | toggling twice restores the selection and the shown week |
| SubjectFilter.Toggle | src/pages/Calendar.tsx:79-84 | exactly the given subject flips |
| SubjectFilter.ToggleTwice | src/pages/Calendar.tsx:79-84 | toggling twice is the identity |
| SubjectFilter.HandleSelectAll | src/components/schedule/SubjectFilter.tsx:14-22 | the loop issues exactly the toggles of the specification, in list order |
| SubjectFilter.CallsMembers | src/components/schedule/SubjectFilter.tsx:15-20 | when not all are selected, exactly the unselected subjects are toggled; otherwise exactly the selected ones |
| SubjectFilter.CallsOnce | src/components/schedule/SubjectFilter.tsx:15-21 | each subject is toggled at most once |
| SubjectFilter.SelectAllOutcome | src/components/schedule/SubjectFilter.tsx:14-22 | for distinct subjects, applying the toggles in turn leaves none selected if all were, and all selected otherwise |
| SubjectFilter.AllSelectedMeansEverySubject | src/components/schedule/SubjectFilter.tsx:12 | for a selection drawn from the list, equal sizes mean every subject is selected |
| WeekNavigator.LabelHead | src/components/schedule/WeekNavigator.tsx:12-17 | the first letter tells the branch (C, S, D, I), and the ninth tells next week from last week |
| WeekNavigator.WeekLabelInjective | src/components/schedule/WeekNavigator.tsx:12-17 | different weeks get different labels, so the branches are exclusive and total |
| WeekNavigator.TodayButtonIffNotThisWeek | src/components/schedule/WeekNavigator.tsx:47 | the Today button shows iff the label is not "Cette semaine" |
| WeekNavigator.TwoWeeksAhead | src/components/schedule/WeekNavigator.tsx:16 | 2 gives "Dans 2 semaines" |
| WeekNavigator.ThreeWeeksBack | src/components/schedule/WeekNavigator.tsx:16 | −3 gives "Il y a 3 semaines" |
| RecentUsernames.RecencyOrder | src/utils/recentUsernames.ts:13 | sorted by the key iff ordered by `lastUsedAt` descending |
| RecentUsernames.ReadList | src/utils/recentUsernames.ts:9-17 | a permutation of the stored list, most recent first; nothing stored or bad text gives `[]` |
| RecentUsernames.WithoutMembers | src/utils/recentUsernames.ts:22 | exactly the entries equal to the value ignoring case are dropped |
| RecentUsernames.WithoutKeepsOrder | src/utils/recentUsernames.ts:28 | the rest keep their recency order |
| RecentUsernames.Added | src/utils/recentUsernames.ts:22-23 | the new entry comes first, followed by the entries with another name ignoring case in their order, cut to five entries in all |
| RecentUsernames.AddedKeepsOtherNames | src/utils/recentUsernames.ts:22-23 | below the cap of five, every entry with another name survives the add |
| RecentUsernames.AddedReadsBack | src/utils/recentUsernames.ts:19-24 | when no stored entry is newer, the saved list reads back unchanged, the new name first |
| RecentUsernames.RemovedReadsBack | src/utils/recentUsernames.ts:27-30 | the list saved by a removal reads back unchanged |
| RecentUsernames.RecentStore.AddRecentUsername | src/utils/recentUsernames.ts:19-25 | the key holds the list read, filtered, prefixed and capped |
| RecentUsernames.RecentStore.RemoveRecentUsername | src/utils/recentUsernames.ts:27-30 | the key holds the list read, without the name |
| RecentUsernames.RecentStore.ClearRecentUsernames | src/utils/recentUsernames.ts:32-34 | the key is removed and reads back as `[]` |
| UserShortcuts.ReadShortcuts | src/utils/userShortcuts.ts:11-19 | nothing stored or bad text gives no shortcuts |
| UserShortcuts.ProcessedUsername | src/utils/userShortcuts.ts:34-51 | the result is the input or a non-empty mapping |
| UserShortcuts.ProcessedUsernamePriority | src/utils/userShortcuts.ts:34-51 | a custom mapping of the lower-cased input wins, then a default one, else the input as typed |
| UserShortcuts.ProcessedUsernameIgnoresCase | src/utils/userShortcuts.ts:35 | inputs equal ignoring case resolve alike when mapped |
| UserShortcuts.EmptyMappingIsAbsent | src/utils/userShortcuts.ts:39-45 | a custom mapping to "" acts as no mapping |
| UserShortcuts.ShortcutStore.SaveCustomShortcuts | src/utils/userShortcuts.ts:21-28 | saving then reading gives the saved map |
| UserShortcuts.ShortcutStore.GetProcessedUsername | src/utils/userShortcuts.ts:34-51 | the three-way priority with the custom map read from the store |
| UsernameShortcuts.ProcessedUsername | src/services/usernameShortcuts.ts:10-13 | the result is the input or one of the table's user ids |
| UsernameShortcuts.TableIsDefaultLookup | src/services/usernameShortcuts.ts:10-13 | it is the general lookup with this table as the defaults |
| UsernameShortcuts.KeysAreLowerCase | src/services/usernameShortcuts.ts:2-8 | every key is lower-case, so every key can be reached |
| UsernameShortcuts.ValuesAreUserIds | src/services/usernameShortcuts.ts:2-8 | every value passes the user-id check |
| UsernameShortcuts.ProcessedUsernameIdempotent | src/services/usernameShortcuts.ts:2-13 | resolving twice is resolving once |
| UsernameShortcuts.ShortcutAnyCase | src/services/usernameShortcuts.ts:3 | "MD" and "md" both give "matheo.delaunay" |
| UsernameShortcuts.UnknownInputUnchanged | src/services/usernameShortcuts.ts:12 | an input that is not a key comes back as typed |
| ProtectedLogin.ProtectedUsersAreNormal | src/hooks/useProtectedLogin.ts:13-20 | every protected entry is non-empty, lower-case and trimmed |
| ProtectedLogin.IsUserProtectedIff | src/hooks/useProtectedLogin.ts:13-25 | protected iff some comma-separated entry, trimmed, equals the name ignoring case |
| ProtectedLogin.IsUserProtectedIgnoresCase | src/pages/Login.tsx:25-28 | names equal ignoring case are protected alike |
| ProtectedLogin.NobodyProtectedWithoutList | src/hooks/useProtectedLogin.ts:10 | with the variable unset nobody is protected |
| ProtectedLogin.Submit | src/hooks/useProtectedLogin.ts:70-123 | a login records whether the user was protected |
| ProtectedLogin.LoggedInNeeds | src/hooks/useProtectedLogin.ts:70-107 | logging in needs a valid id and no redirect; a protected user also needs the PIN step and the configured non-empty PIN |
| ProtectedLogin.EmptyPinLocksOut | src/hooks/useProtectedLogin.ts:91-101 | with no PIN configured a protected user never logs in |
| ProtectedLogin.ProtectedTwoSteps | src/pages/Login.tsx:55-76 | a protected user's first submit only asks for the PIN; the second with the PIN logs in |
| ProtectedLogin.UnprotectedOneStep | src/hooks/useProtectedLogin.ts:79-123 | an unprotected valid user logs in at once unless redirected |
| ProtectedLogin.LoginForm.constructor | src/hooks/useProtectedLogin.ts:42-47 | empty fields, nothing pending |
| ProtectedLogin.LoginForm.OnChangeUsername | src/hooks/useProtectedLogin.ts:50-55 | sets the name and resets `needsPin`, `pin` and `showPin` |
| ProtectedLogin.LoginForm.OnChangePin | src/hooks/useProtectedLogin.ts:57-59 | sets the PIN only |
| ProtectedLogin.LoginForm.ToggleShowPin | src/hooks/useProtectedLogin.ts:61-63 | negates `showPin` only |
| ProtectedLogin.LoginForm.HandleSubmit | src/hooks/useProtectedLogin.ts:65-124 | invalid id and wrong PIN change nothing; the PIN request sets `needsPin`; a redirect opens a tab only; success stores the three keys and sets `isLoading` and `infoOpen` |
| ProtectedLogin.LoginForm.StoreLogin | src/hooks/useProtectedLogin.ts:109-123 | the success branch's stores and flags |
| LoginPage.Login.OnChangeUsername | src/pages/Login.tsx:128-133 | sets the name and resets `needsPin` and `pin` |
| LoginPage.Login.OnChangePin | src/pages/Login.tsx:154 | sets the PIN only |
| LoginPage.Login.HandleSubmit | src/pages/Login.tsx:37-100 | the same decision; success stores the three keys, sets `isLoading` and goes to "/calendar" |
| LoginPage.Login.StoreLogin | src/pages/Login.tsx:84-99 | the success branch's stores, flag and navigation |
| LoginPage.ProtectedLoginTakesTwoSubmits | src/pages/Login.tsx:55-99 | two submits of a protected user give PIN request, then login |
| SettingsPage.PreferenceRoundTrip | src/pages/Settings.tsx:29-31 | a written preference reads back, and an absent one is on |
| SettingsPage.WithShortcut | src/pages/Settings.tsx:74 | the keys gain only the lower-cased key |
| SettingsPage.AddedShortcutResolves | src/pages/Settings.tsx:74-76 | an added shortcut resolves in any case, over the defaults |
| SettingsPage.AddedShortcutKeepsOthers | src/pages/Settings.tsx:74 | other keys keep their mappings |
| SettingsPage.RemovedShortcutFallsBack | src/pages/Settings.tsx:82-85 | after removal the key falls back to the defaults |
| SettingsPage.WithUrlKeepsNoDup | src/pages/Settings.tsx:111-113 | the URL list stays duplicate-free and gains exactly the new URL when it is non-empty |
| SettingsPage.WithoutUrlMembers | src/pages/Settings.tsx:122 | exactly the equal entries go |
| SettingsPage.WithoutUrlConcat | src/pages/Settings.tsx:122 | the other URLs keep their order |
| SettingsPage.WithoutAbsentUrl | src/pages/Settings.tsx:122 | removing an absent URL changes nothing |
| SettingsPage.Settings.constructor | src/pages/Settings.tsx:29-67 | the state read from the store, and the effects writing the URLs and preferences back |
| SettingsPage.Settings.SetShowLandingPage | src/pages/Settings.tsx:56-58 | the switch and its stored text, which reads back. The frame is the switch and its key; every other field is unchanged |
| SettingsPage.Settings.SetShowNotifications | src/pages/Settings.tsx:65-67 | the switch and its stored text, which reads back. The frame is the switch and its key; every other field is unchanged |
| SettingsPage.Settings.HandleAddShortcut | src/pages/Settings.tsx:69-80 | with both fields filled the lower-cased key is set, saved and the fields cleared; otherwise nothing changes. The frame is the map, the two fields and the shortcut key; every other field is unchanged |
| SettingsPage.Settings.HandleRemoveShortcut | src/pages/Settings.tsx:82-87 | exactly that key goes, and the map is saved. The frame is the map and the shortcut key; every other field is unchanged |
| SettingsPage.Settings.HandleRemoveRecent | src/pages/Settings.tsx:89-93 | the stored list loses the name, and the page shows it read back. The frame is the shown list and the recent-names key; every other field is unchanged |
| SettingsPage.Settings.HandleClearAllRecent | src/pages/Settings.tsx:95-99 | the key is removed and the shown list emptied. The frame is the shown list and that key; every other field is unchanged |
| SettingsPage.Settings.HandleLogout | src/pages/Settings.tsx:101-109 | the username key is removed and the page goes to "/login". Nothing else changes: the frame is those two fields |
| SettingsPage.Settings.HandleAddUrl | src/pages/Settings.tsx:111-119 | the list gains a new non-empty URL and is stored; the field is cleared only then. The frame is the list, the field and the stored list; every other field is unchanged |
| SettingsPage.Settings.HandleRemoveUrl | src/pages/Settings.tsx:121-124 | the list without that URL, stored. The frame is the list and the stored list; every other field is unchanged |
| JsText.Trim | src/services/scheduleService.ts:64 | the result has no outer whitespace, is no longer than the text, and is empty iff the text is all whitespace |
| JsText.TrimIdempotent | src/utils/scheduleUtils.ts:4 | trimming twice is trimming once |
| JsText.LowerIdempotent | src/utils/recentUsernames.ts:22 | lower-casing twice is lower-casing once |
| JsText.JoinSplit | src/utils/googleCalendar.ts:5 | splitting on a character and joining back is the identity |
| JsText.SplitField | src/utils/googleCalendar.ts:5 | a leading field free of the separator splits off whole |
| JsText.RemoveFirstAt | src/utils/googleCalendar.ts:8-9 | `replace` removes the first occurrence only |
| JsText.NatToStringValue | src/components/schedule/WeekNavigator.tsx:16 | the decimal text of a number reads back as that number |
| JsText.Pad2Value | src/components/schedule/DayView.tsx:130-131 | `padStart(2, "0")` of a number below 100 is two digits spelling it |
| JsText.IntToStringValue | src/services/scheduleService.ts:32-33 | an integer's text is an optionally signed digit run that reads back as it |
| JsText.EncodeUriConcat | src/services/scheduleService.ts:99-101 | `encodeURIComponent` works character by character |
| JsText.EncodeUriIdentity | src/services/scheduleService.ts:99-101 | `encodeURIComponent` leaves text unchanged iff every character is unreserved |
| Sequences.DedupProperties | src/services/scheduleService.ts:116-120 | the Set's element order is duplicate-free and keeps every element |
| Sequences.DedupFirstAppearanceOrder | src/services/scheduleService.ts:116-120 | the Set lists elements in order of first insertion |

## Left out

- Network and HTML: the `axios` request and `DOMParser` are not modelled. `fetch` is a parameter that answers a URL with the extracted rows, or with a failure. The five requests run one after another; the `Promise.all` concurrency is not modelled.
- JavaScript `Date`: the clock, time zones and `toISOString` are not modelled. Days are integer day numbers; `today` and `formatDate` are parameters.
- Number parsing: week offsets beyond the integer range are not modelled. `Number()` on a clock field is modelled for blank text, digit runs and signed digit runs; other forms it accepts (decimals, exponents, hexadecimal, "Infinity") parse as NaN in the model. The layout engine requires clock times that parse (`HasClockTimes`), because a NaN comparator makes the sort's order undefined.
- Floating point: pixel arithmetic is exact real arithmetic, with `Math.round` as half-up rounding.
- The colour palette: `COLORS` is imported from `src/constants/schedule.ts`, which does not define it. It is a non-empty parameter.
- In-place mutation: `assignColors` writes `course.color` into the objects it was given and returns the same array. The model returns a new schedule equal to the mutated one. Aliasing with the caller's array is not modelled.
- Strings: case mapping is modelled for ASCII and for the Latin-1 letters that map one to one inside Latin-1, and other characters keep their case. In particular `toUpperCase` of ß (U+00DF) is "SS", of ÿ (U+00FF) is Ÿ (U+0178) and of µ (U+00B5) is Μ (U+039C) in JavaScript, but the model leaves these three unchanged. Lone surrogates are not modelled.
- Browser side effects: `window.open` (recorded as the opened URL), the `Blob` download, toasts, the 500 ms delay before navigation, the theme and the primary colour.
- React: batching of state updates, effect scheduling and the stale `selectedSubjects` closure are not modelled. Handlers run one at a time on the current state.
- The load race: a slow earlier `loadSchedule` may overwrite a newer week, and the model does not exhibit it. Each load resolves inside its handler.
- The shortcut table and user rules behind `getProcessedUsername` and `getUserRule` are JSON data that is not part of this model. The login handlers take them as the parameters `process` and `ruleOf`.
- Only the `redirect` field of a user rule is modelled; its ad, theme colour and role are not.
- Stored JSON that parses to something other than the expected list or map is treated like text that does not parse.
- `customCalendarUrls`: text that does not parse would throw during the mount effect. The model takes the parsed list.
- A `setItem` failure, such as a full store, in `saveCustomShortcuts` is not modelled. Saving always succeeds.
- Object-prototype keys such as `"constructor"` in shortcut lookups are not modelled. The maps hold only their own keys.
- Rendering: JSX, classes, animation and the mobile list are not modelled. The grid's per-day lookup by label, `isToday`, the "no course this week" banner, the dialog's outside-click and Escape listeners, and DayView's modal open/close state are presentation only.
- Sorting.SortBy: the insertion places an element after those with an equal key, so the sort is stable like `Array.prototype.sort`. The contract states ordering and permutation only.
- Course field names: one `Course` record stands for the service's `{start, end, subject, room, teacher}` objects and for the `debut`, `fin`, `matiere`, `salle` and `prof` fields that the grid, day view, dialog, calendar filter and export read. On the service's objects those fields are `undefined`. The calendar filter as written therefore shows no course (see Findings). The grid and the day view would throw on `debut.split`, the export on `debut.replace`, and the dialog on hashing an `undefined` subject. Each member is stated for the field it reads as if it held the service's value.
- CourseBlock.Render: the "day" view mode is folded into the non-month case, which it renders identically.

## Findings

| source | as written | input that shows it | evidently intended | confidence | as-written member | corrected member |
|---|---|---|---|---|---|---|
| src/components/schedule/DayView.tsx:182 | a remote room is labelled "DISTANCIEL üè†", which is the UTF-8 bytes of the house emoji (F0 9F 8F A0) decoded as Mac Roman | any room starting with "SALLE", e.g. "SALLE 12" | "DISTANCIEL 🏠", as in the course dialog (src/components/schedule/CourseModal.tsx:94) | high, not executed | DayView.RemoteLabelIsMojibake | DayView.RoomLabelMatchesModal |
| src/pages/Calendar.tsx:62 | the filter reads `course.matiere`, but the service builds courses with `subject` and no `matiere` (src/services/scheduleService.ts:74-81). `selectedSubjects.has(undefined)` is false, so every course is dropped | any loaded week with at least one course; after the load every subject is selected, yet each day shows no course | filter on the field the service sets, so a course is shown iff its subject is selected | high, not executed | CalendarPage.MatiereFilterDropsEveryCourse | CalendarPage.SelectedCoursesMembers |
