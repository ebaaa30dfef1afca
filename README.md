# Ponto Local worked-time core, in Dafny

Ponto Local (coffee-ponto) is a browser time clock. Employees punch in and
out, and the punches are kept in a local IndexedDB database. From the
punches the pages compute:

- the minutes worked today and this week (the dashboard);
- a period report: days with punches, the total, the average, the working
  days, the expected hours and the balance;
- the formatted hour texts.

Around that sits bookkeeping:

- weekly schedules, with their validations and the one-schedule-per-weekday
  rule;
- user administration;
- the login context, the route guard and the role-filtered menu.

This project models that core and proves what the pages promise about it.

Layout, one module per concern:

- `basics.dfy`: `Option` and order-preserving filters (`Seqs`).
- `text.dfy`: decimal rendering and parsing, and the JavaScript string
  order.
- `model.dfy`: the stored records (`Model`), and day and weekday arithmetic
  on millisecond timestamps (`Calendar`).
- `sorting.dfy`: the stable sort by timestamp, as a function
  (`SortByTime`) and in place on an array (`SortRecords`).
- `worktime.dfy`: the punch loop that both pages write out (`Scan`,
  `ScanRecords`), with an independent pair-based reference definition.
- `report.dfy`: grouping by day, totals, working days, the query window,
  the summary and the hour text with its parser.
- `dashboard.dfy`: today's minutes, the next-punch hint, and the weekly
  loop over a dictionary of days.
- `store.dfy`: the database as a class with three keyed tables and their
  unique indexes.
- `schedules.dfy`, `users.dfy`, `punch.dfy`, `auth.dfy` and `access.dfy`:
  the pages and contexts named in their headers.

Timestamps are integers (milliseconds since the epoch). A day is
`t / 86400000`, and day 0 was a Thursday. Durations are whole minutes;
`differenceInMinutes` truncates toward zero. Where a page divides minutes by
60 into floating hours, the model keeps integer minutes.

## Model

| member | source | states |
|---|---|---|
| Model.ParsePunchType | src/services/db.ts:17 | reading a stored type string back gives the type that prints as it, and rejects every other string |
| Calendar.DayOf | src/pages/Relatorios.tsx:28 | an instant lies between the first and last millisecond of its day |
| Calendar.DiffMinutes | src/pages/Relatorios.tsx:54 | whole minutes elapsed, truncated toward zero, in both directions |
| Text.ParseNatToString | src/services/db.ts:67 | the decimal digits of `Date.now()` in a generated id read back as the same number |
| Text.CompareStrings | src/pages/Usuarios.tsx:46 | a three-way comparison: 0 exactly on equal names, -1/1 exactly by the string order, which is irreflexive, asymmetric, total and transitive |
| RecordOrder.SortByTimeSorted | src/pages/Relatorios.tsx:42 | the sort by timestamp yields ascending timestamps |
| RecordOrder.SortByTimePermutes | src/pages/Relatorios.tsx:42 | the sort keeps exactly the punches it is given (same multiset) |
| RecordOrder.SortSortedIsIdentity | src/pages/Relatorios.tsx:42 | sorting an already sorted list changes nothing |
| RecordOrder.SortIgnoresInputOrder | src/pages/Relatorios.tsx:42 | when equal timestamps mean equal punches, any two orderings of the same punches sort to the same list |
| RecordOrder.SortRecords | src/pages/Relatorios.tsx:42 | the in-place sort leaves the array holding the sorted list of its old contents |
| WorkedTime.ScanIsAdjacentPairs | src/pages/Relatorios.tsx:47-64 | the loop adds exactly the minutes of each opening punch directly followed by a closing one, and ends open exactly when the last punch opens |
| WorkedTime.ScanNonNegative | src/pages/Relatorios.tsx:47-64 | over ascending punches the loop's minutes are never negative, and an open session starts at the last punch |
| WorkedTime.ScanWithinSpan | src/pages/Relatorios.tsx:47-64 | over ascending punches the counted minutes never exceed the time between the first and last punch |
| WorkedTime.ScanRecords | src/pages/Relatorios.tsx:44-64 | the index loop over `totalMinutes`/`checkInTime` ends in the state the loop specification gives |
| WorkedTime.DayMinutes | src/pages/Relatorios.tsx:39-73 | an empty day is 0 minutes, and a day with no future punch is not negative |
| WorkedTime.DayMinutesOrderIndependent | src/pages/Relatorios.tsx:42 | with distinct timestamps the day's minutes do not depend on the order the punches arrive in |
| WorkedTime.CalculateDayHours | src/pages/Relatorios.tsx:39-73 | sorts the caller's array in place and returns the day's minutes, the open session counted only when it started today |
| WorkedTime.BreakExcluded | src/pages/Relatorios.tsx:51-63 | 09:00 in, 12:00 break, 13:00 back, 17:00 out is 420 minutes |
| WorkedTime.OpenSessionToday | src/pages/Relatorios.tsx:66-70 | an open check-in counts up to now on its own day and not at all on a later day |
| WorkedTime.OrphanCheckOut | src/pages/Relatorios.tsx:53 | a check-out with nothing open adds nothing |
| Report.OnDay | src/pages/Relatorios.tsx:27-33 | a day's group holds exactly the punches falling on that day |
| Report.DayKeys | src/pages/Relatorios.tsx:27-33 | the dictionary's keys are distinct and are exactly the days with punches |
| Report.GroupRecordsByDay | src/pages/Relatorios.tsx:24-36 | the loop builds a dictionary whose keys are the days with punches, each group being that day's punches and never empty |
| Report.EveryRecordInOneGroup | src/pages/Relatorios.tsx:24-36 | the group sizes add up to the number of punches, so each punch is in exactly one group |
| Report.GroupKeepsOrder | src/pages/Relatorios.tsx:32 | each group keeps its punches in their input order |
| Report.TotalNonNegative | src/pages/Relatorios.tsx:214-216 | the period total is not negative when no punch is in the future |
| Report.AverageMinutes | src/pages/Relatorios.tsx:219-220 | the average times the number of days is the total, and it is 0 with no days |
| Report.TwoDayPeriod | src/pages/Relatorios.tsx:211-220 | two days of punches give two groups; the total is the sum of the two day results and the average is half of it |
| Report.WorkDaysBetween | src/pages/Relatorios.tsx:223-235 | the working days of a range are at most its length, and none for an empty range |
| Report.WorkDaysSplit | src/pages/Relatorios.tsx:227-228 | the working days of adjacent ranges add up |
| Report.SevenDaysFiveWorkDays | src/pages/Relatorios.tsx:228 | any seven consecutive days hold exactly five working days |
| Report.WholeWeeks | src/pages/Relatorios.tsx:228 | n whole weeks hold 5n working days |
| Report.FetchWindow | src/pages/Relatorios.tsx:117-128 | the corrected query window holds an instant exactly when its day is one of the days the report counts |
| Report.PickedRangeMissesLastDay | src/pages/Relatorios.tsx:120-123 | the window as written ends at the picked end's instant, so a 09:00 punch on a one-day range is not fetched |
| Report.ReportUserId | src/pages/Relatorios.tsx:126 | the report is for the viewer or the selected user, and always for the viewer when the viewer is not a manager |
| Report.LoadReport | src/pages/Relatorios.tsx:108-131 | the report's punches are the chosen user's stored punches on the counted days, each once, sorted by time |
| Report.Summarize | src/pages/Relatorios.tsx:211-239 | the total is the sum of the day figures (`TotalMinutes`), the days count is the number of groups, the average is `AverageMinutes` of the two, the working days are those of the period, expected is 480 minutes per working day, balance plus expected is the total, and the total and the average are 0 with no punches |
| Report.Render | src/pages/Relatorios.tsx:242-248 | the text starts with '-' exactly for a negative value and with '+' exactly when a sign is asked for, and ends in 'h' exactly when the minutes are 0 |
| Report.FormatMinutes | src/pages/Relatorios.tsx:242-248 | the same shape facts, stated on a signed number of minutes |
| Report.RenderParses | src/pages/Relatorios.tsx:242-248 | reading the text back yields the sign, hours and minutes it was made from |
| Report.FormatMinutesParses | src/pages/Relatorios.tsx:242-248 | the text of m minutes reads back as m, with a minute field below 60 |
| Report.FormatAsWrittenOnWholeMinutes | src/pages/Relatorios.tsx:242-248 | on whole minutes the floating formatter and the integer one print the same text |
| Report.AverageCanShowSixtyMinutes | src/pages/Relatorios.tsx:245-247 | an average of 359 minutes over 3 days is printed "1h 60min" |
| Report.FormatAverageParses | src/pages/Relatorios.tsx:433 | the corrected average text reads back as the rounded average, with a minute field below 60 |
| Report.DayBalanceLabel | src/pages/Relatorios.tsx:503-507 | "Jornada completa" exactly at 480 minutes; above it the text starts with '+', below it with '-' |
| Dashboard.HoursWorked | src/pages/Dashboard.tsx:65-95 | with nothing open the result is the loop's minutes; an empty day is 0 |
| Dashboard.HoursWorkedNonNegative | src/pages/Dashboard.tsx:65-95 | ascending punches, none in the future, give a non-negative result |
| Dashboard.TodayFiguresAgree | src/pages/Dashboard.tsx:26-42 | on punches of today the dashboard figure equals the report's day figure |
| Dashboard.OpenSessionFromYesterday | src/pages/Dashboard.tsx:88-92 | unlike the report, the dashboard counts a session left open yesterday up to now (1500 against 0 minutes) |
| Dashboard.CalculateHoursWorked | src/pages/Dashboard.tsx:65-95 | the loop plus the open session up to now returns the dashboard figure |
| Dashboard.Remaining | src/pages/Dashboard.tsx:168-171 | the pie's remainder is not negative, completes 8 hours when fewer were worked, and is 0 otherwise |
| Dashboard.FormatHoursPlainAgrees | src/pages/Dashboard.tsx:175-179 | on non-negative minutes the dashboard's formatter prints what the report's prints without a sign |
| Dashboard.FormatHoursPlainNegative | src/pages/Dashboard.tsx:175-179 | on -30 minutes the floor-based formatter prints "-1h 30min" |
| Dashboard.NextPunch | src/pages/Dashboard.tsx:225-229 | "Entrada" with no punch or after a check-out, "Fim de Intervalo" after a break start, "Saída" exactly when a session is open |
| Dashboard.NextPunchFollowsScan | src/pages/Dashboard.tsx:225-229 | the hint says "Saída" exactly when the worked-time loop ends with a session open |
| Dashboard.LoadTodayRecords | src/pages/Dashboard.tsx:26-46 | today's list is the user's stored punches of today, each once, sorted; its minutes equal the report's day figure; the hint follows the list |
| Dashboard.WeekStartOf | src/pages/Dashboard.tsx:51 | the week starts on the Monday on or before the day |
| Dashboard.WeekDayAgreesWithReport | src/pages/Dashboard.tsx:123-152 | a weekday's figure equals the report's day figure for that day's group |
| Dashboard.InitialWeek | src/pages/Dashboard.tsx:101-110 | the dictionary starts with the seven days of the week at 0 |
| Dashboard.DayOfWeekMinutes | src/pages/Dashboard.tsx:123-152 | one day's sort, loop and open session, counted up to now only on today |
| Dashboard.AddDays | src/pages/Dashboard.tsx:123-153 | the loop over the grouped days keeps the dictionary and the running total in step with the days done |
| Dashboard.CalculateWeeklyHours | src/pages/Dashboard.tsx:97-155 | every weekday has an entry; each entry is that day's figure; the total is the sum of the entries and equals the report's total for the same punches |
| Dashboard.LoadWeekRecords | src/pages/Dashboard.tsx:48-63 | the week's punches are the user's stored punches from Monday to Sunday, each once, and the figures are those of the weekly loop |
| Store.PutKeepsEmailsUnique | src/services/db.ts:62 | writing a user whose email no other user has keeps emails unique |
| Store.PutKeepsSlotsUnique | src/services/db.ts:88 | writing a schedule whose user and weekday no other schedule has keeps that pair unique |
| Store.DefaultAdmin | src/services/db.ts:66-73 | the seeded administrator has the fixed email, password and role, and an id "admin-" followed by the creation time |
| Store.RecordsBetween | src/services/db.ts:211-214 | a punch is kept exactly when it lies between the bounds, both included |
| Store.RecordsBetweenKeepsOrder | src/services/db.ts:211-214 | the filter keeps the punches' relative order and every copy of each |
| Store.CollectValues | src/services/db.ts:149 | the values listed are the table's values that pass the test, each as many times as keys hold it, one entry per passing key |
| Store.KeyedHolders | src/services/db.ts:61 | in a table keyed by `id`, a stored value is held under exactly one key |
| Store.Database.constructor | src/services/db.ts:56-89 | a new database holds only the default administrator |
| Store.Database.CreateUser | src/services/db.ts:108-118 | `add` succeeds exactly when the id and the email are free, and then stores the user under its id; other tables are unchanged |
| Store.Database.UserById | src/services/db.ts:120-130 | the user stored under the key, or none |
| Store.Database.GetUserByEmail | src/services/db.ts:132-143 | finds the user with the email, and none exactly when nobody has it |
| Store.Database.GetAllUsers | src/services/db.ts:145-155 | lists every stored user exactly once |
| Store.Database.UpdateUser | src/services/db.ts:157-167 | `put` succeeds exactly when no other user has the email, and then stores the user under its id |
| Store.Database.DeleteUser | src/services/db.ts:169-179 | removes the key and nothing else |
| Store.Database.CreateTimeRecord | src/services/db.ts:182-192 | `add` succeeds exactly when the id is free; existing punches are never changed |
| Store.Database.GetTimeRecordsByUserId | src/services/db.ts:194-205 | lists each of the user's stored punches exactly once |
| Store.Database.GetTimeRecordsByDate | src/services/db.ts:207-219 | lists each of the user's stored punches between the bounds, both included, exactly once |
| Store.Database.CreateWorkSchedule | src/services/db.ts:222-232 | `add` succeeds exactly when the id and the (user, weekday) slot are free |
| Store.Database.GetWorkSchedulesByUserId | src/services/db.ts:234-245 | lists each of the user's stored schedules exactly once |
| Store.Database.UpdateWorkSchedule | src/services/db.ts:247-257 | `put` succeeds exactly when no other schedule holds the slot |
| Store.Database.DeleteWorkSchedule | src/services/db.ts:259-269 | removes the key and nothing else |
| Schedules.ClockOrder | src/pages/Escalas.tsx:231 | on zero-padded "HH:MM" times the string comparison is the order of the times of day |
| Schedules.OptionalText | src/pages/Escalas.tsx:271-272 | an empty break field is stored as absent, any other as itself |
| Schedules.FindSlot | src/pages/Escalas.tsx:253 | finds a schedule of the list with the weekday and user, and none exactly when the list has none |
| Schedules.PlanSave | src/pages/Escalas.tsx:226-292 | the start must precede the end; a filled break must lie strictly inside; a new schedule may not take a listed slot; an edit keeps id and owner; a new one gets the new id and the target user |
| Schedules.AcceptedTimesInOrder | src/pages/Escalas.tsx:231-247 | a saved schedule's start, break and end are in order as times of day |
| Schedules.AddDefaultsAccepted | src/pages/Escalas.tsx:180-188 | the add dialog's defaults create a Monday 08:00-17:00 schedule with a 12:00-13:00 break |
| Schedules.EditRoundTrip | src/pages/Escalas.tsx:190-198 | saving the edit dialog unchanged writes the same schedule back |
| Schedules.TeamTabNeverSlotTaken | src/pages/Escalas.tsx:250-255 | the page's duplicate check never fires on the team tab, since it looks only at the viewer's own list |
| Schedules.TargetUser | src/pages/Escalas.tsx:250 | the viewer on the own tab, the selected member otherwise |
| Schedules.HandleSaveSchedule | src/pages/Escalas.tsx:226-297 | nothing without a user or on a failed check; otherwise `put` or `add`; `saved` is exactly the store's acceptance, which refuses a taken slot |
| Schedules.HandleDeleteSchedule | src/pages/Escalas.tsx:200-204 | removes the schedule's key when someone is signed in |
| Schedules.FirstWithWeekDay | src/pages/Escalas.tsx:42 | the first schedule with the weekday, and none exactly when there is none |
| Schedules.WeeklyRows | src/pages/Escalas.tsx:17-25 | seven rows, Monday to Saturday and then Sunday |
| Schedules.WeeklyRowsCoverWeek | src/pages/Escalas.tsx:41-42 | each weekday has one row, and a schedule's weekday row is filled |
| Users.SplitSpacesJoins | src/pages/Usuarios.tsx:168 | joining the split pieces with spaces gives the name back |
| Users.HeadsOfSplit | src/pages/Usuarios.tsx:168-170 | the first letters of the non-empty pieces are exactly the letters that begin a word |
| Users.GetInitials | src/pages/Usuarios.tsx:166-173 | at most two characters, no space, the upper-cased first word-initial letters |
| Users.InitialsExamples | src/pages/Usuarios.tsx:166-173 | "" gives "", "a b" gives "AB", " b" gives "B" |
| Users.RoleBadgeConsistent | src/pages/Usuarios.tsx:176-191 | the three roles get three labels; colour and label split strings the same way; any other string shows as an employee |
| Users.AsWrittenNotAntisymmetric | src/pages/Usuarios.tsx:41-47 | as written, two administrators (or two managers) each compare before the other, and such a user does not compare equal to itself |
| Users.CompareUsers | src/pages/Usuarios.tsx:41-47 | -1, 0 or 1; 0 exactly for the same role and name; lower rank first; same role compares by name |
| Users.CompareUsersAntisymmetric | src/pages/Usuarios.tsx:41-47 | swapping the arguments negates the result |
| Users.CompareUsersTransitive | src/pages/Usuarios.tsx:41-47 | the order is transitive |
| Users.AsWrittenAgreesElsewhere | src/pages/Usuarios.tsx:41-47 | outside two users sharing the administrator or manager role, the comparator as written agrees with the corrected one |
| Users.SortUsersCorrect | src/pages/Usuarios.tsx:41 | the sorted list is in order and holds exactly the users given |
| Users.LoadUsers | src/pages/Usuarios.tsx:37-47 | lists every stored user exactly once, administrators before managers before employees, by name within a role |
| Users.MergeEdit | src/pages/Usuarios.tsx:121-128 | an edit keeps id, creation time and avatar, takes name, email and role, and replaces the password only when the field is not empty |
| Users.NewUser | src/pages/Usuarios.tsx:137-144 | a new user takes the form's fields, is created now and has the id "user-" followed by now |
| Users.PlanUserSave | src/pages/Usuarios.tsx:106-151 | refused exactly when the name or email is blank (only characters `trim` removes, the Unicode spaces and line terminators included), or the password is blank on creation; otherwise an edit or a new user |
| Users.CreateDialogRefusedAsOpened | src/pages/Usuarios.tsx:60-67 | the create dialog as opened cannot be saved |
| Users.EditRoundTrip | src/pages/Usuarios.tsx:69-76 | saving the edit dialog unchanged writes the same user back |
| Users.SpacesPassword | src/pages/Usuarios.tsx:109 | a password of spaces is refused on creation but stored on an edit |
| Users.IdeographicSpaceNameRefused | src/pages/Usuarios.tsx:109 | a name that is only an ideographic space (U+3000) is blank to `trim`, so the form is refused |
| Users.HandleSaveUser | src/pages/Usuarios.tsx:106-163 | the planned save goes to `put` or `add`; `saved` is exactly the store's acceptance |
| Users.HandleDeleteUser | src/pages/Usuarios.tsx:83-104 | removes the chosen user's key, if one was chosen |
| Users.UsersPage | src/pages/Usuarios.tsx:193-203 | the list exactly for an administrator, the permission alert for anyone else |
| PunchPage.TodayWindow | src/pages/RegistroPonto.tsx:40-44 | the window spans one day, and an instant is inside exactly when it is on the same day as now |
| PunchPage.LoadPunchList | src/pages/RegistroPonto.tsx:37-50 | the user's stored punches of today, each once, sorted by time |
| PunchPage.ChooseLocation | src/pages/RegistroPonto.tsx:68-71 | the current location if known, otherwise the refreshed one; absent only if both are |
| PunchPage.NewRecord | src/pages/RegistroPonto.tsx:73-80 | the punch carries the user, the type, the time and the location, note "", and an id of the user's id, '-' and the time |
| PunchPage.NewRecordIdsDistinct | src/pages/RegistroPonto.tsx:74 | one user's punches at different milliseconds get different ids |
| PunchPage.RegisterTime | src/pages/RegistroPonto.tsx:61-99 | nothing without a user; otherwise the punch is stored whatever its type and history unless its id is taken, and the reloaded list holds it |
| PunchPage.TypeLabel | src/pages/RegistroPonto.tsx:101-109 | an unknown type string is shown as it is |
| PunchPage.TypeColor | src/pages/RegistroPonto.tsx:111-119 | an unknown type string gets gray |
| PunchPage.TypeBadgesDistinct | src/pages/RegistroPonto.tsx:101-119 | the four types get four labels and four colours, none gray |
| Auth.IsAdmin | src/contexts/auth-context.tsx:116 | true exactly for a signed-in administrator |
| Auth.IsManager | src/contexts/auth-context.tsx:117 | true exactly for a signed-in manager or administrator |
| Auth.FlagsNested | src/contexts/auth-context.tsx:115-117 | an administrator is a manager; only a signed-in user has a flag; an employee has neither |
| Auth.StoredText | src/contexts/auth-context.tsx:25-31 | a stored item counts only when present and non-empty |
| Auth.AuthContext.constructor | src/contexts/auth-context.tsx:19-21 | no user, no session, loading |
| Auth.AuthContext.RestoreSession | src/contexts/auth-context.tsx:23-43 | loading ends; a stored session is taken over, then the stored user; anything that fails to parse removes both keys |
| Auth.AuthContext.Login | src/contexts/auth-context.tsx:55-91 | succeeds exactly when a stored user has the email and the password and a session is created; only then are user, session and storage set |
| Auth.AuthContext.Logout | src/contexts/auth-context.tsx:93-104 | always clears user and session and removes both storage keys |
| Access.ProtectedRoute | src/components/auth/protected-route.tsx:12-51 | placeholder while loading, "/" for a visitor, "/dashboard" exactly for a non-administrator on an admin route, the page otherwise |
| Access.GuardForUser | src/components/auth/protected-route.tsx:14-50 | a page is shown exactly to a signed-in user once loading ends, an admin page only to an administrator, who is never redirected |
| Access.FilteredNav | src/components/layout/sidebar-nav.tsx:49-53 | an item is shown exactly when its required role's flag holds |
| Access.NavForUser | src/components/layout/sidebar-nav.tsx:19-53 | the menu keeps the items' order; administrators see all five, others the first four; the manager flag changes nothing |
| Access.SidebarCard | src/components/layout/main-layout.tsx:17-57 | the card shows only for a signed-in user; its initials and role line equal the users page's |

## Left out

- Time zones and daylight saving: days are UTC days of the epoch. Month
  boundaries (`startOfMonth`, `endOfMonth`) are inputs to the period.
- Floating point: hours are whole minutes. `Math.round` and `toFixed` are
  modelled only where they decide a printed digit
  (`Report.FormatHoursAsWritten`).
- `localeCompare` collation: names are compared by code points
  (`Text.CompareStrings`). Upper-casing covers ASCII letters only.
- Users.GetInitials: takes the first character of a word as a Unicode
  scalar, where JavaScript takes a UTF-16 code unit, and upper-cases ASCII
  only.
- Store.CollectValues: does not model the key order in which IndexedDB
  returns values, only which values are listed and how many times. The
  queries and the pages' loads therefore fix their lists up to order
  (each stored value once), and then sort them where the page sorts.
- The store queries and the loads require `Valid()`, the database's
  invariant (every value under its own id); the constructor establishes it
  and every write keeps it.
- The IndexedDB plumbing (opening, upgrades, transactions, promises) and
  the `role` and `timestamp` indexes that no modelled query uses.
- Dashboard.CalculateWeeklyHours: requires every punch to fall in the
  current week. The source adds an out-of-week day's minutes to a missing
  entry, which JavaScript turns into NaN. Its caller only passes this
  week's punches.
- Report.LoadReport: uses the corrected query window (see Findings); the
  window as written is `Report.FetchWindowAsWritten`.
- Users.LoadUsers: sorts with the corrected comparator (see Findings).
- The clock, geolocation and JSON are parameters: `now`, the current and
  refreshed locations, and the parse and encode functions. One `now` also
  stands for the two clock reads of a punch (id and timestamp).
- The session helpers (`createSession`, `deleteSession`,
  `updateSessionActivity`) are not defined in the modelled store. Only the
  session value they return is modelled, and the 5-minute activity timer
  is left out.
- The location context (src/contexts/location-context.tsx) is not part of
  this model.
- UI rendering: JSX, dialogs, toasts, the charts, the PDF export and the
  clock tick.
- The reloads that follow each save, except where a method returns the
  reloaded list.
- A thrown store error is modelled as the store refusing the write; other
  failures (a closed database) are not modelled.

## Findings

| source | as written | input that shows it | evidently intended | confidence | as-written member | corrected member |
|---|---|---|---|---|---|---|
| src/pages/Relatorios.tsx:242-248 | the average is split into floor hours and `Math.round` of the fraction times 60, so the minutes can round up to 60 | a total of 359 minutes over 3 days prints "1h 60min" | round to whole minutes first, then split, printing "2h" | not executed | Report.AverageCanShowSixtyMinutes | Report.FormatAverageParses |
| src/pages/Relatorios.tsx:120-123 | a picked range's end bound is the picked day's midnight instant, while the end day still counts as a working day | a one-day range on a Thursday misses that day's 09:00 punch | query up to 23:59:59.999 of the last day, as the monthly report does | not executed | Report.PickedRangeMissesLastDay | Report.FetchWindow |
| src/pages/Usuarios.tsx:41-47 | the comparator returns -1 whenever the left user is an administrator (or a manager, with no administrator on the right) | two administrators: each compares before the other | administrators, then managers, then employees, by name within a role | not executed | Users.AsWrittenNotAntisymmetric | Users.SortUsersCorrect |
