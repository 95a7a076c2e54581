# HR / ERP front end — a Dafny model of its client-side logic

This project models the client-side state logic of six screens of the HR/ERP web front end:

- the employee's **attendance** page: today's status, the check-in / check-out / leave buttons, the optimistic updates, the summary cards, the September calendar and the detailed report;
- the **projects** board: which projects are visible, the default selection, overdue tasks, team workload, the burndown points, the phase-update form and the team-member checkboxes;
- the personal **to-do** list: add / toggle / delete, the status and search filter, the progress bar, and the overdue / due-soon borders;
- the admin **employee register**: add / edit / delete, the search and filters, and the statistics cards;
- the **monthly attendance summary**: rate buckets, the high-performer count, the displayed rate and its colour, and the CSV export;
- the **dashboard shell**: which sidebar links each role sees and which routes exist for it.

Each screen is one module: `Attendance`, `Projects`, `Todo`, `EmployeeRegister`, `MonthSummary` and `Navigation`. Each operation is a pure function over immutable datatypes. `Wrappers` holds `Option`. `Seqs` holds the JavaScript array helpers `filter`, `some`, `find` and a filter-based count, each specified independently of its definition. `Strings` holds `startsWith`, `includes`, ASCII `toLowerCase`, `String(n)`, `join` and `split`.

Conventions:
- A JavaScript value that may be missing is an `Option`. For strings, truthiness means "present and not empty".
- `x?.startsWith(p)` is kept distinct from `x && x.startsWith(p)`.
- Instants are parameters: ISO strings on the attendance page, integer milliseconds elsewhere. Nothing reads a clock.
- Rates and percentages are exact rationals compared by cross-multiplication. Rounding is stated as a pair of inequalities.

## Model

| member | source | states |
|---|---|---|
| Attendance.DeriveStatus | frontend/src/modules/Attendance.jsx:157-165 | each of checked-in, checked-out and on-leave today holds iff some record matches the corresponding predicate |
| Attendance.LeaveWithoutCheckInIgnored | frontend/src/modules/Attendance.jsx:163-165 | a leave record with no check-in time never makes today a leave day |
| Attendance.EnabledButtons | frontend/src/modules/Attendance.jsx:193-195 | each button is enabled iff its disabled condition is false; check-out implies checked in; check-in and check-out are never both enabled, nor check-out and leave; a pending request disables all three |
| Attendance.NewDay | frontend/src/modules/Attendance.jsx:22-26 | a new day clears both one-shot locks and keeps the pending flag |
| Attendance.ApplyCheckIn | frontend/src/modules/Attendance.jsx:110-116 | the optimistic check-in appends exactly one record and keeps all earlier ones |
| Attendance.ApplyCheckOut | frontend/src/modules/Attendance.jsx:118-127 | records checked in today get the new check-out time; every other record is unchanged |
| Attendance.CheckInEffects | frontend/src/modules/Attendance.jsx:110-116 | after a successful check-in the day counts as checked in, check-out and leave are unchanged, and the lock disables Check-In and Leave |
| Attendance.CheckInLockHolds | frontend/src/modules/Attendance.jsx:22-26 | the lock keeps Check-In disabled whatever list arrives, until the day changes |
| Attendance.CheckOutEffects | frontend/src/modules/Attendance.jsx:118-127 | after checking out on a day that was checked in, the day counts as checked out, check-in and leave are unchanged, and Check-Out is disabled |
| Attendance.CheckOutIdempotent | frontend/src/modules/Attendance.jsx:118-127 | applying the optimistic check-out twice is the same as applying it once |
| Attendance.Summarize | frontend/src/modules/Attendance.jsx:263-283 | Total Days is always 30; Present, Leave and Check-Outs are the numbers of records the check-in, leave-status and check-out filters keep; Present and Check-Outs are zero iff no record has that time |
| Attendance.CheckInSummary | frontend/src/modules/Attendance.jsx:110-116 | the optimistic check-in adds one to Present and changes neither Leave nor Check-Outs |
| Attendance.CheckOutSummary | frontend/src/modules/Attendance.jsx:118-127 | the optimistic check-out changes neither Present nor Leave |
| Attendance.CalendarCell | frontend/src/modules/Attendance.jsx:290-307 | for a real date the cell is never yellow; it is grey iff no record's check-in starts with the date; green and blue each name a checked-in record without or with a check-out |
| Attendance.CalendarCellFirstRecord | frontend/src/modules/Attendance.jsx:293-307 | the first record whose check-in starts with the date decides the colour, whatever later records hold |
| Attendance.SeptemberGrid | frontend/src/modules/Attendance.jsx:290-292 | thirty cells, cell i painted with the calendar colour of 2025-09-(i+1); none yellow, and cell i is grey iff nobody checked in on that date |
| Attendance.ReportStatusOf | frontend/src/modules/Attendance.jsx:336-351 | the status column is decided in the order: exact status "Leave", then check-out, then check-in |
| Attendance.ReportLabelsDistinct | frontend/src/modules/Attendance.jsx:336-351 | label and colour each determine the status |
| Attendance.ReportAfterOptimisticUpdates | frontend/src/modules/Attendance.jsx:110-127 | the new check-in row reads "Present"; after check-out, every row checked in today that is not "Leave" reads "Check-Out" |
| Attendance.ReportDate | frontend/src/modules/Attendance.jsx:331 | the date column is the prefix of the check-in time before the first "T", or the whole time when it has no "T"; it is absent iff the time is absent |
| Projects.VisibleProjects | frontend/src/modules/Projects.jsx:52-60 | for EMPLOYEE or an empty name the list is unchanged; otherwise it is the order-preserving subsequence of projects with a team member of that name, as long as the number of such projects, so duplicates are kept |
| Projects.SelectDefault | frontend/src/modules/Projects.jsx:133-139 | with projects visible the selection becomes a visible id; with none visible a real selection is cleared and a falsy one (null or id 0) is left as it was; a visible selection is kept; with nothing selected (null or id 0) the first visible project is chosen, and whenever the selection moves it moves to the first visible project |
| Projects.SelectDefaultSettles | frontend/src/modules/Projects.jsx:133-139 | the effect is idempotent, so it settles after one re-render |
| Projects.CeilDiv | frontend/src/modules/Projects.jsx:238-239 | Math.ceil of a non-negative quotient: the least q with a <= q*b |
| Projects.DaysLabelReadsBack | frontend/src/modules/Projects.jsx:240 | the overdue label splits into the day count, read back exactly, and "Day" or "Days" by plurality |
| Projects.MarkOverdue | frontend/src/modules/Projects.jsx:236-240 | an overdue task is annotated with at least one day, the ceiling of the elapsed days, and the matching label |
| Projects.OverdueTasks | frontend/src/modules/Projects.jsx:234-241 | task k of the result is task k of the filter of tasks due before today's midnight, each with its ceiling day count and label |
| Projects.OverdueBoundaries | frontend/src/modules/Projects.jsx:236-240 | a task due right now is not overdue; one due a day ago reads "1 Day"; four days ago gives 4 |
| Projects.Workload | frontend/src/modules/Projects.jsx:244-256 | no tasks gives no entries; otherwise one entry per distinct team name, each counting the tasks assigned to that name |
| Projects.WorkloadTotal | frontend/src/modules/Projects.jsx:244-256 | the bars add up to the number of tasks assigned to a team member, so never more than the tasks |
| Projects.Burndown | frontend/src/modules/Projects.jsx:258 | two points, Start then Current; Current is the task count and Start is one more |
| Projects.NextProgress | frontend/src/modules/Projects.jsx:187-188 | Completed sets 100, Waiting sets 0; other statuses take the numeric input, with NaN or 0 giving 0, and keep the old value when there is no input |
| Projects.UpdatePhases | frontend/src/modules/Projects.jsx:182-191 | every phase keeps its name, takes its form's status, and gets its next progress |
| Projects.UpdatePhasesInvariant | frontend/src/modules/Projects.jsx:182-191 | progress stays within 0..100 when the inputs do, and resubmitting the same form changes nothing |
| Projects.ToggleTeamMember | frontend/src/modules/Projects.jsx:283-290 | checking appends the id; unchecking removes every copy and keeps the rest in order, shortening the list by exactly the number of copies |
| Projects.ToggleTeamMemberUndo | frontend/src/modules/Projects.jsx:283-290 | checking a new id and then unchecking it restores the list |
| Todo.Submit | frontend/src/modules/Todo.jsx:46-49 | the form is accepted iff title, description and due date are all non-empty |
| Todo.AddTask | frontend/src/modules/Todo.jsx:165-173 | the new, uncompleted task goes first and the old list follows unchanged |
| Todo.SubmitTask | frontend/src/modules/Todo.jsx:46-49 | a rejected form leaves the list alone; an accepted one adds exactly the form's task, uncompleted, at the front |
| Todo.ToggleComplete | frontend/src/modules/Todo.jsx:175-177 | completion flips on tasks with the id and nothing else changes |
| Todo.ToggleTwice | frontend/src/modules/Todo.jsx:175-177 | toggling twice restores the list |
| Todo.DeleteTask | frontend/src/modules/Todo.jsx:179-181 | exactly the tasks with other ids remain, in order, and the length drops by the number of matches |
| Todo.FilteredTasks | frontend/src/modules/Todo.jsx:188-199 | the two chained filters keep, in order, exactly the tasks that match both the status and the search, as many as match, duplicates included |
| Todo.NoFilterShowsAll | frontend/src/modules/Todo.jsx:188-199 | "All" with an empty search shows the whole list |
| Todo.Percentage | frontend/src/modules/Todo.jsx:18-19 | the nearest integer to 100·completed/total, halves rounded up, within 0..100; 0 when there are no tasks |
| Todo.PercentageExtremes | frontend/src/modules/Todo.jsx:18-19 | all done gives 100 and none done gives 0 |
| Todo.Progress | frontend/src/modules/Todo.jsx:186 | the progress of a list is the completed share as a percentage rounded to the nearest integer, within 0..100, and 0 for an empty list |
| Todo.ProgressExtremes | frontend/src/modules/Todo.jsx:186 | a non-empty list that is all done shows 100; a list with nothing done shows 0 |
| Todo.TaskBorder | frontend/src/modules/Todo.jsx:105-114 | the border is red iff overdue and yellow iff due within a day; the two never both hold; a completed task has none |
| EmployeeRegister.NextId | frontend/src/modules/DashboardHome.jsx:62 | the new id is above every existing id: the maximum plus one, or 1 when the register is empty |
| EmployeeRegister.AddEmployee | frontend/src/modules/DashboardHome.jsx:58-66 | a form without name, email and position changes nothing; otherwise one record is appended with every field of the form (phone, hire date and location included), the parsed salary (0 if it does not parse), the fixed avatar and the next id, one above the largest |
| EmployeeRegister.AddKeepsIdsUnique | frontend/src/modules/DashboardHome.jsx:58-66 | adding keeps ids unique |
| EmployeeRegister.EditEmployee | frontend/src/modules/DashboardHome.jsx:83-93 | with no selection nothing changes; otherwise records with the selected id become the edited record with its salary re-parsed, every other record is kept, and no id changes |
| EmployeeRegister.EditKeepsIdsUnique | frontend/src/modules/DashboardHome.jsx:83-93 | editing keeps ids unique |
| EmployeeRegister.EditUnknownIdIsNoOp | frontend/src/modules/DashboardHome.jsx:83-93 | editing an id that is not in the register changes nothing |
| EmployeeRegister.DeleteEmployee | frontend/src/modules/DashboardHome.jsx:95-99 | declining changes nothing; confirming keeps, in order, exactly the records with other ids, and the length drops by the number of records with the id |
| EmployeeRegister.DeleteKeepsIdsUnique | frontend/src/modules/DashboardHome.jsx:95-99 | deleting keeps ids unique |
| EmployeeRegister.FilteredEmployees | frontend/src/modules/DashboardHome.jsx:48-56 | exactly the records, in order, whose name, email or position contains the term (ignoring case) and whose department and status match the filters when those are set, as many as match, duplicates included |
| EmployeeRegister.NoFilterShowsAll | frontend/src/modules/DashboardHome.jsx:48-56 | no search and no filters shows everyone |
| EmployeeRegister.Departments | frontend/src/modules/DashboardHome.jsx:309 | the set of departments is exactly those of the records, with no more members than there are records |
| EmployeeRegister.ComputeStats | frontend/src/modules/DashboardHome.jsx:287-325 | total is the record count; active is at most the total; at least one department when there are records; the salary card sums the salaries |
| EmployeeRegister.AddEmployeeStats | frontend/src/modules/DashboardHome.jsx:58-66 | adding moves the total by one, Active by one iff the status is "Active", the salary sum by the new salary, and adds its department to the set |
| MonthSummary.BucketsPartition | frontend/src/modules/attendance/MonthSummary.jsx:110-122 | a row with a rate is in exactly one of high, medium and low; a NaN row is in none |
| MonthSummary.FilteredData | frontend/src/modules/attendance/MonthSummary.jsx:106-128 | exactly the rows, in order, whose name contains the term and whose bucket matches the filter, as many as match, duplicates included |
| MonthSummary.HighPerformers | frontend/src/modules/attendance/MonthSummary.jsx:141-143 | bounded by the row count, and zero iff no row is above 90% |
| MonthSummary.HighPerformersMatchHighFilter | frontend/src/modules/attendance/MonthSummary.jsx:106-143 | the card equals the number of rows the "high" filter shows with no search |
| MonthSummary.BucketCounts | frontend/src/modules/attendance/MonthSummary.jsx:110-122 | high, medium, low and NaN rows together account for every row |
| MonthSummary.ShownRate | frontend/src/modules/attendance/MonthSummary.jsx:145-146 | the nearest tenth of a percent, halves rounded up; Infinity or NaN when there are no working days |
| MonthSummary.RateText | frontend/src/modules/attendance/MonthSummary.jsx:145-146 | a finite rate is its integer part in decimal without leading zeros, a point and one digit; Infinity and NaN give "Infinity" and "NaN"; no comma or newline |
| MonthSummary.RateTextReadsBack | frontend/src/modules/attendance/MonthSummary.jsx:145-146 | reading the text back as a decimal gives the rate |
| MonthSummary.RateColour | frontend/src/modules/attendance/MonthSummary.jsx:148-152 | green iff at least 90 (or Infinity); yellow iff from 70 up to but excluding 90; red iff below 70 (or NaN) |
| MonthSummary.HighIsGreen | frontend/src/modules/attendance/MonthSummary.jsx:110-152 | every high row is green |
| MonthSummary.MediumIsNotRed | frontend/src/modules/attendance/MonthSummary.jsx:110-152 | a medium row is never red |
| MonthSummary.LowIsNotGreen | frontend/src/modules/attendance/MonthSummary.jsx:110-152 | a low row is never green |
| MonthSummary.NinetyIsMediumButGreen | frontend/src/modules/attendance/MonthSummary.jsx:114-152 | exactly 90% is filed as medium but coloured green |
| MonthSummary.LowRowCanShowYellow | frontend/src/modules/attendance/MonthSummary.jsx:120-152 | some low row is coloured yellow because its rate rounds up to 70.0; the witness has 2000 working days, and LowYellowNeedsLongMonth shows no month shorter than 200 days allows it |
| MonthSummary.LowYellowNeedsLongMonth | frontend/src/modules/attendance/MonthSummary.jsx:120-152 | a low row shown yellow needs at least 200 working days, so in a real month low rows are never yellow |
| MonthSummary.CsvFields | frontend/src/modules/attendance/MonthSummary.jsx:165-173 | five fields: the name, the present, absent and leave counts in decimal, and the rate text with a percent sign; the number and rate fields hold no comma or newline |
| MonthSummary.CsvFieldsReadBack | frontend/src/modules/attendance/MonthSummary.jsx:165-171 | the three count fields read back as the row's counts, and the last field is the rate text followed by "%" |
| MonthSummary.CsvLines | frontend/src/modules/attendance/MonthSummary.jsx:163-174 | the header line followed by one line per row |
| MonthSummary.LineRoundTrip | frontend/src/modules/attendance/MonthSummary.jsx:165-173 | when the name has no comma or newline, a line splits back into its five fields |
| MonthSummary.CsvRoundTrip | frontend/src/modules/attendance/MonthSummary.jsx:155-174 | when no name has a comma or newline, the file splits back into the header and one line per row, and each line into its fields |
| MonthSummary.ExportRoundTrip | frontend/src/modules/attendance/MonthSummary.jsx:155-174 | the exported file of the rows on screen has the header and one line per shown row, and each line splits back into that row's fields, when no name has a comma or newline |
| Navigation.SidebarLinks | frontend/src/components/employee/EmployeeDashboard.jsx:92-196 | Employee Management only for ADMIN; Attendance only for HR and EMPLOYEE; Leave Approval, Financial and Attendance Summary only for ADMIN and HR; Projects, Performance and To-Do for everyone; no link twice |
| Navigation.Routes | frontend/src/components/employee/EmployeeDashboard.jsx:247-272 | eight routes for ADMIN and HR and five for others; the index route shows the register to ADMIN and attendance to others; no path is declared twice; an admin page is routed only for ADMIN or HR |
| Navigation.Resolve | frontend/src/components/employee/EmployeeDashboard.jsx:247-272 | a path resolves to the screen of a declared route with that child path, and to nothing only when no route has that path |
| Navigation.EveryLinkResolves | frontend/src/components/employee/EmployeeDashboard.jsx:92-272 | every link a role is shown opens the screen it is labelled with |
| Navigation.AdminPagesLinkIffRoute | frontend/src/components/employee/EmployeeDashboard.jsx:120-271 | for leave approval, financial and attendance summary, the link is shown iff the route exists |
| Navigation.IndexAndAttendanceRoutes | frontend/src/components/employee/EmployeeDashboard.jsx:249-255 | the index shows the register to ADMIN and attendance to everyone else; the attendance route exists for every role, though ADMIN has no link to it |
| Navigation.OtherRolesSeeCommonLinks | frontend/src/components/employee/EmployeeDashboard.jsx:92-271 | any other role, including the loading placeholder, sees only Projects, Performance and To-Do and has only the five common routes |

Documented behaviour worth knowing:
- **Yellow calendar cells never appear.** The lookup finds a record by its check-in prefix, so any record it finds has a truthy check-in. `CalendarCell` proves this for every non-empty date.
- **Id 0 counts as "no selection".** The project selection is falsy when the id is 0, so `SelectDefault` treats id 0 as unset.
- **A missing team is empty.** The project filter checks `Array.isArray` (Projects.jsx:59 and :67), so there a team that is missing or not an array matches no name. The workload chart only defaults a missing team (`selectedProject?.team || []`). A team that is present but not an array, such as a string, makes its `forEach` throw. `Projects.Workload` models that crash as an empty team.

Edge cases where the code's behaviour may be unexpected:
- **Workload with no tasks.** The workload chart has no bars at all when there are no tasks. It does not show a zero for every team member. `Projects.Workload` states `tasks == [] ==> r == []`.
- **Burndown with no tasks.** The burndown series always has its two points: Start 1 and Current 0 when there are no tasks. It is never empty. `Projects.Burndown` states this for every list.
- **Overdue test.** A task is overdue when its full due instant lies before today's local midnight. The due instant is not truncated to its day first.

## Left out

- HTTP requests, the 401 token-clearing branch, `localStorage`, navigation calls, toasts, `alert` and `confirm`: these are I/O. The delete confirmation becomes a boolean parameter.
- Clocks and time zones: `today`, `now` and due instants are parameters. Date parsing and `toISOString` are not modelled.
- Attendance.Summarize: Total Days is the constant 30 from the source, not derived from a calendar.
- Todo.Percentage: rounds the exact fraction, halves up. The page computes `completed / total * 100` in binary floating point before `Math.round`, so a product that should be an exact half can land just below it: for 23 of 40 tasks the page shows 57% where the model gives 58. Todo.Progress inherits this.
- Todo.Progress: the same floating-point rounding gap as Todo.Percentage; the value is the exact half-up rounding of the completed share.
- MonthSummary.ShownRate: rounds the exact rational rate. It does not model binary floating-point error in `(present / total) * 100` before `toFixed(1)`.
- The average-attendance card of the monthly summary is a floating-point mean of floating-point rates and is not modelled.
- `Intl` currency and date formatting, `formatTime`, the launch-date text and `toLocaleTimeString`: these are display formatting.
- Strings.ToLower: lower-cases ASCII letters only. Full Unicode case mapping is not modelled.
- Projects.Workload: lists entries in first-occurrence order. `Object.keys` puts integer-like names first, and that ordering is not modelled.
- Workload names that are also properties of a plain JavaScript object (`toString`, `constructor`, `__proto__`) are not modelled. Such an assignee would pass the `!== undefined` test without being a team member.
- Projects.NextProgress: the numeric input is an integer or NaN. Fractional progress values are not modelled.
- New ids come from `Date.now()` and are a parameter for to-do tasks. Parsing of the salary string (`parseInt`) is also a parameter.
- The category and priority colour lookups of the to-do list are plain table lookups with a grey default and are not modelled.
- The `handleSubmit` of the project edit modal, the project creation form and the phase definitions of new projects send data to the server and are not modelled.
- Re-fetching after an optimistic update replaces the list with server data. That reconciliation is outside the model.
- Double clicks before `isProcessing` is rendered are a concurrency matter and are not modelled.
- The Logout button and the profile request of the dashboard shell are I/O.
- The Performance, LeaveApprovalPage and FinancialReports screens, and the context providers, are not part of this model.
- Route matching compares child paths exactly. React Router's case-insensitive matching and its tolerance of one trailing slash (`/employee-dashboard/attendance/`) are not modelled; every link in the sidebar uses the same case as its route.
- MonthSummary.CsvRoundTrip: requires names without commas or newlines. The export does not quote fields, so such a name breaks the column layout.
