# Study planner front end: a Dafny model of its component rules

Study-Buddy is a React front end for planning study work. A user groups
tasks into courses. Each task moves through the statuses todo, doing and
done, and a per-task timer adds up the time spent in doing. The components
hold small, exact rules, and this project models them:

- **Task card** (`TaskCard`): the status button's todo → doing → done → todo
  cycle. The elapsed-time value is the stored `timeSpent` plus the whole
  seconds of the running session, and the card refreshes it every second.
  The "1h 5m" / "1m 5s" / "5s" formatter. The due-date badge (Overdue,
  Today, Tomorrow or the date). The rule for when the timer badge shows.
- **Task dialog** (`TaskForm`): the refill when the dialog opens, for a new
  task or for an edit. The title-required check. The payload sent to
  `onSubmit`, with its text trimmed and empty values left out. The
  `"__none__"` entry of the course select. Clearing the title error while
  typing. Closing only after a successful save.
- **Course sidebar** (`CourseList`): the create, rename and delete handlers,
  which reject blank names. They open and close dialogs and reset the
  in-flight flag, and a successful delete clears a course filter that
  pointed at the deleted course. Also the task count per course and which
  sidebar entry is highlighted.
- **Password reset page** (`ResetPassword`): the link check on arrival.
  The ordered validation (mismatch first, then at least 6 characters). The
  handling of the update's result. The choice among its four views.

Two helper modules: `Common` holds the shared entities (`Task`, `Status`,
`Priority`, `Option`, `CallOutcome`), and `Text` holds the JavaScript string
behaviour the rules depend on. `Trim` removes exactly the ECMAScript
whitespace and line-terminator code points. `NatToString` renders whole numbers
below 10^21 as template literals do. `Utf16Length` counts `length` in UTF-16 code
units, so a code point above U+FFFF counts twice.

State that React keeps with `useState` is a Dafny `class`, and each handler
is a `method` with `modifies`. Every awaited remote call becomes an input
to its handler:
- `CallOutcome` is `Resolved` or `Threw`.
- `UpdateOutcome` is `Returned(error)` or `Threw`.
- `CallbackOutcome` is `Answered(result)`, carrying the callback's `type` and `error`, or `Rejected`.

A handler returns the argument it passed to the remote call, or `None` when
it made no call. The clock (`now`, in milliseconds), today's day number and
the URL fragment are parameters too. Calendar dates are consecutive integer
day numbers. The date-fns renderings ("MMM d", "yyyy-MM-dd") are opaque:
the badge takes its date text as a parameter, and the payload carries the
day number.

Each pure rule has a partner: a read-back parser for the duration text
(`ReadDuration`, which yields its count-and-unit terms), round-trip lemmas for the course select and for the edit
dialog, and characterisations by "if and only if" for the classifiers. The
handlers are proved against these functions.

## Model

| member | source | states |
|---|---|---|
| Text.IsWhitespace | src/components/TaskFormDialog.tsx:87 | the set `trim()` removes; among ASCII it is exactly the space and tab to carriage return, and every member lies in the Basic Multilingual Plane |
| Text.Trim | src/components/TaskFormDialog.tsx:87 | `trim()` yields "" exactly for an all-whitespace string; otherwise the result starts and ends with non-whitespace |
| Text.TrimIsSlice | src/components/TaskFormDialog.tsx:95 | `trim()` keeps one contiguous slice of its input and removes only whitespace on either side |
| Text.TrimIdempotent | src/components/TaskFormDialog.tsx:95 | trimming an already trimmed string changes nothing |
| Text.TrimStartSpec | src/components/CourseList.tsx:53 | removing leading whitespace keeps a suffix with no leading whitespace and cuts only whitespace |
| Text.TrimEndSpec | src/components/CourseList.tsx:53 | removing trailing whitespace keeps a prefix with no trailing whitespace and cuts only whitespace |
| Text.NatToString | src/components/TaskCard.tsx:86 | a whole number renders as at least one decimal digit with no leading zero |
| Text.DigitsValueOfNatToString | src/components/TaskCard.tsx:86 | the rendered decimal text reads back as the same number |
| Text.Utf16Length | src/pages/ResetPasswordPage.tsx:71 | `length` counts between one and two code units per code point |
| TaskCard.NextStatus | src/components/TaskCard.tsx:131-138 | the button moves a status one step round the cycle todo, doing, done |
| TaskCard.NextStatusCycle | src/components/TaskCard.tsx:131-138 | three presses bring back the starting status, and one or two presses always change it |
| TaskCard.NextStatusInjective | src/components/TaskCard.tsx:131-138 | different statuses never lead to the same next status |
| TaskCard.ElapsedSeconds | src/components/TaskCard.tsx:59-77 | during a running session the value is `timeSpent` (0 if absent) plus the floor of the elapsed milliseconds over 1000; otherwise it is `timeSpent` or 0 |
| TaskCard.ElapsedSecondsMonotone | src/components/TaskCard.tsx:64-68 | as `now` advances, the shown value never decreases |
| TaskCard.ElapsedSecondsFrozen | src/components/TaskCard.tsx:73-77 | without a running session (not doing, or doing without `startedAt`) the clock has no effect and the value is `timeSpent` or 0 |
| TaskCard.TaskCardTimer.constructor | src/components/TaskCard.tsx:57 | `elapsedTime` starts at 0 |
| TaskCard.TaskCardTimer.Refresh | src/components/TaskCard.tsx:59-78 | the effect's three branches set `elapsedTime` to `ElapsedSeconds` for the task at `now` |
| TaskCard.TaskCardTimer.Badge | src/components/TaskCard.tsx:235-247 | the timer badge is present exactly when it is visible and shows `FormatElapsedTime(elapsedTime)`; that text reads back in canonical shape as `elapsedTime` (to the minute from one hour on) |
| TaskCard.TimerVisible | src/components/TaskCard.tsx:235-236 | never for todo, always for doing, and for done exactly when `timeSpent` is present and positive |
| TaskCard.TimerVisibleShowsStoredTime | src/components/TaskCard.tsx:235-236 | a todo task never shows the timer; a done task that shows it shows its positive stored time |
| TaskCard.Decompose | src/components/TaskCard.tsx:81-83 | hours*3600 + mins*60 + secs equals the seconds, with mins < 60 and secs < 60 |
| TaskCard.FormatElapsedTime | src/components/TaskCard.tsx:80-91 | the text ends in "m" from one hour on and in "s" below it |
| TaskCard.FormatElapsedTimeReadsBack | src/components/TaskCard.tsx:80-90 | the text reads back as the terms "{h}h {m}m" when there are hours, "{m}m {s}s" when there are minutes, and "{s}s" otherwise, with the counts of `Decompose` |
| TaskCard.FormatElapsedTimeCanonical | src/components/TaskCard.tsx:80-90 | the text has canonical shape (units decreasing, minute and second counts below 60, a zero lead only in a lone seconds term), ends in minutes from one hour on and in seconds below, and stands for the exact seconds below an hour and for the seconds rounded down to the minute from one hour on |
| TaskCard.ScanDigits | src/components/TaskCard.tsx:86 | the duration reader accumulates a run of digits without a padding zero into its decimal value |
| TaskCard.ScanOnlyFrom | src/components/TaskCard.tsx:85-90 | a text the reader accepts is exactly its terms written as "{count}{unit}" joined by single spaces, counts without leading zeros |
| TaskCard.ReadDurationOnlyFrom | src/components/TaskCard.tsx:85-90 | every accepted duration text is the writing of the terms it reads, so the reader is one-to-one |
| TaskCard.FormatElapsedTimeTextUnique | src/components/TaskCard.tsx:85-90 | any text that reads back as the shown one is that very text, so the terms fix the shown string ("1m 5s", not "01m 05s") |
| TaskCard.ZeroPaddedIsRejected | src/components/TaskCard.tsx:88 | "01m 05s" is not a duration text: template literals never pad counts |
| TaskCard.SixtyFiveSecondsExample | src/components/TaskCard.tsx:60-90 | a session 65 s old with no stored time shows 65 seconds, rendered "1m 5s" |
| TaskCard.GetDueDateInfo | src/components/TaskCard.tsx:93-117 | no due date gives no badge; overdue holds iff the day is before today and the task is not done; precedence is Overdue, Today, Tomorrow, then the plain date |
| TaskCard.LabelText | src/components/TaskCard.tsx:102-114 | Overdue reads "Overdue", due today reads "Today", due tomorrow reads "Tomorrow", and any other day reads as the date's rendering |
| TaskCard.LabelTextDistinct | src/components/TaskCard.tsx:105-114 | the three fixed words tell their kinds apart |
| TaskCard.DoneIsNeverOverdue | src/components/TaskCard.tsx:97-98 | a done task is never overdue, and a done task with a past due day shows its plain date |
| TaskCard.YesterdayExample | src/components/TaskCard.tsx:102-116 | a todo task due yesterday is Overdue and reads "Overdue"; the same task when done shows its date text and is not overdue |
| TaskForm.InitialFields | src/components/TaskFormDialog.tsx:63-79 | a new task gets an empty form with the user's default status and priority; an edited task's title, status, priority and due day are copied, and its description and course become "" exactly when absent or empty, else their value |
| TaskForm.TitleError | src/components/TaskFormDialog.tsx:87-90 | the error "Title is required" occurs exactly when the title is blank |
| TaskForm.Payload | src/components/TaskFormDialog.tsx:94-101 | the title is trimmed; a blank description is absent and any other is trimmed; an empty course id is absent and any other is passed unchanged; status, priority and due day are copied |
| TaskForm.PayloadIsNormalised | src/components/TaskFormDialog.tsx:94-101 | after the title check passes, the payload's title and description are trimmed and non-empty, and its course id is non-empty |
| TaskForm.EditUnchangedSubmitsTask | src/components/TaskFormDialog.tsx:63-101 | opening a normalised task for edit and saving it unchanged passes the title check and submits exactly that task's fields |
| TaskForm.SaveThenEditRoundTrip | src/components/TaskFormDialog.tsx:63-101 | reopening a task stored from a payload and saving it again submits the same payload |
| TaskForm.CreateFormStartsBlank | src/components/TaskFormDialog.tsx:72-79 | an untouched create form takes the default status and priority, has no description, course or due day, and fails the title check |
| TaskForm.SelectValueOf | src/components/TaskFormDialog.tsx:207 | the select never shows "", shows a real course id as itself, and shows the "No course" entry exactly for "" (or the sentinel itself) |
| TaskForm.CourseIdOfSelect | src/components/TaskFormDialog.tsx:208-209 | a choice never yields the sentinel, any other value passes through, and "" results exactly from "No course" (or "") |
| TaskForm.CourseSelectRoundTrip | src/components/TaskFormDialog.tsx:207-209 | the `""`/`"__none__"` mapping round-trips for every course id except the sentinel and every select value except `""`; a real course id passes through unchanged |
| TaskForm.TaskFormDialog.constructor | src/components/TaskFormDialog.tsx:52-59 | initial state: empty title, description and course, todo, medium, no due date, no error, not submitting |
| TaskForm.TaskFormDialog.ResetOnOpen | src/components/TaskFormDialog.tsx:63-82 | when open, the fields become the task's (missing description or course as "") or a blank form with the defaults, and errors are cleared; when closed, nothing changes |
| TaskForm.TaskFormDialog.SetOpen | src/components/TaskFormDialog.tsx:102 | `onOpenChange` sets whether the dialog is open |
| TaskForm.TaskFormDialog.EditTitle | src/components/TaskFormDialog.tsx:135-138 | typing sets the title and clears a shown error; other fields are unchanged |
| TaskForm.TaskFormDialog.SelectCourse | src/components/TaskFormDialog.tsx:207-209 | choosing "No course" sets the course to "" and any other entry sets it to that id; afterwards the select shows the entry chosen |
| TaskForm.TaskFormDialog.HandleSubmit | src/components/TaskFormDialog.tsx:84-107 | a blank title sets the error and makes no call; otherwise `Payload` of the fields is submitted, the dialog closes only if the call resolves, fields are kept either way and `isSubmitting` ends false |
| TaskForm.BlankTitleIsRejected | src/components/TaskFormDialog.tsx:87-90 | creating a task titled with spaces makes no call and leaves the dialog open |
| TaskForm.RetryAfterFailedSave | src/components/TaskFormDialog.tsx:92-106 | a save that throws leaves the dialog open with its input intact, so the same save can be retried, and it closes when that retry succeeds |
| CourseList.TaskCount | src/components/CourseList.tsx:151 | a course missing from `taskCountByCourse` shows 0; otherwise its entry is shown |
| CourseList.AllCoursesHighlighted | src/components/CourseList.tsx:125 | "All Courses" is highlighted exactly when the filter is absent or "" |
| CourseList.CourseHighlighted | src/components/CourseList.tsx:140 | a course is highlighted exactly when the filter holds its id, and then "All Courses" is not (for a non-empty id) |
| CourseList.OneEntryHighlighted | src/components/CourseList.tsx:125-141 | "All Courses" is highlighted iff no non-empty id is selected; in that case no course is highlighted, and two highlighted courses share an id |
| CourseList.FilterAfterDelete | src/components/CourseList.tsx:80-82 | the filter is cleared iff it pointed at the deleted course; any other filter is kept; it never points at the deleted course |
| CourseList.CourseListState.constructor | src/components/CourseList.tsx:45-50 | all dialogs closed, no course chosen, empty name, under the parent's filter |
| CourseList.CourseListState.SelectCourse | src/components/CourseList.tsx:143 | `onSelectCourse` sets the filter |
| CourseList.CourseListState.OpenCreateDialog | src/components/CourseList.tsx:110-113 | the Add button clears the name and opens the create dialog |
| CourseList.CourseListState.EditName | src/components/CourseList.tsx:191 | typing sets the name |
| CourseList.CourseListState.OpenEditDialog | src/components/CourseList.tsx:89-93 | the chosen course becomes `selectedCourse`, the name becomes its name and the edit dialog opens |
| CourseList.CourseListState.OpenDeleteDialog | src/components/CourseList.tsx:95-98 | the chosen course becomes `selectedCourse` and the delete dialog opens; the name is untouched |
| CourseList.CourseListState.HandleCreate | src/components/CourseList.tsx:52-62 | a blank name makes no call and changes nothing; otherwise the trimmed name is passed, success clears the name and closes the dialog, a throw leaves both; `isSubmitting` ends false |
| CourseList.CourseListState.HandleEdit | src/components/CourseList.tsx:64-73 | with no chosen course or a blank name it makes no call; otherwise it passes the course's id and the trimmed name, and the dialog closes only on success |
| CourseList.CourseListState.HandleDelete | src/components/CourseList.tsx:75-87 | with a chosen course it passes its id; on success the filter becomes `FilterAfterDelete` and the handler closes the dialog; on a throw the handler changes neither |
| CourseList.CourseListState.ConfirmDelete | src/components/CourseList.tsx:275-284 | the confirm button runs `handleDelete` and, being the dialog's action button, closes the dialog itself: the dialog ends closed either way, and the filter is as `HandleDelete` leaves it |
| CourseList.DeleteFilteredCourse | src/components/CourseList.tsx:75-87 | deleting the course used as the filter clears the filter |
| CourseList.FailedDeleteClosesDialog | src/components/CourseList.tsx:75-87 | a confirmed delete that throws still closes the dialog and keeps the filter |
| CourseList.BlankNameIsRejected | src/components/CourseList.tsx:53 | creating a course named with spaces makes no call and keeps the dialog open |
| ResetPassword.IndexFrom | src/pages/ResetPasswordPage.tsx:51 | the first index at or after `from` where the part occurs, or -1 when there is none |
| ResetPassword.Includes | src/pages/ResetPasswordPage.tsx:51 | `includes` holds iff the part occurs at some index |
| ResetPassword.ValidatePasswords | src/pages/ResetPasswordPage.tsx:64-74 | a mismatch gives "Passwords do not match" whatever the length; matching passwords under 6 UTF-16 units give the length message; otherwise there is no error |
| ResetPassword.CheckLink | src/pages/ResetPasswordPage.tsx:45-56 | a "recovery" callback is valid; otherwise a non-empty error makes the link invalid with that message; otherwise the link is valid iff the fragment contains "access_token" |
| ResetPassword.SelectView | src/pages/ResetPasswordPage.tsx:96-179 | verifying iff the link is undecided, link-expired iff invalid, password-changed iff valid and successful, the form iff valid and not yet successful |
| ResetPassword.ResetPasswordPage.constructor | src/pages/ResetPasswordPage.tsx:25-32 | empty entries and error, no success, link undecided |
| ResetPassword.ResetPasswordPage.EditPassword | src/pages/ResetPasswordPage.tsx:210 | typing sets the password |
| ResetPassword.ResetPasswordPage.EditConfirmPassword | src/pages/ResetPasswordPage.tsx:243 | typing sets the confirmation |
| ResetPassword.ResetPasswordPage.CheckRecoverySession | src/pages/ResetPasswordPage.tsx:41-59 | on an answer, `isValidToken` becomes `CheckLink`'s verdict and the error becomes its message when there is one (it is kept otherwise); on a rejection nothing changes |
| ResetPassword.ResetPasswordPage.HandleSubmit | src/pages/ResetPasswordPage.tsx:62-94 | the error is cleared first; a validation failure shows its message with no call; otherwise the password is passed once, a returned error shows it, a clean result sets `success`, a throw shows the generic message; `isLoading` ends false |
| ResetPassword.RejectedCallbackStaysVerifying | src/pages/ResetPasswordPage.tsx:41-104 | a rejected callback leaves a fresh page on the verifying view with no error |
| ResetPassword.ResetFlow | src/pages/ResetPasswordPage.tsx:62-179 | a recovery link goes from verifying to the form; a mismatch stays on the form with its message; a valid password the service accepts shows the confirmation |

## Left out

- Rendering: JSX, CSS class strings (including the badges' colour classes), icons, and dialog, popover and select chrome. These are presentation only.
- The dialogs' cancel buttons and overlay close (`setIsCreateOpen(false)` and the like) are not modelled. Only each handler's own closing is, plus the delete dialog's confirm button (`ConfirmDelete`), which closes that dialog even when the delete throws.
- src/pages/Index.tsx (a landing page whose only logic is a redirect) and src/components/DeleteTaskDialog.tsx (a wrapper that forwards `onConfirm`) are not part of this model.
- date-fns and JavaScript `Date`: parsing, time zones, `isPast`, `isToday`, `isTomorrow` and `format`. Days are consecutive integers ("before today" stands for `isPast && !isToday`), and the rendered date strings are opaque inputs.
- TaskForm.EditUnchangedSubmitsTask, TaskForm.SaveThenEditRoundTrip and TaskCard.GetDueDateInfo hold for day numbers only. The source reads a stored "yyyy-MM-dd" with `new Date(…)`, which means midnight UTC, and then formats and compares it in local time. West of UTC an unchanged edit therefore submits the previous day, and a task due today can be flagged Overdue. The model does not capture this shift.
- Counts are unbounded integers, where the source uses JavaScript doubles. `Math.floor`, `/` and `%` on `timeSpent` and the clock are exact only below 2^53, and a template literal writes numbers from 10^21 on in exponent form ("1e+21"). The model keeps every count exact and decimal.
- TaskCard.ElapsedSeconds: requires the clock not to be behind a running session's `startedAt`. The source does not guard against a clock that goes backwards, and a negative session would show a negative value.
- Timers: the one-second `setInterval`, its cleanup, and the 3-second `setTimeout` redirect after a password change. Each refresh is a call of `TaskCardTimer.Refresh` with a later `now`.
- The data service, authentication, the `useSettings` and `useAuth` hooks, and routing. Each remote call's outcome is an input to its handler.
- Changes to `timeSpent` and `startedAt` on a status change belong to a persistence layer that is not part of this model. The card only reports the status it asks for.
- Async interleaving: each handler runs from start to end with its awaited outcome given. A second submission while one is in flight (the Enter key does not check `isSubmitting`) is not modelled.
- CourseList.CourseListState.HandleCreate, HandleEdit and HandleDelete: a call that throws is re-thrown after the `finally` block. The model returns normally and reports the argument that was passed.
- ResetPassword.ResetPasswordPage.CheckRecoverySession: a rejected callback is an unhandled promise rejection in the source. The model records its effect on the page (nothing is set, so the page stays on the verifying view) but not how the browser reports it.
- TaskForm.TaskFormDialog: `errors` is modelled as an optional title message, the only key the source sets.
- The eye buttons that show or hide password text are not modelled.
- The browser's own `required` and `minLength` checks on the password inputs are not modelled. The model covers the checks in `handleSubmit`, which run whatever the browser allows through.
