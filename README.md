# AI task dashboard — a verified model of its core

The application is a client-only task manager written in React. The model
covers the parts of it that compute rather than draw:

- **The task store and view router** (`App.tsx`). The list of tasks has its
  updaters: prepend on add, replace by id, toggle completion, delete by id,
  and a confirmed reset to the two example tasks. Next to it sit the screen
  tag `view`, the selected task id and the selected date, with every
  transition the screens wire up.
- **The derived views**.
  - The dashboard's tasks of the day and its timeline, sorted by time.
  - The list of the remaining tasks and the two counters.
  - The five-day quick-pick strip.
  - The calendar's month grid, month switching and cell markers.
  - The profile's completion percentage.
- **The task composer** (`components/CreateTask.tsx`). It has AI mode and
  manual mode. A parsed sentence is applied to the form fields, and the save
  button builds a task out of them.

Modules, one per file:

| file | module | what |
|---|---|---|
| `types.dfy` | `Types` | `Task`, `Priority`, `Category`, `ViewType`, `AIResponse`, JavaScript truthiness of optional strings |
| `text.dfy` | `Text` | the code-unit order that stands in for `localeCompare`, `String.prototype.trim`, zero-padded decimals |
| `lists.dfy` | `Lists` | `Array.prototype.filter` and its laws |
| `task_store.dfy` | `TaskStore` | the example tasks, loading, the four list updaters, `find` by id, uniqueness of ids |
| `app.dfy` | `AppState` | the router as a function, and class `App` holding the component state, with one method per handler |
| `gregorian.dfy` | `Gregorian` | what JavaScript's `Date` computes for years from 100 on, as exact integer calendar arithmetic: normalising `new Date(y, m, d)`, `getDay`, `setDate`, and the date part of `toISOString` |
| `dashboard.dfy` | `Dashboard` | day tasks, timeline (insertion sort), remaining list, counters, `getDatesRange` |
| `calendar_view.dfy` | `CalendarView` | `getDaysInMonth` as two loops, markers and selection, class `Calendar` with `changeMonth` |
| `profile.dfy` | `Profile` | completed and total counts, the rounded completion percentage |
| `create_task.dfy` | `Composer` | class `CreateTask` with the component's nine state fields, AI submit, the mode buttons, the field setters and save |

The model's inputs stand in for things outside the program:

- "Today" is a parameter: a `Date` for the quick-pick strip, a date string for the store.
- The id `Date.now()` would give is a `freshId` parameter.
- The parser's answer is an `Option<AIResponse>`.
- The user's answer to `confirm` is a boolean `confirmed`.

Three behaviours of the code that a reader might not expect, kept as written:

- An unresolved detail selection renders no screen at all; it does not
  fall back to the dashboard (`ScreenFor` returns `None`).
- A parser answer is applied whenever it arrives. There is no check that
  it still belongs to the current request.
- Nothing validates the parser's enumerations.

## Model

| member | source | states |
|---|---|---|
| `TaskStore.InitialTasks` | App.tsx:14-36 | exactly two tasks, ids "1" and "2", both dated today, not completed, with non-empty titles; only "1" is scheduled, at "09:00" |
| `TaskStore.Load` | App.tsx:40-43 | the saved list when one is stored, the example tasks otherwise |
| `TaskStore.AddTask` | App.tsx:51-52 | one longer; the new task first; every old entry one place further, unchanged |
| `TaskStore.AddTaskUnique` | App.tsx:51-52 | on a list with unique ids, adding keeps the ids unique exactly when the new id is not already stored |
| `TaskStore.UpdateTask` | App.tsx:56-57 | same length; each entry is the updated task when its id matches and unchanged otherwise |
| `TaskStore.UpdateTaskKeepsIds` | App.tsx:56-57 | every position keeps its id, so unique ids stay unique |
| `TaskStore.UpdateUnknownId` | App.tsx:56-57 | an update whose id is not stored leaves the list unchanged |
| `TaskStore.UpdateThenFind` | App.tsx:56-59 | after updating a stored task, the `find` of `selectedTask` returns the new version |
| `TaskStore.ToggleTask` | App.tsx:61-63 | same length; entries with the id are flipped, all others unchanged |
| `TaskStore.FlippedOnlyCompletion` | App.tsx:62 | flipping negates `completed`, changes no other field, and is its own inverse |
| `TaskStore.ToggleTaskKeepsIds` | App.tsx:61-63 | ids stay at their positions; uniqueness is kept; the toggled id is stored afterwards exactly when it was before |
| `TaskStore.ToggleTwice` | App.tsx:61-63 | toggling the same id twice gives back the original list |
| `TaskStore.DeleteTask` | App.tsx:65-66 | a task is in the result exactly when it was in the list with a different id; the id is gone |
| `TaskStore.DeleteTaskOrder` | App.tsx:65-66 | deleting from a concatenation deletes from each part, so the survivors keep their order |
| `TaskStore.DeleteUnknownId` | App.tsx:65-66 | deleting an id that is not stored changes nothing |
| `TaskStore.DeleteTaskUnique` | App.tsx:65-66 | with unique ids, deleting keeps them unique and removes one entry when the id is stored, none otherwise |
| `TaskStore.FindTask` | App.tsx:77 | a task is found exactly when there is a selection and a task with that id; what is found is in the list and has that id (that it is the first such entry is `FindTaskFirst`) |
| `TaskStore.FindTaskFirst` | App.tsx:77 | `find` returns the first entry carrying the id, whatever later entries share it |
| `AppState.ScreenFor` | App.tsx:87-134 | DASHBOARD, CALENDAR and PROFILE render their screens; CREATE renders the composer without a task and EDIT the composer with the `find` result; DETAIL renders the found task, and nothing at all exactly when the selection does not resolve; a shown task is stored and carries the selected id |
| `AppState.ResolvedShowsScreen` | App.tsx:100-116 | when the selection resolves, some screen is shown, and the editor receives the `find` result |
| `AppState.ToggleKeepsResolution` | App.tsx:108-116 | toggling a task never makes the detail or editor selection unresolved |
| `AppState.App.constructor` | App.tsx:39-45 | starts on the dashboard, nothing selected, today's date, the loaded list |
| `AppState.App.AddTask` | App.tsx:51-54 | the list becomes `AddTask` of the old one and the dashboard is shown; selection and date unchanged |
| `AppState.App.UpdateTask` | App.tsx:56-59 | the list becomes `UpdateTask` of the old one and the dashboard is shown; selection and date unchanged |
| `AppState.App.ToggleTask` | App.tsx:61-63 | the list becomes `ToggleTask` of the old one; view, selection and date unchanged |
| `AppState.App.DeleteTask` | App.tsx:65-68 | when confirmed (the prompt of components/TaskDetail.tsx:24), the list loses the id and the dashboard is shown; when declined, nothing changes |
| `AppState.App.ResetData` | App.tsx:70-75 | when confirmed, the list is the example tasks and the dashboard is shown; when declined, nothing changes |
| `AppState.App.OpenCreate` | App.tsx:90 | from the dashboard, the composer opens for a new task; nothing else changes |
| `AppState.App.SelectTask` | App.tsx:92 | from the dashboard, the id is selected and the detail screen shows that task |
| `AppState.App.ViewCalendar` | App.tsx:93 | from the dashboard, the calendar is shown; nothing else changes |
| `AppState.App.OpenProfile` | App.tsx:94 | from the dashboard, the profile is shown; nothing else changes |
| `AppState.App.SetDate` | App.tsx:96 | the strip or a calendar cell sets the shared date and nothing else |
| `AppState.App.Back` | App.tsx:111 | detail, calendar and profile go back to the dashboard; nothing else changes |
| `AppState.App.Edit` | App.tsx:114 | from the detail screen, the editor opens on the selected task |
| `AppState.App.ComposerBack` | App.tsx:102 | the editor returns to the detail screen; the composer for a new task returns to the dashboard |
| `AppState.App.ComposerSave` | App.tsx:103 | saving dispatches to `updateTask` when editing and to `addTask` when creating, and shows the dashboard |
| `Lists.Filter` | components/Dashboard.tsx:19 | no longer than the input; every kept element satisfies the predicate and comes from the input |
| `Lists.FilterCounts` | components/Dashboard.tsx:19 | each value is kept as often as it occurs when it satisfies the predicate, never otherwise |
| `Lists.FilterConcat` | components/Dashboard.tsx:19 | filtering commutes with concatenation, so order is preserved |
| `Lists.FilterMember` | components/Dashboard.tsx:19 | a value is kept exactly when it occurs and satisfies the predicate |
| `Lists.FilterPartition` | components/Dashboard.tsx:20-21 | a predicate and its negation split the input, counted with multiplicity and by length |
| `Lists.FilterAll` | components/Profile.tsx:12 | when every element satisfies the predicate, the filter is the identity |
| `Lists.FilterNone` | components/Profile.tsx:12 | when no element satisfies the predicate, the filter is empty |
| `Dashboard.DayTasks` | components/Dashboard.tsx:19 | the day list is no longer than the list, and every entry has the selected date |
| `Dashboard.DayTasksCounts` | components/Dashboard.tsx:19 | every task of that date is in the day list as often as in the list, and no other task is |
| `Dashboard.DayTasksOrder` | components/Dashboard.tsx:19 | the day list keeps the list's order |
| `Dashboard.Insert` | components/Dashboard.tsx:20 | inserting into a sorted timeline gives a sorted timeline with that one task added |
| `Dashboard.TimeKey` | components/Dashboard.tsx:20 | the sort key `a.time \|\| ''`: the task's time when it is non-empty, the empty string otherwise |
| `Dashboard.SortByTime` | components/Dashboard.tsx:20 | the sort's result is ordered by time key and is a permutation of its input |
| `Dashboard.ScheduledTasks` | components/Dashboard.tsx:20 | the timeline: the day's scheduled, uncompleted tasks sorted by time; its properties are `ScheduledSorted`, `ScheduledIsPermutation`, `SortStable` and `TimelinePartition` |
| `Dashboard.OtherTasks` | components/Dashboard.tsx:21 | the day's unscheduled or completed tasks; with the timeline it splits the day, by `TimelinePartition` |
| `Dashboard.ScheduledSorted` | components/Dashboard.tsx:20 | the timeline is ordered by time, a missing time counting as "" |
| `Dashboard.ScheduledIsPermutation` | components/Dashboard.tsx:20 | the timeline holds each scheduled, uncompleted task of the day as often as the day does, and nothing else |
| `Dashboard.SortStable` | components/Dashboard.tsx:20 | tasks with equal times keep their relative order, as the stable `Array.prototype.sort` keeps them |
| `Dashboard.TimelinePartition` | components/Dashboard.tsx:20-21 | timeline and remaining list together are the day list, and a day task is in exactly one of them |
| `Dashboard.CompletedCount` | components/Dashboard.tsx:86 | the number of completed tasks of the day; with `PendingCount` it adds up to the day's total, by `CountsAddUp` |
| `Dashboard.PendingCount` | components/Dashboard.tsx:94 | the number of open tasks of the day; see `CountsAddUp` |
| `Dashboard.CountsAddUp` | components/Dashboard.tsx:86-94 | completed plus pending equals the number of tasks of the day |
| `Dashboard.Strip` | components/Dashboard.tsx:26-34 | the loop from -2 to 2 pushes five chips, the k-th for offset k - 2 |
| `Dashboard.DatesRange` | components/Dashboard.tsx:23-36 | five chips, the k-th for the day k - 2 days from the real today (the middle one is today), whatever date is selected |
| `Dashboard.Chip` | components/Dashboard.tsx:29-33 | the chip of a day: its short weekday name, its day of the month and its date string; `ChipShowsItsDate` ties the number to the string |
| `Dashboard.ChipShowsItsDate` | components/Dashboard.tsx:31-32 | the number on a chip is the day that the last two digits of its date string spell |
| `Dashboard.ChipAt` | components/Dashboard.tsx:27-33 | the chip `offset` days from today; offset 0 is today's own chip |
| `Dashboard.ChipAtNext` | components/Dashboard.tsx:26-33 | the chip one offset further is the chip of the next day, so the strip's chips are consecutive days |
| `Dashboard.ChipWeekdayNext` | components/Dashboard.tsx:30 | the chip of the next day carries the following weekday name |
| `Dashboard.ChipsDistinct` | components/Dashboard.tsx:32 | chips for different offsets carry different date strings, so the `full` keys of components/Dashboard.tsx:66 are distinct |
| `Dashboard.ChipIsActive` | components/Dashboard.tsx:63 | a chip is highlighted when its date string is the selected date; `StripHighlight` states what that gives |
| `Dashboard.StripHighlight` | components/Dashboard.tsx:62-63 | at most one chip of the strip is highlighted |
| `Gregorian.DaysInMonth` | components/CalendarView.tsx:29 | a month has 28 to 31 days, and 29 exactly in February of a leap year |
| `Gregorian.Weekday` | components/CalendarView.tsx:20 | `getDay` lies in 0..6 (which weekday each date is, is pinned by `WeekdayAnchors` and `AddDaysWeekday`) |
| `Gregorian.WeekdayAnchors` | components/CalendarView.tsx:20 | 1 January 1970 is a Thursday (4) and 1 January 2000 a Saturday (6) |
| `Gregorian.YearLength` | components/CalendarView.tsx:29 | a year has 366 days exactly when it is a leap year |
| `Gregorian.NextDay` | components/Dashboard.tsx:28 | the day after a valid date is valid and one day later |
| `Gregorian.PrevDay` | components/Dashboard.tsx:28 | the day before a valid date is valid and one day earlier |
| `Gregorian.AddDays` | components/Dashboard.tsx:27-28 | `setDate(getDate() + k)` lands on a valid date exactly k days away |
| `Gregorian.AddDaysNext` | components/Dashboard.tsx:27-28 | one day more than k days away is the day after the date k days away |
| `Gregorian.AddDaysWeekday` | components/Dashboard.tsx:30 | the weekday advances by k modulo 7 |
| `Gregorian.DayNumberInjective` | components/CalendarView.tsx:31 | distinct valid dates are distinct days |
| `Gregorian.FirstOfMonth` | components/CalendarView.tsx:45 | `new Date(y, m, 1)` with any month index gives a valid first of a month, with the months counted past 11 or below 0 carried into the year |
| `Gregorian.MakeDate` | components/CalendarView.tsx:31 | `new Date(y, m, d)` with any day is a valid date |
| `Gregorian.MakeDateInMonth` | components/CalendarView.tsx:31 | with a day inside the month, `new Date(y, m, d)` is that very date |
| `Gregorian.LastDayOfMonth` | components/CalendarView.tsx:29 | day 0 of the next month is the last day of this one |
| `Gregorian.LastDayOfPreviousMonth` | components/CalendarView.tsx:24 | day 0 of this month is the last day of the previous one, in the previous year for January |
| `Gregorian.IsoDate` | components/CalendarView.tsx:35 | the date string has at least ten characters, a dash third from the end; its fields read back by `IsoDateFields`, and different dates get different strings by `IsoDateInjective` |
| `Gregorian.IsoDateFields` | components/CalendarView.tsx:35 | the string is the year text and six more characters; the last two read back as the day, the two before the last dash as the one-based month, and for years 0..9999 the string has ten characters whose first four read back as the year |
| `Gregorian.YearTextInjective` | components/CalendarView.tsx:35 | distinct years get distinct year texts, in the four-digit and in the signed six-digit forms |
| `Gregorian.IsoDateInjective` | App.tsx:12 | two valid dates with the same date string are the same date, so the strip's, the calendar's and today's strings compare as dates |
| `Gregorian.IsoDateDistinctDays` | components/CalendarView.tsx:35 | two days of one month never share a date string |
| `Gregorian.WeekdayShortName` | components/Dashboard.tsx:30 | the short weekday label has three characters |
| `Gregorian.WeekdayNames` | components/Dashboard.tsx:30 | no two weekdays share a label; 1 January 1970 is labelled "Thu" and 1 January 2000 "Sat" |
| `CalendarView.FirstWeekday` | components/CalendarView.tsx:20 | the number of padding cells lies in 0..6 |
| `CalendarView.PrevMonthLastDay` | components/CalendarView.tsx:24 | the last day of the previous month, where the padding stops; its value is stated by `GridCalendarFacts` |
| `CalendarView.LastDate` | components/CalendarView.tsx:29 | a month has at least one day |
| `CalendarView.FillGrid` | components/CalendarView.tsx:21-37 | the two `push` loops build the padding cells and then the cells of days 1..lastDate |
| `CalendarView.CellDate` | components/CalendarView.tsx:31-35 | the date string of `new Date(year, month, i)`; for a day inside the month it is that day's own string, by `GridCalendarFacts` |
| `CalendarView.Grid` | components/CalendarView.tsx:17-39 | the padding cells, then one cell per day; its shape is stated by `GridDays` and `GridDay` |
| `CalendarView.GridDays` | components/CalendarView.tsx:17-39 | a month's grid holds the weekday of the 1st many padding cells, none of them current, plus one cell per day of the month |
| `CalendarView.GridDay` | components/CalendarView.tsx:30-37 | the cell of day d comes right after the padding and d - 1 other days, is current, is numbered d and carries the d-th's date string |
| `CalendarView.MonthGrid` | components/CalendarView.tsx:17-39 | `getDaysInMonth` is the grid of its month |
| `CalendarView.PaddingShape` | components/CalendarView.tsx:25-27 | padding cell k is numbered prevMonthLastDay - firstDay + 1 + k, not current, without a date |
| `CalendarView.CellsShape` | components/CalendarView.tsx:30-37 | cell d - 1 of the day cells is day d, current, dated by its own day |
| `CalendarView.FilledShape` | components/CalendarView.tsx:17-39 | the grid has firstDay + lastDate cells: the ascending padding first, then days 1..lastDate in order |
| `CalendarView.GridCalendarFacts` | components/CalendarView.tsx:24-35 | lastDate is the month's length, the padding counts up to the previous month's last day, and cell d is dated the d-th of the month |
| `CalendarView.NextMonthStartsAfter` | components/CalendarView.tsx:20 | next month's grid starts on the weekday after this month's last day |
| `CalendarView.HasTasks` | components/CalendarView.tsx:77 | a cell has a non-empty date string and some task carries that date; `CurrentCellMarker` and `PaddingCellInert` state when it holds |
| `CalendarView.IsSelected` | components/CalendarView.tsx:76 | the cell's date string is the selected date; `AtMostOneSelected` and `PaddingCellInert` state what that gives |
| `CalendarView.ClickCell` | components/CalendarView.tsx:81-82 | the date a click selects: a day cell's own date string, the old selection for a disabled padding cell; see `CurrentCellMarker` and `PaddingCellInert` |
| `CalendarView.PaddingCellInert` | components/CalendarView.tsx:76-90 | a padding cell has no marker, is never selected, and clicking it changes nothing |
| `CalendarView.CurrentCellMarker` | components/CalendarView.tsx:77-90 | a day cell has a marker exactly when the list shown after clicking it is not empty, and clicking it selects it |
| `CalendarView.AtMostOneSelected` | components/CalendarView.tsx:76 | at most one day cell of a month is selected |
| `CalendarView.SelectedDayCount` | components/CalendarView.tsx:109 | the heading count is the length of the selected day's list, at most the number of tasks |
| `CalendarView.Calendar.constructor` | components/CalendarView.tsx:14 | the month on view starts at today |
| `CalendarView.Calendar.ChangeMonth` | components/CalendarView.tsx:44-46 | the month on view becomes the first of the month `offset` months away, a valid date, with the year carried |
| `CalendarView.ChangeMonthRoundTrip` | components/CalendarView.tsx:44-46 | moving `offset` months and back lands on the first of the starting month |
| `Profile.CompletedCount` | components/Profile.tsx:12-13 | the completed count never exceeds the total count |
| `Profile.TotalCount` | components/Profile.tsx:13 | the number of tasks is the completed ones plus the open ones |
| `Profile.Rate` | components/Profile.tsx:14 | the rounded percentage of `completed` in `total`, 0 for no tasks; its meaning is `RateIsNearestPercent` and `RateBounds` |
| `Profile.CompletionRate` | components/Profile.tsx:14 | the rate of the whole list; its bounds and extremes are `CompletionRateBounds` and `CompletionRateExtremes` |
| `Profile.RateIsNearestPercent` | components/Profile.tsx:14 | the rate is the whole percentage nearest to completed / total, a tie going up as `Math.round` does |
| `Profile.RateBounds` | components/Profile.tsx:14 | with completed at most total, the rate lies in 0..100 |
| `Profile.CompletionRateBounds` | components/Profile.tsx:14 | the completion rate lies in 0..100 and is 0 for an empty list |
| `Profile.CompletionRateExtremes` | components/Profile.tsx:14 | 100 when every task is completed (and there is one), 0 when none is |
| `Text.LexLeReflexive` | components/Dashboard.tsx:20 | the time order is reflexive |
| `Text.LexLeTotal` | components/Dashboard.tsx:20 | any two times are comparable |
| `Text.LexLeTransitive` | components/Dashboard.tsx:20 | the time order is transitive |
| `Text.LexLeAntisymmetric` | components/Dashboard.tsx:20 | times ordered both ways are equal |
| `Text.TrimStart` | components/CreateTask.tsx:27 | a suffix of the input; everything before it is white space; it does not start with white space |
| `Text.TrimEnd` | components/CreateTask.tsx:27 | a prefix of the input; everything after it is white space; it does not end with white space |
| `Text.Trim` | components/CreateTask.tsx:27 | both ends' white space removed; it is empty exactly when the input is all white space, by `TrimEmptyIffBlank` |
| `Text.TrimEmptyIffBlank` | components/CreateTask.tsx:27 | `trim()` is empty exactly when the input is all white space |
| `Text.ZeroPadRoundTrip` | components/CalendarView.tsx:35 | a zero-padded number reads back as that number |
| `Composer.InitialDraft` | components/CreateTask.tsx:17-22 | defaults "", "", "09:00", MEDIUM, PERSONAL and scheduled for a new task; otherwise the task's title, priority, category and `isScheduled`, its time and description when non-empty, and "09:00" and "" when they are missing or empty |
| `Composer.ApplyResult` | components/CreateTask.tsx:30-35 | a parsed result sets title, priority and category, sets description and time only when non-empty, and leaves scheduling alone |
| `Composer.BuildTask` | components/CreateTask.tsx:41-55 | no task exactly when the title is empty; the fields are carried over; there is a time exactly when the task is scheduled; an edit keeps completion, keeps a non-empty id and date and replaces an empty one by the fresh id and today; a new task gets the fresh id, today and not completed |
| `Composer.EditRoundTrip` | components/CreateTask.tsx:17-53 | opening a task the form can hold (non-empty title, id and date, a description, possibly empty, and a non-empty time exactly when scheduled) and saving it unchanged gives back the same task |
| `Composer.UnscheduledDropsTime` | components/CreateTask.tsx:47 | an unscheduled save drops the time, and scheduling again restores the form's time |
| `Composer.BlankTitleSaves` | components/CreateTask.tsx:42 | a title of white space only is saved, although it trims to nothing |
| `Composer.ParsedNewTask` | components/CreateTask.tsx:26-55 | a new task composed from a parsed sentence carries the parsed fields, the defaults where the parse gave none, and the identity of a fresh task |
| `Composer.ApplyResultIdempotent` | components/CreateTask.tsx:30-35 | applying the same parse twice is applying it once |
| `Composer.CreateTask.constructor` | components/CreateTask.tsx:13-22 | empty sentence, not loading, AI mode exactly for a new task, fields from `InitialDraft` |
| `Composer.CreateTask.SetAiInput` | components/CreateTask.tsx:94 | only the sentence changes |
| `Composer.CreateTask.SubmitSentence` | components/CreateTask.tsx:26-29 | called from the AI form's button, which is disabled while a parse is pending (components/CreateTask.tsx:99); a blank sentence does nothing at all; otherwise loading starts; the fields are untouched |
| `Composer.CreateTask.ReceiveParse` | components/CreateTask.tsx:30-38 | a result is applied as `ApplyResult` and manual mode begins; no result leaves fields and mode unchanged; loading ends either way |
| `Composer.CreateTask.BuildManually` | components/CreateTask.tsx:115 | leaves AI mode without changing any field |
| `Composer.CreateTask.ReopenAi` | components/CreateTask.tsx:207-209 | offered only for a new task; returns to AI mode without changing any field |
| `Composer.CreateTask.SetTitle` | components/CreateTask.tsx:129 | only the title changes |
| `Composer.CreateTask.SetDescription` | components/CreateTask.tsx:135 | only the description changes |
| `Composer.CreateTask.SetTime` | components/CreateTask.tsx:198 | only the time changes |
| `Composer.CreateTask.SetPriority` | components/CreateTask.tsx:148 | only the priority changes |
| `Composer.CreateTask.SetCategory` | components/CreateTask.tsx:161 | only the category changes |
| `Composer.CreateTask.ToggleScheduled` | components/CreateTask.tsx:180 | only the schedule switch flips; the time keeps its value |
| `Composer.CreateTask.Save` | components/CreateTask.tsx:41-55 | the task handed to `onSave` is `BuildTask` of the fields, and there is none exactly when the title is empty |

## Left out

- Persistence through `localStorage` and JSON (App.tsx:40-49) is input and output. Loading is modelled as "the saved list if there is one"; a blob that fails to parse throws in the code, and that path is not modelled.
- The network call to the language model (services/geminiService.ts) is not part of this model. Its answer is an `Option<AIResponse>` parameter.
- Enumerations: `Priority` and `Category` are closed datatypes here. The code casts the parsed JSON without checking them (services/geminiService.ts:42), so an out-of-range value reaching the form is not modelled.
- `Composer.CreateTask.SubmitSentence`, `Composer.CreateTask.ReceiveParse`: the `async` handler is split at its `await` into two methods. Interleavings with other handlers while the parse is pending are not modelled, and neither version discards a stale answer, just as the code does not.
- Time zones. `toISOString` writes the UTC date, while the dates it is applied to are local. The model formats the local date itself, which differs from the code in two ways:
  - The calendar's cells are built at local midnight, so in zones east of UTC every cell's date string is the day before.
  - "Today" (App.tsx:12, components/CreateTask.tsx:48) and each chip's `full` string (components/Dashboard.tsx:32) come from the current instant. In zones west of UTC they are a day ahead during the evening, and in zones east of UTC a day behind in the early morning. A chip's weekday label and day number (components/Dashboard.tsx:30-31) are local and do not shift. So at those hours a chip's number and its `full` string name different days. For example, at 20:00 on Sunday 18 October 2026 in UTC-5, the middle chip reads "Sun 18" but its `full` string is "2026-10-19".
- `Dashboard.ChipShowsItsDate`: holds only while the local date and the UTC date agree; at the hours above, the code's chip number and `full` string disagree.
- `toLocaleDateString` month and day names, except the short weekday names used by the strip, which are modelled as English abbreviations.
- `Gregorian.FirstOfMonth`, `Gregorian.MakeDate`, `Gregorian.MakeDateInMonth`: `new Date(y, m, d)` reads a year argument 0..99 as 1900 + y. The model keeps the year as given, so paging the calendar back before January of year 100 gives a different month than the browser shows.
- Years are formatted with four digits, or a sign and six digits. `toISOString` throws a `RangeError` for a date outside JavaScript's `Date` range (100,000,000 days either side of 1 January 1970); the model formats such dates anyway.
- `Text.LexLeTotal`: `localeCompare` is modelled as plain code-unit order. This agrees with it on "HH:mm" digit strings, not on arbitrary text.
- `Profile.RateIsNearestPercent`: `Math.round` on a floating-point quotient is replaced by exact integer rounding, and the two can differ by one. For 29 completed of 200, the product `(29 / 200) * 100` is 14.499999999999998 in floating point, so the code shows 14; the model's exact half-up rounding gives 15.
- `Date.now()` ids and `new Date()` are parameters (`freshId`, `today`). The model does not capture that two saves in the same millisecond can get the same id.
- The example tasks are dated once, when the application starts (`seed`); the source also computes that date once, when the module loads.
- `AppState.App.SelectTask`, `AppState.App.OpenCreate` and the other navigation methods require the view on which their button is shown. `SelectTask` also requires a stored id, since the dashboard only lists stored tasks. `Composer.CreateTask.SubmitSentence` likewise requires that no parse is pending, since its button is disabled while `loading` (components/CreateTask.tsx:99).
- Everything visual: JSX, styling, animation, the `useRef` time picker and `showPicker` (components/CreateTask.tsx:57-63).
- The detail screen (components/TaskDetail.tsx) is presentation apart from its delete confirmation, which is the `confirmed` argument of `AppState.App.DeleteTask`.
