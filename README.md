# Schedule tracker core in Dafny

This project models the logic of a small React schedule tracker: a calendar
month grid, an "All Events" list, a "Today's Schedule" panel, an event
create/edit form and a settings store that persists in browser storage. The
presentation layer is left out. What remains is stated as Dafny datatypes,
functions, classes and methods, and the behaviour each piece promises is proved.

Modules, one per source file (plus shared helpers):

- `Wrappers`: the `Option` type.
- `Text`: the JavaScript string primitives the app uses on its data.
  - `Number.prototype.toString` on integers and `padStart(2, '0')`.
  - `String.prototype.trim`, with ECMAScript's whitespace set.
  - `localeCompare` on the ASCII `HH:MM` time strings, modelled as code-unit order.
- `Dates`: the part of JavaScript `Date` the app relies on.
  - Proleptic Gregorian calendar days and day numbers from 1 January 1970.
  - `getDay()` and `getTime()`.
  - The normalisation `new Date(y, monthIndex, d)` and `setMonth` apply to an out-of-range month or day.
  - The constructor's reading of a year 0..99 as 1900..1999, which `setMonth` does not apply. The calendar grid therefore lays out the months of 1900..1999 while the shown date lies in years 0..99.
- `TimeUtils` (`src/lib/timeUtils.ts`): `formatTime`, `formatDate`, `getWeekDays` and `parseTimeToMinutes`.
- `Schedule` (`src/pages/Index.tsx`).
  - The `Event` record and the seed list.
  - `addEvent`, `deleteEvent`, `updateEvent`, and the `todayEvents` / `selectedDateEvents` day filters.
  - A `Board` class whose `events` field is an `array<Event>`. Each update replaces it with a fresh array, as `setEvents` installs a new one.
- `Sorting`: `Array.prototype.sort` with a comparator, an in-place insertion sort proved to leave the array ordered and to keep its elements.
- `EventList` (`src/components/EventList.tsx`).
  - The comparator: timestamp first, then time string.
  - The in-place sort of the array it is given, which is the page's own array.
  - The empty / non-empty branch, `getCategoryColor`, and the edit-dialog state.
- `TodaySchedule` (`src/components/TodaySchedule.tsx`): the in-place sort by time string, the empty branch and `getCategoryColor`.
- `Calendar` (`src/components/Calendar.tsx`).
  - `getDaysInMonth`, `getFirstDayOfMonth` and `getEventsForDate`.
  - The two loops of `renderCalendarDays` and the weekday header.
  - `navigateMonth` and `goToToday`.
- `EventForm` (`src/components/EventForm.tsx`): the initial field state and `handleSubmit`.
- `SettingsStore` (`src/contexts/SettingsContext.tsx`).
  - The defaults, the lenient decoding of the stored record and the overlay on the defaults.
  - `storeSettings`, `setSetting` and `resetSettings`.
  - The storage is a key-to-value map whose writes may fail.

Clock reads are parameters: the id `Date.now()` produces and the `new Date()` that
stands for "now" or "today". A failed storage write is a `writeOk` flag. All
dates are read in one fixed time zone.

## Model

| member | source | states |
|---|---|---|
| Text.NatToStringValue | src/lib/timeUtils.ts:17 | reading `n.toString()` back as a decimal numeral gives `n` |
| Text.IntToStringRoundTrip | src/lib/timeUtils.ts:35 | `getFullYear().toString()` can be read back as the year, negative years included |
| Text.Pad2Value | src/lib/timeUtils.ts:33-34 | below 100, `toString().padStart(2, '0')` is exactly two digits that denote the number |
| Text.LocaleCompareConsistent | src/components/TodaySchedule.tsx:11 | the comparison is zero exactly on equal strings, and swapping the arguments flips its sign |
| Text.Trim | src/components/EventForm.tsx:32 | `trim()` is empty exactly when the string is all whitespace; otherwise neither end of it is whitespace |
| Text.TrimIsSlice | src/components/EventForm.tsx:35 | the trimmed string is a slice of the input with only whitespace cut off on each side |
| Text.TrimIdempotent | src/components/EventForm.tsx:32-38 | trimming twice gives the same as trimming once |
| Text.TrimNoOp | src/components/EventForm.tsx:35 | a string with no whitespace at either end is its own trim |
| Dates.NextMonthStart | src/components/Calendar.tsx:22-24 | the first of the next month is exactly the month's Gregorian length after the first of this month, across a year end too |
| Dates.NormalizeDayNumber | src/components/Calendar.tsx:23 | out-of-range days borrow from earlier months or carry into later ones, landing `date - 1` days after the first of the month |
| Dates.MakeDateDayNumber | src/components/Calendar.tsx:39-41 | `setMonth(mi)` on a date of year `y` and day `d` lands `d - 1` days after the first of month `mi` counted from January of `y` itself, with `mi` carried into the year by floor division |
| Dates.NewDateDayNumber | src/components/Calendar.tsx:64 | `new Date(y, mi, d)` is `d - 1` days after the first of month `mi` counted from January of the constructor's year: 1900 + y for a year 0..99, y otherwise |
| Dates.WeekdayInMonth | src/components/Calendar.tsx:58-67 | consecutive days of a month fall on consecutive weekdays from the weekday of the first |
| Dates.WeekdayOfNextMonth | src/components/Calendar.tsx:26-28 | the next month's first falls the month's length in weekdays after this month's first |
| TimeUtils.FormatTime | src/lib/timeUtils.ts:8-10 | in 24-hour mode the time is returned unchanged, whatever it is |
| TimeUtils.Hour12 | src/lib/timeUtils.ts:14-21 | the hour shown in 12-hour mode is in 1..12 |
| TimeUtils.FormatTime12Shape | src/lib/timeUtils.ts:14-22 | every 12-hour branch gives the unpadded clock-face hour (12 for hours 0 and 12), a colon, a two-digit minute, then " AM" exactly before noon and " PM" otherwise |
| TimeUtils.Hour12Back | src/lib/timeUtils.ts:14-21 | the clock-face hour and the AM/PM half determine the 24-hour hour |
| TimeUtils.FormatTime12RoundTrip | src/lib/timeUtils.ts:12-22 | the 12-hour display of a well-formed `HH:MM` parses back to the same hour and minute, so no two times share a display |
| TimeUtils.FormatDate | src/lib/timeUtils.ts:37-47 | one of the patterns is produced exactly when the format is `MM/dd/yyyy`, `dd/MM/yyyy` or `yyyy-MM-dd`; any other format falls back to the locale |
| TimeUtils.FormatDateRoundTrip | src/lib/timeUtils.ts:32-43 | for each of the three patterns the formatted string parses back, with the same pattern, to the original year, month and day |
| TimeUtils.MonthFirstRoundTrip | src/lib/timeUtils.ts:38-39 | `MM/dd/yyyy` puts the two-digit month, then the two-digit day, then the year |
| TimeUtils.DayFirstRoundTrip | src/lib/timeUtils.ts:40-41 | `dd/MM/yyyy` puts the two-digit day, then the two-digit month, then the year |
| TimeUtils.YearFirstRoundTrip | src/lib/timeUtils.ts:42-43 | `yyyy-MM-dd` puts the unpadded year, then the two-digit month, then the two-digit day |
| TimeUtils.GetWeekDays | src/lib/timeUtils.ts:55-65 | seven labels, starting with "Sun" for a Sunday start and "Mon" for a Monday start |
| TimeUtils.GetWeekDaysSameLabels | src/lib/timeUtils.ts:58-61 | both orders hold the same seven labels |
| TimeUtils.GetWeekDaysRotation | src/lib/timeUtils.ts:55-65 | label `i` is `Sun..Sat[(i + start) % 7]`: the Monday list is the Sunday list rotated left by one and ends with "Sun" |
| TimeUtils.ParseTimeToMinutes | src/lib/timeUtils.ts:72-75 | for a well-formed `HH:MM` the result lies in 0..1439, its quotient by 60 is the hour and its remainder the minute |
| TimeUtils.ParseTimeToMinutesOrder | src/lib/timeUtils.ts:67-75 | on well-formed times, string order and minutes order agree in both directions, and equal minutes mean equal strings |
| Schedule.Merge | src/pages/Index.tsx:58 | `{ ...event, ...patch }`: each field the patch supplies, the id included, replaces the event's own; every other field is kept |
| Schedule.MergeIdempotent | src/pages/Index.tsx:56-60 | applying the same patch twice equals applying it once |
| Schedule.FilterCount | src/pages/Index.tsx:52-54 | a filter keeps every copy of each kept event and no copy of the others |
| Schedule.FilterMembers | src/pages/Index.tsx:62-68 | an event is in the filtered list exactly when it is in the list and passes the test |
| Schedule.FilterConcat | src/pages/Index.tsx:62-68 | filtering keeps the collection order: it distributes over concatenation |
| Schedule.FilterKeepsAll | src/pages/Index.tsx:52-54 | a filter that rejects nothing returns the list unchanged |
| Schedule.Delete | src/pages/Index.tsx:52-54 | after `deleteEvent(id)` no event has that id, and every other event keeps its number of copies |
| Schedule.DeleteUnknownId | src/pages/Index.tsx:52-54 | deleting an id no event has leaves the list unchanged |
| Schedule.DeletedNeverOnAnyDay | src/pages/Index.tsx:52-68 | after a delete, no day view shows an event with the deleted id |
| Schedule.Update | src/pages/Index.tsx:56-60 | `updateEvent` keeps the length; position `i` is the merged event when its id matches and untouched otherwise |
| Schedule.UpdateUnknownId | src/pages/Index.tsx:56-60 | updating an id no event has leaves the list unchanged |
| Schedule.UpdateFromDraftKeepsIds | src/pages/Index.tsx:56-60 | a patch built from a form submission never changes any event's id |
| Schedule.EventsOn | src/pages/Index.tsx:62-68 | the `toDateString()` filter of a day view; its meaning is stated by the four lemmas below |
| Schedule.EventsOnCount | src/pages/Index.tsx:62-68 | a day view holds every copy of each event on that calendar day and nothing else |
| Schedule.EventsOnMembers | src/pages/Index.tsx:62-68 | an event is in a day view exactly when it is in the list and on that calendar day |
| Schedule.EventsOnConcat | src/pages/Index.tsx:62-68 | day views keep the collection order |
| Schedule.EventsOnPermutation | src/components/EventList.tsx:23-27 | reordering the collection does not change which events a day view holds |
| Schedule.AppendUniqueIds | src/pages/Index.tsx:43-48 | the id is not checked: after an append the ids stay unique exactly when the new id is not already in use |
| Schedule.SeedEvents | src/pages/Index.tsx:21-38 | the two initial events, "Team Meeting" at 10:00 (work) and "Gym Session" at 18:00 (health), with ids "1" and "2", both dated "now" |
| Schedule.Board.constructor | src/pages/Index.tsx:21-41 | the page starts with the two seed events dated "now", the current day selected and the dialog closed |
| Schedule.Board.AddEvent | src/pages/Index.tsx:43-50 | the new list is the old list with the submitted event plus the given id appended; the dialog closes |
| Schedule.Board.DeleteEvent | src/pages/Index.tsx:52-54 | the new list is the old list without the events that have that id; nothing else changes |
| Schedule.Board.UpdateEvent | src/pages/Index.tsx:56-60 | the new list is the old list with the patch merged into every event that has that id; nothing else changes |
| Schedule.Board.TodayEvents | src/pages/Index.tsx:62-64 | a new array holding today's events in collection order |
| Schedule.Board.SelectedDateEvents | src/pages/Index.tsx:66-68 | a new array holding the selected day's events in collection order |
| Sorting.SortInPlace | src/components/EventList.tsx:23-27 | under a total comparator the array ends up with neighbours in order and the same elements as before |
| Sorting.AdjacentSortedIsSorted | src/components/EventList.tsx:23-27 | under a transitive comparator, neighbours in order means every pair is in order |
| EventList.Compare | src/components/EventList.tsx:23-27 | the `sort` comparator: difference of `getTime()`, then `localeCompare` of the time strings; its order is stated by the lemmas below |
| EventList.NotAfterIsKeyOrder | src/components/EventList.tsx:23-27 | the comparator is the order on the key (timestamp, time string): earlier instant first, then the smaller or equal time string |
| EventList.CompareAntisymmetric | src/components/EventList.tsx:24-26 | swapping the arguments flips the comparator's sign, and it is zero only for the same instant with the same time |
| EventList.NotAfterTotal | src/components/EventList.tsx:23-27 | any two events are ordered one way or the other |
| EventList.NotAfterTransitive | src/components/EventList.tsx:23-27 | the comparator's order is transitive |
| EventList.SortEvents | src/components/EventList.tsx:23-27 | `sortedEvents` is the caller's array, now ordered pairwise by the key and holding the same events |
| EventList.Render | src/components/EventList.tsx:23-69 | "No events yet" exactly when the array is empty, otherwise its entries in sorted order; the array is sorted either way |
| EventList.RenderForBoard | src/components/EventList.tsx:23 | rendering the list reorders the page's own array, yet every day view still holds the same events |
| EventList.CategoryColor | src/components/EventList.tsx:42-53 | the list's badge classes per category, `Other` taking the default branch; `CategoryColorInjective` proves them distinct |
| EventList.CategoryColorInjective | src/components/EventList.tsx:42-53 | the four categories get four different class strings |
| EventList.EventListView.constructor | src/components/EventList.tsx:20-21 | nothing is being edited and the dialog is closed |
| EventList.EventListView.HandleEditEvent | src/components/EventList.tsx:29-32 | the event is remembered and the dialog opens |
| EventList.EventListView.HandleUpdateEvent | src/components/EventList.tsx:34-40 | with an event being edited, the page's list is updated under that event's id and the state is cleared; otherwise nothing changes |
| TodaySchedule.TimeNotAfter | src/components/TodaySchedule.tsx:11 | the panel's comparator `a.time.localeCompare(b.time)` read as "not after"; total and transitive by the next two lemmas |
| TodaySchedule.TimeNotAfterTotal | src/components/TodaySchedule.tsx:11 | any two events are ordered by time string one way or the other |
| TodaySchedule.TimeNotAfterTransitive | src/components/TodaySchedule.tsx:11 | the time-string order is transitive |
| TodaySchedule.SortByTime | src/components/TodaySchedule.tsx:11 | `sortedEvents` is the caller's array, ordered pairwise by time string and holding the same events |
| TodaySchedule.SortedByClock | src/components/TodaySchedule.tsx:11 | a panel sorted by time string lists well-formed times in non-decreasing minutes since midnight |
| TodaySchedule.Render | src/components/TodaySchedule.tsx:26-38 | "No events scheduled" exactly when the array is empty, otherwise one entry per sorted event |
| TodaySchedule.ShowDay | src/pages/Index.tsx:62-68 | the panel for a day is empty exactly when no event is on that day; otherwise it holds that day's events sorted by time |
| TodaySchedule.CategoryColor | src/components/TodaySchedule.tsx:13-24 | the panel's border and badge classes per category, `Other` taking the default branch; `CategoryColorInjective` proves them distinct |
| TodaySchedule.CategoryColorInjective | src/components/TodaySchedule.tsx:13-24 | the four categories get four different class strings |
| Calendar.NewDateInMonth | src/components/Calendar.tsx:64 | inside the month, `new Date(year, month, k)` is day `k` of that month of the constructor's year (19yy for a year 0..99) |
| Calendar.DaysInMonth | src/components/Calendar.tsx:22-24 | day 0 of the next month is the last day of this one, so the result is the Gregorian length of the month in the constructor's year |
| Calendar.DaysInMonthRange | src/components/Calendar.tsx:22-24 | 28 to 31 days, and 29 exactly for February of a year that is leap once the constructor has read it |
| Calendar.DaysInFebruaryOfYearZero | src/components/Calendar.tsx:22-24 | year 0 is a leap year, yet its February gets the 28 days of February 1900 |
| Calendar.FirstDayOfMonth | src/components/Calendar.tsx:26-28 | the weekday, 0 (Sunday) to 6, of the first of the month in the constructor's year |
| Calendar.FirstDayOfNextMonth | src/components/Calendar.tsx:22-28 | next month's first weekday is this month's first weekday plus its length, modulo 7, everywhere except December of years -1 and 99, where the constructor's year jumps |
| Calendar.FirstDayOfNextMonthBreaksAtYear100 | src/components/Calendar.tsx:22-28 | at December 99 the grid starts on Wednesday (1 December 1999) with 31 days, and January 100 starts on Friday, not on Saturday (what this month's first weekday plus its length would give) |
| Calendar.EventsForDate | src/components/Calendar.tsx:30-34 | an event is listed for a cell exactly when it is on that calendar day |
| Calendar.DayCellAccounts | src/components/Calendar.tsx:83-104 | a cell shows the first `min(2, n)` of the day's `n` events, says "+(n - 2) more" exactly when `n > 2`, and so accounts for all `n` |
| Calendar.RenderCalendarDays | src/components/Calendar.tsx:52-110 | `firstDay` blanks, then at position `firstDay + k - 1` the cell of day `k` of the month in the constructor's year, for every day of that month; `firstDay + daysInMonth` cells in all |
| Calendar.LeadingBlanks | src/components/Calendar.tsx:57-60 | the first loop pushes blanks 0..firstDay-1 in order |
| Calendar.AppendDayCells | src/components/Calendar.tsx:62-108 | the second loop appends, in order after the blanks, the cells of the dates `new Date(year, month, k)` builds for k = 1..daysInMonth |
| Calendar.DayCellFor | src/components/Calendar.tsx:64-104 | the cell of a date: the day's events filtered as `getEventsForDate` does, the first two of them, the "+k more" count and the selected / today flags; its accounting is proved in `DayCellAccounts` |
| Calendar.HeaderMatchesColumns | src/components/Calendar.tsx:150 | the header is `getWeekDays(0)`, and the column day `k` lands in is headed by the weekday of that cell's date |
| Calendar.StepMonthAsWritten | src/components/Calendar.tsx:36-44 | `navigateMonth` as written: `setMonth(getMonth() ± 1)` on a copy, keeping the year as it is and the day of the month; its behaviour is stated by the four lemmas below |
| Calendar.StepMonthAsWrittenKeepsDay | src/components/Calendar.tsx:36-44 | when the target month has the day, `setMonth(getMonth() ± 1)` lands on that day of the adjacent month |
| Calendar.StepMonthAsWrittenSkipsFebruary | src/components/Calendar.tsx:36-44 | as written, "next" from 31 January 2025 lands on 3 March 2025 |
| Calendar.StepMonthAsWrittenStaysInMarch | src/components/Calendar.tsx:36-44 | as written, "prev" from 31 March 2025 lands on 3 March 2025 |
| Calendar.StepMonthAsWrittenOverflows | src/components/Calendar.tsx:36-44 | whenever the target month is shorter than the day, `setMonth` overflows into the month after the target, on day `day - length` |
| Calendar.StepMonthIndex | src/components/Calendar.tsx:39-41 | `getMonth() ± 1` carries into the year at either end, moving the month index by exactly one |
| Calendar.StepMonth | src/components/Calendar.tsx:36-44 | corrected navigation: the first of the month just before or after the shown one |
| Calendar.StepMonthRoundTrip | src/components/Calendar.tsx:36-44 | "next" then "prev" (or the reverse) returns to the first of the month shown before |
| Calendar.CalendarView.constructor | src/components/Calendar.tsx:20 | the calendar starts on today |
| Calendar.CalendarView.NavigateMonth | src/components/Calendar.tsx:36-44 | the shown month moves one month back or forward |
| Calendar.CalendarView.GoToToday | src/components/Calendar.tsx:46-50 | the calendar shows today and the page selects today; the event list and the dialog flag are untouched |
| EventForm.Submission | src/components/EventForm.tsx:30-40 | the payload `handleSubmit` builds from the fields, or none for a blank title; stated by `SubmissionSpec` |
| EventForm.SubmissionSpec | src/components/EventForm.tsx:30-40 | a blank title, and only a blank one, is refused; the payload's title is the entered title trimmed (non-empty, no outer whitespace) and its description the entered description trimmed; time and category are as entered and the date is the entered day at midnight |
| EventForm.Form.constructor | src/components/EventForm.tsx:21-28 | fields come from the edited event, with "09:00" for a missing time and "" for a missing description; without one they are "", the initial date, "09:00", "" and personal |
| EventForm.Form.HandleSubmit | src/components/EventForm.tsx:30-49 | returns the payload of the current fields; a refused submit or an edit form leaves every field as it was; a create form resets title, description, time and category and keeps the date |
| EventForm.UneditedSubmission | src/components/EventForm.tsx:21-40 | saving an edit form without touching it gives back the same event, except that its time of day becomes midnight and a missing description becomes empty |
| EventForm.SubmitNewEvent | src/pages/Index.tsx:43-50 | a create form's submit adds exactly the payload with the given id, closes the dialog and resets the form's fields except the date; a refused submit changes neither the form nor the page's list and dialog flag |
| SettingsStore.PatternsAreFormatted | src/contexts/SettingsContext.tsx:9 | every date format the settings can hold is one `formatDate` spells out, so it never uses the locale fallback |
| SettingsStore.ParseStoredSettings | src/contexts/SettingsContext.tsx:40-54 | `loadSettings`' decoding of the stored text, with every failure giving `{}`; stated by `ParseStoredSettingsLenient` |
| SettingsStore.ParseStoredSettingsLenient | src/contexts/SettingsContext.tsx:40-54 | a missing, empty, unparsable or non-object value decodes to `{}`, and an object decodes to itself |
| SettingsStore.Overlay | src/contexts/SettingsContext.tsx:74-77 | each field is the stored value when the record has that key, and the default otherwise |
| SettingsStore.Load | src/contexts/SettingsContext.tsx:70-80 | the mount effect's value: the decoded record overlaid on the defaults (`DEFAULT_SETTINGS`, SettingsContext.tsx:25-31); stated by the three lemmas below |
| SettingsStore.LoadOneKey | src/contexts/SettingsContext.tsx:25-31 | a record holding only `timeFormat: '24h'` loads as 24h, Sunday, personal, notifications on, `MM/dd/yyyy` |
| SettingsStore.LoadNothing | src/contexts/SettingsContext.tsx:70-80 | nothing usable in storage loads exactly the defaults |
| SettingsStore.LoadAfterStore | src/contexts/SettingsContext.tsx:57-80 | a stored record loads back as exactly that record |
| SettingsStore.With | src/contexts/SettingsContext.tsx:84-87 | `{ ...settings, [key]: value }` for each of the five keys; stated by `WithChangesOneField` and `WithCurrentValue` |
| SettingsStore.WithChangesOneField | src/contexts/SettingsContext.tsx:84-87 | `{ ...settings, [key]: value }` sets that key to the value and leaves every other key alone |
| SettingsStore.FieldsDetermineSettings | src/contexts/SettingsContext.tsx:11-17 | two records that agree on all five keys are equal |
| SettingsStore.WithCurrentValue | src/contexts/SettingsContext.tsx:83-91 | setting a key to the value it already has changes nothing |
| SettingsStore.SettingsProvider.constructor | src/contexts/SettingsContext.tsx:67 | before the mount effect the settings are the defaults |
| SettingsStore.SettingsProvider.Mount | src/contexts/SettingsContext.tsx:70-80 | the settings become the stored record overlaid on the defaults; storage is only read |
| SettingsStore.SettingsProvider.StoreSettings | src/contexts/SettingsContext.tsx:57-63 | a successful write puts the record under the key; a failed write changes nothing and raises nothing |
| SettingsStore.SettingsProvider.SetSetting | src/contexts/SettingsContext.tsx:83-91 | memory holds the old record with one key changed, whether or not the write succeeds; after a successful write, loading storage gives that same record |
| SettingsStore.SettingsProvider.ResetSettings | src/contexts/SettingsContext.tsx:94-97 | memory holds the defaults; after a successful write, storage loads as the defaults too |

## Left out

- JSX rendering, styling, layout and dialogs are not modelled. The category badge colours inside the calendar cells (src/components/Calendar.tsx:86-90) and the panel's badge map (src/components/TodaySchedule.tsx:54-59) are not modelled either; only the two `getCategoryColor` functions are.
- The locale fallback `toLocaleDateString` of `formatDate` is `None`, and the other `toLocaleDateString` display strings are not modelled: they depend on the host's locale data.
- Time zones are not modelled. Every `Date` is read in one fixed zone, so `toDateString()` equality is equality of calendar days. `toISOString().split('T')[0]` in the form and `new Date(dateString)` both become the form's calendar day at midnight, which ignores the UTC/local shift the browser applies.
- `localeCompare` is plain code-unit order. It agrees with the locale order on the ASCII `HH:MM` strings events carry.
- Sorting.SortInPlace: `Array.prototype.sort` is an insertion sort here. Its contract states the order and the permutation but not stability. ECMAScript has required a stable sort since 2019, and this insertion sort moves an element only past strictly greater neighbours, so it is stable as well; that property is not proved.
- Stored settings are typed: each stored key holds a well-typed value. The source passes an ill-typed value or an extra key through untouched. It also accepts a JSON array as an "object". Neither is modelled.
- `JSON.parse` and `JSON.stringify` are the abstract `StoredText` datatype. The `console.warn` calls are dropped.
- The `useLocalStorage` hook and its cross-tab `storage` listener are not part of this model.
- React specifics are not modelled: context lookup, re-render scheduling, and stale closures between `setSetting` calls.
- TimeUtils.FormatTime: the 12-hour mode requires a well-formed `HH:MM` time. For other input the source still formats whatever `Number` reads from the two fields: "9:5" gives "9:05 AM", "25:00" gives "13:00 PM", "ab:cd" gives "NaN:NaN PM", and a string without a colon throws a `TypeError`. None of these is modelled.
- TimeUtils.ParseTimeToMinutes: defined only for well-formed `HH:MM` times. For other input the source computes `hours * 60 + minutes` from whatever `Number` reads ("9:5" gives 545, "25:00" gives 1500), and gives `NaN` only when a field is not numeric or missing. None of these is modelled.
- Dates.NewDate: years and day numbers are unbounded. The source's `Date` holds only instants within 8.64e15 ms of 1970 and is an invalid date outside that range.
- Schedule.Board: the event list is an `array<Event>` rather than a sequence field. The list view's in-place sort then reorders the page's own list, as it does in the browser.
- Calendar.CalendarView.NavigateMonth uses the corrected month step (see Findings). The step as written is `Calendar.StepMonthAsWritten`.

## Findings

| source | as written | input that shows it | evidently intended | confidence | as-written member | corrected member |
|---|---|---|---|---|---|---|
| src/components/Calendar.tsx:36-44 | `navigateMonth` copies the current date and calls `setMonth(getMonth() ± 1)`, which keeps the day of the month and lets it overflow into the following month | shown date 31 January 2025, "next": the calendar shows 3 March 2025 and February is skipped; from 31 March 2025 "prev" stays in March | move to the previous or next month whatever the day, e.g. by stepping to the first of that month | high, not executed | Calendar.StepMonthAsWrittenSkipsFebruary | Calendar.StepMonth |
