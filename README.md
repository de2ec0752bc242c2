# Law-practice CRM core, modelled in Dafny

This project models the core of a small law-practice CRM. The CRM is a React front end over a hosted
database with file storage. The model covers these parts:

- **Month calendar.** The component lays out a month grid of day cells and places each event on the
  day it starts. It also moves to the previous or next month and reports date and event clicks.
  `CalendarView` holds the grid and its navigation. `CivilCalendar` holds the calendar arithmetic the
  grid depends on. It follows ECMAScript's `Date`: `new Date(y, m, d)` normalises out-of-range months
  and days, and years 0..99 are mapped to 1900..1999. It also covers `getDay()`.
- **Cases and Clients pages.** Each page has a search filter and a save handler that chooses between
  update and create (`CasesPage`, `ClientsPage`).
- **Data hooks.** `useClients`, `useCases`, `useEvents` and `useDocuments` are each a class whose
  fields are the hook's state: the list, `loading` and `error`. Each backend call is a parameter of
  the method: the answer the database or storage gave (`Response`, `Outcome`). Each method states
  the whole new state for every answer. Beside each class sit the pure parts of the hook:
  - the mapping of joined rows to the flat records the UI shows;
  - the update payloads;
  - the local list edits;
  - the storage path of an upload.

  Lemmas about those parts state their round trips and invariants.
- **Forms.** Each form is a class over its `formData`, `loading` and `error`:
  - `EventForm` has the opening defaults. The start is the picked moment rounded down to its own hour
    (00:00 for a click on a calendar day, whose date is that day's midnight), or else the current
    moment rounded down to the hour, and the end is one hour later. It also has validation and the
    optional client and case links.
  - `CaseForm` and `ClientForm` have their blank records and validation.
  - `LocalTime` holds what the event form's defaults need: local date-times, minute arithmetic
    (`setHours` overflow), `toISOString().slice(0, 16)` text and reading that text back.
- **Case details page.** The page finds the case for the route id and chooses the page view:
  spinner, not found or detail. It then filters the case's events and documents, shows up to three
  upcoming events, and saves an event bound to the case. It reuses the month calendar on that
  case's events only.
- **Documents page and document list.** The page covers:
  - the type guessed from the MIME type;
  - the rule that selecting a case clears the client and the other way round;
  - the upload handler, and the error banner.

  The list covers the icon chosen from the extension, the linkage column and the type badge.

Shared modules: `Wrappers` (Option, Outcome), `Seqs` (filter and map with their laws), `Strings`
(substring search, ASCII lower-casing, last segment after a separator), `Records` (the record
types, the responses, and JavaScript truthiness: `OrNull`, `OrDefault`).

`CalendarView.Calendar.RenderCells` rebuilds the grid with a loop and ensures that it equals the
function `CalendarView.Grid`. Rendering twice gives the same cells because `RenderCells` equals
`Grid`.

## Model

| member | source | states |
|---|---|---|
| CivilCalendar.MonthLength | src/components/CalendarView.tsx:14-18 | every month has 28..31 days; February has 29 exactly in leap years; among the other months, exactly April, June, September and November have 30 |
| CivilCalendar.DaysBeforeMonth | src/components/CalendarView.tsx:14-18 | the days before each month are the common-year cumulative table, plus one from March on in leap years |
| CivilCalendar.YearStep | src/components/CalendarView.tsx:14-18 | the first day of each year follows the previous year's first day by that year's length |
| CivilCalendar.YearsOrdered | src/components/CalendarView.tsx:14-18 | an earlier year ends no later than any later year begins |
| CivilCalendar.QuotientStep4 | src/components/CalendarView.tsx:14-18 | the count of fourth years grows by one from y to y + 1 exactly when y is a multiple of 4 (likewise QuotientStep100 and QuotientStep400 for 100 and 400) |
| CivilCalendar.MonthStep | src/components/CalendarView.tsx:14-18 | the first of the following month is the first of this month plus the month's length, across year ends |
| CivilCalendar.PrecedingMonthStep | src/components/CalendarView.tsx:17 | the 1st of a month is one month length after the 1st of the month before, across year starts |
| CivilCalendar.DayBeforeNextMonth | src/components/CalendarView.tsx:14-18 | day 0 of the next month, as MakeDay numbers it, is the last day of this month |
| CivilCalendar.NormalizeDay | src/components/CalendarView.tsx:17 | any day offset within a month, including 0 and negative days, lands on a valid date that many days after the 1st |
| CivilCalendar.Normalize | src/components/CalendarView.tsx:17 | for any year, month and day, the result is a valid calendar date whose day number is the standard's MakeDay of the inputs |
| CivilCalendar.DayNumberInjective | src/components/CalendarView.tsx:17 | two valid dates with the same day number are the same date, so the normalised date is unique |
| CivilCalendar.DaysBeforeMonthBound | src/components/CalendarView.tsx:17 | a valid date's day number lies inside its own year |
| CivilCalendar.Construct | src/components/CalendarView.tsx:30-34 | `new Date(y, m, d)`: always a valid date, equal to MakeDay after years 0..99 become 1900..1999 |
| CivilCalendar.MakeFullYear | src/components/CalendarView.tsx:14-34 | the constructor changes the year exactly for 0..99, into the 1900s with the last two digits kept |
| CivilCalendar.MakeDay | src/components/CalendarView.tsx:14-34 | for a month in 0..11 the day number is that month's 1st plus d - 1 |
| CivilCalendar.MakeDayMonthCarry | src/components/CalendarView.tsx:30-34 | twelve months more is one year more |
| CivilCalendar.ConstructValid | src/components/CalendarView.tsx:53 | constructing an existing date whose year is outside 0..99 gives back that date |
| CivilCalendar.WeekDay | src/components/CalendarView.tsx:20-24 | `getDay()` is always in 0..6 |
| CivilCalendar.WeekDayStep | src/components/CalendarView.tsx:20-24 | the weekday of the next month's 1st is this month's 1st shifted by the month length, mod 7 |
| CivilCalendar.CalendarExamples | src/components/CalendarView.tsx:20-24 | leap years 2000 and 2024, not 1900 or 2023; 1 Jan 1970 is a Thursday and 1 May 2024 a Wednesday |
| CalendarView.DaysInMonth | src/components/CalendarView.tsx:14-18 | every month is 28..31 days long |
| CalendarView.DayZeroIsLastDay | src/components/CalendarView.tsx:14-18 | `new Date(year, month + 1, 0)` is the last day of this month, December rolling into the next year and back, so getDate() of it is the month's length |
| CalendarView.FebruaryLength | src/components/CalendarView.tsx:14-18 | February has 29 days exactly in leap years, and 28 otherwise |
| CalendarView.FirstDayOfMonth | src/components/CalendarView.tsx:20-24 | the weekday is 0..6 |
| CalendarView.FirstDayIsConstructed | src/components/CalendarView.tsx:20-24 | `new Date(year, month, 1)` is the 1st of that month, years 0..99 read as 1900..1999, and the first weekday is its getDay() |
| CalendarView.FirstDayOfFollowingMonth | src/components/CalendarView.tsx:20-24 | the next month's first weekday is this month's first weekday plus its day count, mod 7 |
| CalendarView.DayEvents | src/components/CalendarView.tsx:56-60 | an event is listed on a day exactly when its start parses to that local date, as many times as it occurs in the list and in the list's order |
| CalendarView.Blanks | src/components/CalendarView.tsx:46-49 | one empty cell per weekday before the 1st, with no events and no date |
| CalendarView.DayCells | src/components/CalendarView.tsx:51-97 | one cell per day 1..n in order, each carrying its own date and its own events |
| CalendarView.GridShape | src/components/CalendarView.tsx:46-97 | the grid has first-weekday blanks followed by exactly the month's days, so cell i holds day i - blanks + 1 |
| CalendarView.IsToday | src/components/CalendarView.tsx:54 | the three getter comparisons hold exactly when the cell's date is today's date |
| CalendarView.MakeCell | src/components/CalendarView.tsx:53-60 | the cell of day k is a day cell numbered k, marked today exactly when (year, month, k) is today |
| CalendarView.Grid | src/components/CalendarView.tsx:42-97 | the grid holds the first weekday's blanks and the month's days, at most 37 cells (six rows of the seven-column grid) |
| CalendarView.TodayMarkedOnce | src/components/CalendarView.tsx:54 | when today is in the shown month, exactly one cell is marked today, and it is today's cell |
| CalendarView.EventPlacedOnce | src/components/CalendarView.tsx:56-60 | an event starting in the shown month appears in exactly one cell, the cell of its start day |
| CalendarView.PlacedCountIsMonthCount | src/components/CalendarView.tsx:52-60 | the events placed on the grid, counted over all cells, are exactly the events that start in the month |
| CalendarView.PlacedCountAppend | src/components/CalendarView.tsx:52-60 | the placed count of consecutive cell runs adds up |
| CalendarView.BlanksPlaceNothing | src/components/CalendarView.tsx:46-49 | blank cells place no events |
| CalendarView.DayCellsCount | src/components/CalendarView.tsx:52-60 | the day cells 1..k together place the events that start on days up to k |
| CalendarView.CountByDay | src/components/CalendarView.tsx:52-60 | counting the events up to the month length counts all the month's events |
| CalendarView.PrevMonthOf | src/components/CalendarView.tsx:29-31 | the 1st of the previous month, as `new Date(y, m - 1, 1)` |
| CalendarView.NextMonthOf | src/components/CalendarView.tsx:33-35 | the 1st of the next month, as `new Date(y, m + 1, 1)` |
| CalendarView.NextMonthRollover | src/components/CalendarView.tsx:33-35 | December rolls over to January of the next year; other months advance within the year |
| CalendarView.PrevMonthRollover | src/components/CalendarView.tsx:29-31 | January goes back to December of the previous year; other months step back within the year |
| CalendarView.RolloverExamples | src/components/CalendarView.tsx:29-35 | December 2024 to January 2025, and January 2024 back to December 2023 |
| CalendarView.NextThenPrev | src/components/CalendarView.tsx:29-35 | "next" then "previous" returns to the 1st of the same month |
| CalendarView.PrevThenNext | src/components/CalendarView.tsx:29-35 | "previous" then "next" returns to the 1st of the same month |
| CalendarView.TwoDigitYearJump | src/components/CalendarView.tsx:29-35 | from January of year 100, "previous" lands in December of year 99; "next" from there reads 99 as 1999 and lands in January 2000, not back in year 100 |
| CalendarView.Click | src/components/CalendarView.tsx:66-78 | one click fires at most one callback: a click on a day cell's own area calls `onDateClick` with `new Date(year, month, day)` exactly when that prop is given; a click on a listed event calls `onEventClick` with that very event and never `onDateClick`; blank cells fire nothing |
| CalendarView.GridDateClick | src/components/CalendarView.tsx:53-66 | clicking day cell i reports the date of day i - blanks + 1 of the shown month; blank cells report nothing |
| CalendarView.EventStyle | src/components/CalendarView.tsx:80-83 | each event type has its own colour; any unknown type gets the default |
| CalendarView.Calendar.constructor | src/components/CalendarView.tsx:12 | the calendar opens on the current date it is given |
| CalendarView.Calendar.PrevMonth | src/components/CalendarView.tsx:29-31 | the shown date becomes the 1st of the previous month |
| CalendarView.Calendar.NextMonth | src/components/CalendarView.tsx:33-35 | the shown date becomes the 1st of the next month |
| CalendarView.Calendar.Title | src/components/CalendarView.tsx:105-107 | the header's month name is always one of the twelve month names |
| CalendarView.Calendar.RenderCells | src/components/CalendarView.tsx:42-100 | the loop builds exactly the month grid: the blanks, then one cell per day with that day's events |
| CalendarView.MayScenario | src/components/CalendarView.tsx:52-60 | worked example: one May 2024 event is placed on the 15th cell only |
| Seqs.Filter | src/pages/Cases.tsx:40-44 | the kept items keep their order, an item is kept exactly when it satisfies the test, and each kept item occurs as often as in the input (Count) |
| Seqs.CountIsMultiplicity | src/pages/Cases.tsx:40-44 | Count is the multiplicity of the multiset of the sequence |
| Seqs.FilterAppend | src/pages/Cases.tsx:40-44 | filtering distributes over concatenation |
| Seqs.FilterAll | src/hooks/useCases.ts:96 | filtering with a test every item meets changes nothing |
| Seqs.Map | src/hooks/useCases.ts:27-32 | same length, and item i of the result is the function applied to item i |
| Strings.Includes | src/pages/Cases.tsx:41-43 | `includes` holds exactly when the term occurs at some position |
| Strings.PrefixOccurs | src/pages/Cases.tsx:41-43 | a string occurs at position 0 of anything it prefixes |
| Strings.OccursShift | src/pages/Cases.tsx:41-43 | an occurrence stays an occurrence, one position on, after a character is put in front |
| Strings.IncludesEmpty | src/pages/Cases.tsx:41-43 | every string includes the empty term |
| Strings.ToLowerChar | src/pages/Cases.tsx:41-43 | the result is never an ASCII upper-case letter; exactly the upper-case letters change, each to the lower-case letter at the same alphabet position |
| Strings.ToLower | src/pages/Cases.tsx:41-43 | lower-casing keeps the length and applies the character map position by position |
| Strings.ToLowerIdempotent | src/pages/Cases.tsx:41-43 | lower-casing twice is lower-casing once |
| Strings.LastSegment | src/components/DocumentList.tsx:13 | `split(sep).pop()`: a suffix of the input with no separator, preceded by a separator when one occurs |
| Strings.LastSegmentToLower | src/components/DocumentList.tsx:13 | taking the extension and lower-casing commute |
| Strings.ToLowerSnoc | src/components/DocumentList.tsx:13 | lower-casing a string extended by one character extends its lower-cased form |
| Strings.LastSegmentAfter | src/hooks/useDocuments.ts:43-44 | the last segment of `a + sep + b`, with no separator in b, is b |
| Records.OrNull | src/hooks/useEvents.ts:68-69 | `x \|\| null`: a truthy value is kept, and anything else becomes null |
| Records.OrDefault | src/hooks/useCases.ts:29 | `x \|\| d`: a truthy value is kept, and anything else becomes the fallback |
| CasesPage.FilteredCases | src/pages/Cases.tsx:40-44 | a case is kept, in order and with every repetition, exactly when the term occurs in its code or client name ignoring case, or in its judicial number as typed |
| CasesPage.CaseMatches | src/pages/Cases.tsx:40-44 | a case with none of code, judicial number and client name never matches; the empty term matches exactly the cases with one of them |
| CasesPage.UndefinedFieldsNeverMatch | src/pages/Cases.tsx:40-44 | a case with no code, judicial number or client name never matches, whatever the term |
| CasesPage.EmptyTermKeepsDefined | src/pages/Cases.tsx:40-44 | the empty search keeps exactly the cases that have at least one of the three searched fields |
| CasesPage.CodeSearchIgnoresCase | src/pages/Cases.tsx:41-43 | the code and client-name searches give the same answer for a term and for its lower-cased form |
| CasesPage.HandleSave | src/pages/Cases.tsx:32-38 | an existing case, one with an id, is updated; a new case is added; the record is passed on unchanged |
| ClientsPage.FilteredClients | src/pages/Clients.tsx:40-43 | a client is kept, in order and with every repetition, exactly when the name contains the term ignoring case or the identification contains it as typed |
| ClientsPage.ClientMatches | src/pages/Clients.tsx:40-43 | the empty term matches every client; searching for a client's exact identification, or for its name in any letter case, finds it |
| ClientsPage.EmptyTermKeepsAll | src/pages/Clients.tsx:40-43 | the empty search shows every client |
| ClientsPage.ShownClients | src/pages/Clients.tsx:92 | the table always lists exactly the filtered clients |
| ClientsPage.HandleSave | src/pages/Clients.tsx:32-38 | an existing client is updated and a new one is added, with the record unchanged |
| UseClients.ApplyUpdate | src/hooks/useClients.ts:54-63 | writing a payload onto a stored row keeps its id, and reading the payload back gives what was sent |
| UseClients.PayloadIgnoresId | src/hooks/useClients.ts:54-62 | the update payload never carries the id: clients that differ only in id send the same update |
| UseClients.OwnPayloadKeepsRow | src/hooks/useClients.ts:54-62 | every payload column is a client column: writing a client's own payload over it changes nothing |
| UseClients.TableAfterUpdate | src/hooks/useClients.ts:51-63 | the stored table keeps its length and its row ids through the update |
| UseClients.ReplaceById | src/hooks/useClients.ts:66 | same length and ids; rows with that id become the new client, and every other row is kept |
| UseClients.WithoutClient | src/hooks/useClients.ts:81 | exactly the clients with another id remain, in order, each as many times as before |
| UseClients.ReplaceIdempotent | src/hooks/useClients.ts:66 | replacing the same client twice is replacing it once |
| UseClients.LocalUpdateMatchesTable | src/hooks/useClients.ts:49-66 | after a successful update, the local list and the stored table agree row for row |
| UseClients.AddThenDelete | src/hooks/useClients.ts:32-86 | deleting a client just added leaves the same list as deleting from the list before the add |
| UseClients.ClientsHook.constructor | src/hooks/useClients.ts:6-8 | the hook starts with no clients, loading, and no error |
| UseClients.ClientsHook.FetchClients | src/hooks/useClients.ts:10-30 | on success the list becomes the rows, or empty when there are none, and an earlier error stays; on failure the list is kept and the error is set; loading ends |
| UseClients.ClientsHook.AddClient | src/hooks/useClients.ts:32-47 | the inserted row is put first in the list; a failure is passed back to the caller and the list is kept |
| UseClients.ClientsHook.UpdateClient | src/hooks/useClients.ts:49-71 | a successful write replaces the client in place by id; a failure is passed back and the list is kept |
| UseClients.ClientsHook.DeleteClient | src/hooks/useClients.ts:73-86 | a successful delete drops the client; a failure is passed back and the list is kept |
| UseCases.MapCaseRow | src/hooks/useCases.ts:27-30 | the client name is never empty: it is the joined name when truthy and "Cliente Desconocido" otherwise; every case field is kept |
| UseCases.MapCases | src/hooks/useCases.ts:27-32 | one flattened case per row, in the same order |
| UseCases.EveryCaseNamed | src/hooks/useCases.ts:27-32 | every case in the fetched list shows a non-empty client name |
| UseCases.WithoutCase | src/hooks/useCases.ts:96 | exactly the cases with another id remain, in order, each as many times as before |
| UseCases.DeleteIdempotent | src/hooks/useCases.ts:96 | deleting the same case twice leaves what deleting once leaves |
| UseCases.CasesHook.constructor | src/hooks/useCases.ts:6-8 | no cases, loading, no error |
| UseCases.CasesHook.FetchCases | src/hooks/useCases.ts:10-39 | on success the list becomes the mapped rows; on failure it is kept and the error set; loading ends |
| UseCases.CasesHook.AddCase | src/hooks/useCases.ts:41-57 | a successful insert reloads the list from the database, and a failed reload sets the error; a failed insert is passed back and changes nothing |
| UseCases.CasesHook.UpdateCase | src/hooks/useCases.ts:59-86 | a successful write reloads the list; a failed write is passed back and changes nothing |
| UseCases.CasesHook.DeleteCase | src/hooks/useCases.ts:88-101 | a successful delete drops the case; a failure is passed back and changes nothing |
| UseEvents.MapEventRow | src/hooks/useEvents.ts:24-28 | the case code and client name come from the joins when present; every event field is kept |
| UseEvents.MapEvents | src/hooks/useEvents.ts:24-30 | one flattened event per row, in the same order |
| UseEvents.UpdatePayload | src/hooks/useEvents.ts:61-71 | the update sends the nine editable columns; an empty case or client link is sent as null |
| UseEvents.PayloadRelationsNeverEmpty | src/hooks/useEvents.ts:68-69 | the payload never carries an empty-string case or client id |
| UseEvents.WithoutEvent | src/hooks/useEvents.ts:90 | exactly the events with another id remain, in order, each as many times as before |
| UseEvents.EventsHook.constructor | src/hooks/useEvents.ts:6-8 | no events, loading, no error |
| UseEvents.EventsHook.FetchEvents | src/hooks/useEvents.ts:10-37 | on success the list becomes the mapped rows; on failure it is kept and the error set; loading ends |
| UseEvents.EventsHook.AddEvent | src/hooks/useEvents.ts:39-54 | a successful insert reloads the list, and a failed reload sets the error; a failed insert is passed back and changes nothing |
| UseEvents.EventsHook.UpdateEvent | src/hooks/useEvents.ts:56-80 | the payload sent is the event's update payload; a successful write reloads the list; a failure is passed back and changes nothing |
| UseEvents.EventsHook.DeleteEvent | src/hooks/useEvents.ts:82-95 | a successful delete drops the event; a failure is passed back and changes nothing |
| UseDocuments.MapDocumentRow | src/hooks/useDocuments.ts:24-28 | the case code and client name come from the joins; every document field is kept |
| UseDocuments.MapDocuments | src/hooks/useDocuments.ts:24-30 | one flattened document per row, in the same order |
| UseDocuments.FileExtension | src/hooks/useDocuments.ts:43 | the text after the file name's last dot, or the whole name when there is none |
| UseDocuments.StoragePath | src/hooks/useDocuments.ts:43-45 | the stored path is exactly the random token, one dot and the file's extension: it starts with the token, has a dot right after it, keeps the file's extension and has no other characters |
| UseDocuments.StoragePathExamples | src/hooks/useDocuments.ts:43-45 | token "k3x9" with name "acta.final.pdf" gives "k3x9.pdf" |
| UseDocuments.InsertRow | src/hooks/useDocuments.ts:54-65 | the row records the name, path and MIME type; the type defaults to "otro"; empty links become null |
| UseDocuments.WithoutDocument | src/hooks/useDocuments.ts:94 | exactly the documents with another id remain, in order, each as many times as before |
| UseDocuments.DocumentsHook.constructor | src/hooks/useDocuments.ts:6-8 | no documents, loading, no error |
| UseDocuments.DocumentsHook.FetchDocuments | src/hooks/useDocuments.ts:10-37 | on success the list becomes the mapped rows; on failure it is kept and the error set; loading ends |
| UseDocuments.DocumentsHook.UploadDocument | src/hooks/useDocuments.ts:39-76 | the file is always stored first, and the row is inserted only after the file is stored; the first failure is passed back; success reloads the list; loading ends |
| UseDocuments.DocumentsHook.DeleteDocument | src/hooks/useDocuments.ts:78-99 | the file is removed from storage, then the row; a successful delete drops the document; the answer is passed back |
| LocalTime.SplitUnique | src/components/EventForm.tsx:46 | quotient and remainder by a positive bound are unique |
| LocalTime.MinutesInjective | src/components/EventForm.tsx:46 | two valid date-times with the same minute count have the same date, hour and minute |
| LocalTime.ShiftMinutes | src/components/EventForm.tsx:46 | moving by k minutes gives a valid date-time exactly k minutes later, with seconds and milliseconds kept, across hour, day, month and year ends |
| LocalTime.ShiftZero | src/components/EventForm.tsx:46 | moving by zero minutes changes nothing |
| LocalTime.ShiftCompose | src/components/EventForm.tsx:46 | moving by a and then by b is moving by a + b |
| LocalTime.TruncateToHour | src/components/EventForm.tsx:42 | `setMinutes(0, 0, 0)` keeps the date and hour and zeroes everything below |
| LocalTime.Pow10 | src/components/EventForm.tsx:43 | powers of ten are positive |
| LocalTime.Digits | src/components/EventForm.tsx:43 | zero-padded decimal text of a fixed width, made of digits only |
| LocalTime.DigitsRoundTrip | src/components/EventForm.tsx:43 | reading the padded digits back gives the number, for any number below 10^width |
| LocalTime.IsoString | src/components/EventForm.tsx:43 | `toISOString()` is at least 24 characters long |
| LocalTime.Slice16 | src/components/EventForm.tsx:43 | `slice(0, 16)` keeps the first 16 characters |
| LocalTime.MinuteText | src/components/EventForm.tsx:43 | the "YYYY-MM-DDTHH:MM" text of a four-digit year is 16 characters long |
| LocalTime.IsoSliceIsMinuteText | src/components/EventForm.tsx:43 | the first 16 characters of the ISO text are the minute text |
| LocalTime.ParseMinuteTextRoundTrip | src/components/EventForm.tsx:43 | reading the minute text back gives the year, month, day, hour and minute it was written from |
| LocalTime.MutableDate.constructor | src/components/EventForm.tsx:41 | `new Date(d)` holds a copy of d |
| LocalTime.MutableDate.SetMinutes | src/components/EventForm.tsx:42 | the held value moves to the new minute, second and millisecond, on the same date and hour |
| LocalTime.MutableDate.SetHours | src/components/EventForm.tsx:46 | the held value moves to the given hour, carrying over into the next day when it passes 23 |
| EventForm.DefaultStart | src/components/EventForm.tsx:41-42 | the picked moment, else now, truncated to its hour |
| EventForm.DefaultTimes | src/components/EventForm.tsx:41-46 | on two mutable dates: the start is the base moment cut to its hour, and the end is that start with its hour set one later, carrying into the next day |
| EventForm.BlankEvent | src/components/EventForm.tsx:49-59 | a new event (no id) of type "audiencia", status "pendiente", with the given start and end texts and both link selectors showing "(Ninguno)"; validation refuses it for its missing title |
| EventForm.OpeningData | src/components/EventForm.tsx:36-59 | editing opens the event itself; otherwise a new event with 16-character start and end texts, which validation refuses until a title is typed |
| EventForm.DefaultEnd | src/components/EventForm.tsx:45-46 | exactly sixty minutes after the start, rolling into the next day after 23:00 |
| EventForm.HourLater | src/components/EventForm.tsx:46 | one hour after a whole hour is the next hour of the same day, or 00:00 of the next day |
| EventForm.UtcInputText | src/components/EventForm.tsx:43-47 | the 16-character value as written: the ISO text of the moment on the UTC clock |
| EventForm.LocalInputText | src/components/EventForm.tsx:43-47 | the 16-character value a local date-time input expects |
| EventForm.LocalInputTextReadsBack | src/components/EventForm.tsx:43-47 | the local input reads back the date-time's own date, hour and minute |
| EventForm.UtcInputTextShifted | src/components/EventForm.tsx:43-47 | the value as written reads back as the moment moved by minus the UTC offset |
| EventForm.UtcMidnightShowsPreviousDay | src/components/EventForm.tsx:41-47 | ahead of UTC, a picked day at midnight opens the form on the previous day |
| EventForm.UtcInputTextAtZeroOffset | src/components/EventForm.tsx:43-47 | at UTC itself, the value as written and the local value agree |
| EventForm.DefaultTextsOneHourApart | src/components/EventForm.tsx:40-59 | a new event's start text reads back as the default start, and its end text reads back as exactly sixty minutes later |
| EventForm.Validate | src/components/EventForm.tsx:79-80 | a missing title is reported first, then a missing start; otherwise the data passes |
| EventForm.LinkValue | src/components/EventForm.tsx:195-209 | a select's empty option, and only it, becomes no link |
| EventForm.LinkRoundTrip | src/components/EventForm.tsx:195-209 | showing a chosen link gives the choice back, and choosing the shown link gives `link \|\| undefined` |
| EventForm.ShownLink | src/components/EventForm.tsx:195-208 | a selector shows the linked id when there is one, and the empty "(Ninguno)" value for an absent or empty link |
| EventForm.Form.constructor | src/components/EventForm.tsx:21-34 | blank event data with empty times, not loading, no error |
| EventForm.Form.Open | src/components/EventForm.tsx:36-61 | on the mutable date, the form data becomes the event being edited, or a blank event at the default start and end; nothing else changes. The times are written with the corrected local text (see Findings), which is the source's `toISOString` text exactly at UTC offset 0 (EventForm.UtcInputTextAtZeroOffset), the clock this model assumes |
| EventForm.Form.ChooseClient | src/components/EventForm.tsx:195-196 | choosing a client sets the client link only |
| EventForm.Form.ChooseCase | src/components/EventForm.tsx:208-209 | choosing a case sets the case link only |
| EventForm.Form.Submit | src/components/EventForm.tsx:74-82 | invalid data only sets its error message; valid data is handed on for saving, with loading set |
| EventForm.Form.SaveSettled | src/components/EventForm.tsx:82-88 | a successful save closes the form; a failure shows the save error; loading ends |
| CaseForm.OpeningData | src/components/CaseForm.tsx:29-44 | editing shows the case; otherwise a blank case: "iniciado", "civil", no client and empty text fields |
| CaseForm.Validate | src/components/CaseForm.tsx:62-63 | a missing client is reported first, then a missing case type; otherwise the data passes |
| CaseForm.BlankCaseNeedsClient | src/components/CaseForm.tsx:29-63 | a blank case is refused for its missing client, and passes once a client is chosen |
| CaseForm.Form.constructor | src/components/CaseForm.tsx:16-28 | blank data, not loading, no error |
| CaseForm.Form.Open | src/components/CaseForm.tsx:29-44 | the form data becomes the opening data, and nothing else changes |
| CaseForm.Form.Submit | src/components/CaseForm.tsx:57-66 | invalid data only sets its message; valid data is handed on, with loading set |
| CaseForm.Form.SaveSettled | src/components/CaseForm.tsx:65-71 | success closes the form; failure shows the save error; loading ends |
| ClientForm.OpeningData | src/components/ClientForm.tsx:26-40 | editing shows the client; otherwise the blank natural-person client |
| ClientForm.Validate | src/components/ClientForm.tsx:59-61 | name and identification are both required; otherwise the data passes |
| ClientForm.BlankClientRejected | src/components/ClientForm.tsx:26-61 | the blank client is refused until it has both a name and an identification |
| ClientForm.Form.constructor | src/components/ClientForm.tsx:14-24 | blank data, not loading, no error |
| ClientForm.Form.Open | src/components/ClientForm.tsx:26-40 | the form data becomes the opening data, and nothing else changes |
| ClientForm.Form.Submit | src/components/ClientForm.tsx:53-63 | invalid data only sets its message; valid data is handed on, with loading set |
| ClientForm.Form.SaveSettled | src/components/ClientForm.tsx:62-68 | success closes the form; failure shows the save error; loading ends |
| CaseDetails.FirstMatch | src/pages/CaseDetails.tsx:25 | the position of the first case with the route id, or the length when none has it |
| CaseDetails.CurrentCase | src/pages/CaseDetails.tsx:25 | none exactly when no case has the id; otherwise a listed case with that id |
| CaseDetails.PageView | src/pages/CaseDetails.tsx:59-75 | a spinner exactly while loading; "not found" exactly when no case has the id; otherwise the matching case |
| CaseDetails.CaseEvents | src/pages/CaseDetails.tsx:28 | exactly the events of this case, in order, each as many times as in the hook's list, so the tab count is their number |
| CaseDetails.CaseDocuments | src/pages/CaseDetails.tsx:29 | exactly the documents of this case, in order, each as many times as in the hook's list |
| CaseDetails.DescriptionText | src/pages/CaseDetails.tsx:168 | a truthy description is shown as is; otherwise the "no detailed description" text |
| CaseDetails.Upcoming | src/pages/CaseDetails.tsx:178-180 | no list exactly when the case has no events; otherwise the first three, or all when fewer |
| CaseDetails.HandleEventSave | src/pages/CaseDetails.tsx:32-41 | the event is bound to this case, with every other field kept; an existing event is updated, and a new one added |
| CaseDetails.SavedEventListed | src/pages/CaseDetails.tsx:28-41 | once stored, a saved event shows up among the case's events |
| CaseDetails.FormOpenAfterDelete | src/pages/CaseDetails.tsx:43-46 | the form closes exactly when the delete succeeds |
| CaseDetails.CaseCalendarShowsOnlyCaseEvents | src/pages/CaseDetails.tsx:210-212 | every event shown on the case calendar belongs to the case |
| CaseDetails.CaseCalendarClicks | src/pages/CaseDetails.tsx:210-212 | the case calendar has no date handler, so any click reports only events of this case |
| DocumentsPage.UploadType | src/pages/Documents.tsx:28-29 | "legal" exactly when the MIME type contains "pdf", and "otro" otherwise |
| DocumentsPage.UploadTypeExamples | src/pages/Documents.tsx:28-29 | application/pdf is legal and image/png is otro |
| DocumentsPage.Download | src/pages/Documents.tsx:47-53 | a truthy link opens in a new tab; otherwise the user is told there is no link |
| DocumentsPage.Banner | src/pages/Documents.tsx:104-107 | no banner exactly when there is neither error; the upload error takes precedence |
| DocumentsPage.UploadLinksAtMostOne | src/pages/Documents.tsx:30-31 | when at most one selection is made, the stored row has at most one link |
| DocumentsPage.Page.constructor | src/pages/Documents.tsx:15-20 | nothing selected, not uploading, no error, no chosen file |
| DocumentsPage.Page.SelectCase | src/pages/Documents.tsx:72 | selecting a case clears the client; the page never links both |
| DocumentsPage.Page.SelectClient | src/pages/Documents.tsx:80 | selecting a client clears the case; the page never links both |
| DocumentsPage.Page.ChooseFiles | src/pages/Documents.tsx:96-99 | the chosen files are recorded and nothing else changes |
| DocumentsPage.Page.HandleFileSelect | src/pages/Documents.tsx:22-39 | with no file nothing happens; otherwise the first file is uploaded with the selections; success clears the input, and failure shows the upload error |
| DocumentList.IconFor | src/components/DocumentList.tsx:12-17 | image icon exactly for image extensions, PDF icon exactly for "pdf", both ignoring case; otherwise the generic icon |
| DocumentList.IconIgnoresCase | src/components/DocumentList.tsx:13 | a file name and its lower-cased form get the same icon |
| DocumentList.IconOfUpperCaseExtension | src/components/DocumentList.tsx:12-17 | "Contrato.final.PDF" gets the PDF icon: the extension is compared lower-cased |
| DocumentList.IconOfDoubleExtension | src/components/DocumentList.tsx:12-17 | "escaneo.tar.gz" gets the generic icon: only the last extension counts |
| DocumentList.IconOfDotlessName | src/components/DocumentList.tsx:12-17 | a name without a dot, "pdf", is its own extension and gets the PDF icon |
| DocumentList.Linkage | src/components/DocumentList.tsx:49-61 | the case line and the client line each appear when truthy; "unlinked" exactly when neither does |
| DocumentList.LinkageNeverBlank | src/components/DocumentList.tsx:49-61 | the column shows either the links or "unlinked", never both and never nothing |
| DocumentList.TypeBadge | src/components/DocumentList.tsx:66 | the badge is never empty: the truthy file type, or "Archivo" |

## Left out

- Time zones and daylight saving time are not modelled. The browser's local clock is read through
  parameters: today and now as values, and the local date of an event's start as a parsing function.
  The one exception is the UTC offset in the finding below.
- `toLocaleDateString`/`toLocaleTimeString` labels and all other JSX rendering are left out, because
  they are presentation only. This covers CSS, tabs, the modal markup and the body scroll lock.
- The database, storage and signed-URL services are external. Each answer is a method parameter,
  so the model does not constrain what they return, including the sort order of a select.
- `getDownloadUrl` and its 60-second link expiry are left out, because they are service calls. Only
  the page's reaction to the link it gets back is modelled.
- `window.confirm`, `window.open` and `alert` are left out as browser I/O. A delete is modelled as
  confirmed, and the download action is returned as a value.
- `Math.random` in the storage path is a parameter, the token.
- Concurrency is left out: every state change runs to completion before the next one starts. Stale
  list values captured by closures are not modelled, and neither is the scheduling of effects:
  `Open` is the effect's body.
- Strings.ToLower: lower-cases ASCII letters only. JavaScript's full Unicode case mapping is not modelled.
- The ECMAScript time-value range, ±8.64e15 ms, is not modelled. Beyond it `Date` becomes invalid
  and `toISOString` throws. The model's dates are unbounded.
- LocalTime.MinuteText: stated for years 0..9999 only. `toISOString` writes other years with a sign
  and six digits.
- EventForm.DefaultTextsOneHourApart: stated for four-digit years only, for the same reason.
- LocalTime.MutableDate.SetMinutes: takes in-range minutes, seconds and milliseconds only. The form
  only ever passes zero for each, so the overflow of out-of-range arguments is not modelled.
- CalendarView.NextThenPrev: stated for years outside -1..99 only. Inside that range,
  `new Date(y, m, 1)` maps the year into the 1900s, and CalendarView.TwoDigitYearJump states that
  jump.
- CalendarView.PrevThenNext: stated for years outside 0..100 only, for the same reason.
- CalendarView.TodayMarkedOnce, CalendarView.EventPlacedOnce, CalendarView.PlacedCountIsMonthCount,
  CalendarView.GridDateClick, CalendarView.NextMonthRollover, CalendarView.PrevMonthRollover and
  CalendarView.FirstDayOfFollowingMonth: stated for shown years outside 0..99 only (outside -1..99
  for FirstDayOfFollowingMonth, whose next month from December of year -1 is in year 0). Those years are
  reachable ("previous" from January of year 100 shows December of year 99), and there the
  constructor reads the year as 1900 + y while the shown month keeps the two-digit year.
- CalendarView.Calendar.Title: states only that the month part of the header is a month name. The
  year part is plain rendering.
- CivilCalendar.ConstructValid: stated for years outside 0..99 only, because inside that range the
  constructor reads the year as 1900 + y.
- Some record columns are not modelled, because nothing in the core computes with them:
  - a case's amount, responsible lawyer, start date and creation time;
  - a client's proceedings count;
  - a document's uploader;
  - an event's lawyer and creation time.
- UseCases.CasesHook.UpdateCase: the column list of the case update payload is not modelled, because
  the hook reloads the list after the write and the stored row comes from the database.
- Setting each plain form field from its input is not modelled as a separate operation. Each is a
  one-field record update. Only the event form's client and case selectors have members, because
  they turn the empty option into no link.
- The edit and delete buttons of the Cases and Clients pages, and their confirmation dialog, are
  left out. They call the hook methods that are modelled.
- None of the four hooks (clients, cases, events, documents) clears `error` after a later
  successful fetch. The model keeps that behaviour, and FetchClients, FetchCases, FetchEvents and
  FetchDocuments each state that a successful fetch leaves the error as it was.
- The dashboard, agenda, account settings, theme and authentication files are not part of this
  model.

## Findings

| source | as written | input that shows it | evidently intended | confidence | as-written member | corrected member |
|---|---|---|---|---|---|---|
| src/components/EventForm.tsx:41-47 | the default start and end are filled in with `toISOString().slice(0, 16)`, which writes the moment on the UTC clock, but a `datetime-local` input reads its value as local time | a day picked on the calendar, 15 May 2024 at 00:00 local time, in a zone at UTC+2: the start field shows 2024-05-14T22:00, the previous day (EventForm.UtcMidnightShowsPreviousDay) | the fields show the picked day's local hour and one hour later (EventForm.LocalInputTextReadsBack, EventForm.DefaultTextsOneHourApart) | medium, not executed | EventForm.UtcInputText | EventForm.LocalInputText |
