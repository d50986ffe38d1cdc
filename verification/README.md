# Booking wizard model

A Dafny model of the consultation-booking wizard of the agency website
(`BookingSection`). The wizard walks a visitor through four steps: choose a
service, pick a date and a time slot on a month calendar, enter contact
details, and see a confirmation. The model covers everything in the
component that is logic rather than markup:

- the proleptic Gregorian arithmetic the calendar gets from the JavaScript
  `Date` object (`gregorian.dfy`): month lengths, leap years, day numbers
  with `Date`'s normalisation of out-of-range months and days, and weekdays;
- the decimal rendering of integers in template literals (`decimal.dfy`);
- the calendar cursor, the displayed (month, year), with its next/previous
  arrows (`cursor.dfy`);
- the calendar grid, the past-day and today flags of each cell, the stored
  date label and the highlight of the selected cell (`calendar_days.dfy`);
- the wizard state and its handlers (`wizard.dfy`);
- the page flow: which controls each step shows or disables, and the
  invariants that hold after any sequence of user actions (`flow.dfy`).

The component reads the clock; the model takes "today" as a parameter
`Date(year, month, day)` (months 0..11, as `getMonth` returns them). Every
`Date` the component compares (lines 233-237 and 281-284 of
`BookingSection.tsx`) is set to local midnight; from the clock readings at
lines 116 and 288 only the year, month and day are read, so today is a whole
date. Each date is therefore modelled as a whole day number, and `new Date(y, m, d)` as `Gregorian.MakeDay`, which
carries a month outside 0..11 into the year and adds the day linearly, as
`Date` does. That makes the "day 0 of the next month" idiom the component
uses for the month's length a proved fact (`Gregorian.DayZeroIsLastDay`)
rather than an assumption.

Behaviour the model keeps exactly as the code has it, even where a reader
might expect otherwise:

- "Book Another Consultation" only sets the step back to 1; the service,
  date, time, contact details and calendar month are kept, not reset
  (`Wizard.BookAnother`, `Wizard.BookAnotherKeepsDraft`).
- The stored date label uses the upper-case month names of the code:
  `"OCT, 20 2026"`, not `"Oct, 20 2026"`.
- Continuing from the date step tests JavaScript truthiness, so an empty
  date or time string counts as missing (`Wizard.Truthy`).
- Submitting sets step 4 unconditionally; the required-field checks belong
  to the browser.
- The back handler decrements the step without a guard; only the absence of
  a back control on step 1 keeps the step in range (`Flow.GoBackUnguarded`).

## Model

| member | source | states |
|---|---|---|
| Gregorian.DaysInMonth | src/Components/Common/BookingSection.tsx:184 | month length lies in 28..31; February has 28 days in common years and 29 exactly in leap years; the 30-day months are April, June, September and November, and the 31-day months exactly January, March, May, July, August, October and December |
| Gregorian.MakeDay | src/Components/Common/BookingSection.tsx:233 | `new Date(y, m, d)` as a day number: equals the plain day number for months 0..11, and in general is the first of the normalised month plus `d - 1` |
| Gregorian.WeekdayOf | src/Components/Common/BookingSection.tsx:185 | `getDay` of a day number is in 0..6 |
| Gregorian.DaysBeforeNextYear | src/Components/Common/BookingSection.tsx:184 | the day count, defined as summed year lengths, grows by exactly the year's length from one year to the next, also for years before 0 |
| Gregorian.DayFromYearStep | src/Components/Common/BookingSection.tsx:184 | the closed-form year start `Date` uses (365 days a year plus floor-division leap corrections by 4, 100 and 400) also grows by exactly the year's length (366 in leap years, 365 otherwise) |
| Gregorian.DayFromYearIsDaysBeforeYear | src/Components/Common/BookingSection.tsx:184 | the closed-form year start equals the summed year lengths since 1970 for every year |
| Gregorian.DaysBeforeYearMonotone | src/Components/Common/BookingSection.tsx:184 | every year ends no later than any later year begins |
| Gregorian.DaysBeforeNextMonth | src/Components/Common/BookingSection.tsx:184 | the cumulative month table agrees with the month lengths: each month starts its length after the previous one, and the twelve months fill the year |
| Gregorian.NextMonthStart | src/Components/Common/BookingSection.tsx:184 | the first of the next month, December into January included, is exactly the month's length after the first of the month |
| Gregorian.DayZeroIsLastDay | src/Components/Common/BookingSection.tsx:184 | `new Date(y, m + 1, 0)` is the valid date (y, m, DaysInMonth), so its day of month is the month's length |
| Gregorian.DayNumberOrder | src/Components/Common/BookingSection.tsx:233-237 | on valid dates, day-number order is exactly the calendar (year, month, day) order, and equal day numbers mean equal dates |
| Gregorian.NextMonthWeekday | src/Components/Common/BookingSection.tsx:185 | the weekday of the next month's first day is this month's first weekday shifted by the month's length, modulo 7 |
| Gregorian.WeekdayFromClosedForm | src/Components/Common/BookingSection.tsx:185 | the weekday of any date is (closed-form year start + days before the month + day − 1 + 4) mod 7, the computation `getDay` performs |
| Gregorian.KnownWeekdays | src/Components/Common/BookingSection.tsx:185 | that computation agrees with the real calendar on 1 January 1970 (Thursday), 1 January 2000 (Saturday), 29 February 2000 (Tuesday) and 1 October 2026 (Thursday) |
| Decimal.IntToString | src/Components/Common/BookingSection.tsx:238 | an integer renders as a non-empty string of digits, with a leading minus sign exactly when it is negative |
| Decimal.NatRoundTrip | src/Components/Common/BookingSection.tsx:238 | parsing the decimal rendering of a natural number gives the number back |
| Decimal.IntRoundTrip | src/Components/Common/BookingSection.tsx:238 | parsing the rendering of any integer, with its minus sign, gives the integer back |
| Decimal.IntToStringInjective | src/Components/Common/BookingSection.tsx:238 | two integers render alike exactly when they are equal |
| Decimal.NoSpace | src/Components/Common/BookingSection.tsx:238 | a rendered integer contains no space, so the space in the label separates day from year |
| CalendarCursor.Start | src/Components/Common/BookingSection.tsx:116-118 | the calendar opens on today's month and year |
| CalendarCursor.NextMonth | src/Components/Common/BookingSection.tsx:205-212 | the next-month arrow advances the cursor by exactly one month on the month timeline, keeping or incrementing the year |
| CalendarCursor.PrevMonth | src/Components/Common/BookingSection.tsx:214-229 | the previous-month arrow is a no-op on the current month and otherwise moves exactly one month back |
| CalendarCursor.IndexDetermines | src/Components/Common/BookingSection.tsx:205-229 | a cursor is determined by its month index: equal indices iff equal cursors, month = index mod 12, year = index div 12 |
| CalendarCursor.NotBeforeIsIndexOrder | src/Components/Common/BookingSection.tsx:219-221 | "not before the current (year, month)" in lexicographic order is the order of month indices |
| CalendarCursor.TwelveMonthsLater | src/Components/Common/BookingSection.tsx:205-212 | twelve next-month presses from (m, y) give (m, y + 1) |
| CalendarCursor.PrevUndoesNext | src/Components/Common/BookingSection.tsx:205-229 | from any month not before the current one, previous-month undoes next-month |
| CalendarCursor.NextUndoesPrev | src/Components/Common/BookingSection.tsx:205-229 | whenever previous-month moved the cursor, next-month undoes it |
| CalendarCursor.ReachableByNext | src/Components/Common/BookingSection.tsx:205-212 | every month not before the current one is reached from the start cursor by pressing next-month as many times as it is months ahead |
| CalendarCursor.NavigateStaysNotBefore | src/Components/Common/BookingSection.tsx:214-229 | no sequence of arrow presses takes a cursor that is not before the current month to one that is |
| CalendarCursor.PrevAtStartStays | src/Components/Common/BookingSection.tsx:219-221 | any number of previous-month presses at the current month keep the cursor there |
| CalendarDays.MonthLength | src/Components/Common/BookingSection.tsx:184 | the displayed month's length is the largest valid day of the month, lies in 28..31, and is the day `new Date(y, m + 1, 0)` falls on |
| CalendarDays.FirstWeekday | src/Components/Common/BookingSection.tsx:185 | the number of padding cells lies in 0..6 |
| CalendarDays.Grid | src/Components/Common/BookingSection.tsx:187-188 | the grid has FirstWeekday padding cells followed by the days 1..MonthLength in order, and nothing else |
| CalendarDays.GridColumnIsWeekday | src/Components/Common/BookingSection.tsx:185-188 | day d of the month is a valid date, is the grid cell at FirstWeekday + d − 1, and that cell's column (index mod 7) is the date's true weekday under the Sun..Sat headers |
| CalendarDays.IsPastDate | src/Components/Common/BookingSection.tsx:280-285 | for a real day of the displayed month, isPastDate is strict calendar precedence before today; on today's month it compares the day of month alone |
| CalendarDays.IsToday | src/Components/Common/BookingSection.tsx:287-292 | isToday holds exactly when the cell's date is today's date, and such a cell is never past |
| CalendarDays.PastIsBeforeToday | src/Components/Common/BookingSection.tsx:280-292 | for a day of the displayed month, isPastDate is exactly "strictly before today" in calendar order and isToday is exactly "equal to today" |
| CalendarDays.TodayIsNotPast | src/Components/Common/BookingSection.tsx:280-292 | a cell flagged today is never flagged past |
| CalendarDays.PastDaysOfShownMonth | src/Components/Common/BookingSection.tsx:280-285 | on any month the calendar can show, the past days are exactly the current month's days before today; later months have none |
| CalendarDays.Abbreviation | src/Components/Common/BookingSection.tsx:190-193 | the month's abbreviation has three characters |
| CalendarDays.AbbreviationRoundTrip | src/Components/Common/BookingSection.tsx:190-193 | the three-letter abbreviations of the twelve month names are distinct: each reads back to its month |
| CalendarDays.Label | src/Components/Common/BookingSection.tsx:238 | the stored label starts with the month's three letters, which read back to the month, then ", ", then the day and the year separated by a space |
| CalendarDays.SplitAtSpace | src/Components/Common/BookingSection.tsx:238 | a string of the form a + " " + b with no space in a splits back into a and b uniquely |
| CalendarDays.LabelInjective | src/Components/Common/BookingSection.tsx:238 | two date labels are equal exactly when month, year and day are equal |
| CalendarDays.IsSelected | src/Components/Common/BookingSection.tsx:614 | no cell is highlighted with no date stored; once a day of the shown month is stored, a cell of that month is highlighted exactly when it is that day |
| CalendarDays.SelectionHighlightsOneCell | src/Components/Common/BookingSection.tsx:614 | once day d of a month is stored, a cell is highlighted exactly when it is day d of that same month and year |
| Wizard.Init | src/Components/Common/BookingSection.tsx:103-118 | the wizard mounts on step 1 with no service, date or time, empty fields, country code "+1", and the calendar on today's month |
| Wizard.Truthy | src/Components/Common/BookingSection.tsx:275 | the JavaScript truthiness of a stored date or time: null and the empty string are false, every other string true |
| Wizard.SelectService | src/Components/Common/BookingSection.tsx:246-248 | choosing a service stores it and changes nothing else |
| Wizard.ClickTime | src/Components/Common/BookingSection.tsx:242-244 | choosing a time slot stores it and changes nothing else |
| Wizard.ClickDate | src/Components/Common/BookingSection.tsx:231-240 | a past day leaves the state unchanged; any other day stores the label of that day of the displayed month; nothing but the date changes |
| Wizard.InputChange | src/Components/Common/BookingSection.tsx:250-253 | a text input sets its own field and leaves the other fields, the country code and the rest of the state untouched |
| Wizard.CountryCodeChange | src/Components/Common/BookingSection.tsx:255-257 | the country-code select sets only the country code |
| Wizard.NextMonthClick | src/Components/Common/BookingSection.tsx:205-212 | the calendar moves one month forward and nothing else changes |
| Wizard.PrevMonthClick | src/Components/Common/BookingSection.tsx:214-229 | on the current month nothing changes; otherwise the calendar moves one month back and nothing else changes |
| Wizard.Submit | src/Components/Common/BookingSection.tsx:259-262 | submitting sets step 4 and changes nothing else |
| Wizard.GoBack | src/Components/Common/BookingSection.tsx:264-266 | going back decrements the step, unguarded, and changes nothing else |
| Wizard.ProceedToDateSelection | src/Components/Common/BookingSection.tsx:268-272 | continuing sets step 2 when a service is chosen and is a no-op otherwise |
| Wizard.ProceedToRegistration | src/Components/Common/BookingSection.tsx:274-278 | continuing sets step 3 when both date and time are set and non-empty, and is a no-op otherwise |
| Wizard.BookAnother | src/Components/Common/BookingSection.tsx:986 | "Book Another" sets step 1 and keeps service, date, time, contact details and calendar month |
| Wizard.ServiceTitle | src/Components/Common/BookingSection.tsx:294-296 | the shown title is the chosen service's title, or "No service selected" |
| Wizard.ProgressPercent | src/Components/Common/BookingSection.tsx:299-305 | progress is 25 times the step for steps 1..4 and 0 for any other step |
| Wizard.ServiceLastWriteWins | src/Components/Common/BookingSection.tsx:246-248 | a second service choice replaces the first entirely (and its title is shown); two choices give the same service only if they are the same service |
| Wizard.TimeLastWriteWins | src/Components/Common/BookingSection.tsx:242-244 | a second time choice replaces the first |
| Wizard.InputChangesCommute | src/Components/Common/BookingSection.tsx:250-253 | edits to different inputs commute; a second edit to the same input overrides the first |
| Wizard.ClickDateSelectsOneCell | src/Components/Common/BookingSection.tsx:231-240 | a day click changes the date only if the day is not past; after a successful click exactly that cell of the month is highlighted; today's cell is always accepted |
| Wizard.BackThenContinue | src/Components/Common/BookingSection.tsx:264-278 | going back from step 2 or 3 and continuing again restores the same state |
| Wizard.BookAnotherKeepsDraft | src/Components/Common/BookingSection.tsx:986 | after "Book Another", continuing twice returns to step 3 with the previous draft unchanged |
| Flow.Press | src/Components/Common/BookingSection.tsx:494-986 | a click on a hidden or disabled control leaves the state unchanged; `Flow.Enabled` gives each control's exposure and disabled condition: Continue at :494-496, Back at :524 and :731, the previous-month arrow at :573, day cells at :611-625, time slots at :663-672, Continue at :701-703, the contact form's submit at :749 and :880-881, and Book Another at :986 |
| Flow.InitEstablishes | src/Components/Common/BookingSection.tsx:103-118 | the initial state satisfies the wizard invariant |
| Flow.PressPreserves | src/Components/Common/BookingSection.tsx:205-278 | every action on a shown, enabled control keeps: step in 1..4, step ≥ 2 implies a service, step ≥ 3 implies a date and a time, the calendar not before the current month, and a stored date that is the label of some valid, non-past day, with every cell bearing that label such a day |
| Flow.ShortDateNotBookable | src/Components/Common/BookingSection.tsx:231-240 | a stored date shorter than any label, such as "x", violates the invariant: only a day's label can be stored |
| Flow.RunPreserves | src/Components/Common/BookingSection.tsx:205-278 | the invariant is kept by any sequence of actions |
| Flow.Reachable | src/Components/Common/BookingSection.tsx:409-986 | every state reachable from the mounted state, under the per-step controls, satisfies the invariant |
| Flow.PressMovesAdjacent | src/Components/Common/BookingSection.tsx:259-278 | one action changes the step by at most one, except that the confirmation step restarts at step 1 |
| Flow.GoBackUnguarded | src/Components/Common/BookingSection.tsx:264-266 | the back handler alone takes step 1 to step 0 (progress 0); only the missing back control on step 1 prevents it |
| Flow.RunAppend | src/Components/Common/BookingSection.tsx:205-278 | running two action sequences in turn equals running their concatenation |
| Flow.PickDayFromToday | src/Components/Common/BookingSection.tsx:231-240 | on the month the calendar opens on, every day from today to the month's last day is enabled and picking it stores exactly its label, changing nothing else |
| Flow.ServiceWalkThrough | src/Components/Common/BookingSection.tsx:246-272 | from step 1, choosing the second service and continuing reaches step 2 with that service and nothing else changed |
| Flow.TimeWalkThrough | src/Components/Common/BookingSection.tsx:242-278 | with a date stored on step 2, picking 10:00 am and continuing reaches step 3 with that time and nothing else changed |
| Flow.BookingWalkThrough | src/Components/Common/BookingSection.tsx:231-278 | for any valid today and any day from today to the end of the month: choosing the second service, continuing, picking that day at 10:00 am and continuing reaches step 3 holding that service, that day's label and that time, with the form and cursor as mounted |
| Flow.ContactWalkThrough | src/Components/Common/BookingSection.tsx:250-262 | from step 3 with the initial form, typing name, email and phone, choosing +44 and confirming reaches step 4 with exactly those fields, the message still empty, and nothing else changed |
| Flow.WalkThrough | src/Components/Common/BookingSection.tsx:103-278 | the whole walk-through ends on the confirmation holding exactly the entered service, date label, time and contact details |
| CalendarDays.OctoberLabel | src/Components/Common/BookingSection.tsx:238 | picking the 20th while October 2026 is displayed stores the upper-case label "OCT, 20 2026" |

## Left out

- Rendering, styling, react-bootstrap components, icons and animation variants: presentational only. The confirmation view's text is not modelled; `Flow.WalkThrough` states the state fields it displays.
- The route table (`src/Routes/routes.tsx`): a static path-to-page table whose matching lives in the router library, which is not part of this model.
- The clock: "today" is a fixed parameter. Time zones, daylight-saving changes and "today" changing between renders are not modelled.
- The `Date` constructor's mapping of years 0..99 to 1900..1999 and its range limit of about 275 000 years: the model uses the year as given. The cursor starts at the clock's year and never goes below it, so only a clock set before year 100 would reach the mapping.
- Browser form validation (`required`, `type="email"`): the browser enforces it before `handleSubmit`, which sets step 4 unconditionally.
- React state batching and stale closures: each handler is one atomic update of the whole state.
- The catalogues (services, country codes, time slots) are fixed sequences; service icons are dropped.
- JavaScript numbers are modelled as unbounded integers: every value involved (days, months, years) is an exact integer in double precision.
