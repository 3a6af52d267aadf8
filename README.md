# ShreeNathEvents interactive core in Dafny

This project models the parts of the ShreeNathEvents site (a React site for an
event-decoration business) that hold state or compute something. It states and
proves what those parts promise.

- **Date picker** (`src/components/ui/Calendar.jsx`): the month grid, with
  leading blanks for a Monday-first week. Each date sits in its weekday column,
  there are four to six rows, no date appears twice, and at most one cell is
  highlighted. A click selects only a date of the displayed month. Prev and
  Next month carry correctly across year boundaries. Dates follow the
  ECMAScript `Date` rules (`dates.dfy`):
  - the constructor's month and day carry;
  - day 0 is the last day of the previous month;
  - the Gregorian leap rule;
  - the two-digit-year rule.
- **Consultation booking** (`src/components/sections/BookingSection.jsx`): three
  steps. Step 2 appears after a date is chosen. Proceed is enabled exactly
  when a date is chosen and no field is empty. The fields can be cleared again
  on step 3, which is why the confirmation dialog falls back to "Client" and
  "Event".
- **Decoration catalogue** (`src/components/pages/EventDecoration.jsx` and
  `src/pages/EventDecoration.jsx`): twelve themes with a case-insensitive
  substring search.
  - The search keeps exactly the matching themes, in order, and keeps ids
    distinct.
  - The empty term shows everything.
  - A search for "WEDDING" finds exactly the two wedding themes.
  - Each screen's handlers (search bar, request dialog, outside-press listener,
    card buttons) are modelled with their guards.
- **Upcoming events** (`src/components/Events.jsx`): the category filter
  partitions the six events. The hover highlight never marks two cards.
- **Services** (`src/components/Services.jsx`): the all/featured filter and the
  "learn more" routing. The decoration card navigates; every other card opens
  the "coming soon" dialog about itself.
- **Contact form** (`src/components/Contact.jsx`): the simulated send and its
  two timers, modelled as explicit events.
  - What is sent is the form as it was at submission.
  - The form is cleared afterwards.
  - A reset timer left over from an earlier send also ends a later thank-you
    panel.
- **Header** (`src/components/layout/Header.jsx`): the `cls` class joiner, the
  English/Hindi toggle and the menu button.
- **Testimonials** (`src/components/sections/TestimonialsSection.jsx`): the
  sliding strip and its dots. Exactly one dot is active.

Components that keep state and whose handlers change it step by step are
classes with `modifies` clauses:
- `Calendar`;
- `BookingSection`;
- `EventDecorationScreen`;
- `ServicesSection`;
- `ContactSection`;
- `Carousel`.

A handler whose control is not on the page is a no-op rather than a
precondition. The page version of the decoration screen and the events
section replace whole state values, so they are state records with one
function per handler. The header's helpers are pure functions.

Shared pieces:
- `seqs.dfy`: an optional value, subsequences, distinctness and a generic
  filter;
- `text.dfy`: lower-casing, substring search, join and split.

## Model

| member | source | states |
|---|---|---|
| Dates.IsLeapYear | src/components/ui/Calendar.jsx:9 | the Gregorian leap rule (divisible by 4, and not by 100 unless by 400); FebruaryLength ties it to the length of February |
| Dates.DaysInMonth | src/components/ui/Calendar.jsx:9 | the length of month m of year y, between 28 and 31; FebruaryLength, MonthsFillYear and EndOfMonthIsLastDay characterise it |
| Dates.WeekDay | src/components/ui/Calendar.jsx:17 | `getDay()`, between 0 and 6; EpochIsThursday fixes it at 1970-01-01 and NewDateWeekDay gives how it advances through a month |
| Dates.DaysInYear | src/components/ui/Calendar.jsx:8-10 | a year that the date constructor builds has 365 or 366 days |
| Dates.MakeFullYear | src/components/ui/Calendar.jsx:8-10 | a year argument from 0 to 99 means 1900 to 1999; any other year is taken as given |
| Dates.NewDate | src/components/ui/Calendar.jsx:8-10 | `new Date(y, m, d)` always yields an existing calendar date, whatever m and d are |
| Dates.FebruaryLength | src/components/ui/Calendar.jsx:9 | February has 29 days exactly in leap years (the one-line rule agrees with the four-way case split) |
| Dates.DayFromYearMatchesFormula | src/components/ui/Calendar.jsx:8-10 | the year-by-year day count equals the closed DayFromYear formula of ECMA-262 |
| Dates.DaysBeforeMonthTable | src/components/ui/Calendar.jsx:8-10 | the days before each month are the standard's offsets 0, 31, 59, …, 334, plus the leap day from March on |
| Dates.MonthsFillYear | src/components/ui/Calendar.jsx:9 | the twelve month lengths add up to the length of the year |
| Dates.NewDateDayNumber | src/components/ui/Calendar.jsx:8-10 | `new Date(y, m, d)` lies d − 1 days after the 1st of month m mod 12 of the carried year |
| Dates.DayNumberInjective | src/components/ui/Calendar.jsx:11 | two existing dates with the same day number are the same date |
| Dates.NewDateInjective | src/components/ui/Calendar.jsx:19 | different day arguments for the same month give different dates |
| Dates.NewDateWeekDay | src/components/ui/Calendar.jsx:17-19 | day 1 + k of a month falls k weekdays after day 1 |
| Dates.NewDateInMonth | src/components/ui/Calendar.jsx:19 | an existing day of the month is built as exactly that date |
| Dates.NewDateDayZero | src/components/ui/Calendar.jsx:9 | day 0 of the next month is the last day of this month, across December too |
| Dates.EpochIsThursday | src/components/ui/Calendar.jsx:17 | 1 January 1970 has day number 0 and is a Thursday (getDay() 4) |
| CalendarWidget.StartOfMonth | src/components/ui/Calendar.jsx:8 | `new Date(year, month, 1)`; StartOfMonthIsFirst shows it is day 1 of the same month |
| CalendarWidget.StartOfMonthIsFirst | src/components/ui/Calendar.jsx:8 | `startOfMonth(date)` is day 1 of date's month, in the year the constructor makes of date's year |
| CalendarWidget.EndOfMonth | src/components/ui/Calendar.jsx:9 | `new Date(year, month + 1, 0)`; EndOfMonthIsLastDay shows it is the last day of the same month |
| CalendarWidget.AddMonths | src/components/ui/Calendar.jsx:10 | `new Date(year, month + m, 1)`; AddMonthsCarries gives its year and month, and AddMonthsCompose its composition |
| CalendarWidget.IsSameDay | src/components/ui/Calendar.jsx:11 | both cells hold a date and the two dates agree in year, month and day; AtMostOneHighlighted uses it |
| CalendarWidget.MondayFirst | src/components/ui/Calendar.jsx:17 | `(getDay() + 6) % 7` puts Monday in column 0 and Sunday in column 6, one column before getDay() |
| CalendarWidget.Offset | src/components/ui/Calendar.jsx:17 | the number of leading blanks is between 0 and 6 |
| CalendarWidget.Blanks | src/components/ui/Calendar.jsx:18 | the first loop pushes exactly n null cells |
| CalendarWidget.DatesUpTo | src/components/ui/Calendar.jsx:19 | the dates the second loop has pushed after n rounds, n of them; DatesUpToAt states round k |
| CalendarWidget.MonthDays | src/components/ui/Calendar.jsx:19 | every date the second loop pushes, as many as the month has days; MonthDaysAreDisplayedMonth characterises them |
| CalendarWidget.Rows | src/components/ui/Calendar.jsx:20-21 | consecutive `days.slice(i, i + 7)`; RowsShape and RowsFlatten characterise it |
| CalendarWidget.Flatten | src/components/ui/Calendar.jsx:38 | `rows.flat()`; RowsFlatten shows it undoes Rows |
| CalendarWidget.Days | src/components/ui/Calendar.jsx:16-19 | the `days` array: Offset blanks, then day 1 to the last day of the month; DaysAt, DaysDistinct and MonthDaysAreDisplayedMonth characterise it |
| CalendarWidget.GridRows | src/components/ui/Calendar.jsx:13-23 | the value of `grid()`: the rows of Days; Grid computes it, RowsShape and GridRowCount give its shape |
| CalendarWidget.Activate | src/components/ui/Calendar.jsx:39 | a click hands a date to onSelect exactly when the cell holds one (blank buttons are disabled), and hands that cell's date |
| CalendarWidget.Calendar.constructor | src/components/ui/Calendar.jsx:7 | the widget opens on the clock's current date |
| CalendarWidget.Calendar.PrevMonth | src/components/ui/Calendar.jsx:30 | Prev shows `addMonths(month, -1)` |
| CalendarWidget.Calendar.NextMonth | src/components/ui/Calendar.jsx:32 | Next shows `addMonths(month, 1)` |
| CalendarWidget.Calendar.Grid | src/components/ui/Calendar.jsx:13-23 | `grid()` returns the rows of the displayed month's cell list |
| CalendarWidget.BuildDays | src/components/ui/Calendar.jsx:16-19 | the two filling loops produce the blanks followed by day 1 to the last day of the month |
| CalendarWidget.CutRows | src/components/ui/Calendar.jsx:20-21 | the slicing loop produces the consecutive rows of seven |
| CalendarWidget.Calendar.Click | src/components/ui/Calendar.jsx:38-39 | a click on cell i of `grid().flat()` selects that cell's date, and nothing for a blank or a missing cell; a selected date is an existing day of the displayed month and year |
| CalendarWidget.RowsFirst | src/components/ui/Calendar.jsx:21 | cutting from position j starts with `days.slice(j, j + 7)` and continues from j + 7 |
| CalendarWidget.RowsFlatten | src/components/ui/Calendar.jsx:38 | `rows.flat()` gives back the cell list: nothing lost, repeated or reordered |
| CalendarWidget.RowsShape | src/components/ui/Calendar.jsx:21 | row r is the slice from 7r to 7r + 7; every row but the last is full, the last has 1 to 7 cells, and there are ceil(n / 7) rows |
| CalendarWidget.GridRowCount | src/components/ui/Calendar.jsx:13-23 | a month has 28 to 37 cells and four to six rows |
| CalendarWidget.DatesUpToAt | src/components/ui/Calendar.jsx:19 | round k of the second loop pushes day k + 1 |
| CalendarWidget.DaysAt | src/components/ui/Calendar.jsx:16-19 | the cells before the offset are blank; cell offset + k is day k + 1 |
| CalendarWidget.DayColumn | src/components/ui/Calendar.jsx:17-19 | day k + 1 lands in the Monday-first column of its own weekday |
| CalendarWidget.DateInWeekdayColumn | src/components/ui/Calendar.jsx:35-39 | every date stands under its own weekday in the Mon..Sun header |
| CalendarWidget.DaysDistinct | src/components/ui/Calendar.jsx:19 | two different cells never hold the same date |
| CalendarWidget.AtMostOneHighlighted | src/components/ui/Calendar.jsx:39 | at most one cell gets the `ring-2 ring-gold` selection class |
| CalendarWidget.DateCell | src/components/ui/Calendar.jsx:39 | a non-blank cell lies past the offset and holds day i − offset + 1 |
| CalendarWidget.EndOfMonthIsLastDay | src/components/ui/Calendar.jsx:9 | `endOfMonth` is the month's last day: 31, 30, or 28/29 for February by the leap rule |
| CalendarWidget.MonthDaysAreDisplayedMonth | src/components/ui/Calendar.jsx:19 | the dates in the grid are day 1 to the last day of the displayed month, in order |
| CalendarWidget.SelectionIsInDisplayedMonth | src/components/ui/Calendar.jsx:39 | a click selects only an existing date of the displayed month, and a blank selects nothing |
| CalendarWidget.AddMonthsCarries | src/components/ui/Calendar.jsx:10 | for every year, `addMonths(d, k)` is the 1st of the month k months away from d's month in the year the constructor makes of d's year, with the month carried into the year |
| CalendarWidget.YearRollOver | src/components/ui/Calendar.jsx:30-32 | for every year, Prev from January shows December of the year before and Next from December shows January of the year after, both counted from the year the constructor makes of y |
| CalendarWidget.AddMonthsCompose | src/components/ui/Calendar.jsx:10 | j months then k months is j + k months |
| CalendarWidget.NextThenPrev | src/components/ui/Calendar.jsx:30-32 | Next then Prev returns to the 1st of the original month |
| CalendarWidget.YearForwardAndBack | src/components/ui/Calendar.jsx:30-32 | twelve months on and twelve back return to the 1st of the original month, when the constructor takes both years literally |
| CalendarWidget.CenturyJump | src/components/ui/Calendar.jsx:10 | Prev from January 100 shows December 99, and Next from there jumps to January 2000 |
| Booking.With | src/components/sections/BookingSection.jsx:44-52 | `{ ...form, f: v }` sets field f to v and keeps every other field |
| Booking.FormExtensional | src/components/sections/BookingSection.jsx:16 | two forms that agree on all seven fields are equal |
| Booking.EditUndone | src/components/sections/BookingSection.jsx:44-52 | typing into a field and restoring its old value gives back the same form; of two edits to one field the second wins |
| Booking.EditsCommute | src/components/sections/BookingSection.jsx:44-52 | edits to two different fields give the same form in either order |
| Booking.MissingIn | src/components/sections/BookingSection.jsx:62 | the missing fields are exactly the empty ones |
| Booking.MissingFields | src/components/sections/BookingSection.jsx:62 | the empty fields among all seven, in page order; ProceedEnabledIff ties it to the button |
| Booking.ProceedEnabled | src/components/sections/BookingSection.jsx:62 | the negation of the `disabled` expression: a date is selected and all seven fields are non-empty |
| Booking.ProceedEnabledIff | src/components/sections/BookingSection.jsx:62 | Proceed is enabled if and only if a date is selected and no field is empty |
| Booking.ShownName | src/components/sections/BookingSection.jsx:97 | the entered name, or "Client" when the field is empty |
| Booking.ShownEventType | src/components/sections/BookingSection.jsx:97 | the entered event type, or "Event" |
| Booking.ConfirmationMessage | src/components/sections/BookingSection.jsx:97 | the dialog's text; ConfirmationNamesClient states what it begins with |
| Booking.ConfirmationNamesClient | src/components/sections/BookingSection.jsx:97 | the dialog text starts "Thank you, " followed by the shown name |
| Booking.BookingSection.constructor | src/components/sections/BookingSection.jsx:14-17 | no date, step 1, all seven fields empty, dialog closed |
| Booking.BookingSection.DetailsShown | src/components/sections/BookingSection.jsx:39 | the details panel is rendered from step 2 on; EditField and ClickProceed act only while it is |
| Booking.BookingSection.FeeButtonShown | src/components/sections/BookingSection.jsx:67 | the consultation-fee panel is rendered from step 3 on; ClickConsultationFee acts only while it is |
| Booking.BookingSection.SelectDate | src/components/sections/BookingSection.jsx:36 | choosing a date stores it and shows step 2, also from step 3 |
| Booking.BookingSection.EditField | src/components/sections/BookingSection.jsx:44-58 | edits take effect only while step 2 is shown; the budget accepts only its five option values |
| Booking.BookingSection.ClickProceed | src/components/sections/BookingSection.jsx:62 | Proceed moves to step 3 only when it is shown and enabled |
| Booking.BookingSection.ClickConsultationFee | src/components/sections/BookingSection.jsx:72 | the fee button opens the dialog once step 3 is shown |
| Booking.BookingSection.CloseConfirm | src/components/sections/BookingSection.jsx:95-98 | the close icon and the Close button close the dialog |
| Booking.FillDetails | src/components/sections/BookingSection.jsx:44-58 | filling every field on step 2 leaves no field missing |
| Booking.FilledThenCleared | src/components/sections/BookingSection.jsx:62-97 | after Proceed, the name can be cleared on step 3, so the dialog thanks "Client" |
| Header.Truthy | src/components/layout/Header.jsx:5 | `Boolean(arg)` for a class argument: a non-empty string; KeptNamesExact and KeptNamesIsFilter use it |
| Header.KeptNames | src/components/layout/Header.jsx:5 | `filter(Boolean)` never lengthens the list and keeps only non-empty strings; which strings and in what order is fixed by KeptNamesExact, KeptNamesIsFilter and KeptNamesInOrder |
| Header.KeptNamesIsFilter | src/components/layout/Header.jsx:5 | the kept strings are exactly `classes.filter(p)` with p JavaScript truthiness, in the same order |
| Header.KeptNamesExact | src/components/layout/Header.jsx:5 | a string is kept exactly when it is non-empty and passed as an argument |
| Header.KeptNamesInOrder | src/components/layout/Header.jsx:5 | the kept strings appear in the order of the arguments |
| Header.KeptNamesEmpty | src/components/layout/Header.jsx:5 | nothing survives the filter exactly when no argument is truthy |
| Header.Cls | src/components/layout/Header.jsx:5 | the kept strings joined by single spaces; ClsEmpty and ClsSplitsBack characterise it |
| Header.ClsEmpty | src/components/layout/Header.jsx:5 | `cls` returns '' exactly when no argument is truthy |
| Header.ClsSplitsBack | src/components/layout/Header.jsx:5 | when some argument is truthy and no argument string contains a space, splitting the joined classes at spaces gives back the truthy arguments in order (the calls at lines 24 and 39 pass multi-class strings, so it does not apply to them) |
| Header.ToggleLanguage | src/components/layout/Header.jsx:9 | the toggle switches 'en' to 'hi' and every other value to 'en' |
| Header.ToggleLabel | src/components/layout/Header.jsx:13 | the visible label: Hindi in Devanagari while the language is 'en', else "English"; LabelsNameTarget relates it to the toggle |
| Header.ToggleAriaLabel | src/components/layout/Header.jsx:10 | the aria-label "Switch to Hindi" or "Switch to English"; LabelsNameTarget relates it to the toggle |
| Header.LabelsNameTarget | src/components/layout/Header.jsx:10-13 | the visible label and the aria-label both name the language a click switches to |
| Header.ToggleTwice | src/components/layout/Header.jsx:9 | two clicks return to 'en' or 'hi'; any other value becomes 'en' |
| Header.ToggleMenu | src/components/layout/Header.jsx:53 | the menu button always flips the menu |
| Header.MenuAriaLabel | src/components/layout/Header.jsx:55 | "Close menu" while the menu is open, else "Open menu"; MenuLabelNamesAction relates it to the click |
| Header.MenuLabelNamesAction | src/components/layout/Header.jsx:53-55 | the aria-label reads "Open menu" exactly when a click opens the menu and "Close menu" exactly when it closes it |
| Decorations.Matches | src/components/pages/EventDecoration.jsx:103 | the lower-cased name contains the lower-cased term; EmptyTermMatches, MissingLetter, StartsWithTerm and SearchCaseInsensitive characterise it |
| Decorations.SearchIn | src/components/pages/EventDecoration.jsx:102-104 | the filter never lengthens the list |
| Decorations.SearchExact | src/components/pages/EventDecoration.jsx:102-104 | the search keeps exactly the themes whose lower-cased name contains the lower-cased term |
| Decorations.SearchNoneMatch | src/pages/EventDecoration.jsx:104-106 | when no name matches, nothing is shown |
| Decorations.SearchAllMatch | src/pages/EventDecoration.jsx:104-106 | when every name matches, everything is shown |
| Decorations.EmptyTermMatches | src/components/pages/EventDecoration.jsx:103 | every name contains the empty term |
| Decorations.FilteredEvents | src/components/pages/EventDecoration.jsx:102-104 | the catalogue searched for the term; FilteredHasDistinctIds and WeddingSearch state what it holds |
| Decorations.DisplayEvents | src/components/pages/EventDecoration.jsx:107 | `searchTerm ? filteredEvents : eventTypes`; DisplayIsFiltered shows it equals FilteredEvents for every term |
| Decorations.DisplayIsFiltered | src/components/pages/EventDecoration.jsx:107 | `searchTerm ? filteredEvents : eventTypes` always equals filteredEvents, and the empty term shows the whole catalogue |
| Decorations.SearchIsSubsequence | src/components/pages/EventDecoration.jsx:102-104 | the results keep catalogue order |
| Decorations.SearchKeepsDistinctIds | src/components/pages/EventDecoration.jsx:102-104 | the search never produces repeated ids from a list without them |
| Decorations.CatalogueDistinctIds | src/components/pages/EventDecoration.jsx:6-79 | the twelve theme ids are distinct |
| Decorations.FilteredHasDistinctIds | src/pages/EventDecoration.jsx:104-106 | every search result has distinct card keys and keeps catalogue order |
| Decorations.SearchCaseInsensitive | src/components/pages/EventDecoration.jsx:103 | terms that lower-case alike find the same themes |
| Decorations.SearchIsFilter | src/components/pages/EventDecoration.jsx:102-104 | the search is Array.prototype.filter with the name predicate |
| Decorations.SearchAppend | src/components/pages/EventDecoration.jsx:102-104 | searching a concatenation searches each part |
| Decorations.MissingLetter | src/components/pages/EventDecoration.jsx:103 | a name without one of the term's letters, in either case, does not match |
| Decorations.StartsWithTerm | src/components/pages/EventDecoration.jsx:103 | a name that starts with the term, ignoring case, matches |
| Decorations.WeddingSearch | src/components/pages/EventDecoration.jsx:6-104 | searching "WEDDING" shows "Wedding Anniversaries" then "Wedding Reception", and nothing else |
| DecorationComponent.SearchAriaLabel | src/components/pages/EventDecoration.jsx:169 | "Close search" while the bar is shown, else "Open search"; ToggleSearch shows it names what the click does |
| DecorationComponent.EventDecorationScreen.constructor | src/components/pages/EventDecoration.jsx:82-86 | nothing selected, empty term, search bar and dialog closed |
| DecorationComponent.EventDecorationScreen.Shown | src/components/pages/EventDecoration.jsx:227 | the cards rendered, `displayEvents` for the current term; ClearSearch, SelectEvent and DisplayWithinCatalogue state what it holds |
| DecorationComponent.EventDecorationScreen.ToggleSearch | src/components/pages/EventDecoration.jsx:109-118 | the toggle flips the bar and clears the term both when opening and when closing (the focus branch needs an input that is not mounted yet); the aria-label read before the click says "Open search" exactly when the click opens the bar |
| DecorationComponent.EventDecorationScreen.TypeSearch | src/components/pages/EventDecoration.jsx:177-192 | typing sets the term only while the bar (and so the input) is shown |
| DecorationComponent.EventDecorationScreen.ClearSearch | src/components/pages/EventDecoration.jsx:195-197 | after the clear button the term is empty and the whole catalogue is shown |
| DecorationComponent.EventDecorationScreen.OpenRequestForm | src/components/pages/EventDecoration.jsx:149-158 | both request buttons open the dialog and change nothing else |
| DecorationComponent.EventDecorationScreen.CloseRequestForm | src/components/pages/EventDecoration.jsx:317-348 | the backdrop and the X button close the dialog |
| DecorationComponent.EventDecorationScreen.MouseDown | src/components/pages/EventDecoration.jsx:92-100 | a mouse press closes an open dialog exactly when it lands outside the dialog's content |
| DecorationComponent.EventDecorationScreen.SelectEvent | src/components/pages/EventDecoration.jsx:266-278 | a card's buttons select that card's theme only when the card is shown |
| DecorationComponent.DisplayWithinCatalogue | src/components/pages/EventDecoration.jsx:107 | every shown card is a catalogue theme |
| DecorationComponent.SearchAndClose | src/components/pages/EventDecoration.jsx:109-192 | searching "WEDDING" shows the two wedding themes; closing the bar restores the whole catalogue with an empty term |
| DecorationComponent.ReopenForgetsTerm | src/components/pages/EventDecoration.jsx:109-118 | reopening the bar never brings back an earlier term |
| DecorationPage.Shown | src/pages/EventDecoration.jsx:177 | the cards rendered, `displayEvents` for the current term; InputsShareTerm, DialogRoundTrip and InitialShowsAll state what it holds |
| DecorationPage.TypeSearch | src/pages/EventDecoration.jsx:130 | either input sets the shared term and nothing else |
| DecorationPage.OpenRequest | src/pages/EventDecoration.jsx:136 | "Request Custom" opens the dialog and nothing else |
| DecorationPage.CloseRequest | src/pages/EventDecoration.jsx:245-261 | the backdrop, the X button and an outside press all close the dialog and nothing else |
| DecorationPage.SelectEvent | src/pages/EventDecoration.jsx:215-221 | a card's buttons select that card's theme only when the card is shown |
| DecorationPage.InputsShareTerm | src/pages/EventDecoration.jsx:129-169 | the wide-screen and narrow-screen inputs have the same effect, and the cards are the filtered themes |
| DecorationPage.HandlersKeepReachable | src/pages/EventDecoration.jsx:81-261 | every handler keeps the selected theme inside the catalogue |
| DecorationPage.DialogRoundTrip | src/pages/EventDecoration.jsx:136-261 | opening and dismissing the dialog leaves the rest of the page, and the cards, unchanged |
| DecorationPage.CloseIdempotent | src/pages/EventDecoration.jsx:245-261 | dismissing twice is the same as dismissing once |
| DecorationPage.LastTypingWins | src/pages/EventDecoration.jsx:130-169 | the last text typed decides the term, whichever input got it |
| DecorationPage.InitialShowsAll | src/pages/EventDecoration.jsx:81-108 | the page opens showing every theme in order |
| DecorationPage.SelectionAfterSearch | src/pages/EventDecoration.jsx:104-221 | after a search, selection succeeds exactly for matching catalogue themes |
| EventsSection.InCategory | src/components/Events.jsx:62 | the filter never lengthens the list |
| EventsSection.Filtered | src/components/Events.jsx:60-62 | `filteredEvents`: every event for 'All', else the events of the category; FilteredIsSelection characterises it |
| EventsSection.Ids | src/components/Events.jsx:94 | the card keys are the events' ids, in order |
| EventsSection.InCategoryExact | src/components/Events.jsx:62 | the filter keeps exactly the events of the category |
| EventsSection.InCategoryIsSubsequence | src/components/Events.jsx:62 | the filter keeps the order of the events |
| EventsSection.FilteredIsSelection | src/components/Events.jsx:60-62 | for every category, including 'All', the shown list is an ordered selection of the events |
| EventsSection.CategoriesPartition | src/components/Events.jsx:3-62 | Wedding shows event 1, Corporate 2 and 6, Celebration 3 and 5, Charity 4 |
| EventsSection.OneCategoryEach | src/components/Events.jsx:3-62 | no event is listed under two different categories |
| EventsSection.EveryEventListed | src/components/Events.jsx:3-62 | every event is listed under its own category |
| EventsSection.IdsDistinct | src/components/Events.jsx:3-52 | the ids are 1 to 6 and distinct |
| EventsSection.ClickCategory | src/components/Events.jsx:79 | a category button sets the active category and keeps the hover |
| EventsSection.MouseEnter | src/components/Events.jsx:96 | entering a shown card records its id |
| EventsSection.MouseLeave | src/components/Events.jsx:97 | leaving a card clears the hover |
| EventsSection.HandlersKeepReachable | src/components/Events.jsx:57-97 | the hovered id is always one of the six events' ids, and the initial state shows all six |
| EventsSection.IdsIdentify | src/components/Events.jsx:3-52 | an id identifies its event |
| EventsSection.Highlighted | src/components/Events.jsx:104 | the card is scaled up exactly when it is the hovered one; AtMostOneHighlighted bounds how many are |
| EventsSection.AtMostOneHighlighted | src/components/Events.jsx:104 | no two shown cards are scaled up at once |
| ServicesSection.FilteredServices | src/components/Services.jsx:178-182 | `filteredServices`: every service for 'all', else the kept ones; FilterShows characterises it |
| ServicesSection.Keeps | src/components/Services.jsx:181 | `activeFilter === 'featured' ? service.isPrimary : true`; KeptByExact and KeptByEverything use it |
| ServicesSection.KeptBy | src/components/Services.jsx:180-182 | the filter never lengthens the list |
| ServicesSection.KeptByExact | src/components/Services.jsx:180-182 | the filter keeps exactly the services its predicate accepts |
| ServicesSection.KeptByEverything | src/components/Services.jsx:181 | any filter other than 'featured' keeps every service |
| ServicesSection.KeptByIsSubsequence | src/components/Services.jsx:180-182 | the filter keeps the services' order |
| ServicesSection.FilterShows | src/components/Services.jsx:178-182 | every filter except 'featured' shows all services; 'featured' shows exactly the primary ones, in order |
| ServicesSection.FeaturedIsDecoration | src/components/Services.jsx:6-52 | 'featured' shows only "Event & Decoration" |
| ServicesSection.CardLearnMore | src/components/Services.jsx:58-65 | the card navigates to /event-decoration exactly for the decoration title, and passes every other title to the section |
| ServicesSection.LearnMoreCaption | src/components/Services.jsx:107 | "Explore Packages" for the decoration title, else "Learn more"; CaptionMatchesAction relates it to the click |
| ServicesSection.CaptionMatchesAction | src/components/Services.jsx:107 | the caption reads "Explore Packages" exactly on the card that navigates |
| ServicesSection.ComingSoonText | src/components/Services.jsx:115-116 | the modal renders nothing exactly while closed |
| ServicesSection.ComingSoonNamesService | src/components/Services.jsx:151 | the open modal's text names the service right after "Our " |
| ServicesSection.ServicesSection.constructor | src/components/Services.jsx:173-176 | filter 'all', modal closed, no service chosen, all five cards shown |
| ServicesSection.ServicesSection.Shown | src/components/Services.jsx:239 | the cards rendered, `filteredServices` for the active filter; the constructor and ClickLearnMore state what it holds |
| ServicesSection.ServicesSection.ClickFilter | src/components/Services.jsx:217-220 | the two buttons set 'all' or 'featured' |
| ServicesSection.ServicesSection.HandleLearnMore | src/components/Services.jsx:184-189 | any title except the decoration title is recorded and opens the modal |
| ServicesSection.ServicesSection.ClickLearnMore | src/components/Services.jsx:58-244 | a shown decoration card returns the page to open; any other shown card opens the modal about itself |
| ServicesSection.ServicesSection.CloseModal | src/components/Services.jsx:248-252 | the close controls close the modal and change nothing else |
| ContactForm.With | src/components/Contact.jsx:14-20 | `{ ...prev, [name]: value }` sets the named field and keeps the others |
| ContactForm.WithOverrides | src/components/Contact.jsx:14-20 | a second write to a field overrides the first; writing back the current value changes nothing |
| ContactForm.RequiredFilled | src/components/Contact.jsx:97-154 | the three `required` fields (name, email, message) are non-empty; Submit and EmptyFormBlocked use it |
| ContactForm.SubmitCaption | src/components/Contact.jsx:161-171 | "Sending..." while a send is in flight, else "Send Message" |
| ContactForm.CaptionShowsProgress | src/components/Contact.jsx:161-171 | the caption reads "Sending..." exactly while the button is disabled and "Send Message" exactly while it can be pressed |
| ContactForm.EmptyFormBlocked | src/components/Contact.jsx:31-37 | the cleared form has every field empty and cannot pass the required fields |
| ContactForm.ContactSection.constructor | src/components/Contact.jsx:4-12 | an empty form, not sending, no thank-you panel |
| ContactForm.ContactSection.FormShown | src/components/Contact.jsx:67 | the form, not the thank-you panel, is rendered while no send has completed; Edit and Submit act only while it is |
| ContactForm.ContactSection.Edit | src/components/Contact.jsx:14-20 | edits take effect only while the form is shown; the event type accepts only its six option values |
| ContactForm.ContactSection.Submit | src/components/Contact.jsx:22-27 | a submit with the form shown, the button enabled and the required fields filled starts a send of the current form, and the caption turns to "Sending..." |
| ContactForm.ContactSection.CompleteSend | src/components/Contact.jsx:27-43 | the 1500 ms timer sends the form as submitted, shows the panel, clears the form and starts the 5000 ms timer |
| ContactForm.ContactSection.ResetFires | src/components/Contact.jsx:40-42 | a 5000 ms timer hides the panel and touches nothing else |
| ContactForm.ContactSection.SendAnother | src/components/Contact.jsx:77 | "Send Another Message" hides the panel |
| ContactForm.SendWhileTyping | src/components/Contact.jsx:22-161 | typing during a send is lost: the sent form is the submitted one, the form is empty afterwards, and submit does nothing while the panel shows |
| ContactForm.StaleResetEndsLaterPanel | src/components/Contact.jsx:40-77 | a reset timer from an earlier send also ends a later panel |
| TestimonialsCarousel.ActiveDot | src/components/sections/TestimonialsSection.jsx:45 | `i === testimonialIndex`; ExactlyOneActive and DotColours characterise it |
| TestimonialsCarousel.ActiveCount | src/components/sections/TestimonialsSection.jsx:44-45 | the number of active dots is at most the number of dots |
| TestimonialsCarousel.ExactlyOneActive | src/components/sections/TestimonialsSection.jsx:45 | exactly one dot is active for an index among the dots, and none otherwise |
| TestimonialsCarousel.SlideOffset | src/components/sections/TestimonialsSection.jsx:31 | the `translateX` shift set by the index, in percent; OnlySlideInView and OffsetShowsIndex state what it brings into view |
| TestimonialsCarousel.VisibleAmong | src/components/sections/TestimonialsSection.jsx:31-33 | the testimonials whose full-width slides overlap the viewport, in strip order; never more than the slides considered |
| TestimonialsCarousel.OnlySlideInView | src/components/sections/TestimonialsSection.jsx:31-33 | with the strip shifted by `index * 100` percent, slide p overlaps the viewport exactly when p is the index, and that slide's left edge is at the viewport's left edge |
| TestimonialsCarousel.VisibleAmongIndex | src/components/sections/TestimonialsSection.jsx:31-33 | among the first n slides, exactly the one at the index is in view, and none for an index outside them |
| TestimonialsCarousel.OffsetShowsIndex | src/components/sections/TestimonialsSection.jsx:31-33 | for each of the three indexes, the testimonials in view are exactly the one at the index |
| TestimonialsCarousel.DotClasses | src/components/sections/TestimonialsSection.jsx:45 | the dot's `cls(...)` classes; DotColours states them |
| TestimonialsCarousel.DotLabel | src/components/sections/TestimonialsSection.jsx:45 | "Go to testimonial " and the position counted from one; DotLabelsDistinct tells them apart |
| TestimonialsCarousel.DotColours | src/components/sections/TestimonialsSection.jsx:45 | the active dot is amber and every other dot is grey, on top of the same shape classes |
| TestimonialsCarousel.DotLabelsDistinct | src/components/sections/TestimonialsSection.jsx:45 | the dots' aria-labels are all different |
| TestimonialsCarousel.Carousel.constructor | src/components/sections/TestimonialsSection.jsx:7 | the first testimonial is shown first |
| TestimonialsCarousel.Carousel.ClickDot | src/components/sections/TestimonialsSection.jsx:45 | dot i shows testimonial i |
| TestimonialsCarousel.ShowSecond | src/components/sections/TestimonialsSection.jsx:31-45 | pressing the second dot moves the strip by 100 percent, leaves the second testimonial the only one in view and its dot the only active one |

## Left out

- The clock: `new Date()` for the widget's first month is the constructor's `today` parameter.
- Locale output (`toLocaleString` month names, `toDateString` text): it is display only. `isSameDay` compares year, month and day, which is what equal `toDateString()` output means.
- Time values: dates are (year, month, day) in local time. The range limit of ECMAScript time values, hours, time zones and daylight saving are not modelled.
- Two-digit years are modelled as the runtime has them (0–99 means 1900–1999). NextThenPrev, AddMonthsCompose and YearForwardAndBack therefore require years the constructor takes literally, before and after the step, and CenturyJump shows what happens at year 100.
- Timer durations: the Contact form's 1500 ms and 5000 ms timers are events (CompleteSend, ResetFires) in any order the model allows. No durations are compared.
- The search-input focus timer and `searchInputRef.focus()`, `window.scrollTo`, and the ripple effect (`handleRipple`, `getBoundingClientRect`): these are DOM effects that change no modelled state.
- Routing: `navigate('/event-decoration')` is returned as a value (ServicesSection.ClickLearnMore). The page's Back button (`navigate(-1)`), the header's `enhancedScrollTo` links and the catalogue's `Link` are not modelled.
- Animation: framer-motion transitions and the AnimatePresence exit window are left out. A closed dialog or panel is treated as gone at once.
- Event dispatch: a press on the request dialog's X button or backdrop is not also run through the document listener. The listener gives the same result (closed), so only the close is modelled.
- Decorations.Matches: lower-casing is modelled for A–Z only. `toLowerCase` on other scripts (Unicode case mapping) is not.
- The request-custom-event form in both decoration screens (src/components/pages/EventDecoration.jsx:359, src/pages/EventDecoration.jsx:267): its inputs are uncontrolled and the `<form>` has no `onSubmit`. Submitting it with its inputs filled is a native form submission. The page reloads and every modelled state returns to its initial value. Page reloads are not modelled.
- Contact email format: the browser's `type="email"` check is not modelled. Only the three `required` fields gate the submit.
- `console.log` of the submitted form: it is returned as CompleteSend's `sent`.
- Services: the `showEventDecoration` state is never set to true, so its branch is not modelled. The card's hover state is presentation only.
- Text content that no behaviour reads: descriptions, image URLs, quotes, event dates and locations, icons.
- Header: the `scrolled` styling and the nav items' translation lookup are not modelled (they are presentation only).
- `ContactSection.jsx`, `FormElements.jsx` and the other presentation components are not part of this model. The `Input` of the booking form is taken to pass the typed string to its `onChange`.
