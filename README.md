# Study session tracker — verified model of its session and report logic

The tracker is a browser application. A signed-in user logs study sessions.
Each session may hold breaks, and each break must carry a photo as proof.
The user can then download daily, weekly or monthly PDF summaries.
This project models the application's business logic in Dafny and proves what that logic promises:

- **Duration formatting** (`formatTime`), in `duration.dfy`: a second count becomes a zero-padded
  `HH:MM:SS` string. NaN and negative inputs give `"00:00:00"`, and hours never roll over into days.
  The model proves that the string reads back to the whole second count it came from.
- **Session validation** (the submit handler of the session form), in `sessions.dfy`. The checks run
  in order and the first failure is the one reported:
  1. the session's instants are valid and its end is after its start;
  2. each break's instants are valid and its end is after its start;
  3. each break lies inside the session;
  4. each break has a proof.

  If every check passes, the proofs are attached by index and the break total is summed. A session
  whose study time would be negative is refused. The handler is a method with loops, proved equal to
  the specification function `Validate`. Lemmas about `Validate` characterise each outcome.
- **Calendar windows** (`getWeekRange`, `getMonthRange`, the daily window), in `calendar.dfy`.
  Days are integer day numbers computed with the Date arithmetic of the ECMAScript standard
  (DayFromYear, MakeDay, WeekDay, with floor division). So month lengths, leap years and the
  "day 0 of the next month" trick come out the way the browser computes them. As in
  `new Date(year, month, day)`, a year from 0 to 99 stands for 1900 to 1999 in the weekly and
  monthly windows (MakeFullYear, `Calendar.FullYear`). The daily window parses its date string
  as written, so there the year is taken as it is.
- **Reports** (the three download handlers' filters and the data part of `generatePDF`), in
  `report.dfy`: the "no data" case, the totals, the stable sort of a copy by session start, the
  session rows, and the break rows built by nested loops.

Conventions: instants are integer milliseconds on one local timeline. Durations in seconds are exact
`real`s, so `(end - start) / 1000` is exact. `parseInt` on a non-negative duration is its floor.

Three behaviours of the code worth knowing:

- The code does not check that a break's reason is non-empty. Only the form field's `required`
  attribute asks for it, so `Validate` accepts an empty reason.
- The code's week 1 starts on the Monday on or before January 1st. `Calendar.WeekOneVersusIso`
  proves that this matches ISO 8601 week 1 exactly when January 1st falls on Monday to Thursday.
  Otherwise every week starts seven days before the ISO week of the same number.
- The daily window ends at 23:59:59.000, not at 23:59:59.999 (`Calendar.DayRangeCoversDay`).

## Model

| member | source | states |
|---|---|---|
| `Duration.Decimal` | script.js:55-58 | the decimal text of a number is all digits, one digit exactly below 10, and never has a leading zero |
| `Duration.DecimalRoundTrip` | script.js:55-58 | reading the decimal text of n back gives n |
| `Duration.Pad2` | script.js:55-57 | a padded field is at least two digits, exactly two below 100, has no leading zero when longer, and reads back to its value |
| `Duration.SplitSeconds` | script.js:50-53 | hours, minutes and seconds recombine to the second count, with minutes and seconds below 60 |
| `Duration.ClockFields` | script.js:55-58 | three padded fields joined by ':' form a clock string that reads back as h*3600 + m*60 + s |
| `Duration.FormatTime` | script.js:48-59 | NaN or negative input gives "00:00:00"; otherwise the clock string reads back to the floor of the input, the hour field is floor/3600 (no day roll-over) and has no leading zero beyond two digits, and below 100 hours the string is exactly 8 characters |
| `Duration.FiveSeconds` | script.js:48-59 | 5 s is shown as "00:00:05": values below 10 get one leading zero, no more |
| `Duration.FormatTimeInvalidIsZero` | script.js:49 | a NaN or negative duration shows the same as zero |
| `Duration.FormatTimeInjective` | script.js:48-59 | different whole second counts are shown differently |
| `Calendar.DayFromYear` | script.js:223-224 | ECMAScript DayFromYear behind `new Date`: the day number of January 1st; `DayFromYearNext` ties it to the leap-year rule and `DayFromYearIncreasing` orders it |
| `Calendar.MakeDay` | script.js:223-224 | `new Date(y, m, d)` as a day number: month normalised by floor division, the date counting on from the month's first day; its properties are stated by `MakeDayDate`, `NextMonthStart`, `MakeDayOrdered` and `MakeDayInjective` |
| `Calendar.MakeDayDate` | script.js:223-224 | the date argument counts on from day 1 of the month, so day 0 is the day before it |
| `Calendar.FullYear` | script.js:211 | the year `new Date` works in: 1900 + year for 0..99, the year itself otherwise |
| `Calendar.DaysInMonth` | script.js:223-224 | every month has 28 to 31 days |
| `Calendar.WeekDay` | script.js:212 | getDay is a weekday number 0..6 |
| `Calendar.DayFromYearNext` | script.js:223-224 | the year formula and the leap-year rule agree: consecutive January 1sts are 365 or 366 days apart |
| `Calendar.DaysBeforeMonth` | script.js:223-224 | the days of a year before month m lie between 28m and 31m; `MonthsFillYear` and `DaysBeforeMonthIncreasing` state the rest |
| `Calendar.MonthsFillYear` | script.js:224 | the twelve month lengths add up to the year length |
| `Calendar.NextMonthStart` | script.js:223-224 | for any month index, the next month starts that month's length later, across year ends too |
| `Calendar.DayFromYearIncreasing` | script.js:223-224 | a later year starts after the whole of an earlier year |
| `Calendar.DaysBeforeMonthIncreasing` | script.js:223-224 | a later month of a year starts after the whole of an earlier month |
| `Calendar.MakeDayOrdered` | script.js:223-224 | on valid dates the day number increases strictly in calendar order |
| `Calendar.MakeDayInjective` | script.js:223-224 | a day number names exactly one valid date |
| `Calendar.MonthRange` | script.js:221-227 | the month window from `new Date(year, month - 1, 1)` to day 0 of the next month at 23:59:59.999; its properties are stated by `MonthRangeIsWholeMonth`, `MonthRangeLength` and `FebruaryRange` |
| `Calendar.MonthRangeIsWholeMonth` | script.js:221-227 | for months 1..12 the window runs from day 1 at midnight to the month's last day at 23:59:59.999 and covers exactly that month |
| `Calendar.MonthRangeLength` | script.js:222-226 | for any month number the window is one whole normalised month, 28 to 31 days long |
| `Calendar.FebruaryRange` | script.js:223-225 | February ends on the 29th exactly in leap years |
| `Calendar.TwoDigitYears` | script.js:209-227 | years 0..99 give the same week and month windows as 1900..1999 |
| `Calendar.WeekAnchor` | script.js:211 | the anchor is January 1st of the full year (1900 + year for years 0..99) plus (week - 1) * 7 days |
| `Calendar.WeekDayShift` | script.js:212 | moving k days moves the weekday by k modulo 7 |
| `Calendar.MondayOnOrBefore` | script.js:212 | stepping back by (getDay() - 1 + 7) % 7 days lands on a Monday on or before the day and less than a week before it |
| `Calendar.MondayOnOrBeforeShift` | script.js:212 | a day a week later steps back to the Monday a week later |
| `Calendar.WeekStartDay` | script.js:211-212 | the week anchor stepped back to a Monday; its properties are stated by `WeekStartIsMondayBeforeAnchor`, `WeekStartsSevenApart` and `WeekOneVersusIso` |
| `Calendar.WeekStartIsMondayBeforeAnchor` | script.js:211-212 | the week starts on a Monday on or before the anchor and less than 7 days before it |
| `Calendar.WeekRange` | script.js:209-219 | the week window from the Monday at midnight to six days later at 23:59:59.999; its properties are stated by `WeekRangeSpansMondayToSunday`, `WeekStartsSevenApart` and `WeekOneVersusIso` |
| `Calendar.WeekRangeSpansMondayToSunday` | script.js:209-219 | the week window starts at midnight of that Monday and spans exactly seven days, ending at 23:59:59.999 |
| `Calendar.WeekStartsSevenApart` | script.js:211-212 | consecutive week numbers start on consecutive Mondays |
| `Calendar.WeekOneVersusIso` | script.js:210-212 | week 1 equals ISO 8601 week 1 exactly when January 1st is Monday to Thursday, and is otherwise 7 days earlier |
| `Calendar.DayRange` | script.js:439-440 | the daily window from the date at 00:00:00 to the same date at 23:59:59; its property is stated by `DayRangeCoversDay` |
| `Calendar.DayRangeCoversDay` | script.js:439-440 | the daily window starts at midnight of the date and holds exactly that day's instants up to 23:59:59.000 |
| `Sessions.SessionTimesOk` | script.js:342 | both session instants valid and the end after the start; `RejectsInvalidSessionTimes` ties it to the first rejection |
| `Sessions.TotalBreakSeconds` | script.js:396 | the reduce over break durations in seconds, added left to right; `TotalBreakSecondsIsMs` gives its value |
| `Sessions.TotalBreakSecondsIsMs` | script.js:396 | the reduce over break durations in seconds equals the summed milliseconds / 1000 |
| `Sessions.Message` | script.js:343-400 | the alert text of each rejection reason; a value table, no contract |
| `Sessions.CheckBreak` | script.js:366-383 | a break fails no check exactly when its instants are valid, it ends after it starts, it lies in the session and it has a proof; it reports invalid break times exactly when an instant is invalid or end <= start, "outside the session" exactly when the times are proper but the break leaves the session, and a missing proof exactly when all else holds and no proof was given |
| `Sessions.FirstBreakFailure` | script.js:360-387 | the reason of the first break, in entry order, that fails a check; its properties are stated by `NoBreakFailure`, `FirstBreakFailureAt` and `FirstBreakFailurePrefix` |
| `Sessions.NoBreakFailure` | script.js:360-387 | the loop finds no failure exactly when every break passes all its checks |
| `Sessions.FirstBreakFailureAt` | script.js:360-387 | the reported failure is the one of the first failing break, with every earlier break passing |
| `Sessions.FirstBreakFailurePrefix` | script.js:360-387 | a failure among the first n breaks is final: later breaks are never examined |
| `Sessions.StoredBreaks` | script.js:391-416 | for entries that all passed, one stored break per entry at its own index, with its instants, reason and proof |
| `Sessions.Validate` | script.js:339-418 | the verdict of the submit handler as a function; its properties are stated by `AcceptedSession` and the `Rejects*` lemmas, and `SubmitSession` is proved to compute it |
| `Sessions.SubmitSession` | script.js:339-418 | the handler's loops (checks with early return, then proofs attached by index) decide exactly what `Validate` decides |
| `Sessions.AcceptedSession` | script.js:385-418 | an accepted session is well formed (end after start, every break nested and proper, break total = sum of durations, study + break = session length, study >= 0) and keeps every break in entry order with its proof at its own index |
| `Sessions.RejectsInvalidSessionTimes` | script.js:342-347 | the session-time rejection happens exactly when a session instant is invalid or end <= start, whatever the breaks hold |
| `Sessions.RejectsFirstFailingBreak` | script.js:360-387 | with a valid session, a break rejection is reported exactly when some break fails it and all earlier breaks passed |
| `Sessions.RejectsExcessBreakTime` | script.js:395-404 | when every break passes, the session is refused exactly when the break total exceeds its length, and saved otherwise |
| `Sessions.CoffeeBreakSession` | script.js:339-418 | 09:00-12:00 with a 10:00-10:15 break is saved with 9900 s of study and 900 s of break |
| `Sessions.BreakPastSessionEnd` | script.js:372-377 | 09:00-10:00 with a 09:30-11:00 break is refused as outside the session |
| `Report.FilterByStart` | script.js:442-445 | the filter on `start >= window start && start <= window end`; its properties are stated by `FilterInWindow`, `FilterAppend`, `FilterKeepsExactly` and `FilterEmpty` |
| `Report.FilterInWindow` | script.js:442-445 | the filter keeps at most its input, and every kept session starts inside the inclusive window |
| `Report.FilterAppend` | script.js:457-460 | filtering works piece by piece, so kept sessions keep their relative order |
| `Report.FilterKeepsExactly` | script.js:471-474 | a session is kept, as often as it occurs, exactly when start <= its start <= end |
| `Report.FilterEmpty` | script.js:442-445 | nothing is kept exactly when no session starts inside the window |
| `Report.InsertSorted` | script.js:240 | inserting into a sorted copy keeps it sorted and adds exactly that session |
| `Report.SortByStart` | script.js:240 | the copy is sorted ascending by start and is a permutation of the list |
| `Report.SortIsStable` | script.js:240 | sessions with equal starts keep their input order |
| `Report.SumOf` | script.js:238-239 | the reduce total of a field over the sessions, added left to right; its properties are stated by `SumPermutation` and `TotalsCoverSessions` |
| `Report.SumPermutation` | script.js:238-239 | a reduce total does not depend on the order of the sessions |
| `Report.TotalsCoverSessions` | script.js:238-239 | over well-formed sessions, the study total plus the break total is the total session length |
| `Report.SessionRowOf` | script.js:257-263 | one session row: start, end, study and break time through formatTime, break count; its properties are stated by `SessionRowShows` |
| `Report.SessionRowShows` | script.js:257-263 | a session row shows the session's instants and break count, and its study and break times read back to their whole seconds |
| `Report.SessionRows` | script.js:257-263 | the session table's body, one row per sorted session; its properties are stated by `SessionRowsAt` and `ReportSessionRows` |
| `Report.SessionRowsAt` | script.js:257-263 | row i of the session table is the row of session i |
| `Report.MapPermutation` | script.js:257-263 | mapping a permutation of a list gives a permutation of the mapped list |
| `Report.BreakRowOf` | script.js:282-288 | one break row: session start, break start and end, duration through formatTime, reason; its properties are stated by `BreakRowShows` |
| `Report.BreakRowShows` | script.js:282-288 | a break row shows its session's start and the break's instants and reason, and its duration reads back to (end - start) / 1000 whole seconds |
| `Report.BreakRowsOf` | script.js:281-289 | the inner forEach: one row per break of the session, in its own order; its properties are stated by `BreakRowsAt` and `BuildBreakRows` |
| `Report.BreakRows` | script.js:278-291 | there is one break row per break of the sorted sessions |
| `Report.BreakRowsAt` | script.js:279-291 | break k of session i is the row after all breaks of the sessions before i, plus k |
| `Report.NoBreakRows` | script.js:293 | there are no break rows exactly when no session has a break |
| `Report.BreakCountPermutation` | script.js:279-291 | the break count does not depend on the order of the sessions |
| `Report.BuildBreakRows` | script.js:278-291 | the nested forEach/push loops build exactly the flattened break rows |
| `Report.ReportOf` | script.js:229-304 | an empty list means "no data"; otherwise one session row per session in ascending start order, one break row per break, and a break table exactly when some session has a break; the session rows are those of the sorted copy, the break rows are the flattened break rows of the sorted copy, and the totals are the reduce sums of study and break seconds over the list |
| `Report.ReportSessionRows` | script.js:240-263 | the session table holds the rows of exactly the listed sessions, each as often as it occurs |
| `Report.ReportTotalsIgnoreOrder` | script.js:238-240 | the same sessions in any order give the same totals |
| `Report.ReportTotalsOfSorted` | script.js:238-240 | the totals equal the sums over the sorted copy |
| `Report.GeneratePdf` | script.js:229-306 | generatePDF's data part computes exactly `ReportOf` |
| `Report.DownloadDaily` | script.js:433-448 | with no date selected it asks for one; otherwise it reports the sessions starting in that day's window |
| `Report.DownloadWeekly` | script.js:450-462 | with no week selected it asks for one; otherwise it reports the sessions starting in that week's window |
| `Report.DownloadMonthly` | script.js:464-476 | with no month selected it asks for one; otherwise it reports the sessions starting in that month's window |
| `Report.NoSessionsNoDocument` | script.js:230-233 | a period in which no session starts gives "no data" and no document |

## Left out

- Firebase set-up, sign-in and sign-out (`signInWithGoogle`, `signOutUser`, `handleAuthState`) and the store calls (`logSession`, `subscribeToLogs`, `clearLogs`) are left out. They are calls into external services. `Sessions.Verdict.Accepted` stands for "logSession is called with this document".
- DOM work is left out: `addBreakField`, the HTML of `renderLogs`, `showAlert` and enabling or disabling the save button. The alert texts are kept as `Sessions.Message`. `renderLogs` also sorts the live list in place, descending by `createdAt` (script.js:127). That sort is not modelled.
- Reading proof files with `FileReader` and joining them with `Promise.all` is left out, and so is the error path if a read fails. A proof is an image already read, or none.
- PDF drawing with jsPDF and autoTable is left out. So are the locale text of dates (`toLocaleString`, `toLocaleDateString`), the period label and the file name. Rows carry the raw instants instead.
- Date parsing is left out: parsing of form input strings, time zones and daylight-saving changes. Form instants arrive as milliseconds or as an invalid date. The "YYYY-MM-DD", "YYYY-Www" and "YYYY-MM" designators arrive already split into integers.
- Floating-point arithmetic is left out. Durations are exact reals, so `(end - start) / 1000` and the sums never round.
- Duration.FormatTime: does not model `parseInt` reading an exponent form (values below 1e-6 or from 1e21 up). It takes the floor of the value instead.
- The in-place sort of the copied array (`[...logs].sort`) is modelled on values, as a stable insertion sort. The input list is a value, so it is unchanged by construction.
- Overlapping breaks are not rejected by the code. The model keeps that behaviour: only a negative study total is refused. No lemma proves that non-overlapping breaks never reach that check.
