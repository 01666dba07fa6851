# Carsplay station timers and admin report, in Dafny

Carsplay runs rental stations (ride-on carts). In the employee page, every station card has a
timer. Its record holds:

- whether it runs;
- the instant of the current start;
- the whole seconds banked by earlier runs;
- a target in seconds;
- an amount.

The card's buttons (start/pause, reset, finalize), a one-second tick and a duration select
change that record. The page stores it in the browser and restores it after a reload. The
panel shows the sum of every station's amount.

The admin page:

- loads the time logs into a table with a footer of totals;
- can filter them by station;
- builds a CSV file itself when the spreadsheet download is missing;
- validates the rate tiers (minutes and price) that feed the employee select.

The project models that code as written:

- `EmployeeTimer` holds the timer record as a value, and each handler's effect as a function on it.
- `EmployeeCards` holds the card objects (`Station`) whose handlers update the record in place. It also holds the page's `state` map (`Board`).
- `ClockText` holds the `HH:MM:SS` clock.
- `AdminReport` holds the report table.
- `AdminCsv` holds the CSV fallback and its date labels.
- `AdminRates` holds the rate forms.
- `Decimal` holds `String(n)`, `padStart` and `parseInt` on whole numbers.
- `Seqs` holds a sequence map and the `forEach`-push loop.

Each text the pages produce comes with a reader, and the model proves that the reader gets
the value back from the text:

- the clock;
- the report's time cells and total label;
- the CSV lines and cells;
- the `dd-mm-yyyy` labels;
- the rate modal.

Some facts about the code that the model keeps as they are:

- There is no session ledger, no settled flag and no transfer of a session between stations.
- A completed station's amount counts in the panel total at once. Finalizing is not needed.
- Changing the duration retargets a running station too.
- A reload applies the option a newly built select shows: the first tier, or 30 minutes without tiers. A running or completed station is retargeted to it, whatever target it had, and completes at once if it is already past that target (`EmployeeTimer.PageLoadRetargets`, `EmployeeTimer.PageLoadExample`).
- Completion sets the amount to the target in minutes, rounded half up. This replaces the tier price the select had put there.
- The add-rate form accepts a negative price. The edit modal refuses it.

Instants are epoch milliseconds. The current time is a parameter (`now`).

## Model

| member | source | states |
|---|---|---|
| ClockText.Pad | employee.js:3 | the padded numeral has at least two digits, exactly two below 100 |
| ClockText.ClockParts | employee.js:5 | minutes and seconds are below 60 and hours·3600 + minutes·60 + seconds gives the count back |
| ClockText.Fmt | employee.js:4-7 | the clock text has at least eight characters, with colons third and sixth from the end |
| ClockText.FmtRoundTrip | employee.js:3-7 | reading `fmt(s)` back gives s for every s >= 0 |
| Decimal.NatToString | employee.js:3 | `String(n)` is all digits, one digit exactly when n < 10, with a leading zero only for 0 |
| Decimal.IntToString | admin.js:613 | `String(i)` starts with a minus sign exactly when i < 0 and is the numeral of i otherwise |
| Decimal.Pad2 | admin.js:268 | `padStart(2,'0')` keeps the text as its suffix, fills up to two characters, and fills with zeros only |
| Decimal.ParseIntOfIntToString | employee.js:123 | `ParseInt` (`parseInt(s, 10)`) reads `String(i)` back as i for every whole number |
| EmployeeTimer.WholeSeconds | employee.js:105 | the floor of the millisecond difference over 1000, and never negative for a later instant |
| EmployeeTimer.Elapsed | employee.js:103-108 | the banked seconds, plus the whole seconds since the mark only when running with a truthy mark |
| EmployeeTimer.ElapsedMonotone | employee.js:103-108 | on an unchanged record elapsed never decreases as time goes on |
| EmployeeTimer.Remaining | employee.js:113 | never negative, zero exactly when elapsed reaches the target, otherwise elapsed plus remaining is the target |
| EmployeeTimer.RoundPercent | employee.js:115 | `Math.round(e / t * 100)` as the whole number within half a unit of 100·e/t, halves up |
| EmployeeTimer.Percent | employee.js:115 | 0 without a target, never above 100, exactly 100 when 200·elapsed + target reaches 200·target (the rounded ratio reaches 100), else the rounded percentage |
| EmployeeTimer.RoundMinutes | employee.js:142 | the amount of a completion is the target in minutes rounded half up |
| EmployeeTimer.Started | employee.js:183-191 | a start runs the station with the mark now (truthy unless now is 0), keeps banked seconds and amount, keeps a target already set and otherwise sets the selected minutes times 60, and shows the banked seconds at that instant |
| EmployeeTimer.Paused | employee.js:192-199 | a pause stops the run with no mark and banks exactly the elapsed time shown at that instant; target and amount stay |
| EmployeeTimer.Completed | employee.js:140-143 | completion stops the run at the target and charges the target's minutes rounded half up |
| EmployeeTimer.Ticked | employee.js:158-162 | a tick changes the record only when it is due, and then into the completed one; the time remaining never changes |
| EmployeeTimer.Finalized | employee.js:214-226 | finalizing stops the run and clears the mark; everything else stays |
| EmployeeTimer.WithDuration | employee.js:121-128 | the target becomes the option's minutes times 60 and the amount the option's, if it has one; nothing else changes |
| EmployeeTimer.DurationOptions | employee.js:55-68 | one option per tier, each carrying an amount, or the four fixed options, none carrying one |
| EmployeeTimer.Save | employee.js:27-36 | every field is stored except a falsy mark, and a record whose mark is not 0 is read back unchanged |
| EmployeeTimer.Load | employee.js:86-92 | a loaded record takes each stored field, running as false and the counters and amount as 0 when missing; it keeps a truthy mark and never has the mark 0 |
| EmployeeTimer.ClampStart | employee.js:165-168 | a future mark on a running station becomes exactly now, so elapsed is the banked seconds; any other record is kept as it is |
| EmployeeTimer.Restored | employee.js:81-180 | after a reload the target is the option's, a running mark is not in the future, nothing is left due, and the banked seconds and elapsed time are those of the loaded, clamped record unless it is due under the new target, when both are the target |
| EmployeeTimer.View | employee.js:110-118 | the card's clocks read back as elapsed (floored at 0) and remaining, the bar is the capped rounded percentage (`Percent`), and the amount text reads back as the amount |
| EmployeeTimer.ButtonKeepsElapsed | employee.js:182-201 | pausing banks exactly the elapsed time shown and starting resumes from it: the press never changes elapsed at that instant |
| EmployeeTimer.PausedIsFrozen | employee.js:192-199 | after a start and a pause the elapsed time is constant: the banked seconds plus the whole seconds of the run |
| EmployeeTimer.StartKeepsSession | employee.js:183-191 | from a start on, elapsed is the banked seconds plus the whole seconds since; a target already set survives a pause and a later start with other minutes; the run is due at its start only when the banked seconds reach the target |
| EmployeeTimer.CompletionInstant | employee.js:158-162 | a run from t0 with banked a and target T is due exactly when at least (T − a)·1000 ms have passed |
| EmployeeTimer.CompletedIsFinal | employee.js:140-156 | a completed station shows the full target, nothing remaining, a full bar, a further tick changes nothing, and its amount is the rounded minutes |
| EmployeeTimer.TickEffect | employee.js:158-162 | a tick never changes the time remaining; a due tick stops elapsed exactly at the target and charges the rounded minutes; any other tick changes nothing; a second tick at the same instant changes nothing |
| EmployeeTimer.FinalizeKeepsCounters | employee.js:214-226 | finalizing a completed station only stops the run: counters, target, amount and displayed elapsed stay |
| EmployeeTimer.DurationChange | employee.js:121-128 | a duration change keeps elapsed, makes the station due exactly when the option's minutes are positive and already reached, sets the remaining time from them, and moves the amount only when the option carries one |
| EmployeeTimer.RateOptionReadsBack | employee.js:58-59 | each option built from a tier reads back, through `OptionMinutes` (employee.js:123), as that tier's minutes and amount |
| EmployeeTimer.FallbackOptions | employee.js:61-67 | without tiers there are four options read back by `OptionMinutes` as 15, 30, 45 and 60 minutes with no amount, so choosing one keeps the amount |
| EmployeeTimer.FallbackDefault | employee.js:64 | without tiers the preselected option is 30 minutes |
| EmployeeTimer.SaveLoad | employee.js:27-36 | a saved record is read back unchanged exactly when its mark is not 0, and a second save/load changes nothing |
| EmployeeTimer.RestoreClamps | employee.js:164-180 | after a reload the mark of a running station is not in the future, elapsed is at least the banked seconds, and the target is the option's |
| EmployeeTimer.ReloadResumes | employee.js:81-92 | saving and reloading with the matching option is exactly one tick: same elapsed time, completion when due |
| EmployeeTimer.PageLoadRetargets | employee.js:172-180 | at page load the target becomes the first tier's minutes (30 without tiers) whatever it was; unless the station is due under that target it keeps running, its banked seconds and its elapsed time, and takes the first tier's price; when due it completes with that target's minutes |
| EmployeeTimer.PageLoadExample | employee.js:172-180 | a 30-minute run on tiers of 15 and 30 minutes, reloaded 20 minutes in, comes back completed at 15 minutes with amount 15 |
| EmployeeTimer.PanelTotalUpdate | employee.js:229-233 | changing one station's record moves the panel total by the change of its amount |
| EmployeeTimer.PanelTotalBounds | employee.js:230 | with no negative amounts the total is at least each station's amount |
| EmployeeTimer.PanelTotalCovers | employee.js:230 | with no negative amounts the total is not negative and covers every station's amount |
| EmployeeTimer.PanelTotal | employee.js:229-233 | with no negative amounts the sum of the stations' amounts is not negative |
| EmployeeTimer.PanelTotalAfterResetOrCompletion | employee.js:206 | a reset takes the station's amount out of the total; a completion puts its rounded minutes in |
| EmployeeCards.Station.constructor | employee.js:84 | a new card's record is the fresh one |
| EmployeeCards.Station.PressStart | employee.js:182-201 | the record becomes the paused or the started one, and elapsed at that instant is unchanged |
| EmployeeCards.Station.Finish | employee.js:140-143 | the record becomes the completed one |
| EmployeeCards.Station.Tick | employee.js:158-162 | reports completion exactly when there is a target and elapsed reached it, and the record becomes the ticked one |
| EmployeeCards.Station.Reset | employee.js:202-212 | the record becomes the fresh one |
| EmployeeCards.Station.Finalize | employee.js:214-226 | only the run state is cleared; banked seconds, target and amount are kept |
| EmployeeCards.Station.ApplySelectedDuration | employee.js:121-128 | the record becomes the one with the option's duration applied |
| EmployeeCards.Station.Restore | employee.js:86-180 | the record becomes the restored one, and completion is reported exactly when the loaded, clamped, retargeted record is due |
| EmployeeCards.Board.constructor | employee.js:25 | the map starts empty and consistent |
| EmployeeCards.Board.RecordsOf | employee.js:230 | the records of the listed ids, one per id, in order |
| EmployeeCards.Board.Total | employee.js:229-233 | with no negative amount the panel total is not negative and not below any station's amount |
| EmployeeCards.Board.Lookup | employee.js:84-85 | an id already present keeps its station; a new one gets a fresh station appended to the key order |
| EmployeeCards.Board.InitCard | employee.js:81-180 | the id's record becomes the one restored with the default option of the loaded tiers (from its old record or the fresh one); keys and key order grow only by the new id; no other station changes |
| EmployeeCards.Board.SaveState | employee.js:27-36 | one snapshot per key of the map, each the saved form of that station's record |
| AdminReport.RowDuration | admin.js:543 | the stored duration when non-zero, else the floor of (end − start)/1000, never below 0 |
| AdminReport.JsRem | admin.js:544 | JavaScript's `%`: for a non-negative dividend the usual remainder; for a negative one the negated remainder of its absolute value, between −divisor and 0 |
| AdminReport.StationLabelParts | admin.js:546 | `StationLabel` is empty exactly without a name and a non-zero number; it is the name alone, `#number` alone, or the name, one space and `#number` |
| AdminReport.FilterMembership | admin.js:528-531 | `FilterRows`: a row is shown exactly when there is no filter or its id or number text equals the filter; number 0 never matches |
| AdminReport.FilterKeepsOrder | admin.js:528-531 | filtering two runs of rows gives the filtered runs in order |
| AdminReport.FilterByNumber | admin.js:530 | filtering by a non-zero station number keeps every row carrying it |
| AdminReport.LoadReport | admin.js:528-573 | the time cells are those of the shown rows in order, and the footer holds their count, amount sum, seconds sum and the texts built from them |
| AdminReport.AddUpRows | admin.js:536-550 | the loop's totals are the number of rows, the sum of amounts and the sum of durations |
| AdminReport.SumSecondsNonNegative | admin.js:549 | with no negative stored duration the footer seconds are not negative |
| AdminReport.SumsAppend | admin.js:549 | both footer sums, `SumAmounts` and `SumSeconds`, split over two runs of rows |
| AdminReport.RowTimeRoundTrip | admin.js:544-545 | `RowTime` reads back as the whole minutes of the duration: bare minutes under an hour, otherwise at least one hour and then minutes under 60 |
| AdminReport.TotalLabelRoundTrip | admin.js:565-572 | `TotalLabel` reads back as the whole minutes of the total seconds: bare minutes under an hour, hours alone on a whole hour, otherwise hours then minutes from 1 to 59 |
| AdminCsv.BuildCsv | admin.js:307-320 | the file is the header followed by one line per row, in order |
| AdminCsv.ReadEscaped | admin.js:319 | a cell escaped by `Escape` (every double quote doubled), then the closing quote `Quote` adds, is read back as the cell |
| AdminCsv.CsvLineRoundTrip | admin.js:319 | `CsvLine`: a line of quoted cells joined by commas splits back into exactly those cells |
| AdminCsv.CsvRowReadsBack | admin.js:317-319 | each data line splits back into the row's eight cells, those of `RowCells` |
| AdminCsv.CsvCellsReadBack | admin.js:311-317 | in `RowCells`, the Dinero cell reads back as the amount, Tiempo(min) as the floor of the stored seconds over 60 (empty without one), and Fecha is empty exactly without a readable start |
| AdminCsv.MinutesCellReadsBack | admin.js:315 | `MinutesCell`, the Tiempo(min) cell, reads back as the floor of the stored seconds over 60, or is empty |
| AdminCsv.DateCellEmpty | admin.js:311-312 | `DateCell`, the Fecha cell, is empty exactly when the start is missing or not a date |
| AdminCsv.DateLabelShape | admin.js:268 | a real day and month give `dd-mm-` then the year: two digits, a dash, two digits, a dash |
| AdminCsv.DateLabelRoundTrip | admin.js:268 | the `dd-mm-yyyy` label `DateLabel` builds reads back as the day, the 0-based month and the year |
| AdminRates.ValidateNewRate | admin.js:586-588 | the add form accepts exactly a positive whole minute count, keeps the minutes `parseInt` read, sends a missing price as 0, and otherwise warns about the minutes |
| AdminRates.ValidateRateEdit | admin.js:618-624 | the modal does nothing exactly without an open tier, refuses the price exactly when a tier is open, the minutes are positive and the price is missing or negative, and otherwise accepts exactly the entered tier |
| AdminRates.ModalRoundTrip | admin.js:611-624 | saving the modal as it opened gives the same tier back, unless its minutes are not positive or its price is negative |
| AdminRates.EditIsStricter | admin.js:586-624 | whatever the modal accepts the add form accepts as the same tier; a negative price passes only the add form |
| AdminRates.AcceptedRateGivesTarget | admin.js:586-588 | a tier the add form accepts gives every card that selects it a positive target of its minutes and its price as amount |

## Left out

- DOM work, the interval timer, the alarm sound, toasts and button labels. These are display and scheduling. The model keeps only their effect on the records and the texts.
- `Date.now()` is the `now` parameter. The browser's local calendar day and its `toLocaleTimeString` renderings are fields of the log row (`startDate`, `startClock`, `endClock`). The table's `toLocaleDateString` cell is not modelled.
- `localStorage` and `JSON.parse`/`JSON.stringify` are left out. A stored entry is a `Snapshot` whose missing or null fields are `None`. An unreadable store counts as "no entry".
- The requests to the back end are left out: fetching tiers, stations and logs, saving tiers, and the spreadsheet download with its query string. The model starts from the data they return.
- Amounts and rate prices are whole numbers. `parseFloat` and fractional prices are not modelled, so `Number(x) || 0` is `GetOr(0)`.
- `parseInt` skips only space, tab, LF and CR before the number. JavaScript also skips vertical tab, form feed and the other Unicode spaces and line terminators.
- The `durationSel` guard in `applySelectedDuration` is left out, since every card has a select. So are the `Array.isArray` guard on the logs and the CSV fallback's `join('\n')`, Blob and download.
- EmployeeTimer.RoundPercent: rounds the exact ratio 100·e/t half up. The browser rounds the floating-point value of `e / t * 100`, which at an exact half can land just below it: e = 87, t = 600 gives 14 in the browser and 15 here; e = 69, t = 120 gives 57 and 58. `EmployeeTimer.Percent` inherits this.
- EmployeeCards.Station.Tick, EmployeeCards.Station.Finalize, EmployeeCards.Station.PressStart: the model allows each of them in every state. In the page, `tick` runs only while an interval is set, which a start or a running restore sets and a pause, completion, reset or finalize clears, so a paused station is never ticked. The finalize button is shown only after a completion, and the start button is disabled from a completion until a reset or finalize. Which buttons are enabled or visible is not modelled.
- AdminReport.LoadReport: the table's time texts are computed as a map over the shown rows rather than inside the totals loop. The loop (`AddUpRows`) adds up only the totals. The other table cells are not returned.
- AdminReport.RowTimeRoundTrip: stated for durations of 0 or more. A negative duration can come only from a negative stored duration.
- AdminReport.TotalLabelRoundTrip: stated for totals of 0 or more.
- AdminCsv.DateLabelRoundTrip: stated for a day, month and year of 0 or more, which every real calendar date has.
- EmployeeCards.Board.InitCard: does not state the completion flag it returns. `Station.Restore`, which it calls, states it.
- Images, station and user administration, the login pages, the server and the database scripts are not part of this model.
