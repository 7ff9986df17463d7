# Production-log app: a Dafny model of its core

The repository holds two versions of a Streamlit data-entry app for a
digital-printing production log kept in a Google Sheet:
`Digital_Printing_App.py` (the 2026 version with a TempDate column, column
defaults by name and a YTD downtime header metric) and `app.py` (the version
with numeric coercion on load, a Reset button and a delete tool). Under the
widgets, both do the same small jobs:

- they load the sheet;
- they sum the year-to-date production and jobs before a chosen day;
- Digital_Printing_App.py alone also sums the trials, and totals the stored downtime texts of 2026;
- they run a downtime stopwatch in the session state;
- they refuse a second entry for a date;
- they compose the new row and write the whole table back;
- app.py alone deletes every row of a date.

This project models that core in Dafny and proves what it promises.

The modules are:

- **Calendar**: dates as proleptic Gregorian day numbers, numbered as in `date.toordinal()`. It has the year of a day, its weekday and the weekday names.
- **Numeral**: `str()` of an int; `"%02d"` and `"%06d"`; Python's `int()` on text, with ASCII white space, a sign and `_` digit groups; and `pd.to_numeric` on integer text with blanks around it.
- **Text**: `str.split` / `str.join` with a one-character separator, and substring containment.
- **Duration**: `str(timedelta)` of an integer number of microseconds, including the day part and `.ffffff`. It also has the whole-second text the timer shows (`split('.')[0]`) and the reading of a stored `H:MM:SS` / `M:SS` text back into seconds.
- **Ledger**: what both versions share.
  - Columns are a datatype; `Name` gives each column's header text.
  - Cells are a number, a text, a date text, or NaN.
  - A sheet row is a parsed date plus a map of cells.
  - It holds the year-to-date window sum.
- **DigitalPrintingApp**: Digital_Printing_App.py. Its timer and form state are a `Session` class.
- **App**: app.py, with its own `Session` class.
- **Versions**: lemmas relating the two versions where they do the same job.

Timestamps and durations are integer microseconds. The wall clock `now` is a
parameter of every timer operation. Whether the sheet write succeeded is the
`stored` parameter of `Submit`, which stands for the `try`/`except` around
`conn.update`. The table read from the sheet is an input, and the table
written back is the result of `Submit`.

Behaviours of the code worth knowing:

- app.py's Reset only zeroes the accumulated downtime. It neither stops a running timer nor clears its start time, so a running timer goes on showing its live session.
- Digital_Printing_App.py's Stop leaves the stale start time in place. The display ignores it.
- A stored downtime text with a negative field (`"-1:00"`) passes `int()` and is counted, not skipped. `DowntimeTotal` can therefore be negative. The YTD sums can be negative too, because `pd.to_numeric("-5")` is -5.
- In app.py a single unreadable date makes `pd.to_datetime` raise, and the whole load answers the empty table. Digital_Printing_App.py turns such a date into NaT instead.
  - The empty table has no date to clash with, so a save then writes back the new row alone (`App.Session.Submit` with `rows == []`).
- app.py starts every column of a new entry at 0. Its cleaning columns hold `str(timedelta(minutes=…))` (`"0:45:00"`), not `"45 mins"`.
- app.py's YTD metrics are a pair (production, jobs), not a triple.

## Model

| member | source | states |
|---|---|---|
| Calendar.YearStartStep | Digital_Printing_App.py:97 | consecutive 1 January day numbers are one year's length (365 or 366) apart |
| Calendar.YearStart | Digital_Printing_App.py:97 | definition of the day number of 1 January of a year (`pd.to_datetime(f"{y}-01-01")`), counted as `date.toordinal()` counts. Its properties are `YearStartStep`, and `YearOf` with `YearOfUnique`, which place every day between one 1 January and the next |
| Calendar.FindYear | Digital_Printing_App.py:96-97 | the year found holds the day: its 1 January is on or before it and the next one after it |
| Calendar.YearOf | Digital_Printing_App.py:96-97 | `sel_dt.year`: the day lies between 1 January of its year and 1 January of the next |
| Calendar.YearOfUnique | Digital_Printing_App.py:96-97 | a day lies in exactly one year |
| Calendar.YearOfMonotone | Digital_Printing_App.py:107 | a later day never has an earlier year |
| Calendar.WeekdayName | Digital_Printing_App.py:222 | `strftime('%A')` is one of the seven weekday column names |
| Calendar.Weekday | Digital_Printing_App.py:222 | definition of `date.weekday()` of a day number, Monday = 0. Its property is `WeekdayCycle` |
| Calendar.WeekdayCycle | Digital_Printing_App.py:222 | the weekday name repeats every seven days and the next day is the next weekday |
| Numeral.DigitsValueSnoc | Digital_Printing_App.py:114 | appending a digit multiplies the value by ten and adds the digit |
| Numeral.DigitsValueLeadingZero | Digital_Printing_App.py:114 | a leading zero does not change `int("07")` |
| Numeral.NatToString | Digital_Printing_App.py:137 | `str(n)` is a run of digits with value n, with no leading zero unless n is 0, one digit exactly when n < 10 |
| Numeral.NatToStringInjective | Digital_Printing_App.py:210 | different numbers have different numerals |
| Numeral.TwoDigits | Digital_Printing_App.py:176 | `"%02d"` is two digits with the number's value |
| Numeral.SixDigits | Digital_Printing_App.py:176 | `"%06d"` of the microseconds is digits only |
| Numeral.TrimStart | Digital_Printing_App.py:114 | `lstrip` removes a prefix of the text, every character of it white space, and leaves no white space in front |
| Numeral.TrimEnd | Digital_Printing_App.py:114 | `rstrip` removes a suffix of the text, every character of it white space, and leaves none at the end |
| Numeral.StripUntouched | Digital_Printing_App.py:114 | text without white space at either end is not changed by `strip` |
| Numeral.RemoveUnderscores | Digital_Printing_App.py:114 | removing `_` group marks leaves digits, and nothing is removed from plain digits |
| Numeral.RemoveUnderscoresConcat | Digital_Printing_App.py:114 | removing the marks from joined texts is removing them from each, in order |
| Numeral.RemoveUnderscoresJoin | Digital_Printing_App.py:114 | digit groups joined by a mark lose the mark and keep every digit in order |
| Numeral.GroupsJoined | Digital_Printing_App.py:114 | two digit groups joined by one `_` are a grouping `int()` accepts |
| Numeral.PythonIntOfGroups | Digital_Printing_App.py:114 | `int(x + "_" + y)` is the value of the digits x + y, as `int("1_000") == 1000` |
| Numeral.PythonInt | Digital_Printing_App.py:114 | definition of `int(text)`: strip ASCII white space, an optional sign, digit groups joined by single `_`; None for ValueError. Its properties are the `PythonIntOf…` and `PythonIntRejects` lemmas |
| Numeral.ParseDecimal | Digital_Printing_App.py:84 | definition of `pd.to_numeric(errors='coerce')` on integer text: blanks (space, tab, newline, carriage return, vertical tab, form feed) around an optional sign and one or more digits, None (NaN) otherwise. Its properties are `ParseDecimalOfIntToString` and `ParsePaddedDecimal` |
| Numeral.TrimBlanks | Digital_Printing_App.py:84 | the text pandas reads a number from: no longer than the cell and with no blank at either end of its own; `TrimBlanksSlice` adds that it is the cell without its outer blanks |
| Numeral.TrimBlanksSlice | Digital_Printing_App.py:84 | the trimmed text is a slice of the cell with only blanks before and after it (`BlanksAround`), so exactly the outer blanks are removed |
| Numeral.TrimPadded | Digital_Printing_App.py:84 | blanks of any number around a text that neither starts nor ends with one are all dropped, and nothing else |
| Numeral.AllDigitsGrouped | Digital_Printing_App.py:114 | a plain run of digits is a valid grouping with nothing to remove |
| Numeral.PythonIntOfDigits | Digital_Printing_App.py:114 | `int()` of a run of digits is its value |
| Numeral.PythonIntOfNegative | Digital_Printing_App.py:114 | `int("-" + digits)` is the negated value |
| Numeral.PythonIntOfNat | Digital_Printing_App.py:114 | `int(str(n)) == n` for n >= 0 |
| Numeral.PythonIntOfIntToString | Digital_Printing_App.py:114 | `int(str(n)) == n` for every int |
| Numeral.IntToString | Digital_Printing_App.py:210 | definition of `str(n)` / `f"{n}"` of an int, used in the slot names, the `"{m} mins"` texts (lines 218-219) and the day part of `str(timedelta)`. Its properties are `PythonIntOfIntToString` and `ParseDecimalOfIntToString`: `int()` and `pd.to_numeric` read it back as n |
| Numeral.PythonIntOfTwoDigits | Digital_Printing_App.py:114 | `int()` reads a `"%02d"` field back |
| Numeral.PythonIntRejects | Digital_Printing_App.py:119 | `int()` raises ValueError on text with an inner character that is not a digit or `_` |
| Numeral.ParseDecimalOfIntToString | Digital_Printing_App.py:84 | `pd.to_numeric(str(n)) == n` |
| Numeral.ParsePaddedDecimal | Digital_Printing_App.py:84 | `pd.to_numeric(p + str(n) + q) == n` for any runs p and q of blanks, so " 5 " reads as 5 |
| Text.Split | Digital_Printing_App.py:112 | `s.split(sep)` has at least one piece, no piece holds the separator, and joining the pieces gives back s |
| Text.SplitNoSep | Digital_Printing_App.py:112 | text without the separator is one piece |
| Text.SplitConcat | Digital_Printing_App.py:112 | a first piece without the separator splits off on its own |
| Text.SplitJoin | Digital_Printing_App.py:112 | splitting undoes joining pieces that hold no separator |
| Text.ContainsAt | Digital_Printing_App.py:208 | a substring found at a position makes `sub in s` true |
| Text.NotContains | Digital_Printing_App.py:208 | text lacking one of sub's characters does not contain sub |
| Text.Contains | Digital_Printing_App.py:208 | definition of `sub in s` for strings: sub occurs at some position. Its properties are `ContainsAt` and `NotContains` |
| Duration.TimedeltaText | Digital_Printing_App.py:176 | definition of `str(timedelta)`: days of any sign, the `H:MM:SS` clock of the seconds, `.ffffff` when there are microseconds. Its properties are `DayLongText` and `WholeSecondsTextTruncates` |
| Duration.ClockText | Digital_Printing_App.py:176 | definition of the `H:MM:SS` clock `str(timedelta)` prints for a time of day: hours without padding, minutes and seconds as two digits. Its properties are `ParseClockText` (it reads back as its seconds) and `NoDotInClockText` |
| Duration.WholeSecondsText | Digital_Printing_App.py:176 | definition of `str(td).split('.')[0]`. Its property is `WholeSecondsTextTruncates` |
| Duration.ParseDowntime | Digital_Printing_App.py:112-119 | definition of the reading of one stored downtime text: three `int()` fields as hours, minutes and seconds, two as minutes and seconds, None for a ValueError or another field count. Its properties are `ParseDowntimeAccepts`, `ParseClockText`, `StoredDowntimeRoundTrip`, `DayFieldRejected` and `ParseDowntimeRejected` |
| Duration.WholeSecondsTextTruncates | Digital_Printing_App.py:176 | `str(td).split('.')[0]` is the text of the duration truncated to whole seconds: the day part and the clock of its seconds |
| Duration.ParseClockText | Digital_Printing_App.py:112-115 | an `H:MM:SS` clock text reads back as the seconds it shows |
| Duration.ParseHoursMinutesSecondsText | Digital_Printing_App.py:112-115 | any text of three `:`-free fields that `int()` reads as h, m and s reads as h*3600 + m*60 + s seconds |
| Duration.ParseMinutesSecondsText | Digital_Printing_App.py:116-118 | any text of two `:`-free fields that `int()` reads as m and s reads as m*60 + s seconds |
| Duration.StoredDowntimeRoundTrip | Digital_Printing_App.py:110-115 | the timer text stored for a duration under a day reads back as its whole seconds |
| Duration.DayLongText | Digital_Printing_App.py:176 | a duration of a day or more shows its day part in front of the hours |
| Duration.DayFieldRejected | Digital_Printing_App.py:114-119 | `int()` fails on a first field that carries a day part |
| Duration.DayLongDowntimeSkipped | Digital_Printing_App.py:110-119 | a stored duration of a day or more, or a negative one, is skipped by the downtime total |
| Duration.ParseDowntimeAccepts | Digital_Printing_App.py:112-119 | a stored text is counted iff it splits into two or three `:` fields and `int()` reads every one; any other field count, or a field raising ValueError, is skipped |
| Duration.ParseDowntimeRejected | Digital_Printing_App.py:113-119 | three fields whose first fails `int()` add nothing |
| Ledger.WeekdayColumn | Digital_Printing_App.py:222 | the column `prod_date.strftime('%A')` names is the day's weekday column |
| Ledger.FixedColumnNames | Digital_Printing_App.py:31-34 | the twelve fixed columns carry the sheet's header texts, in order |
| Ledger.IssueColumnListNames | Digital_Printing_App.py:35-38 | the issue columns are `ProductionIssues_1` to `ProductionIssues_10`, in order |
| Ledger.DayColumnNames | Digital_Printing_App.py:39 | the weekday columns are Monday to Sunday, in order |
| Ledger.NamesConcat | Digital_Printing_App.py:31-41 | the header texts of joined column lists are the joined texts |
| Ledger.SharedColumnsListed | app.py:23-32 | the 29 shared columns: the fixed ones, issue column k at 11 + k and weekday w at 22 + w |
| Ledger.NumericValue | Digital_Printing_App.py:84 | `pd.to_numeric(errors='coerce')`: a number stays, NaN and dates give NaN |
| Ledger.InWindow | Digital_Printing_App.py:96-98 | definition of the YTD mask `year_start <= date < sel_dt`, false for NaT. Its property is `InWindowIff` |
| Ledger.WindowSum | Digital_Printing_App.py:98-102 | definition of the sum of one column over the masked rows, NaN adding 0. Its properties are the `WindowSum…` lemmas |
| Ledger.InWindowIff | Digital_Printing_App.py:96-98 | a date is in the YTD mask exactly when it is in the target's year and before the target |
| Ledger.WindowSumConcat | Digital_Printing_App.py:100 | the window sum of two joined tables is the sum of their sums |
| Ledger.WindowSumSingle | Digital_Printing_App.py:100 | a one-row table sums to that row's term |
| Ledger.WindowSumAppend | Digital_Printing_App.py:98-100 | an appended in-window row raises the sum by its value; any other row changes nothing |
| Ledger.WindowSumInsert | Digital_Printing_App.py:98-100 | a row anywhere in the table adds its own term |
| Ledger.WindowSumOutside | Digital_Printing_App.py:98 | rows outside the window sum to 0 |
| Ledger.WindowSumPermutation | Digital_Printing_App.py:100 | tables holding the same rows (equal multisets), in any order, have the same YTD sum |
| Ledger.HasDateAppend | Digital_Printing_App.py:185 | after an append, a date is present iff it was before or the new row has it |
| Ledger.HasDate | Digital_Printing_App.py:185 | definition of "some stored row has this parsed date" (a NaT date matches nothing), the test behind `is_duplicate` and app.py's `date_exists` (app.py:120). Its properties are `HasDateAppend` and `DuplicateIffHasDate` |
| Ledger.IssueColumnInjective | Digital_Printing_App.py:210 | different slots name different columns |
| Ledger.IssueColumnLiterals | Digital_Printing_App.py:35-38 | the ten slot names are the literal column names of the list |
| DigitalPrintingApp.LoadRow | Digital_Printing_App.py:82-84 | definition of one loaded row: NaT for an unreadable date, DailyProductionTotal made numeric with 0 for NaN. `Load` states it cell by cell |
| DigitalPrintingApp.Load | Digital_Printing_App.py:77-89 | no rows, or a missing ProductionDate or DailyProductionTotal column (KeyError caught), give the empty table; otherwise one row per sheet row, NaT for an unreadable date, DailyProductionTotal made numeric with 0 for NaN, every other cell as read |
| DigitalPrintingApp.YtdMetrics | Digital_Printing_App.py:94-103 | the column-wise sums of production, jobs and trials over the window equal the row-by-row accumulation `RowwiseMetrics`, in which each in-window row adds its own triple; the empty table gives (0, 0, 0) |
| DigitalPrintingApp.ColumnsAreRowwise | Digital_Printing_App.py:98-103 | summing each column over the mask gives the same triple as adding the rows' triples one by one |
| DigitalPrintingApp.YtdAppend | Digital_Printing_App.py:94-103 | an appended in-window row raises production, jobs and trials by exactly its own values; any other row changes nothing |
| DigitalPrintingApp.YtdOutsideWindow | Digital_Printing_App.py:95-98 | rows with NaT, on or after the target, or of an earlier year never count: such a table gives (0, 0, 0), as does the empty one |
| DigitalPrintingApp.YtdIgnoresRow | Digital_Printing_App.py:98-103 | a row outside the window can sit anywhere without changing the metrics |
| DigitalPrintingApp.YtdOrderFree | Digital_Printing_App.py:98-103 | tables holding the same rows (equal multisets), in any order, give the same three metrics |
| DigitalPrintingApp.YtdExample | Digital_Printing_App.py:94-103 | 2026-01-05 (1000, 2 jobs) and 2026-02-10 (500, 1 job) give (1500, 3, 0) on 2026-02-15 |
| DigitalPrintingApp.CellSeconds | Digital_Printing_App.py:110-119 | definition of what one downtime cell adds: `str(val)` read by `ParseDowntime`, NaN dropped. Its properties are `NumberDowntimeSkipped` and `StoredDowntimeCounted` |
| DigitalPrintingApp.DowntimeTotal | Digital_Printing_App.py:105-120 | definition of the 2026 downtime total, row by row. `YtdDowntime` is proved against it; its properties are `DowntimeConcat`, `DowntimeOtherYear` and `StoredDowntimeCounted` |
| DigitalPrintingApp.YtdDowntime | Digital_Printing_App.py:105-120 | the loop's total equals the row-by-row downtime total of the 2026 rows |
| DigitalPrintingApp.DowntimeConcat | Digital_Printing_App.py:109-120 | the downtime total of two joined tables is the sum of their totals |
| DigitalPrintingApp.NumberDowntimeSkipped | Digital_Printing_App.py:112-119 | a number stored as downtime is one field and is always skipped |
| DigitalPrintingApp.StoredDowntimeCounted | Digital_Printing_App.py:107-120 | a 2026 row whose downtime came from the timer display adds that duration's whole seconds |
| DigitalPrintingApp.DowntimeOtherYear | Digital_Printing_App.py:107-108 | rows of other years or with NaT add nothing |
| DigitalPrintingApp.DowntimeHoursMinutes | Digital_Printing_App.py:136-137 | minutes are below 60 and hours and minutes cover the total seconds to within the last minute |
| DigitalPrintingApp.DowntimeMetricText | Digital_Printing_App.py:136-137 | definition of `f"{h}h {m}m"` from `DowntimeHoursMinutes` |
| DigitalPrintingApp.DowntimeHoursMinutesUnique | Digital_Printing_App.py:136-137 | those are the only hours and minutes that fit |
| DigitalPrintingApp.DefaultCell | Digital_Printing_App.py:208 | definition of a column's default: 0 when its header contains "Total" or "NoOf", "" otherwise. Its properties are `DefaultIsText` and `UnsetColumnDefaults` |
| DigitalPrintingApp.DefaultIsText | Digital_Printing_App.py:208 | a name with neither `l` nor `f` defaults to the empty text |
| DigitalPrintingApp.UnsetColumnDefaults | Digital_Printing_App.py:208 | WeeklyProductionTotal and MonthlyProductionTotal default to 0, every weekday column to "" |
| DigitalPrintingApp.IssueSlots | Digital_Printing_App.py:209-210 | exactly ten slots; slot i is the i-th tag while there is one, `"NoIssue"` after that; tags past the tenth are dropped |
| DigitalPrintingApp.MinutesText | Digital_Printing_App.py:218-219 | definition of `f"{n} mins"` |
| DigitalPrintingApp.IssueDict | Digital_Printing_App.py:209-210 | ProductionIssues_k for k in 1..10 holds the k-th selected tag, or `"NoIssue"` when fewer were chosen (so an empty selection gives ten `"NoIssue"`); the dict sets no other column |
| DigitalPrintingApp.InSheetListed | Digital_Printing_App.py:31-41 | the column list holds exactly the columns other than an issue column outside 1 to 10 |
| DigitalPrintingApp.SheetHasColumn | Digital_Printing_App.py:31-41 | every such column is listed |
| DigitalPrintingApp.ListedInSheet | Digital_Printing_App.py:31-41 | every listed column is of that shape |
| DigitalPrintingApp.AllInSheet | Digital_Printing_App.py:31-41 | the shape and the list agree on every column |
| DigitalPrintingApp.DictLiteralKeys | Digital_Printing_App.py:212-223 | the update literal sets no issue column and no weekday column but the day's |
| DigitalPrintingApp.DictLiteralTotals | Digital_Printing_App.py:212-223 | the update literal leaves the weekly and monthly totals alone |
| DigitalPrintingApp.DictLiteralValues | Digital_Printing_App.py:212-223 | each column the literal names holds its value, and the day's weekday column holds 1 |
| DigitalPrintingApp.DefaultsUnset | Digital_Printing_App.py:208 | in the defaults dict the weekly and monthly totals are 0 and the weekdays "" |
| DigitalPrintingApp.ComposeEntry | Digital_Printing_App.py:208-224 | the entry has exactly the listed columns. The date is in `%m/%d/%Y` form and TempDate in ISO form. Jobs, trials and production are as entered; Yearly is prev + today and YTD jobs prevJobs + jobs. The cleaning columns read `"{n} mins"` with the total am + pm. The downtime is the timer display. The weekly and monthly totals are 0. The day's weekday column is 1 and the other six "". The ten issue slots are filled as above |
| DigitalPrintingApp.IsDuplicate | Digital_Printing_App.py:183-185 | definition of the duplicate check: a non-empty table with a row of the date. Its property is `DuplicateIffHasDate` |
| DigitalPrintingApp.DuplicateIffHasDate | Digital_Printing_App.py:183-185 | the duplicate check holds iff some row has the date; its emptiness guard changes nothing |
| DigitalPrintingApp.FillBlank | Digital_Printing_App.py:225 | `fillna("")` on the concatenated frame: the row has its own columns and the listed ones and no other; a NaN or absent cell becomes ""; every other cell keeps its value |
| DigitalPrintingApp.FillBlankIdempotent | Digital_Printing_App.py:225 | filling a filled row changes nothing |
| DigitalPrintingApp.Written | Digital_Printing_App.py:225 | one written row per stored row, in order; each on the stored row's columns plus the listed ones; a stored value is written as it is and a NaN or absent cell as "" |
| DigitalPrintingApp.Session.constructor | Digital_Printing_App.py:69-72 | version 0, no downtime, no start time, timer idle |
| DigitalPrintingApp.Session.CurrentTotal | Digital_Printing_App.py:174-175 | definition of the shown total: accumulated, plus now - start while running. Its properties are `IdleTotalFrozen` and `RunningTotalGrows` |
| DigitalPrintingApp.Session.Display | Digital_Printing_App.py:176 | definition of the shown text `str(total).split('.')[0]` |
| DigitalPrintingApp.Session.StartTimer | Digital_Printing_App.py:163-167 | only from idle: running with start = now, everything else kept |
| DigitalPrintingApp.Session.StopTimer | Digital_Printing_App.py:168-172 | only while running: accumulated += now - start; idle; the start time left in place, yet every later reading shows accumulated |
| DigitalPrintingApp.Session.Saved | Digital_Printing_App.py:228-229 | form version + 1 and accumulated 0; the timer state kept |
| DigitalPrintingApp.Session.Submit | Digital_Printing_App.py:204-231 | a duplicate date sends nothing and changes nothing. Otherwise the sheet receives the stored rows, written back, followed by exactly one new entry built from the YTD metrics before the day and the shown downtime. A successful write bumps the version and clears the downtime; a failed one changes no state |
| DigitalPrintingApp.IdleTotalFrozen | Digital_Printing_App.py:174-175 | an idle timer shows accumulated whenever it is read |
| DigitalPrintingApp.RunningTotalGrows | Digital_Printing_App.py:174-175 | a running timer's total grows by exactly the time that passes |
| App.CoerceColumn | app.py:64 | one column of every row becomes `to_numeric(errors='coerce').fillna(0)`; dates and other columns are kept |
| App.Load | app.py:51-70 | no rows, no ProductionDate column, or an unreadable date (to_datetime raises) give the empty table. Otherwise it is one row per sheet row with its date parsed, and its ProductionDate cell replaced by that parsed date (NaT for an empty cell). The four numeric columns present in the sheet hold numbers (0 for anything else), and every other cell is as read |
| App.LoadedNumeric | app.py:61-64 | after loading, a numeric column of the sheet holds only numbers, of the value the cell had |
| App.YtdMetrics | app.py:72-80 | the column-wise sums of production and jobs over the window equal the row-by-row accumulation `RowwisePair`; the empty table gives (0, 0) |
| App.ColumnsAreRowwise | app.py:77-79 | summing each column over the mask gives the same pair as adding the rows' values one by one |
| App.YtdAppend | app.py:72-80 | an appended in-window row raises production and jobs by exactly its own values; any other row changes nothing |
| App.YtdOutsideWindow | app.py:73-77 | rows outside `year_start <= date < sel_dt` never count: such a table gives (0, 0) |
| App.DateExists | app.py:120 | definition of `date_exists`: a non-empty table with a row of the date. Its property is `SavedRowCounts` |
| App.CleaningText | app.py:155-157 | definition of `str(timedelta(minutes=m))` |
| App.CleaningTextReadsBack | app.py:155-157 | under a day, `str(timedelta(minutes=m))` is the `H:MM:SS` clock of m * 60 seconds and reads back as those seconds |
| App.InSheetListed | app.py:23-32 | the column list holds exactly the columns other than TempDate and an issue column outside 1 to 10 |
| App.SheetHasColumn | app.py:23-32 | every such column is listed |
| App.ListedInSheet | app.py:23-32 | every listed column is of that shape |
| App.DictLiteralKeys | app.py:148-160 | the update literal sets no issue column, not TempDate, neither the weekly nor the monthly total, and no weekday column but the day's |
| App.DictLiteralValues | app.py:148-160 | each column the literal names holds its value, and the day's weekday column holds 1 |
| App.ComposeEntry | app.py:147-165 | the entry has exactly the listed columns. The date is in ISO form. Jobs, trials and production are as entered; Yearly is prev + today and YTD jobs prevJobs + jobs. The cleaning columns hold `str(timedelta)` of am, pm and am + pm minutes. The downtime is the timer display. The weekly and monthly totals are 0. The day's weekday column is 1 and the other six 0. Slot i of 1..10 is `selected[i-1]` while i <= count and `"NoIssue"` after; an empty selection gives ten `"NoIssue"` |
| App.IssueSlot | app.py:164 | definition of slot k's value: the k-th selected tag while there is one, `"NoIssue"` after that. Its properties are `IssueKeepsOthers` (the save loop fills slot k with it) and `Versions.IssueSlotsAgree` (both versions fill the ten slots alike) |
| App.IssueKeys | app.py:163-165 | writing an issue slot adds no column |
| App.IssueKeepsExplicit | app.py:163-165 | writing an issue slot keeps every explicit value |
| App.IssueKeepsOthers | app.py:163-165 | writing slot i keeps the weekday flags and slots before i and fills slot i |
| App.DeleteByDate | app.py:204 | the rows kept are rows of the table, none of them of the deleted date |
| App.DeleteConcat | app.py:204 | deleting from two joined tables deletes from each, keeping their order |
| App.DeleteRemovesDate | app.py:204 | afterwards no row has the date |
| App.DeleteWithoutMatch | app.py:204 | a table without the date is kept as it is, order included |
| App.DeleteIdempotent | app.py:204 | deleting twice is deleting once |
| App.DeleteUndoesSave | app.py:204 | deleting the date of a newly appended row gives back the table before the save when the date was new |
| App.DeleteExample | app.py:204 | deleting r1's date from [r1, r2] gives [r2] |
| App.Session.constructor | app.py:39-46 | version 0, no downtime, no start time, timer idle |
| App.Session.CurrentTotal | app.py:107-108 | definition of the shown total: accumulated, plus now - start while running. `Reset` and `StopTimer` state their effect on it |
| App.Session.Display | app.py:109 | definition of the shown text `str(total).split('.')[0]` |
| App.Session.StartTimer | app.py:90-94 | only from idle: running with start = now, everything else kept |
| App.Session.StopTimer | app.py:95-101 | only while running: accumulated += now - start; idle; start time cleared |
| App.Session.Reset | app.py:103-105 | accumulated 0; running flag and start time unchanged, so every later reading drops exactly the old accumulated total |
| App.Session.Saved | app.py:175-176 | form version + 1 and accumulated 0; the timer state kept |
| App.Session.Submit | app.py:143-180 | an existing date sends nothing and changes nothing. Otherwise the table sent is the loaded rows unchanged followed by exactly one row of the day, built from the YTD pair and the shown downtime. A successful write bumps the version and clears the downtime; a failed one changes no state |
| App.SavedRowCounts | app.py:117-120 | a saved row's date is found by the next check, and the row adds its values to later YTD metrics of its year |
| Versions.ColumnListsDiffer | app.py:23-32 | Digital_Printing_App.py's column list is app.py's with TempDate added, which app.py lacks |
| Versions.IssueSlotsAgree | app.py:163-165 | the empty-selection special case changes no slot: both versions fill the ten slots alike |

## Left out

- Streamlit widgets, layout, forms, `st.rerun` and messages are left out. They are UI plumbing; the model keeps only what they feed the core.
- The Google Sheets connection and the SSL bypass are left out: they are network I/O. The sheet read is an input. The sheet write is `Submit`'s result, and its success is the `stored` flag.
- The Plotly and matplotlib charts, the 2026 header metrics of production and trials, and the target-progress percentage are left out (Digital_Printing_App.py:125-134). They are rendering and floating point.
- The `st.data_editor` bulk save (Digital_Printing_App.py:239-243) is left out. It writes back arbitrary user edits and states no behaviour.
- pandas text-to-date parsing is left out. A sheet row carries its parse outcome: blank, a day, or unreadable.
- The text of `strftime('%m/%d/%Y')` and `isoformat()` is left out. These cells are a date plus the style it is written in.
- Header stripping (`c.strip()`, Digital_Printing_App.py:81) is left out, because headers are a column datatype. Extra columns outside the app's own list are not modelled either, nor is how `pd.concat` aligns them.
- A non-empty sheet missing a column that a calculation reads without a guard is not modelled as a failure. The model reads the missing cells as NaN, which adds 0, where the code raises an uncaught KeyError:
  - in Digital_Printing_App.py, NoOfJobs and NoOfTrials (`calculate_ytd_metrics`, lines 101-102) and IssueResolutionTotal (`calculate_ytd_downtime`, line 108); a missing DailyProductionTotal is caught in `load_data` and gives the empty table, as `DigitalPrintingApp.Load` states;
  - in app.py, DailyProductionTotal and NoOfJobs (`calculate_ytd_metrics`, lines 78-79).
- The range of `timedelta` (at most 999999999 days either way) is not modelled. Past it `timedelta(hours=h, …)` and `total_td += …` raise OverflowError, which `calculate_ytd_downtime` does not catch, and the timer's arithmetic would fail the same way. `DowntimeTotal`, `CellSeconds` and `Session.CurrentTotal` add without bound.
- The digit limit of `int()` (Python 3.11 and later refuse more than 4300 digits with ValueError) is not modelled: `PythonInt` reads a field of any length, where the code would skip it.
- Floating point is left out: cells are integers, and `int()` of a float sum is not modelled.
- Text numbers that `pd.to_numeric` reads as floats ("1.5", "1e3") read as NaN in the model.
- `int()` strips only ASCII white space and reads only ASCII digits; Unicode white space and digits are not modelled.
- `datetime.now()` is a parameter `now`. Clock monotonicity is not assumed.
- The multiselect's closed category list is not enforced: any `seq<string>` can be selected.
- `DigitalPrintingApp.Session.Submit` and `App.Session.Submit` reuse the loaded rows of the same run. Concurrent writers and lost updates are not modelled.
- App.Session.Submit: the table sent is given as rows of the date model, so the new row's ISO date text appears as its parsed date. The pandas frames are not modelled.
- `CleanMachine*` values of app.py for a day or more of minutes are covered by `TimedeltaText` but are not proved to read back.
