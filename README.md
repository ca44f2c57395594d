# Lunar calendar page — a Dafny model

The calendar is a web page, script.js, backed by a small library, lunar-calendar.js.

The library does four things:
- It loads a CSV table that maps solar dates to lunar dates, keyed by `"YYYY-MM-DD"`.
- It looks dates up in that table (`getLunarData`, `getLunarDate`).
- It names years and days in the sexagenary (干支) cycle (`getYearGanZhi`, `getGanZhi`).
- It decides whether a date is a holiday (`isHoliday` with its table `holidaysDB`).

The page does the rest:
- It keeps the shown year and month and moves them with the arrows (`navigateMonth`) or the drop-downs (`populateYearMonthOptions`, `goToSelectedDate`).
- It opens the calendar once a six-digit birthdate is given (`startCalendar`).
- It lays out 42 day cells per month (`renderCalendar`).
- Its detail view shows a days-difference label and derives a birth year from the two-digit year of the birthdate (`showDateDetail`).

The model has six modules:
- `Wrappers`: the `Option` type.
- `JsText`: the JavaScript built-ins the code relies on.
  - `String.prototype.trim`, `split` on one character, `padStart(2, '0')`.
  - `String(n)` for integers.
  - `parseInt` without a radix: leading white space, a sign, a `0x` prefix, then the longest digit prefix, or NaN.
- `GanZhi`: `getYearGanZhi` and the arithmetic fallback of `getGanZhi`.
- `LunarData`:
  - `getDateKey` and the parse of one CSV row;
  - the table the loading loop builds;
  - class `LunarCalendarStore`, holding `lunarCalendarDB` and `isDataLoaded`, with the loader as methods and the lookups as functions reading the fields.
- `Holidays`: `holidaysDB` and `isHoliday`.
- `CalendarApp`:
  - class `AppState`, holding the page's global variables, with the handlers that update them as methods;
  - the pure pieces of the page: the navigation step, the birth-year pivot, the days label and the month grid.

lunar-calendar.js has no lunar year table and no month-walking converter: its lunar dates come only from the CSV lookup.

## Model

| member | source | states |
|---|---|---|
| JsText.TrimStart | lunar-calendar.js:36 | the result is no longer than the input and does not start with JS white space |
| JsText.TrimStartSuffix | lunar-calendar.js:36 | `trimStart` keeps a suffix of its input |
| JsText.TrimStartDropsSpaces | lunar-calendar.js:36 | every character it removes is white space |
| JsText.TrimEnd | lunar-calendar.js:40 | the result is no longer than the input and does not end with white space |
| JsText.TrimEndPrefix | lunar-calendar.js:40 | `trimEnd` keeps a prefix of its input |
| JsText.TrimEndDropsSpaces | lunar-calendar.js:40 | every character it removes is white space |
| JsText.Trim | lunar-calendar.js:40 | a trimmed line is empty or has no white space at either end |
| JsText.TrimUnpadded | lunar-calendar.js:68 | `trim` leaves a string without white space at its ends unchanged |
| JsText.TrimIdempotent | lunar-calendar.js:68 | trimming twice is trimming once |
| JsText.Split | lunar-calendar.js:43 | `split(',')` always yields at least one field |
| JsText.SplitPiecesFree | lunar-calendar.js:43 | no field contains the separator |
| JsText.JoinSplit | lunar-calendar.js:43 | joining the fields with the separator gives back the line |
| JsText.SplitAfterPiece | lunar-calendar.js:43 | a separator-free prefix becomes part of the first field |
| JsText.SplitJoin | lunar-calendar.js:43 | separator-free fields, joined and split again, are the same fields |
| JsText.JoinLast | lunar-calendar.js:43 | a joined line ends with the last character of its last field, when that field is non-empty |
| JsText.DigitValue | lunar-calendar.js:47 | a character's digit value is bounded by the not-a-digit marker |
| JsText.DecimalDigit | lunar-calendar.js:57 | the character written for 0..9 is a decimal digit of that value |
| JsText.DigitPrefix | lunar-calendar.js:47 | the digits `parseInt` reads are a prefix of the text, ending before a non-digit |
| JsText.DigitPrefixAllDigits | lunar-calendar.js:47 | that prefix holds only digits |
| JsText.ParseInt | lunar-calendar.js:47 | `parseInt(s)` without a radix: skip leading white space, take an optional sign, read the unsigned rest; its round trip with `String(n)` is `ParseIntRoundTrip` |
| JsText.ParseIntSkipsTrimmedSpace | lunar-calendar.js:47 | `parseInt(s)` equals `parseInt` of `s` with its leading white space trimmed |
| JsText.ParseUnsigned | lunar-calendar.js:47 | the unsigned part of `parseInt`: hexadecimal after a `0x`/`0X` prefix, else decimal, NaN when no digit follows; `DecimalUnsigned` and `ParseUnsignedOfDigits` state it |
| JsText.Negate | lunar-calendar.js:47 | a leading '-' keeps NaN as NaN and negates a number |
| JsText.DigitPrefixOfDigits | lunar-calendar.js:47 | digits of the radix followed by nothing or by a character that is no digit of the radix are read up to that character |
| JsText.DecimalUnsigned | lunar-calendar.js:47 | without a `0x` prefix, the unsigned part is NaN when there are no digits, else their decimal value |
| JsText.UnsignedStart | lunar-calendar.js:47 | text starting with anything but white space or a sign is read as unsigned |
| JsText.NegativeStart | lunar-calendar.js:47 | text starting with '-' is the negation of the rest |
| JsText.NoHexPrefix | lunar-calendar.js:47 | decimal digits followed by nothing or by a character that is no letter or digit cannot form a `0x` prefix |
| JsText.ParseUnsignedOfDigits | lunar-calendar.js:47 | decimal digits followed by nothing or by a character that is no letter or digit are read as their value |
| JsText.ParseIntOfDigits | lunar-calendar.js:47 | `parseInt` reads decimal digits followed by nothing or by a character that is no letter or digit as their value |
| JsText.ParseIntOfDigitString | lunar-calendar.js:47 | `parseInt` reads a string of digits as its value |
| JsText.ParseIntAfterMinus | lunar-calendar.js:47 | `parseInt("-" + u)` is the negation of what is read from `u` |
| JsText.ParseIntNegated | lunar-calendar.js:47 | a minus sign in front of digits worth `v` is read as `-v` |
| JsText.ParseUnsignedOfDigitString | lunar-calendar.js:47 | an all-digit text is read as its decimal value |
| JsText.NatToString | lunar-calendar.js:57 | `String(n)` of a natural number is non-empty and starts with a digit |
| JsText.NatToStringDigits | lunar-calendar.js:57 | it consists of decimal digits only |
| JsText.NatToStringValue | lunar-calendar.js:57 | those digits are worth `n`, with a leading '0' exactly for 0 |
| JsText.IntToString | lunar-calendar.js:57 | `String(n)` is non-empty and starts with '-' exactly for negative `n` |
| JsText.IntToStringDigits | lunar-calendar.js:57 | after an optional '-', `String(n)` holds only digits |
| JsText.DigitsExclude | lunar-calendar.js:43 | a string of digits does not contain a given non-digit, such as the comma |
| JsText.DigitIsNotSpace | lunar-calendar.js:47 | a digit is neither white space nor a sign |
| JsText.ParseIntOfNatText | script.js:289 | `parseInt` reads `String(n)` followed by nothing or by a character that is no letter or digit as `n` |
| JsText.ParseIntOfNat | lunar-calendar.js:47 | `parseInt(String(n)) == n` for naturals |
| JsText.ParseIntOfNegatedNat | lunar-calendar.js:47 | `parseInt("-" + String(n)) == -n` |
| JsText.ParseIntRoundTrip | lunar-calendar.js:47 | `parseInt(String(n)) == n` for every integer, the round trip the CSV relies on |
| JsText.IntToStringInjective | lunar-calendar.js:57 | distinct integers have distinct texts |
| JsText.PadStart2 | lunar-calendar.js:89-90 | `padStart(2, '0')` has length two, or the input length when that is longer |
| JsText.NatToStringStep | lunar-calendar.js:57 | a number of ten or more has one digit more than its tenth |
| JsText.FourDigits | lunar-calendar.js:88 | years 1000..9999 are written with four digits |
| JsText.TwoDigitText | lunar-calendar.js:89-90 | a padded number 0..99 is its tens digit followed by its units digit |
| JsText.TwoDigitsInjective | lunar-calendar.js:89-90 | two-digit texts of 0..99 determine the number |
| GanZhi.TablesDistinct | lunar-calendar.js:7-13 | the Chinese stem table, the Korean stem table, the Chinese branch table and the Korean branch table each hold distinct characters |
| GanZhi.ShiftStemByCycles | lunar-calendar.js:191-192 | whole cycles of 60 keep the stem residue |
| GanZhi.ShiftBranchByCycles | lunar-calendar.js:191-193 | whole cycles of 60 keep the branch residue |
| GanZhi.SameStemResidue | lunar-calendar.js:192 | equal stem residues exactly when the difference is a multiple of 10 |
| GanZhi.SameBranchResidue | lunar-calendar.js:193 | equal branch residues exactly when the difference is a multiple of 12 |
| GanZhi.MultipleOfSixty | lunar-calendar.js:191 | a multiple of both 10 and 12 exactly when a multiple of 60 |
| GanZhi.CycleCoordinates | lunar-calendar.js:191-193 | stem and branch residues together fix the position in the 60-cycle |
| GanZhi.YearGanZhi | lunar-calendar.js:182-200 | `NoInfo` exactly outside 1900..2049; inside, stem `(year-1900+6) % 10` and branch `(year-1900) % 12`, with the `% 60` offset removed |
| GanZhi.YearGanZhiCalibration | lunar-calendar.js:190-195 | 1900, 1960 and 2020 are 庚子; 2025 is 乙巳 |
| GanZhi.YearGanZhiPeriodic | lunar-calendar.js:191-195 | the year designation repeats every 60 years |
| GanZhi.YearGanZhiSameIff | lunar-calendar.js:191-195 | two supported years share a designation exactly when they are a multiple of 60 apart |
| GanZhi.PillarText | lunar-calendar.js:165-168 | the day text is the Korean stem and branch, then the Chinese stem and branch in parentheses, each at its fixed position |
| GanZhi.DayGanZhi | lunar-calendar.js:155-174 | `NoInfo` exactly for a negative offset; otherwise stem `(d+6) % 10` and branch `d % 12` |
| GanZhi.DayGanZhiAtEpoch | lunar-calendar.js:155-168 | offset 0 (1900-01-01) is 경자(庚子) |
| GanZhi.DayGanZhiPeriodic | lunar-calendar.js:160-168 | the day designation repeats every 60 days |
| GanZhi.DayGanZhiSameIff | lunar-calendar.js:160-168 | two non-negative offsets share a designation exactly when they are a multiple of 60 apart |
| LunarData.DateKey | lunar-calendar.js:87-92 | `getDateKey` and the key template at line 57: the year's text is followed by at least six characters, the first a '-'; `DateKeyDigits` gives the exact text and `DateKeyInjective` that distinct dates get distinct keys |
| LunarData.DateKeyDigits | lunar-calendar.js:57 | the key of a date is the year's text, '-', two month digits, '-', two day digits |
| LunarData.DateKeyShape | lunar-calendar.js:87-92 | for a four-digit year the key has length 10 with dashes at positions 4 and 7 |
| LunarData.DashedShape | lunar-calendar.js:91 | a 4-2-2 hyphenated text has length 10 and dashes at 4 and 7 |
| LunarData.NumberBeforeDash | lunar-calendar.js:57 | a number text before a '-' is determined by the glued text |
| LunarData.HyphenatedInjective | lunar-calendar.js:57 | a hyphenated key determines its year, month and day parts |
| LunarData.DateKeyInjective | lunar-calendar.js:87-92 | distinct dates (month and day 0..99) have distinct keys |
| LunarData.Fields | lunar-calendar.js:40-43 | a trimmed line splits into at least one field |
| LunarData.ParseRow | lunar-calendar.js:40-69 | one loop iteration: a row is stored only when its trimmed line is not blank; `ParseRowRules` states every skip and fill rule and `RowRoundTrip` the round trip with a written row |
| LunarData.RecordOf | lunar-calendar.js:43-69 | the record of a non-blank row: stored only with at least 7 fields, the leap flag exactly when field 6 reads 1; the rest is stated by `ParseRowRules` |
| LunarData.ParseInts | lunar-calendar.js:47-65 | one `parseInt` result per field |
| LunarData.ParseIntsAt | lunar-calendar.js:47-65 | result `k` is `parseInt` of field `k` |
| LunarData.FirstSevenNumbers | lunar-calendar.js:47-65 | the seven numbers used are `parseInt` of fields 0..6 |
| LunarData.ParseRowRules | lunar-calendar.js:40-69 | a row is stored exactly with at least 7 fields and numeric solar year, month and day; key from those; lunar date from fields 3-5; leap flag exactly when field 6 reads 1; designation absent exactly when there is no non-empty 8th field, otherwise trimmed |
| LunarData.ParseRows | lunar-calendar.js:39-70 | one parse per row |
| LunarData.ParseRowsAt | lunar-calendar.js:39-70 | parse `i` is the parse of row `i` |
| LunarData.ParseRowsSnoc | lunar-calendar.js:39-70 | parsing one more row appends its parse |
| LunarData.Store | lunar-calendar.js:60-69 | a skipped row leaves the table alone; a parsed row adds or replaces exactly its key; every other key keeps its value |
| LunarData.Table | lunar-calendar.js:39-70 | storing rows never loses a key |
| LunarData.TableSnoc | lunar-calendar.js:39-70 | storing one more parse is one more loader step |
| LunarData.StoredPrefixIsTable | lunar-calendar.js:39-70 | storing rows 1..i-1 one by one builds the table of their parses |
| LunarData.TableLastEntryWins | lunar-calendar.js:60 | the last row stored under a key decides its value, so a later duplicate overwrites |
| LunarData.TableKeepsOtherKeys | lunar-calendar.js:60 | a key no row is stored under keeps its presence and value |
| LunarData.RowFields | lunar-calendar.js:44 | a row written for an entry has 7 fields, or 8 with a designation |
| LunarData.NoCommaInNumber | lunar-calendar.js:43 | a number's text holds no comma |
| LunarData.SplitFormatRow | lunar-calendar.js:43 | a written row splits back into its fields |
| LunarData.TrimFormatRow | lunar-calendar.js:40-41 | a written row is not blank and `trim` keeps it |
| LunarData.NumberField | lunar-calendar.js:47-65 | a field written as `String(n)` is read back as `n` |
| LunarData.RecordOfNumbers | lunar-calendar.js:44-69 | fields reading as given numbers make the record of those numbers |
| LunarData.RowFieldsAt | lunar-calendar.js:47-68 | each written field is the text of its number, field 7 the designation |
| LunarData.RecordOfRowFields | lunar-calendar.js:44-69 | the written fields give the entry's key and record back |
| LunarData.RowRoundTrip | lunar-calendar.js:39-69 | a written CSV row parses back to its date key and record |
| LunarData.CsvRows | lunar-calendar.js:36 | the trimmed text splits into at least one row |
| LunarData.LunarCalendarStore.constructor | lunar-calendar.js:20-21 | the table starts empty and not loaded |
| LunarData.LunarCalendarStore.Initialize | lunar-calendar.js:27-80 | success exactly when the response arrived; the flag records it; on failure the table is unchanged; on success every row after the header is stored in order |
| LunarData.LunarCalendarStore.StoreRows | lunar-calendar.js:39-70 | the loop leaves the table of all parsed rows after the header, and the flag untouched |
| LunarData.LunarCalendarStore.GetLunarData | lunar-calendar.js:99-106 | a record exactly when loaded and the key is present; it is the stored record |
| LunarData.LunarCalendarStore.GetLunarDate | lunar-calendar.js:114-130 | a lunar date exactly for a year in 1900..2049, when loaded and the key is present; it is the stored lunar part |
| LunarData.LunarCalendarStore.GetGanZhi | lunar-calendar.js:140-175 | `NoInfo` outside 1900..2049 before any lookup; otherwise a non-empty stored designation; otherwise the computed day designation |
| LunarData.FormattedRowEntry | lunar-calendar.js:39-69 | a written row among the rows parses to its entry |
| LunarData.LaterRowsMiss | lunar-calendar.js:39-70 | rows not stored under a key give parses not stored under it |
| LunarData.LookupAfterLoad | lunar-calendar.js:99-153 | after loading, the lookups return the last entry stored under the date |
| LunarData.LookupFormattedRow | lunar-calendar.js:27-153 | after loading, a date's last written row decides `getLunarDate` and `getGanZhi` |
| Holidays.IsHoliday | lunar-calendar.js:265-302 | `isHoliday`: a fixed solar holiday or a weekend is always a holiday, since every table entry is a day off; `IsHolidayIff` gives both directions |
| Holidays.TableOf | lunar-calendar.js:307-326 | every row's key is in the object the literal builds |
| Holidays.TableOfRows | lunar-calendar.js:307-326 | every key comes from a row, and its entry is that row's entry |
| Holidays.HolidayRowsFacts | lunar-calendar.js:308-325 | all rows are listed 2025 dates and days off |
| Holidays.TableDatesHaveRows | lunar-calendar.js:308-325 | every listed date has a row |
| Holidays.TableEntriesAreDaysOff | lunar-calendar.js:308-325 | every table entry is a day off |
| Holidays.RowOfKey | lunar-calendar.js:268-271 | a row stored under a date's key is a row for that date |
| Holidays.KeyIsRowDate | lunar-calendar.js:268-271 | a date keyed in a table is the date of one of its rows |
| Holidays.TableKeyListed | lunar-calendar.js:268-271 | only the listed 2025 dates are table keys |
| Holidays.ListedDateInTable | lunar-calendar.js:268-271 | every listed 2025 date is a table key |
| Holidays.TableKeyIff | lunar-calendar.js:268-271 | a date is in the table exactly when it is a listed 2025 date |
| Holidays.Year2025Text | lunar-calendar.js:310 | the text of 2025 is "2025" |
| Holidays.SeollalKeyText | lunar-calendar.js:310 | the key of 2025-01-28 is the literal "2025-01-28" |
| Holidays.IsHolidayIff | lunar-calendar.js:265-302 | a holiday exactly for a listed 2025 date, a fixed solar holiday, or a weekend |
| Holidays.FixedHolidayAlways | lunar-calendar.js:278-288 | the eight fixed dates are holidays every year |
| Holidays.WeekendAlways | lunar-calendar.js:291-294 | Saturdays and Sundays are holidays, for every date |
| Holidays.OtherYearsIgnoreTable | lunar-calendar.js:271-297 | outside 2025 only fixed dates and weekends count |
| Holidays.ChuseokWeekOff | lunar-calendar.js:320-324 | 2025-10-05 .. 10-09 are holidays whatever the weekday |
| Holidays.SeollalOnlyIn2025 | lunar-calendar.js:310-312 | on weekdays, January 28-30 is a holiday exactly in 2025 |
| CalendarApp.Navigated | script.js:125-139 | after a step the month is in 1..12 and the year in 1900..2049 |
| CalendarApp.StepWithinYear | script.js:126-134 | a step inside the year changes only the month |
| CalendarApp.StepAcrossYear | script.js:128-134 | December +1 is January of the next year; January -1 is December of the previous year |
| CalendarApp.NextThenPrevious | script.js:125-141 | next then previous returns to the month, away from the upper end |
| CalendarApp.PreviousThenNext | script.js:125-141 | previous then next returns to the month, away from the lower end |
| CalendarApp.ClampAfterWrap | script.js:128-138 | the clamp acts after the wrap: Dec 2049 +1 shows Jan 2049, Jan 1900 -1 shows Dec 1900 |
| CalendarApp.NavigatedYearHasGanZhi | script.js:137-149 | every reached year has a year designation for the title |
| CalendarApp.IsBirthdateFormat | script.js:69 | `/^\d{6}$/`: exactly six ASCII digits; `StartCalendar` opens the calendar exactly when it holds |
| CalendarApp.DefaultBirthdateWellFormed | script.js:62-69 | the default birthdate passes the six-digit check |
| CalendarApp.TwoDigitsValue | script.js:301 | two digits are worth ten times the first plus the second |
| CalendarApp.FourDigitsValue | script.js:302 | four digits are worth their positional value |
| CalendarApp.ParseTwoDigits | script.js:301 | `parseInt` reads two digits as their value |
| CalendarApp.ParseFourDigits | script.js:302 | `parseInt` reads four digits as their value |
| CalendarApp.YearDigits | script.js:301 | the two-digit year is at most 99 |
| CalendarApp.PrefixedYearDigits | script.js:302 | the century in front of the two-digit year is worth 100 × century + yy |
| CalendarApp.ParsePrefixedYear | script.js:302 | `parseInt(prefix + yy)` is 100 × century + yy |
| CalendarApp.BirthYear | script.js:299-305 | the birth year of the detail view, read with `parseInt`; `BirthYearPivot` states 2000+yy below 50, else 1900+yy |
| CalendarApp.BirthYearPivot | script.js:299-305 | for YYMMDD the birth year is 2000+yy when yy < 50, else 1900+yy |
| CalendarApp.DefaultBirthYear | script.js:299-305 | 571111 gives 1957 |
| CalendarApp.DaysDiffText | script.js:286-290 | the days label is "오늘" exactly for a zero difference; `DaysDiffTextDirection` and `DaysDiffTextInjective` state the rest |
| CalendarApp.DaysDiffTextReadsBack | script.js:286-290 | a nonzero label starts with the magnitude, which reads back |
| CalendarApp.DaysDiffTextDirection | script.js:286-290 | the label ends in '전' exactly for the past and in '후' exactly for the future |
| CalendarApp.DaysDiffTextInjective | script.js:286-290 | different differences get different labels |
| CalendarApp.TrailingCount | script.js:180-185 | the trailing cells make the total 42, or there are none when the month already fills the grid |
| CalendarApp.GridCell | script.js:165-185 | cell k: previous-month exactly for k < firstDayOfWeek, a current-month cell shows a day 1..lastDay, a next-month cell a day from 1; `BuildMonthGrid` is proved equal to it cell by cell |
| CalendarApp.BuildMonthGrid | script.js:165-185 | the cells are the leading days, then the month's days, then the trailing days, each cell as the grid rule says |
| CalendarApp.GridIsFull | script.js:165-185 | a real month fills exactly 42 cells, with at least 5 trailing |
| CalendarApp.GridDayCell | script.js:173-177 | each day of the month has exactly one current-month cell |
| CalendarApp.GridLeadsIntoMonth | script.js:165-170 | the leading cells count up to the previous month's last day |
| CalendarApp.AppState.constructor | script.js:2-5 | the page starts with the default user, today's year and month, on the user-information screen |
| CalendarApp.AppState.NavigateMonth | script.js:125-141 | the new year and month are `Navigated` of the old ones; nothing else changes |
| CalendarApp.AppState.StartCalendar | script.js:58-80 | the name and birthdate are the input or the defaults; the calendar opens exactly for six digits; otherwise the screen stays |
| CalendarApp.AppState.GoToSelectedDate | script.js:113-122 | the shown month becomes the selected one; nothing else changes |
| CalendarApp.AppState.YearMonthOptions | script.js:83-104 | options 1900..2049 labelled "N년" and 1..12 labelled "N월", each selected exactly when it is the shown one |
| CalendarApp.YearOptionsMatchClamp | script.js:88-138 | the year options are exactly the clamp range 1900..2049; one is selected exactly when the shown year is in that range |

## Left out

- The fetch of the CSV file, `response.text()` and the async control flow are left out. `Initialize` receives what the fetch produced: the response text, or nothing for a failed request or a non-OK response.
- Console output is left out.
- The contents of `lunar_solar_calendar.csv` are left out, because the file is not part of this model. The model states what any CSV text gives, not which lunar dates are correct.
- JavaScript `Date` is not modelled: timezones, millisecond arithmetic and the overflow normalisation of `new Date(y, m - 1, d)`.
  - Dates are (year, month, day) triples that are already normalised.
  - The whole-day offset since 1900-01-01 is a parameter of `GetGanZhi` and `DayGanZhi`.
  - The weekday is a parameter of `IsHoliday`.
  - For the same reason `getDaysDifference` is left out; `DaysDiffText` takes its result.
  - Month and day stay in 0..99 after normalisation, which is why the key lemmas require that range.
- `calculateBiorhythm` is left out: it is floating-point trigonometry and rounding.
- The rest of the biorhythm block of `showDateDetail` is left out: the birth month and day, the before-birth check and the bar display.
- All DOM work, event listeners, `alert`, the swipe gestures, `toggleYearMonthSelect`, `toggleUserInfoForm` and the text decoration of `renderCalendar`/`createDayElement` are left out.
- The unused `chineseYears` table is left out.
- `parseInt` results are unbounded integers. Double-precision rounding of very long digit strings is not modelled.
- The keys of `holidaysDB` are written in the model as `DateKey(2025, m, d)`. `SeollalKeyText` shows that such a key is the literal text of the table; the model does not restate the other sixteen literals.
- JsText.ParseInt: skips leading white space one character at a time instead of calling `trimStart`; `ParseIntSkipsTrimmedSpace` proves the two agree.
- LunarData.LunarCalendarStore.StoreRows: the loop of `loadLunarCalendarData`, split out as its own method (same order, same steps).
- CalendarApp.AppState.GoToSelectedDate: takes the numeric values of the two drop-downs. It requires them to be among the options, since the drop-downs offer nothing else.
- Holidays.IsHoliday: takes the weekday as a parameter and assumes the date is already normalised.
- JsText.PadStart2: states only the length of its result. What it produces for the numbers 0..99 that keys use is stated by `TwoDigitText`.
- Holidays.KeyIsRowDate, Holidays.TableKeyIff, Holidays.IsHolidayIff: require month and day in 0..99, the range a normalised `Date` gives.
- LunarData.DateKeyShape: requires a four-digit year. Other years have keys of other lengths.
- CalendarApp.BirthYear: counts characters as code points, while `birthdate.length` and `substring` count UTF-16 code units. The two differ only for a birthdate holding a character outside the Basic Multilingual Plane, and the detail view is reached only after `startCalendar` has accepted a birthdate of six ASCII digits.
