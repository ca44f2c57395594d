/**
 * `isHoliday` of lunar-calendar.js: a date is a holiday when the holiday
 * table lists it, otherwise when it is one of the fixed solar holidays,
 * otherwise when it falls on a Saturday or a Sunday.
 */
module Holidays {
  import opened JsText
  import opened LunarData

  /** A value of `holidaysDB`: the holiday's name and whether it is a day off. */
  datatype HolidayEntry = HolidayEntry(name: string, isHoliday: bool)

  /** One line of the `holidaysDB` literal: the date its key is made from and the entry stored under it. */
  datatype HolidayRow = HolidayRow(year: int, month: int, day: int, entry: HolidayEntry)

  /** The key a row is stored under. */
  function RowKey(row: HolidayRow): string {
    DateKey(row.year, row.month, row.day)
  }

  /**
   * The lines of the `holidaysDB` literal, in order. Each key is written as
   * the `DateKey` of its date, which is the literal "2025-MM-DD" string
   * (`SeollalKeyText` shows one).
   */
  const HolidayRows: seq<HolidayRow> := [
    HolidayRow(2025, 1, 1, HolidayEntry("신정", true)),
    HolidayRow(2025, 1, 28, HolidayEntry("설날", true)),
    HolidayRow(2025, 1, 29, HolidayEntry("설날", true)),
    HolidayRow(2025, 1, 30, HolidayEntry("설날", true)),
    HolidayRow(2025, 3, 1, HolidayEntry("삼일절", true)),
    HolidayRow(2025, 3, 3, HolidayEntry("대체공휴일", true)),
    HolidayRow(2025, 5, 5, HolidayEntry("어린이날", true)),
    HolidayRow(2025, 5, 6, HolidayEntry("석가탄신일", true)),
    HolidayRow(2025, 6, 6, HolidayEntry("현충일", true)),
    HolidayRow(2025, 8, 15, HolidayEntry("광복절", true)),
    HolidayRow(2025, 10, 3, HolidayEntry("개천절", true)),
    HolidayRow(2025, 10, 5, HolidayEntry("추석", true)),
    HolidayRow(2025, 10, 6, HolidayEntry("추석", true)),
    HolidayRow(2025, 10, 7, HolidayEntry("추석", true)),
    HolidayRow(2025, 10, 8, HolidayEntry("대체공휴일", true)),
    HolidayRow(2025, 10, 9, HolidayEntry("한글날", true)),
    HolidayRow(2025, 12, 25, HolidayEntry("크리스마스", true))
  ]

  /** The object a literal with these lines builds: a later line with the same key replaces an earlier one. */
  function TableOf(rows: seq<HolidayRow>): (db: map<string, HolidayEntry>)
    ensures forall row :: row in rows ==> RowKey(row) in db
  {
    if rows == [] then map[]
    else TableOf(rows[..|rows| - 1])[RowKey(rows[|rows| - 1]) := rows[|rows| - 1].entry]
  }

  /** `holidaysDB`. */
  const HolidaysDB: map<string, HolidayEntry> := TableOf(HolidayRows)

  /** The dates `holidaysDB` lists, as (month, day) pairs of 2025. */
  predicate IsTableDate2025(month: int, day: int) {
    || (month == 1 && (day == 1 || day == 28 || day == 29 || day == 30))
    || (month == 3 && (day == 1 || day == 3))
    || (month == 5 && (day == 5 || day == 6))
    || (month == 6 && day == 6)
    || (month == 8 && day == 15)
    || (month == 10 && 3 <= day <= 9 && day != 4)
    || (month == 12 && day == 25)
  }

  /** The holidays that fall on the same solar date every year. */
  predicate IsFixedSolarHoliday(month: int, day: int) {
    || (month == 1 && day == 1)
    || (month == 3 && day == 1)
    || (month == 5 && day == 5)
    || (month == 6 && day == 6)
    || (month == 8 && day == 15)
    || (month == 10 && day == 3)
    || (month == 10 && day == 9)
    || (month == 12 && day == 25)
  }

  /** Sunday (0) and Saturday (6) in `getDay` numbering. */
  predicate IsWeekend(dayOfWeek: int) {
    dayOfWeek == 0 || dayOfWeek == 6
  }

  /**
   * `isHoliday(year, month, day)`: the table's answer when the date's key
   * is listed, else true for a fixed solar holiday, else true on weekends.
   * `dayOfWeek` is the date's `getDay()`.
   */
  function IsHoliday(year: int, month: int, day: int, dayOfWeek: int): (holiday: bool)
    ensures IsFixedSolarHoliday(month, day) || IsWeekend(dayOfWeek) ==> holiday
  {
    var key := DateKey(year, month, day);
    if key in HolidaysDB then TableEntriesAreDaysOff(key); HolidaysDB[key].isHoliday
    else if IsFixedSolarHoliday(month, day) then true
    else if IsWeekend(dayOfWeek) then true
    else false
  }

  /** Every key of the table comes from a row, and the entry under it is that row's entry. */
  lemma {:induction false} TableOfRows(rows: seq<HolidayRow>, key: string)
    requires key in TableOf(rows)
    ensures exists i :: 0 <= i < |rows| && RowKey(rows[i]) == key && TableOf(rows)[key] == rows[i].entry
  {
    var last := rows[|rows| - 1];
    if RowKey(last) != key {
      TableOfRows(rows[..|rows| - 1], key);
      var i :| 0 <= i < |rows| - 1 && RowKey(rows[..|rows| - 1][i]) == key
        && TableOf(rows[..|rows| - 1])[key] == rows[..|rows| - 1][i].entry;
      assert rows[..|rows| - 1][i] == rows[i];
    }
  }

  /** The rows of `holidaysDB` are listed 2025 dates, all days off. */
  lemma HolidayRowsFacts()
    ensures forall i :: 0 <= i < |HolidayRows| ==>
      var row := HolidayRows[i];
      row.year == 2025 && 1 <= row.month <= 12 && 1 <= row.day <= 31
      && IsTableDate2025(row.month, row.day) && row.entry.isHoliday
  {
  }

  /** Every listed date has a row. */
  lemma TableDatesHaveRows(month: int, day: int)
    requires IsTableDate2025(month, day)
    ensures exists i :: (0 <= i < |HolidayRows| && HolidayRows[i].year == 2025
      && HolidayRows[i].month == month && HolidayRows[i].day == day)
  {
    var i :=
      if month == 1 then (if day == 1 then 0 else day - 27)
      else if month == 3 then (if day == 1 then 4 else 5)
      else if month == 5 then day + 1
      else if month == 6 then 8
      else if month == 8 then 9
      else if month == 10 then (if day == 3 then 10 else day + 6)
      else 16;
    assert HolidayRows[i].year == 2025 && HolidayRows[i].month == month && HolidayRows[i].day == day;
  }

  /** Every entry of `holidaysDB` is a day off. */
  lemma TableEntriesAreDaysOff(key: string)
    requires key in HolidaysDB
    ensures HolidaysDB[key].isHoliday
  {
    TableOfRows(HolidayRows, key);
    HolidayRowsFacts();
  }

  /** A row stored under a date's key (month and day in 0..99 on both sides) is a row for that date. */
  lemma RowOfKey(row: HolidayRow, year: int, month: int, day: int)
    requires 0 <= row.month <= 99 && 0 <= row.day <= 99 && 0 <= month <= 99 && 0 <= day <= 99
    requires RowKey(row) == DateKey(year, month, day)
    ensures row.year == year && row.month == month && row.day == day
  {
    DateKeyInjective(year, month, day, row.year, row.month, row.day);
  }

  /** A date (month and day in 0..99) keyed in a table of such rows is the date of one of its rows. */
  lemma KeyIsRowDate(rows: seq<HolidayRow>, year: int, month: int, day: int)
    requires forall i :: 0 <= i < |rows| ==> 0 <= rows[i].month <= 99 && 0 <= rows[i].day <= 99
    requires 0 <= month <= 99 && 0 <= day <= 99
    requires DateKey(year, month, day) in TableOf(rows)
    ensures exists i :: 0 <= i < |rows| && rows[i].year == year && rows[i].month == month && rows[i].day == day
  {
    var key := DateKey(year, month, day);
    TableOfRows(rows, key);
    var i :| 0 <= i < |rows| && RowKey(rows[i]) == key && TableOf(rows)[key] == rows[i].entry;
    RowOfKey(rows[i], year, month, day);
  }

  /** Only the listed 2025 dates (with month and day in 0..99) are keys of `holidaysDB`. */
  lemma TableKeyListed(year: int, month: int, day: int)
    requires 0 <= month <= 99 && 0 <= day <= 99
    requires DateKey(year, month, day) in HolidaysDB
    ensures year == 2025 && IsTableDate2025(month, day)
  {
    HolidayRowsFacts();
    KeyIsRowDate(HolidayRows, year, month, day);
  }

  /** Every listed 2025 date is a key of `holidaysDB`. */
  lemma ListedDateInTable(month: int, day: int)
    requires IsTableDate2025(month, day)
    ensures DateKey(2025, month, day) in HolidaysDB
  {
    TableDatesHaveRows(month, day);
    var i :| 0 <= i < |HolidayRows| && HolidayRows[i].year == 2025
      && HolidayRows[i].month == month && HolidayRows[i].day == day;
    assert RowKey(HolidayRows[i]) == DateKey(2025, month, day);
    assert HolidayRows[i] in HolidayRows;
  }

  /**
   * A date with month and day in 0..99 is in `holidaysDB` exactly when it
   * is one of the listed 2025 dates.
   */
  lemma TableKeyIff(year: int, month: int, day: int)
    requires 0 <= month <= 99 && 0 <= day <= 99
    ensures DateKey(year, month, day) in HolidaysDB <==> year == 2025 && IsTableDate2025(month, day)
  {
    if DateKey(year, month, day) in HolidaysDB {
      TableKeyListed(year, month, day);
    }
    if year == 2025 && IsTableDate2025(month, day) {
      ListedDateInTable(month, day);
    }
  }

  /** "2025" is the text of the year 2025. */
  lemma Year2025Text()
    ensures IntToString(2025) == "2025"
  {
  }

  /** The key of 2025-01-28 is the literal "2025-01-28" that the table is written with. */
  lemma SeollalKeyText()
    ensures DateKey(2025, 1, 28) == "2025-01-28"
  {
    Year2025Text();
    DateKeyDigits(2025, 1, 28);
  }

  /**
   * For a date with month and day in 0..99, `isHoliday` holds exactly for
   * the listed 2025 dates, the fixed solar holidays of every year, and
   * weekends.
   */
  lemma IsHolidayIff(year: int, month: int, day: int, dayOfWeek: int)
    requires 0 <= month <= 99 && 0 <= day <= 99
    ensures IsHoliday(year, month, day, dayOfWeek)
      <==> (year == 2025 && IsTableDate2025(month, day)) || IsFixedSolarHoliday(month, day) || IsWeekend(dayOfWeek)
  {
    TableKeyIff(year, month, day);
    if DateKey(year, month, day) in HolidaysDB {
      TableEntriesAreDaysOff(DateKey(year, month, day));
    }
  }

  /** A fixed solar holiday is a holiday in every year, whatever the weekday. */
  lemma FixedHolidayAlways(year: int, month: int, day: int, dayOfWeek: int)
    requires IsFixedSolarHoliday(month, day)
    ensures IsHoliday(year, month, day, dayOfWeek)
  {
    IsHolidayIff(year, month, day, dayOfWeek);
  }

  /** Saturdays and Sundays are always holidays. */
  lemma WeekendAlways(year: int, month: int, day: int, dayOfWeek: int)
    requires IsWeekend(dayOfWeek)
    ensures IsHoliday(year, month, day, dayOfWeek)
  {
  }

  /** Outside 2025 the table is never consulted successfully: only fixed holidays and weekends count. */
  lemma OtherYearsIgnoreTable(year: int, month: int, day: int, dayOfWeek: int)
    requires 0 <= month <= 99 && 0 <= day <= 99 && year != 2025
    ensures IsHoliday(year, month, day, dayOfWeek) <==> IsFixedSolarHoliday(month, day) || IsWeekend(dayOfWeek)
  {
    IsHolidayIff(year, month, day, dayOfWeek);
  }

  /** The five days 2025-10-05 .. 2025-10-09 (추석, its substitute day and 한글날) are holidays whatever the weekday. */
  lemma ChuseokWeekOff(day: int, dayOfWeek: int)
    requires 5 <= day <= 9
    ensures IsHoliday(2025, 10, day, dayOfWeek)
  {
    IsHolidayIff(2025, 10, day, dayOfWeek);
  }

  /** 설날 of 2025 (01-28 .. 01-30) is off, but the same dates on a weekday of another year are not. */
  lemma SeollalOnlyIn2025(year: int, day: int, dayOfWeek: int)
    requires 28 <= day <= 30 && 1 <= dayOfWeek <= 5
    ensures IsHoliday(year, 1, day, dayOfWeek) <==> year == 2025
  {
    IsHolidayIff(year, 1, day, dayOfWeek);
  }
}
