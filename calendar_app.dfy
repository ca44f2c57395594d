/**
 * The page logic of script.js: the shown month and its navigation, the
 * user-information step that opens the calendar, the year and month
 * choices, the 42-cell month grid, the days-difference label and the
 * birth-year pivot of the detail view.
 */
module CalendarApp {
  import opened JsText
  import GanZhi

  /** The first and last year the page lets the user reach. */
  const MinYear := 1900
  const MaxYear := 2049

  /** The month grid always has six rows of seven days. */
  const GridSize := 42

  const DefaultUsername := "yskim"
  const DefaultBirthdate := "571111"

  /** Which of the first two screens is shown. */
  datatype Screen = UserInfoScreen | CalendarScreen

  datatype YearMonth = YearMonth(year: int, month: int)

  /* ---------------- month navigation ---------------- */

  /**
   * `navigateMonth(step)` on a year and month: add the step, wrap a month
   * past December to January of the next year and one before January to
   * December of the previous year, then clamp the year to 1900..2049.
   */
  function Navigated(year: int, month: int, step: int): (r: YearMonth)
    ensures 1 <= r.month <= 12 && MinYear <= r.year <= MaxYear
  {
    var m := month + step;
    var wrapped :=
      if m > 12 then YearMonth(year + 1, 1)
      else if m < 1 then YearMonth(year - 1, 12)
      else YearMonth(year, m);
    var y := if wrapped.year < MinYear then MinYear else wrapped.year;
    YearMonth(if y > MaxYear then MaxYear else y, wrapped.month)
  }

  /** A step that stays inside the year changes only the month. */
  lemma StepWithinYear(year: int, month: int, step: int)
    requires MinYear <= year <= MaxYear && 1 <= month + step <= 12
    ensures Navigated(year, month, step) == YearMonth(year, month + step)
  {
  }

  /** December steps forward to January of the next year, January back to December of the previous one. */
  lemma StepAcrossYear(year: int)
    ensures MinYear <= year < MaxYear ==> Navigated(year, 12, 1) == YearMonth(year + 1, 1)
    ensures MinYear < year <= MaxYear ==> Navigated(year, 1, -1) == YearMonth(year - 1, 12)
  {
  }

  /** Inside the range, the previous month of the next month is the month itself. */
  lemma NextThenPrevious(year: int, month: int)
    requires MinYear <= year <= MaxYear && 1 <= month <= 12
    requires !(year == MaxYear && month == 12)
    ensures var next := Navigated(year, month, 1); Navigated(next.year, next.month, -1) == YearMonth(year, month)
  {
  }

  /** Inside the range, the next month of the previous month is the month itself. */
  lemma PreviousThenNext(year: int, month: int)
    requires MinYear <= year <= MaxYear && 1 <= month <= 12
    requires !(year == MinYear && month == 1)
    ensures var prev := Navigated(year, month, -1); Navigated(prev.year, prev.month, 1) == YearMonth(year, month)
  {
  }

  /**
   * At the ends of the range the clamp acts after the month has wrapped:
   * "next" from December 2049 shows January 2049 and "previous" from
   * January 1900 shows December 1900.
   */
  lemma ClampAfterWrap()
    ensures Navigated(MaxYear, 12, 1) == YearMonth(MaxYear, 1)
    ensures Navigated(MinYear, 1, -1) == YearMonth(MinYear, 12)
  {
  }

  /** Every month navigation reaches a year whose designation the title can show. */
  lemma NavigatedYearHasGanZhi(year: int, month: int, step: int)
    ensures GanZhi.YearGanZhi(Navigated(year, month, step).year) != GanZhi.NoInfo
  {
  }

  /* ---------------- birthdate, birth year and labels ---------------- */

  /** `/^\d{6}$/`: exactly six ASCII digits. */
  predicate IsBirthdateFormat(s: string) {
    |s| == 6 && forall i :: 0 <= i < 6 ==> '0' <= s[i] <= '9'
  }

  /** The default birthdate passes the format check. */
  lemma DefaultBirthdateWellFormed()
    ensures IsBirthdateFormat(DefaultBirthdate)
  {
  }

  /**
   * The birth year of the detail view: for a six-character birthdate, "20"
   * or "19" (as `parseInt` of the first two characters is below 50 or not,
   * NaN counting as not) in front of those two characters, read by
   * `parseInt`; 1957 for any other length.
   */
  function BirthYear(birthdate: string): JsInt
  {
    if |birthdate| == 6 then
      var yy := birthdate[..2];
      var prefix := if ParseInt(yy).Int? && ParseInt(yy).value < 50 then "20" else "19";
      ParseInt(prefix + yy)
    else
      Int(1957)
  }

  /** The value of a two-digit decimal text. */
  lemma TwoDigitsValue(yy: string)
    requires |yy| == 2 && IsDigitIn(yy[0], 10) && IsDigitIn(yy[1], 10)
    ensures DigitsValue(yy, 10) == 10 * DigitValue(yy[0]) + DigitValue(yy[1])
  {
    var high := yy[..1];
    assert high[..0] == [];
    assert DigitsValue(high, 10) == DigitValue(yy[0]);
    assert DigitsValue(yy, 10) == DigitsValue(high, 10) * 10 + DigitValue(yy[1]);
  }

  /** The value of a four-digit decimal text. */
  lemma FourDigitsValue(s: string)
    requires |s| == 4 && forall i :: 0 <= i < 4 ==> IsDigitIn(s[i], 10)
    ensures DigitsValue(s, 10) == 1000 * DigitValue(s[0]) + 100 * DigitValue(s[1]) + 10 * DigitValue(s[2]) + DigitValue(s[3])
  {
    TwoDigitsValue(s[..2]);
    assert s[..3][..2] == s[..2];
    assert DigitsValue(s[..3], 10) == DigitsValue(s[..2], 10) * 10 + DigitValue(s[2]);
    assert DigitsValue(s, 10) == DigitsValue(s[..3], 10) * 10 + DigitValue(s[3]);
  }

  /** `parseInt` reads two decimal digits as their value. */
  lemma ParseTwoDigits(yy: string)
    requires |yy| == 2 && IsDigitIn(yy[0], 10) && IsDigitIn(yy[1], 10)
    ensures ParseInt(yy) == Int(10 * DigitValue(yy[0]) + DigitValue(yy[1]))
  {
    TwoDigitsValue(yy);
    ParseIntOfDigitString(yy);
  }

  /** `parseInt` reads four decimal digits as their value. */
  lemma ParseFourDigits(text: string, value: int)
    requires |text| == 4 && IsDigitIn(text[0], 10) && IsDigitIn(text[1], 10)
    requires IsDigitIn(text[2], 10) && IsDigitIn(text[3], 10)
    requires value == 1000 * DigitValue(text[0]) + 100 * DigitValue(text[1]) + 10 * DigitValue(text[2]) + DigitValue(text[3])
    ensures ParseInt(text) == Int(value)
  {
    assert forall i :: 0 <= i < |text| ==> IsDigitIn(text[i], 10);
    ParseIntOfDigitString(text);
    FourDigitsValue(text);
  }

  /** The two-digit year of a well-formed birthdate. */
  function YearDigits(birthdate: string): (yy: nat)
    requires IsBirthdateFormat(birthdate)
    ensures yy <= 99
  {
    10 * DigitValue(birthdate[0]) + DigitValue(birthdate[1])
  }

  /** A two-digit century in front of the birthdate's two-digit year gives four digits worth 100 * century + yy. */
  lemma PrefixedYearDigits(birthdate: string, prefix: string)
    requires IsBirthdateFormat(birthdate)
    requires |prefix| == 2 && '0' <= prefix[0] <= '9' && '0' <= prefix[1] <= '9'
    ensures var text := prefix + birthdate[..2];
      && |text| == 4 && IsDigitIn(text[0], 10) && IsDigitIn(text[1], 10)
      && IsDigitIn(text[2], 10) && IsDigitIn(text[3], 10)
      && 1000 * DigitValue(text[0]) + 100 * DigitValue(text[1]) + 10 * DigitValue(text[2]) + DigitValue(text[3])
         == 100 * (10 * DigitValue(prefix[0]) + DigitValue(prefix[1])) + YearDigits(birthdate)
  {
    var text := prefix + birthdate[..2];
    assert text[0] == prefix[0] && text[1] == prefix[1] && text[2] == birthdate[0] && text[3] == birthdate[1];
  }

  /** `parseInt(prefix + yy)` for a two-digit century `prefix` in front of the birthdate's two-digit year. */
  lemma ParsePrefixedYear(birthdate: string, prefix: string, century: int)
    requires IsBirthdateFormat(birthdate)
    requires |prefix| == 2 && '0' <= prefix[0] <= '9' && '0' <= prefix[1] <= '9'
    requires century == 10 * DigitValue(prefix[0]) + DigitValue(prefix[1])
    ensures ParseInt(prefix + birthdate[..2]) == Int(100 * century + YearDigits(birthdate))
  {
    PrefixedYearDigits(birthdate, prefix);
    ParseFourDigits(prefix + birthdate[..2], 100 * century + YearDigits(birthdate));
  }

  /**
   * For a well-formed birthdate with two-digit year yy, the birth year is
   * 2000 + yy when yy < 50 and 1900 + yy otherwise.
   */
  lemma BirthYearPivot(birthdate: string)
    requires IsBirthdateFormat(birthdate)
    ensures BirthYear(birthdate) == Int(if YearDigits(birthdate) < 50 then 2000 + YearDigits(birthdate)
                                        else 1900 + YearDigits(birthdate))
  {
    var yy := birthdate[..2];
    ParseTwoDigits(yy);
    if YearDigits(birthdate) < 50 {
      ParsePrefixedYear(birthdate, "20", 20);
    } else {
      ParsePrefixedYear(birthdate, "19", 19);
    }
  }

  /** The default birthdate 571111 gives the birth year 1957. */
  lemma DefaultBirthYear()
    ensures BirthYear(DefaultBirthdate) == Int(1957)
  {
    DefaultBirthdateWellFormed();
    assert YearDigits(DefaultBirthdate) == 57;
    BirthYearPivot(DefaultBirthdate);
  }

  /** The label for a whole-day difference: "오늘", "N일 전" for the past, "N일 후" for the future. */
  function DaysDiffText(daysDiff: int): (text: string)
    ensures text == "오늘" <==> daysDiff == 0
  {
    if daysDiff == 0 then "오늘"
    else if daysDiff > 0 then IntToString(daysDiff) + "일 전"
    else IntToString(-daysDiff) + "일 후"
  }

  /** A nonzero difference's label starts with its magnitude, which `parseInt` reads back. */
  lemma DaysDiffTextReadsBack(daysDiff: int)
    requires daysDiff != 0
    ensures ParseInt(DaysDiffText(daysDiff)) == Int(if daysDiff > 0 then daysDiff else -daysDiff)
  {
    var magnitude := if daysDiff > 0 then daysDiff else -daysDiff;
    var suffix := if daysDiff > 0 then "일 전" else "일 후";
    assert DigitValue(suffix[0]) == NotADigit;
    assert DaysDiffText(daysDiff) == NatToString(magnitude) + suffix;
    ParseIntOfNatText(magnitude, suffix);
  }

  /** The label's last character tells the past ('전') from the future ('후') and from today ('늘'). */
  lemma DaysDiffTextDirection(daysDiff: int)
    ensures var t := DaysDiffText(daysDiff);
      |t| >= 2 && (t[|t| - 1] == '전' <==> daysDiff > 0) && (t[|t| - 1] == '후' <==> daysDiff < 0)
  {
  }

  /** Different differences get different labels. */
  lemma DaysDiffTextInjective(a: int, b: int)
    requires DaysDiffText(a) == DaysDiffText(b)
    ensures a == b
  {
    DaysDiffTextDirection(a);
    DaysDiffTextDirection(b);
    if a != 0 && b != 0 {
      DaysDiffTextReadsBack(a);
      DaysDiffTextReadsBack(b);
    }
  }

  /* ---------------- the month grid ---------------- */

  /** The three kinds of cells `renderCalendar` appends. */
  datatype CellKind = PrevMonthDay | CurrentMonthDay | NextMonthDay

  /** A grid cell: its kind and the day of its own month it shows. */
  datatype DayCell = DayCell(kind: CellKind, day: int)

  /** How many next-month cells fill the grid: 42 minus the others, none when they already fill it. */
  function TrailingCount(firstDayOfWeek: nat, lastDay: nat): (n: nat)
    ensures firstDayOfWeek + lastDay <= GridSize ==> firstDayOfWeek + lastDay + n == GridSize
    ensures firstDayOfWeek + lastDay >= GridSize ==> n == 0
  {
    if firstDayOfWeek + lastDay < GridSize then GridSize - (firstDayOfWeek + lastDay) else 0
  }

  /**
   * Cell `k` of the grid: the last `firstDayOfWeek` days of the previous
   * month (which has `prevLastDay` days), then days 1..`lastDay` of the
   * month, then days 1, 2, ... of the next month.
   */
  function GridCell(firstDayOfWeek: nat, lastDay: nat, prevLastDay: int, k: nat): (cell: DayCell)
    ensures cell.kind == PrevMonthDay <==> k < firstDayOfWeek
    ensures cell.kind == CurrentMonthDay ==> 1 <= cell.day <= lastDay
    ensures cell.kind == NextMonthDay ==> cell.day >= 1
  {
    if k < firstDayOfWeek then DayCell(PrevMonthDay, prevLastDay - firstDayOfWeek + k + 1)
    else if k < firstDayOfWeek + lastDay then DayCell(CurrentMonthDay, k - firstDayOfWeek + 1)
    else DayCell(NextMonthDay, k - firstDayOfWeek - lastDay + 1)
  }

  /**
   * The cells of `renderCalendar` for a month whose first day is weekday
   * `firstDayOfWeek` (0 = Sunday), which has `lastDay` days, and whose
   * previous month has `prevLastDay` days.
   */
  method BuildMonthGrid(firstDayOfWeek: nat, lastDay: nat, prevLastDay: int) returns (cells: seq<DayCell>)
    ensures |cells| == firstDayOfWeek + lastDay + TrailingCount(firstDayOfWeek, lastDay)
    ensures forall k :: 0 <= k < |cells| ==> cells[k] == GridCell(firstDayOfWeek, lastDay, prevLastDay, k)
  {
    cells := [];
    var i := firstDayOfWeek;
    while i > 0
      invariant 0 <= i <= firstDayOfWeek
      invariant |cells| == firstDayOfWeek - i
      invariant forall k :: 0 <= k < |cells| ==> cells[k] == GridCell(firstDayOfWeek, lastDay, prevLastDay, k)
    {
      cells := cells + [DayCell(PrevMonthDay, prevLastDay - i + 1)];
      i := i - 1;
    }
    i := 1;
    while i <= lastDay
      invariant 1 <= i <= lastDay + 1
      invariant |cells| == firstDayOfWeek + i - 1
      invariant forall k :: 0 <= k < |cells| ==> cells[k] == GridCell(firstDayOfWeek, lastDay, prevLastDay, k)
    {
      cells := cells + [DayCell(CurrentMonthDay, i)];
      i := i + 1;
    }
    var remainingCells := GridSize - (firstDayOfWeek + lastDay);
    i := 1;
    while i <= remainingCells
      invariant 1 <= i
      invariant remainingCells >= 0 ==> i <= remainingCells + 1
      invariant remainingCells < 1 ==> i == 1
      invariant |cells| == firstDayOfWeek + lastDay + i - 1
      invariant forall k :: 0 <= k < |cells| ==> cells[k] == GridCell(firstDayOfWeek, lastDay, prevLastDay, k)
    {
      cells := cells + [DayCell(NextMonthDay, i)];
      i := i + 1;
    }
  }

  /** A real month (first weekday 0..6, at most 31 days) always fills exactly 42 cells. */
  lemma GridIsFull(firstDayOfWeek: nat, lastDay: nat)
    requires firstDayOfWeek <= 6 && lastDay <= 31
    ensures firstDayOfWeek + lastDay + TrailingCount(firstDayOfWeek, lastDay) == GridSize
    ensures TrailingCount(firstDayOfWeek, lastDay) >= 5
  {
  }

  /**
   * Each day of the month has exactly one current-month cell, the one at
   * index `firstDayOfWeek + day - 1`.
   */
  lemma GridDayCell(firstDayOfWeek: nat, lastDay: nat, prevLastDay: int, k: nat, day: int)
    ensures GridCell(firstDayOfWeek, lastDay, prevLastDay, k) == DayCell(CurrentMonthDay, day)
      <==> 1 <= day <= lastDay && k == firstDayOfWeek + day - 1
  {
  }

  /** The leading cells count up without a gap to the previous month's last day. */
  lemma GridLeadsIntoMonth(firstDayOfWeek: nat, lastDay: nat, prevLastDay: int)
    requires firstDayOfWeek >= 1
    ensures GridCell(firstDayOfWeek, lastDay, prevLastDay, firstDayOfWeek - 1) == DayCell(PrevMonthDay, prevLastDay)
    ensures forall k: nat :: k + 1 < firstDayOfWeek ==>
      GridCell(firstDayOfWeek, lastDay, prevLastDay, k + 1).day == GridCell(firstDayOfWeek, lastDay, prevLastDay, k).day + 1
  {
  }

  /* ---------------- the page state ---------------- */

  /** An entry of the year or month drop-down: its number, its text and whether it starts selected. */
  datatype SelectOption = SelectOption(value: int, text: string, selected: bool)

  /** The global variables of the page that its handlers update. */
  class AppState {
    var username: string
    var birthdate: string
    var currentYear: int
    var currentMonth: int
    var screen: Screen

    /** The page as loaded: default user, today's year and month, the user-information screen. */
    constructor(todayYear: int, todayMonth: int)
      requires 1 <= todayMonth <= 12
      ensures username == DefaultUsername && birthdate == DefaultBirthdate
      ensures currentYear == todayYear && currentMonth == todayMonth && screen == UserInfoScreen
    {
      username := DefaultUsername;
      birthdate := DefaultBirthdate;
      currentYear := todayYear;
      currentMonth := todayMonth;
      screen := UserInfoScreen;
    }

    /** `navigateMonth(step)`: the shown month moves as `Navigated` says; nothing else changes. */
    method NavigateMonth(step: int)
      modifies this
      ensures 1 <= currentMonth <= 12 && MinYear <= currentYear <= MaxYear
      ensures YearMonth(currentYear, currentMonth) == Navigated(old(currentYear), old(currentMonth), step)
      ensures username == old(username) && birthdate == old(birthdate) && screen == old(screen)
    {
      currentMonth := currentMonth + step;
      if currentMonth > 12 {
        currentMonth := 1;
        currentYear := currentYear + 1;
      } else if currentMonth < 1 {
        currentMonth := 12;
        currentYear := currentYear - 1;
      }
      if currentYear < MinYear {
        currentYear := MinYear;
      }
      if currentYear > MaxYear {
        currentYear := MaxYear;
      }
    }

    /**
     * `startCalendar`: take the typed name and birthdate when "custom" is
     * chosen (an empty field falls back to the default), otherwise the
     * defaults; then open the calendar only for a six-digit birthdate.
     * The name and birthdate are stored even when the check fails.
     */
    method StartCalendar(customChecked: bool, usernameInput: string, birthdateInput: string) returns (started: bool)
      modifies this
      ensures username == (if customChecked && usernameInput != "" then usernameInput else DefaultUsername)
      ensures birthdate == (if customChecked && birthdateInput != "" then birthdateInput else DefaultBirthdate)
      ensures started <==> IsBirthdateFormat(birthdate)
      ensures screen == (if started then CalendarScreen else old(screen))
      ensures currentYear == old(currentYear) && currentMonth == old(currentMonth)
    {
      if customChecked {
        username := if usernameInput != "" then usernameInput else DefaultUsername;
        birthdate := if birthdateInput != "" then birthdateInput else DefaultBirthdate;
      } else {
        username := DefaultUsername;
        birthdate := DefaultBirthdate;
      }
      if !IsBirthdateFormat(birthdate) {
        return false;
      }
      screen := CalendarScreen;
      started := true;
    }

    /**
     * `goToSelectedDate`: show the year and month chosen in the drop-downs,
     * whose values are always one of their options.
     */
    method GoToSelectedDate(selectedYear: int, selectedMonth: int)
      requires MinYear <= selectedYear <= MaxYear && 1 <= selectedMonth <= 12
      modifies this
      ensures currentYear == selectedYear && currentMonth == selectedMonth
      ensures username == old(username) && birthdate == old(birthdate) && screen == old(screen)
    {
      currentYear := selectedYear;
      currentMonth := selectedMonth;
    }

    /**
     * `populateYearMonthOptions`: the years 1900..2049 labelled "N년" and the
     * months 1..12 labelled "N월", each selected when it is the shown one.
     */
    method YearMonthOptions() returns (years: seq<SelectOption>, months: seq<SelectOption>)
      ensures |years| == MaxYear - MinYear + 1
      ensures forall k :: 0 <= k < |years| ==>
        years[k] == SelectOption(MinYear + k, IntToString(MinYear + k) + "년", MinYear + k == currentYear)
      ensures |months| == 12
      ensures forall k :: 0 <= k < |months| ==>
        months[k] == SelectOption(k + 1, IntToString(k + 1) + "월", k + 1 == currentMonth)
    {
      years := [];
      var y := MinYear;
      while y <= MaxYear
        invariant MinYear <= y <= MaxYear + 1
        invariant |years| == y - MinYear
        invariant forall k :: 0 <= k < |years| ==>
          years[k] == SelectOption(MinYear + k, IntToString(MinYear + k) + "년", MinYear + k == currentYear)
      {
        years := years + [SelectOption(y, IntToString(y) + "년", y == currentYear)];
        y := y + 1;
      }
      months := [];
      var m := 1;
      while m <= 12
        invariant 1 <= m <= 13
        invariant |months| == m - 1
        invariant forall k :: 0 <= k < |months| ==>
          months[k] == SelectOption(k + 1, IntToString(k + 1) + "월", k + 1 == currentMonth)
      {
        months := months + [SelectOption(m, IntToString(m) + "월", m == currentMonth)];
        m := m + 1;
      }
    }
  }

  /** The numbers a drop-down offers. */
  function OptionValues(options: seq<SelectOption>): set<int> {
    set k | 0 <= k < |options| :: options[k].value
  }

  /** The year options are exactly 1900..2049, the range navigation clamps to, and one is selected exactly when the shown year is in that range. */
  lemma YearOptionsMatchClamp(years: seq<SelectOption>, currentYear: int)
    requires |years| == MaxYear - MinYear + 1
    requires forall k :: 0 <= k < |years| ==>
      years[k] == SelectOption(MinYear + k, IntToString(MinYear + k) + "년", MinYear + k == currentYear)
    ensures forall y :: y in OptionValues(years) <==> MinYear <= y <= MaxYear
    ensures (exists k :: 0 <= k < |years| && years[k].selected) <==> MinYear <= currentYear <= MaxYear
  {
    forall y | MinYear <= y <= MaxYear
      ensures y in OptionValues(years)
    {
      assert years[y - MinYear].value == y;
    }
    if MinYear <= currentYear <= MaxYear {
      assert years[currentYear - MinYear].selected;
    }
  }
}
