/**
 * The date-keyed lunar table of lunar-calendar.js: the "YYYY-MM-DD" key,
 * the parse of one CSV row into a record, the table the loader builds row
 * by row, and the store object holding `lunarCalendarDB` and `isDataLoaded`
 * together with the lookups that read them.
 */
module LunarData {
  import opened Wrappers
  import opened JsText
  import GanZhi

  /** The `lunar` part of a record: the parsed lunar year, month and day, and the leap-month flag. */
  datatype LunarDate = LunarDate(year: JsInt, month: JsInt, day: JsInt, isLeap: bool)

  /** One table entry: the lunar date and the optional stored day designation. */
  datatype LunarRecord = LunarRecord(lunar: LunarDate, ganzi: Option<string>)

  /** The table key of a solar date: the year, then month and day padded to two digits, joined by '-'. */
  function DateKey(year: int, month: int, day: int): (key: string)
    ensures |key| >= |IntToString(year)| + 6 && key[|IntToString(year)|] == '-'
  {
    IntToString(year) + "-" + PadStart2(IntToString(month)) + "-" + PadStart2(IntToString(day))
  }

  /** The key of a date with month and day in 0..99: the year's text, '-', two month digits, '-', two day digits. */
  lemma DateKeyDigits(year: int, month: int, day: int)
    requires 0 <= month <= 99 && 0 <= day <= 99
    ensures DateKey(year, month, day)
      == IntToString(year) + "-" + [DecimalDigit(month / 10), DecimalDigit(month % 10)]
         + "-" + [DecimalDigit(day / 10), DecimalDigit(day % 10)]
  {
    TwoDigitText(month);
    TwoDigitText(day);
  }

  /** A date with a four-digit year and a month and day in 0..99 has a key of the form "YYYY-MM-DD". */
  lemma DateKeyShape(year: int, month: int, day: int)
    requires 1000 <= year <= 9999 && 0 <= month <= 99 && 0 <= day <= 99
    ensures var key := DateKey(year, month, day); |key| == 10 && key[4] == '-' && key[7] == '-'
  {
    FourDigits(year);
    assert |IntToString(year)| == 4;
    DateKeyDigits(year, month, day);
    DashedShape(IntToString(year), [DecimalDigit(month / 10), DecimalDigit(month % 10)],
                [DecimalDigit(day / 10), DecimalDigit(day % 10)]);
  }

  /** Four characters, '-', two characters, '-', two characters: dashes at positions 4 and 7. */
  lemma DashedShape(y: string, m: string, d: string)
    requires |y| == 4 && |m| == 2 && |d| == 2
    ensures var key := y + "-" + m + "-" + d; |key| == 10 && key[4] == '-' && key[7] == '-'
  {
  }

  /** Two number texts each followed by '-' can only be glued to equal tails when the texts agree. */
  lemma NumberBeforeDash(a1: string, a2: string, rest1: string, rest2: string)
    requires |a1| >= 1 && forall i :: 1 <= i < |a1| ==> IsDigitIn(a1[i], 10)
    requires |a2| >= 1 && forall i :: 1 <= i < |a2| ==> IsDigitIn(a2[i], 10)
    requires |rest1| >= 1 && rest1[0] == '-' && |rest2| >= 1 && rest2[0] == '-'
    requires a1 + rest1 == a2 + rest2
    ensures a1 == a2 && rest1 == rest2
  {
    var key := a1 + rest1;
    assert key[|a1|] == '-' && key[|a2|] == '-';
    assert |a1| == |a2|;
    assert a1 == key[..|a1|] == a2;
    assert rest1 == key[|a1|..] == rest2;
  }

  /** `y + "-" + m + "-" + d` determines a number text `y` and two-character `m` and `d`. */
  lemma HyphenatedInjective(a1: string, p1: string, q1: string, a2: string, p2: string, q2: string)
    requires |a1| >= 1 && forall i :: 1 <= i < |a1| ==> IsDigitIn(a1[i], 10)
    requires |a2| >= 1 && forall i :: 1 <= i < |a2| ==> IsDigitIn(a2[i], 10)
    requires |p1| == 2 && |q1| == 2 && |p2| == 2 && |q2| == 2
    requires a1 + "-" + p1 + "-" + q1 == a2 + "-" + p2 + "-" + q2
    ensures a1 == a2 && p1 == p2 && q1 == q2
  {
    var rest1, rest2 := "-" + p1 + "-" + q1, "-" + p2 + "-" + q2;
    assert a1 + "-" + p1 + "-" + q1 == a1 + rest1;
    assert a2 + "-" + p2 + "-" + q2 == a2 + rest2;
    NumberBeforeDash(a1, a2, rest1, rest2);
    assert p1 == rest1[1..3] == p2;
    assert q1 == rest1[4..] == q2;
  }

  /** Distinct dates (any year, month and day in 0..99) have distinct keys. */
  lemma DateKeyInjective(y1: int, m1: int, d1: int, y2: int, m2: int, d2: int)
    requires 0 <= m1 <= 99 && 0 <= d1 <= 99 && 0 <= m2 <= 99 && 0 <= d2 <= 99
    requires DateKey(y1, m1, d1) == DateKey(y2, m2, d2)
    ensures y1 == y2 && m1 == m2 && d1 == d2
  {
    DateKeyDigits(y1, m1, d1);
    DateKeyDigits(y2, m2, d2);
    IntToStringDigits(y1);
    IntToStringDigits(y2);
    HyphenatedInjective(IntToString(y1), [DecimalDigit(m1 / 10), DecimalDigit(m1 % 10)], [DecimalDigit(d1 / 10), DecimalDigit(d1 % 10)],
                        IntToString(y2), [DecimalDigit(m2 / 10), DecimalDigit(m2 % 10)], [DecimalDigit(d2 / 10), DecimalDigit(d2 % 10)]);
    IntToStringInjective(y1, y2);
    TwoDigitsInjective(m1, m2);
    TwoDigitsInjective(d1, d2);
  }

  /** The comma-separated fields of a CSV row once the row is trimmed. */
  function Fields(row: string): (values: seq<string>)
    ensures |values| >= 1
  {
    Split(Trim(row), ',')
  }

  /**
   * The key and record one CSV row contributes, or None for a row the loader
   * skips: a blank row, fewer than 7 fields, or a solar year, month or day
   * that `parseInt` reads as NaN.
   */
  function ParseRow(row: string): (entry: Option<(string, LunarRecord)>)
    ensures entry.Some? ==> Trim(row) != ""
  {
    var line := Trim(row);
    if line == "" then None else RecordOf(Split(line, ','))
  }

  /** What `parseInt` reads from each field, in order. */
  function ParseInts(values: seq<string>): (numbers: seq<JsInt>)
    ensures |numbers| == |values|
  {
    if values == [] then [] else ParseInts(values[..|values| - 1]) + [ParseInt(values[|values| - 1])]
  }

  /** Number `k` is what `parseInt` reads from field `k`. */
  lemma {:induction false} ParseIntsAt(values: seq<string>, k: int)
    requires 0 <= k < |values|
    ensures ParseInts(values)[k] == ParseInt(values[k])
  {
    if k < |values| - 1 {
      ParseIntsAt(values[..|values| - 1], k);
      assert values[..|values| - 1][k] == values[k];
    }
  }

  /** The key and record for the fields of a non-blank row: fields 0-6 are read with `parseInt`. */
  function RecordOf(values: seq<string>): (entry: Option<(string, LunarRecord)>)
    ensures entry.Some? ==> |values| >= 7 && entry.value.1.lunar.isLeap == (ParseInt(values[6]) == Int(1))
  {
    if |values| < 7 then None
    else
      var numbers := ParseInts(values[..7]);
      var solarYear, solarMonth, solarDay := numbers[0], numbers[1], numbers[2];
      if solarYear.NaN? || solarMonth.NaN? || solarDay.NaN? then None
      else
        var lunar := LunarDate(numbers[3], numbers[4], numbers[5], numbers[6] == Int(1));
        var ganzi := if |values| > 7 && values[7] != "" then Some(Trim(values[7])) else None;
        Some((DateKey(solarYear.value, solarMonth.value, solarDay.value), LunarRecord(lunar, ganzi)))
  }

  /** The numbers `RecordOf` works with are what `parseInt` reads from the first seven fields. */
  lemma FirstSevenNumbers(values: seq<string>)
    requires |values| >= 7
    ensures forall k :: 0 <= k < 7 ==> ParseInts(values[..7])[k] == ParseInt(values[k])
  {
    forall k | 0 <= k < 7 ensures ParseInts(values[..7])[k] == ParseInt(values[k]) {
      ParseIntsAt(values[..7], k);
    }
  }

  /**
   * Which rows are stored: exactly those with at least 7 fields whose solar
   * year, month and day are numbers (a blank row has a single empty field).
   * The key is built from those three numbers, the lunar date from the next
   * three, the leap flag is set exactly when field 6 reads as 1, and the
   * designation is absent exactly when there is no non-empty eighth field.
   */
  lemma ParseRowRules(row: string)
    ensures var r := ParseRow(row); var values := Fields(row);
      && (r.Some? <==> |values| >= 7 && ParseInt(values[0]).Int? && ParseInt(values[1]).Int? && ParseInt(values[2]).Int?)
      && (r.Some? ==> r.value.0 == DateKey(ParseInt(values[0]).value, ParseInt(values[1]).value, ParseInt(values[2]).value))
      && (r.Some? ==> r.value.1.lunar == LunarDate(ParseInt(values[3]), ParseInt(values[4]), ParseInt(values[5]),
                                                   ParseInt(values[6]) == Int(1)))
      && (r.Some? ==> (r.value.1.ganzi.None? <==> |values| == 7 || values[7] == ""))
      && (r.Some? && r.value.1.ganzi.Some? ==> r.value.1.ganzi.value == Trim(values[7]))
  {
    var values := Fields(row);
    if Trim(row) == "" {
      assert values == [""];
    } else if |values| >= 7 {
      FirstSevenNumbers(values);
    }
  }

  /** What parsing each row gives, in order. */
  function ParseRows(rows: seq<string>): (entries: seq<Option<(string, LunarRecord)>>)
    ensures |entries| == |rows|
  {
    if rows == [] then [] else ParseRows(rows[..|rows| - 1]) + [ParseRow(rows[|rows| - 1])]
  }

  /** Entry `i` of the parsed rows is the parse of row `i`. */
  lemma {:induction false} ParseRowsAt(rows: seq<string>, i: int)
    requires 0 <= i < |rows|
    ensures ParseRows(rows)[i] == ParseRow(rows[i])
  {
    if i < |rows| - 1 {
      ParseRowsAt(rows[..|rows| - 1], i);
      assert rows[..|rows| - 1][i] == rows[i];
    }
  }

  /** Extending a slice by one position appends that element. */
  lemma SliceSnoc<T>(s: seq<T>, lo: int, hi: int)
    requires 0 <= lo <= hi < |s|
    ensures s[lo..hi + 1] == s[lo..hi] + [s[hi]]
  {
  }

  /** A slice up to the length is the suffix. */
  lemma SliceToEnd<T>(s: seq<T>, lo: int)
    requires 0 <= lo <= |s|
    ensures s[lo..|s|] == s[lo..]
  {
  }

  /** Parsing one more row appends that row's parse. */
  lemma ParseRowsSnoc(rows: seq<string>, row: string)
    ensures ParseRows(rows + [row]) == ParseRows(rows) + [ParseRow(row)]
  {
    assert (rows + [row])[..|rows|] == rows;
  }

  /** Whether a parsed entry is stored under `key`. */
  predicate StoredUnder(entry: Option<(string, LunarRecord)>, key: string) {
    entry.Some? && entry.value.0 == key
  }

  /** One step of the loader: a parsed row is stored under its key, a skipped row changes nothing. */
  function Store(db: map<string, LunarRecord>, entry: Option<(string, LunarRecord)>): (t: map<string, LunarRecord>)
    ensures entry.None? ==> t == db
    ensures entry.Some? ==> t.Keys == db.Keys + {entry.value.0} && t[entry.value.0] == entry.value.1
    ensures forall key :: key in db && !StoredUnder(entry, key) ==> key in t && t[key] == db[key]
  {
    match entry
    case None => db
    case Some((key, record)) => db[key := record]
  }

  /** The table after storing, in order, every parsed entry into `db`. */
  function Table(db: map<string, LunarRecord>, entries: seq<Option<(string, LunarRecord)>>): (t: map<string, LunarRecord>)
    ensures db.Keys <= t.Keys
  {
    if entries == [] then db else Store(Table(db, entries[..|entries| - 1]), entries[|entries| - 1])
  }

  /** Storing one more entry applies one more loader step. */
  lemma TableSnoc(db: map<string, LunarRecord>, entries: seq<Option<(string, LunarRecord)>>,
                  entry: Option<(string, LunarRecord)>)
    ensures Table(db, entries + [entry]) == Store(Table(db, entries), entry)
  {
    assert (entries + [entry])[..|entries|] == entries;
  }

  /** The table once the loading loop has stored rows 1 .. i - 1 of `rows` (row 0 is the header). */
  function StoredPrefix(db: map<string, LunarRecord>, rows: seq<string>, i: nat): map<string, LunarRecord>
    requires i <= |rows|
  {
    if i <= 1 then db else Store(StoredPrefix(db, rows, i - 1), ParseRow(rows[i - 1]))
  }

  /** Storing rows 1 .. i - 1 one by one builds the table of their parses. */
  lemma {:induction false} StoredPrefixIsTable(db: map<string, LunarRecord>, rows: seq<string>, i: nat)
    requires 1 <= i <= |rows|
    ensures StoredPrefix(db, rows, i) == Table(db, ParseRows(rows[1..i]))
  {
    if i > 1 {
      StoredPrefixIsTable(db, rows, i - 1);
      SliceSnoc(rows, 1, i - 1);
      ParseRowsSnoc(rows[1..i - 1], rows[i - 1]);
      TableSnoc(db, ParseRows(rows[1..i - 1]), ParseRow(rows[i - 1]));
    } else {
      assert rows[1..i] == [];
    }
  }

  /** The last entry stored under a key decides its value: a later row overwrites an earlier one. */
  lemma {:induction false} TableLastEntryWins(db: map<string, LunarRecord>, entries: seq<Option<(string, LunarRecord)>>,
                                               j: int, key: string)
    requires 0 <= j < |entries| && StoredUnder(entries[j], key)
    requires forall i :: j < i < |entries| ==> !StoredUnder(entries[i], key)
    ensures key in Table(db, entries) && Table(db, entries)[key] == entries[j].value.1
  {
    var prefix := entries[..|entries| - 1];
    if j < |entries| - 1 {
      assert prefix[j] == entries[j];
      forall i | j < i < |prefix| ensures !StoredUnder(prefix[i], key) {
        assert prefix[i] == entries[i];
      }
      TableLastEntryWins(db, prefix, j, key);
    }
  }

  /** A key no entry is stored under keeps whatever value (or absence of one) it had. */
  lemma {:induction false} TableKeepsOtherKeys(db: map<string, LunarRecord>, entries: seq<Option<(string, LunarRecord)>>,
                                                key: string)
    requires forall i :: 0 <= i < |entries| ==> !StoredUnder(entries[i], key)
    ensures key in Table(db, entries) <==> key in db
    ensures key in db ==> Table(db, entries)[key] == db[key]
  {
    if entries != [] {
      var prefix := entries[..|entries| - 1];
      forall i | 0 <= i < |prefix| ensures !StoredUnder(prefix[i], key) {
        assert prefix[i] == entries[i];
      }
      TableKeepsOtherKeys(db, prefix, key);
    }
  }

  /** The fields of a CSV line for a table entry: seven integers (leap flag 1 or 0) and an optional designation. */
  function RowFields(solarYear: int, solarMonth: int, solarDay: int,
                     lunarYear: int, lunarMonth: int, lunarDay: int, isLeap: bool, ganzi: Option<string>): (fields: seq<string>)
    ensures |fields| == if ganzi.Some? then 8 else 7
  {
    var numbers := [IntToString(solarYear), IntToString(solarMonth), IntToString(solarDay),
                    IntToString(lunarYear), IntToString(lunarMonth), IntToString(lunarDay),
                    IntToString(if isLeap then 1 else 0)];
    if ganzi.Some? then numbers + [ganzi.value] else numbers
  }

  /** The CSV line for a table entry. */
  function FormatRow(solarYear: int, solarMonth: int, solarDay: int,
                     lunarYear: int, lunarMonth: int, lunarDay: int, isLeap: bool, ganzi: Option<string>): string
  {
    Join(RowFields(solarYear, solarMonth, solarDay, lunarYear, lunarMonth, lunarDay, isLeap, ganzi), ',')
  }

  /** A designation the CSV can carry unchanged: non-empty, no comma, no white space at either end. */
  predicate CleanGanZhi(ganzi: Option<string>) {
    ganzi.Some? ==>
      var g := ganzi.value; g != [] && ',' !in g && !IsJsSpace(g[0]) && !IsJsSpace(g[|g| - 1])
  }

  /** `String(n)` holds no comma, so a field written from a number stays one field. */
  lemma NoCommaInNumber(n: int)
    ensures ',' !in IntToString(n)
  {
    var s := IntToString(n);
    IntToStringDigits(n);
    assert forall i :: 0 <= i < |s[1..]| ==> s[1..][i] == s[i + 1];
    DigitsExclude(s[1..], ',');
    assert s == [s[0]] + s[1..];
  }

  /** The fields of a formatted line are the fields it was written from. */
  lemma SplitFormatRow(solarYear: int, solarMonth: int, solarDay: int,
                       lunarYear: int, lunarMonth: int, lunarDay: int, isLeap: bool, ganzi: Option<string>)
    requires CleanGanZhi(ganzi)
    ensures var fields := RowFields(solarYear, solarMonth, solarDay, lunarYear, lunarMonth, lunarDay, isLeap, ganzi);
      Split(Join(fields, ','), ',') == fields
  {
    var fields := RowFields(solarYear, solarMonth, solarDay, lunarYear, lunarMonth, lunarDay, isLeap, ganzi);
    RowFieldsAt(solarYear, solarMonth, solarDay, lunarYear, lunarMonth, lunarDay, isLeap, ganzi);
    forall k | 0 <= k < |fields| ensures ',' !in fields[k] {
      var n := if k == 0 then solarYear else if k == 1 then solarMonth else if k == 2 then solarDay
               else if k == 3 then lunarYear else if k == 4 then lunarMonth else if k == 5 then lunarDay
               else if isLeap then 1 else 0;
      if k < 7 {
        assert fields[k] == IntToString(n);
        NoCommaInNumber(n);
      }
    }
    SplitJoin(fields, ',');
  }

  /** A formatted line is not blank and has no white space at either end, so `trim` keeps it. */
  lemma TrimFormatRow(solarYear: int, solarMonth: int, solarDay: int,
                      lunarYear: int, lunarMonth: int, lunarDay: int, isLeap: bool, ganzi: Option<string>)
    requires CleanGanZhi(ganzi)
    ensures var line := FormatRow(solarYear, solarMonth, solarDay, lunarYear, lunarMonth, lunarDay, isLeap, ganzi);
      line != "" && Trim(line) == line
  {
    var fields := RowFields(solarYear, solarMonth, solarDay, lunarYear, lunarMonth, lunarDay, isLeap, ganzi);
    var line := Join(fields, ',');
    var first, last := fields[0], fields[|fields| - 1];
    assert last != [] && !IsJsSpace(last[|last| - 1]) by {
      if ganzi.None? {
        assert last == IntToString(if isLeap then 1 else 0);
        DigitIsNotSpace(last[|last| - 1]);
      }
    }
    JoinLast(fields, ',');
    assert first == IntToString(solarYear) && line[0] == first[0];
    assert !IsJsSpace(line[0]) by {
      if solarYear >= 0 {
        DigitIsNotSpace(first[0]);
      }
    }
    assert !IsJsSpace(line[|line| - 1]);
    TrimUnpadded(line);
  }

  /** A field written as `String(n)` is read back as `n`. */
  lemma NumberField(values: seq<string>, k: int, n: int)
    requires 0 <= k < |values| && values[k] == IntToString(n)
    ensures ParseInts(values)[k] == Int(n)
  {
    ParseIntsAt(values, k);
    ParseIntRoundTrip(n);
  }

  /** Fields whose first seven read as the given numbers make the record holding those numbers. */
  lemma RecordOfNumbers(values: seq<string>, solarYear: int, solarMonth: int, solarDay: int,
                        lunarYear: int, lunarMonth: int, lunarDay: int, isLeap: bool, ganzi: Option<string>)
    requires |values| == if ganzi.Some? then 8 else 7
    requires var numbers := ParseInts(values[..7]);
      && numbers[0] == Int(solarYear) && numbers[1] == Int(solarMonth) && numbers[2] == Int(solarDay)
      && numbers[3] == Int(lunarYear) && numbers[4] == Int(lunarMonth) && numbers[5] == Int(lunarDay)
      && numbers[6] == Int(if isLeap then 1 else 0)
    requires ganzi.Some? ==> values[7] == ganzi.value && ganzi.value != "" && Trim(ganzi.value) == ganzi.value
    ensures RecordOf(values)
         == Some((DateKey(solarYear, solarMonth, solarDay),
                  LunarRecord(LunarDate(Int(lunarYear), Int(lunarMonth), Int(lunarDay), isLeap), ganzi)))
  {
    var numbers := ParseInts(values[..7]);
    assert numbers[0] == Int(solarYear) && numbers[1] == Int(solarMonth) && numbers[2] == Int(solarDay);
    assert LunarDate(numbers[3], numbers[4], numbers[5], numbers[6] == Int(1))
        == LunarDate(Int(lunarYear), Int(lunarMonth), Int(lunarDay), isLeap);
    assert (if |values| > 7 && values[7] != "" then Some(Trim(values[7])) else None) == ganzi;
  }

  /** The fields written for an entry, one by one. */
  lemma RowFieldsAt(solarYear: int, solarMonth: int, solarDay: int,
                    lunarYear: int, lunarMonth: int, lunarDay: int, isLeap: bool, ganzi: Option<string>)
    ensures var fields := RowFields(solarYear, solarMonth, solarDay, lunarYear, lunarMonth, lunarDay, isLeap, ganzi);
      && fields[0] == IntToString(solarYear) && fields[1] == IntToString(solarMonth)
      && fields[2] == IntToString(solarDay) && fields[3] == IntToString(lunarYear)
      && fields[4] == IntToString(lunarMonth) && fields[5] == IntToString(lunarDay)
      && fields[6] == IntToString(if isLeap then 1 else 0)
      && (ganzi.Some? ==> fields[7] == ganzi.value)
  {
    var fields := RowFields(solarYear, solarMonth, solarDay, lunarYear, lunarMonth, lunarDay, isLeap, ganzi);
    var numbers := [IntToString(solarYear), IntToString(solarMonth), IntToString(solarDay),
                    IntToString(lunarYear), IntToString(lunarMonth), IntToString(lunarDay),
                    IntToString(if isLeap then 1 else 0)];
    assert fields[..7] == numbers;
    assert forall k :: 0 <= k < 7 ==> fields[k] == numbers[k];
  }

  /** The fields written for an entry make that entry's key and record again. */
  lemma RecordOfRowFields(solarYear: int, solarMonth: int, solarDay: int,
                          lunarYear: int, lunarMonth: int, lunarDay: int, isLeap: bool, ganzi: Option<string>)
    requires CleanGanZhi(ganzi)
    ensures RecordOf(RowFields(solarYear, solarMonth, solarDay, lunarYear, lunarMonth, lunarDay, isLeap, ganzi))
         == Some((DateKey(solarYear, solarMonth, solarDay),
                  LunarRecord(LunarDate(Int(lunarYear), Int(lunarMonth), Int(lunarDay), isLeap), ganzi)))
  {
    if ganzi.Some? {
      TrimUnpadded(ganzi.value);
    }
    var fields := RowFields(solarYear, solarMonth, solarDay, lunarYear, lunarMonth, lunarDay, isLeap, ganzi);
    RowFieldsAt(solarYear, solarMonth, solarDay, lunarYear, lunarMonth, lunarDay, isLeap, ganzi);
    var first := fields[..7];
    NumberField(first, 0, solarYear);
    NumberField(first, 1, solarMonth);
    NumberField(first, 2, solarDay);
    NumberField(first, 3, lunarYear);
    NumberField(first, 4, lunarMonth);
    NumberField(first, 5, lunarDay);
    NumberField(first, 6, if isLeap then 1 else 0);
    RecordOfNumbers(fields, solarYear, solarMonth, solarDay, lunarYear, lunarMonth, lunarDay, isLeap, ganzi);
  }

  /** A well-formed CSV line parses back to the key of its solar date and the record it describes. */
  lemma RowRoundTrip(solarYear: int, solarMonth: int, solarDay: int,
                     lunarYear: int, lunarMonth: int, lunarDay: int, isLeap: bool, ganzi: Option<string>)
    requires CleanGanZhi(ganzi)
    ensures ParseRow(FormatRow(solarYear, solarMonth, solarDay, lunarYear, lunarMonth, lunarDay, isLeap, ganzi))
         == Some((DateKey(solarYear, solarMonth, solarDay),
                  LunarRecord(LunarDate(Int(lunarYear), Int(lunarMonth), Int(lunarDay), isLeap), ganzi)))
  {
    TrimFormatRow(solarYear, solarMonth, solarDay, lunarYear, lunarMonth, lunarDay, isLeap, ganzi);
    SplitFormatRow(solarYear, solarMonth, solarDay, lunarYear, lunarMonth, lunarDay, isLeap, ganzi);
    RecordOfRowFields(solarYear, solarMonth, solarDay, lunarYear, lunarMonth, lunarDay, isLeap, ganzi);
  }

  /** The CSV text's rows: `csvText.trim().split('\n')`. */
  function CsvRows(csvText: string): (rows: seq<string>)
    ensures |rows| >= 1
  {
    Split(Trim(csvText), '\n')
  }

  /** The module-level state of lunar-calendar.js: `lunarCalendarDB` and `isDataLoaded`. */
  class LunarCalendarStore {
    var db: map<string, LunarRecord>
    var isDataLoaded: bool

    constructor ()
      ensures db == map[] && !isDataLoaded
    {
      db := map[];
      isDataLoaded := false;
    }

    /**
     * `loadLunarCalendarData`, given what the fetch produced: None when the
     * request failed or the response was not OK, else the response text.
     * Every row after the header is stored in order; the flag records success.
     */
    method Initialize(response: Option<string>) returns (ok: bool)
      modifies this
      ensures ok == response.Some? && isDataLoaded == ok
      ensures response.None? ==> db == old(db)
      ensures response.Some? ==> db == Table(old(db), ParseRows(CsvRows(response.value)[1..]))
    {
      if response.None? {
        isDataLoaded := false;
        return false;
      }
      StoreRows(CsvRows(response.value));
      isDataLoaded := true;
      ok := true;
    }

    /** The loop of `loadLunarCalendarData`: every row but the first (the header) is parsed and stored in order. */
    method StoreRows(rows: seq<string>)
      requires |rows| >= 1
      modifies this
      ensures db == Table(old(db), ParseRows(rows[1..])) && isDataLoaded == old(isDataLoaded)
    {
      var i := 1;
      while i < |rows|
        invariant 1 <= i <= |rows|
        invariant db == StoredPrefix(old(db), rows, i) && isDataLoaded == old(isDataLoaded)
      {
        db := Store(db, ParseRow(rows[i]));
        i := i + 1;
      }
      StoredPrefixIsTable(old(db), rows, i);
      SliceToEnd(rows, 1);
    }

    /** `getLunarData`: the stored record for the date, or None when nothing is loaded or the key is absent. */
    function GetLunarData(year: int, month: int, day: int): (r: Option<LunarRecord>)
      reads this
      ensures r.Some? <==> isDataLoaded && DateKey(year, month, day) in db
      ensures r.Some? ==> r.value == db[DateKey(year, month, day)]
    {
      if !isDataLoaded then None
      else
        var dateKey := DateKey(year, month, day);
        if dateKey in db then Some(db[dateKey]) else None
    }

    /** `getLunarDate`: the stored lunar date, or None outside 1900..2049, before loading, or for an absent key. */
    function GetLunarDate(year: int, month: int, day: int): (r: Option<LunarDate>)
      reads this
      ensures r.Some? <==> GanZhi.InSupportedRange(year) && isDataLoaded && DateKey(year, month, day) in db
      ensures r.Some? ==> r.value == db[DateKey(year, month, day)].lunar
    {
      if !GanZhi.InSupportedRange(year) then None
      else
        match GetLunarData(year, month, day)
        case Some(record) => Some(record.lunar)
        case None => None
    }

    /** The designation the loaded table holds for the date, when it holds a non-empty one. */
    function StoredGanZhi(year: int, month: int, day: int): Option<string>
      reads this
    {
      var key := DateKey(year, month, day);
      if isDataLoaded && key in db && db[key].ganzi.Some? && db[key].ganzi.value != "" then db[key].ganzi
      else None
    }

    /**
     * `getGanZhi`: `NoInfo` outside 1900..2049; otherwise a non-empty stored
     * designation wins; otherwise the arithmetic one for the day offset.
     */
    function GetGanZhi(year: int, month: int, day: int, daysSince1900: int): (r: string)
      reads this
      ensures !GanZhi.InSupportedRange(year) ==> r == GanZhi.NoInfo
      ensures GanZhi.InSupportedRange(year) && StoredGanZhi(year, month, day).Some? ==>
        r == StoredGanZhi(year, month, day).value
      ensures GanZhi.InSupportedRange(year) && StoredGanZhi(year, month, day).None? ==>
        r == GanZhi.DayGanZhi(daysSince1900)
    {
      if !GanZhi.InSupportedRange(year) then GanZhi.NoInfo
      else
        var lunarData := GetLunarData(year, month, day);
        if lunarData.Some? && lunarData.value.ganzi.Some? && lunarData.value.ganzi.value != "" then
          lunarData.value.ganzi.value
        else
          GanZhi.DayGanZhi(daysSince1900)
    }
  }

  /** A formatted row among the parsed rows yields that row's key and record. */
  lemma FormattedRowEntry(rows: seq<string>, j: int, year: int, month: int, day: int,
                          lunarYear: int, lunarMonth: int, lunarDay: int, isLeap: bool, ganzi: Option<string>)
    requires 0 <= j < |rows| && rows[j] == FormatRow(year, month, day, lunarYear, lunarMonth, lunarDay, isLeap, ganzi)
    requires CleanGanZhi(ganzi)
    ensures ParseRows(rows)[j] == Some((DateKey(year, month, day),
                                        LunarRecord(LunarDate(Int(lunarYear), Int(lunarMonth), Int(lunarDay), isLeap), ganzi)))
  {
    ParseRowsAt(rows, j);
    RowRoundTrip(year, month, day, lunarYear, lunarMonth, lunarDay, isLeap, ganzi);
  }

  /** Rows that do not parse to a key give parsed entries that are not stored under it. */
  lemma LaterRowsMiss(rows: seq<string>, j: int, key: string)
    requires 0 <= j
    requires forall i :: j < i < |rows| ==> !StoredUnder(ParseRow(rows[i]), key)
    ensures forall i :: j < i < |rows| ==> !StoredUnder(ParseRows(rows)[i], key)
  {
    forall i | j < i < |rows| ensures !StoredUnder(ParseRows(rows)[i], key) {
      ParseRowsAt(rows, i);
    }
  }

  /**
   * After a successful load, the lookups see the last parsed row stored under
   * a date's key: `getLunarDate` returns its lunar date for years in
   * 1900..2049, and `getGanZhi` its non-empty designation, or the computed
   * one when it has none.
   */
  lemma LookupAfterLoad(store: LunarCalendarStore, db0: map<string, LunarRecord>, entries: seq<Option<(string, LunarRecord)>>,
                        j: int, year: int, month: int, day: int, record: LunarRecord, daysSince1900: int)
    requires store.isDataLoaded && store.db == Table(db0, entries)
    requires 0 <= j < |entries| && entries[j] == Some((DateKey(year, month, day), record))
    requires forall i :: j < i < |entries| ==> !StoredUnder(entries[i], DateKey(year, month, day))
    requires GanZhi.InSupportedRange(year)
    ensures store.GetLunarDate(year, month, day) == Some(record.lunar)
    ensures store.GetGanZhi(year, month, day, daysSince1900)
         == if record.ganzi.Some? && record.ganzi.value != "" then record.ganzi.value else GanZhi.DayGanZhi(daysSince1900)
  {
    TableLastEntryWins(db0, entries, j, DateKey(year, month, day));
  }

  /**
   * The same for a CSV text whose last row for a date is a formatted line:
   * the lookups return that line's lunar date and its designation, or the
   * computed designation when the line has none.
   */
  lemma LookupFormattedRow(store: LunarCalendarStore, db0: map<string, LunarRecord>, rows: seq<string>, j: int,
                           year: int, month: int, day: int, lunarYear: int, lunarMonth: int, lunarDay: int,
                           isLeap: bool, ganzi: Option<string>, daysSince1900: int)
    requires store.isDataLoaded && store.db == Table(db0, ParseRows(rows))
    requires 0 <= j < |rows| && rows[j] == FormatRow(year, month, day, lunarYear, lunarMonth, lunarDay, isLeap, ganzi)
    requires CleanGanZhi(ganzi)
    requires forall i :: j < i < |rows| ==> !StoredUnder(ParseRow(rows[i]), DateKey(year, month, day))
    requires GanZhi.InSupportedRange(year)
    ensures store.GetLunarDate(year, month, day) == Some(LunarDate(Int(lunarYear), Int(lunarMonth), Int(lunarDay), isLeap))
    ensures store.GetGanZhi(year, month, day, daysSince1900)
         == if ganzi.Some? then ganzi.value else GanZhi.DayGanZhi(daysSince1900)
  {
    var record := LunarRecord(LunarDate(Int(lunarYear), Int(lunarMonth), Int(lunarDay), isLeap), ganzi);
    FormattedRowEntry(rows, j, year, month, day, lunarYear, lunarMonth, lunarDay, isLeap, ganzi);
    LaterRowsMiss(rows, j, DateKey(year, month, day));
    LookupAfterLoad(store, db0, ParseRows(rows), j, year, month, day, record, daysSince1900);
  }
}
