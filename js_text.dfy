/**
 * The JavaScript string and number built-ins the calendar code relies on:
 * `String.prototype.trim`, `String.prototype.split` with a one-character
 * separator, `parseInt` without a radix argument, `String(n)` for an integral
 * number and `padStart(2, '0')`.
 */
module JsText {

  /** What `parseInt` returns: `NaN` or an integral number (unbounded here). */
  datatype JsInt = NaN | Int(value: int)

  /** The characters `trim` removes and `parseInt` skips: ECMAScript's WhiteSpace and LineTerminator. */
  predicate IsJsSpace(c: char) {
    || c == '\t' || c == '\U{000B}' || c == '\U{000C}' || c == ' '
    || c == '\U{00A0}' || c == '\U{FEFF}' || c == '\U{1680}'
    || ('\U{2000}' <= c <= '\U{200A}') || c == '\U{202F}' || c == '\U{205F}' || c == '\U{3000}'
    || c == '\n' || c == '\r' || c == '\U{2028}' || c == '\U{2029}'
  }

  /** The longest suffix of `s` that does not start with white space. */
  function TrimStart(s: string): (r: string)
    ensures |r| <= |s|
    ensures r == [] || !IsJsSpace(r[0])
  {
    if s != [] && IsJsSpace(s[0]) then TrimStart(s[1..]) else s
  }

  /** `parseInt` skips leading white space exactly as `trimStart` removes it. */
  lemma {:induction false} ParseIntSkipsTrimmedSpace(s: string)
    ensures ParseInt(s) == ParseInt(TrimStart(s))
  {
    if s != [] && IsJsSpace(s[0]) {
      ParseIntSkipsTrimmedSpace(s[1..]);
    }
  }

  /** What `TrimStart` keeps is a suffix of its argument. */
  lemma {:induction false} TrimStartSuffix(s: string)
    ensures TrimStart(s) == s[|s| - |TrimStart(s)|..]
  {
    if s != [] && IsJsSpace(s[0]) {
      TrimStartSuffix(s[1..]);
      assert s[1..][|s| - 1 - |TrimStart(s)|..] == s[|s| - |TrimStart(s)|..];
    }
  }

  /** Everything `TrimStart` drops is white space. */
  lemma {:induction false} TrimStartDropsSpaces(s: string)
    ensures forall i :: 0 <= i < |s| - |TrimStart(s)| ==> IsJsSpace(s[i])
  {
    if s != [] && IsJsSpace(s[0]) {
      var t := s[1..];
      TrimStartDropsSpaces(t);
      assert TrimStart(s) == TrimStart(t);
      forall i | 0 <= i < |s| - |TrimStart(s)|
        ensures IsJsSpace(s[i])
      {
        if i > 0 {
          assert s[i] == t[i - 1];
        }
      }
    }
  }

  /** The longest prefix of `s` that does not end with white space. */
  function TrimEnd(s: string): (r: string)
    ensures |r| <= |s|
    ensures r == [] || !IsJsSpace(r[|r| - 1])
  {
    if s != [] && IsJsSpace(s[|s| - 1]) then TrimEnd(s[..|s| - 1]) else s
  }

  /** What `TrimEnd` keeps is a prefix of its argument. */
  lemma {:induction false} TrimEndPrefix(s: string)
    ensures TrimEnd(s) == s[..|TrimEnd(s)|]
  {
    if s != [] && IsJsSpace(s[|s| - 1]) {
      TrimEndPrefix(s[..|s| - 1]);
      assert s[..|s| - 1][..|TrimEnd(s)|] == s[..|TrimEnd(s)|];
    }
  }

  /** Everything `TrimEnd` drops is white space. */
  lemma {:induction false} TrimEndDropsSpaces(s: string)
    ensures forall i :: |TrimEnd(s)| <= i < |s| ==> IsJsSpace(s[i])
  {
    if s != [] && IsJsSpace(s[|s| - 1]) {
      var t := s[..|s| - 1];
      TrimEndDropsSpaces(t);
      assert TrimEnd(s) == TrimEnd(t);
      forall i | |TrimEnd(s)| <= i < |s|
        ensures IsJsSpace(s[i])
      {
        if i < |t| {
          assert s[i] == t[i];
        }
      }
    }
  }

  /** `s.trim()`. */
  function Trim(s: string): (r: string)
    ensures r == [] || (!IsJsSpace(r[0]) && !IsJsSpace(r[|r| - 1]))
  {
    var t := TrimStart(s);
    TrimEndPrefix(t);
    TrimEnd(t)
  }

  /** A string with no white space at either end is left as it is by `trim`. */
  lemma TrimUnpadded(s: string)
    requires s == [] || (!IsJsSpace(s[0]) && !IsJsSpace(s[|s| - 1]))
    ensures Trim(s) == s
  {
  }

  /** `trim` is idempotent. */
  lemma TrimIdempotent(s: string)
    ensures Trim(Trim(s)) == Trim(s)
  {
    TrimUnpadded(Trim(s));
  }

  /** `s.split(sep)` for a one-character separator: the pieces between separators, in order. */
  function Split(s: string, sep: char): (parts: seq<string>)
    ensures |parts| >= 1
  {
    if s == [] then [""]
    else
      var rest := Split(s[1..], sep);
      if s[0] == sep then [""] + rest else [[s[0]] + rest[0]] + rest[1..]
  }

  /** No piece of a split holds the separator. */
  lemma {:induction false} SplitPiecesFree(s: string, sep: char)
    ensures forall i :: 0 <= i < |Split(s, sep)| ==> sep !in Split(s, sep)[i]
  {
    if s != [] {
      SplitPiecesFree(s[1..], sep);
      var rest := Split(s[1..], sep);
      if s[0] != sep {
        assert sep !in [s[0]] + rest[0];
      }
    }
  }

  /** `parts.join(sep)`: the inverse of `Split`. */
  function Join(parts: seq<string>, sep: char): string
    requires |parts| >= 1
  {
    if |parts| == 1 then parts[0] else parts[0] + [sep] + Join(parts[1..], sep)
  }

  /** Joining the pieces of a split gives back the original string. */
  lemma {:induction false} JoinSplit(s: string, sep: char)
    ensures Join(Split(s, sep), sep) == s
  {
    if s != [] {
      var rest := Split(s[1..], sep);
      JoinSplit(s[1..], sep);
      if s[0] == sep {
        assert Split(s, sep)[1..] == rest;
      } else {
        var parts := Split(s, sep);
        if |rest| > 1 {
          assert parts[1..] == rest[1..];
          calc {
            Join(parts, sep);
            [s[0]] + rest[0] + [sep] + Join(rest[1..], sep);
            [s[0]] + (rest[0] + [sep] + Join(rest[1..], sep));
            [s[0]] + Join(rest, sep);
          }
        }
        assert s == [s[0]] + s[1..];
      }
    }
  }

  /** Splitting a string whose first piece `p` holds no separator puts `p` in front of the first piece. */
  lemma {:induction false} SplitAfterPiece(p: string, t: string, sep: char)
    requires sep !in p
    ensures Split(p + t, sep) == [p + Split(t, sep)[0]] + Split(t, sep)[1..]
  {
    if p != [] {
      assert (p + t)[1..] == p[1..] + t;
      SplitAfterPiece(p[1..], t, sep);
      assert [p[0]] + (p[1..] + Split(t, sep)[0]) == p + Split(t, sep)[0];
    } else {
      var parts := Split(t, sep);
      assert p + t == t;
      assert p + parts[0] == parts[0];
      assert [p + parts[0]] + parts[1..] == parts;
    }
  }

  /** Splitting the join of separator-free pieces gives back the pieces. */
  lemma {:induction false} SplitJoin(parts: seq<string>, sep: char)
    requires |parts| >= 1
    requires forall i :: 0 <= i < |parts| ==> sep !in parts[i]
    ensures Split(Join(parts, sep), sep) == parts
  {
    if |parts| == 1 {
      SplitAfterPiece(parts[0], [], sep);
      assert parts[0] + [] == parts[0];
    } else {
      var tail := Join(parts[1..], sep);
      SplitJoin(parts[1..], sep);
      assert Split([sep] + tail, sep) == [""] + parts[1..] by {
        assert ([sep] + tail)[1..] == tail;
      }
      assert parts[0] + [sep] + tail == parts[0] + ([sep] + tail);
      SplitAfterPiece(parts[0], [sep] + tail, sep);
      assert parts[0] + "" == parts[0];
    }
  }

  /** The last character of a join is the last character of its last piece. */
  lemma {:induction false} JoinLast(parts: seq<string>, sep: char)
    requires |parts| >= 1 && parts[|parts| - 1] != []
    ensures var s := Join(parts, sep); |s| >= 1 && s[|s| - 1] == parts[|parts| - 1][|parts[|parts| - 1]| - 1]
  {
    if |parts| > 1 {
      JoinLast(parts[1..], sep);
    }
  }

  /** Marks a character that is not a digit in any radix up to 36. */
  const NotADigit: nat := 36

  /** The value of `c` as a digit: '0'-'9' are 0-9, 'a'/'A' to 'z'/'Z' are 10-35. */
  function DigitValue(c: char): (v: nat)
    ensures v <= NotADigit
  {
    if '0' <= c <= '9' then c as int - '0' as int
    else if 'a' <= c <= 'z' then c as int - 'a' as int + 10
    else if 'A' <= c <= 'Z' then c as int - 'A' as int + 10
    else NotADigit
  }

  predicate IsDigitIn(c: char, radix: nat) {
    DigitValue(c) < radix
  }

  /** The decimal digit for `n`. */
  function DecimalDigit(n: nat): (c: char)
    requires n < 10
    ensures IsDigitIn(c, 10) && DigitValue(c) == n
  {
    ('0' as int + n) as char
  }

  /** The longest prefix of `s` made of radix-`radix` digits. */
  function DigitPrefix(s: string, radix: nat): (d: string)
    ensures |d| <= |s| && d == s[..|d|]
    ensures |d| < |s| ==> !IsDigitIn(s[|d|], radix)
  {
    if s != [] && IsDigitIn(s[0], radix) then [s[0]] + DigitPrefix(s[1..], radix) else []
  }

  /** Every character of the digit prefix is a digit. */
  lemma {:induction false} DigitPrefixAllDigits(s: string, radix: nat)
    ensures forall i :: 0 <= i < |DigitPrefix(s, radix)| ==> IsDigitIn(DigitPrefix(s, radix)[i], radix)
  {
    if s != [] && IsDigitIn(s[0], radix) {
      DigitPrefixAllDigits(s[1..], radix);
      var d := DigitPrefix(s, radix);
      assert forall i :: 1 <= i < |d| ==> d[i] == DigitPrefix(s[1..], radix)[i - 1];
    }
  }

  /** The number written by the digit string `d`, most significant digit first. */
  function DigitsValue(d: string, radix: nat): nat
  {
    if d == [] then 0 else DigitsValue(d[..|d| - 1], radix) * radix + DigitValue(d[|d| - 1])
  }

  /**
   * `parseInt(s)`: skip leading white space, read an optional sign, then the
   * unsigned number that follows.
   */
  function ParseInt(s: string): JsInt
  {
    if s != [] && IsJsSpace(s[0]) then ParseInt(s[1..])
    else if s != [] && s[0] == '-' then Negate(ParseUnsigned(s[1..]))
    else if s != [] && s[0] == '+' then ParseUnsigned(s[1..])
    else ParseUnsigned(s)
  }

  /** The numeric negation `parseInt` applies after a minus sign. */
  function Negate(j: JsInt): (r: JsInt)
    ensures r.NaN? == j.NaN? && (j.Int? ==> r.value == -j.value)
  {
    match j
    case NaN => NaN
    case Int(v) => Int(-v)
  }

  /**
   * The unsigned part of `parseInt`: radix 16 after a "0x"/"0X" prefix,
   * radix 10 otherwise, then the longest run of digits; no digits gives NaN.
   */
  function ParseUnsigned(u: string): JsInt
  {
    var hex := |u| >= 2 && u[0] == '0' && (u[1] == 'x' || u[1] == 'X');
    var radix := if hex then 16 else 10;
    var digits := DigitPrefix(if hex then u[2..] else u, radix);
    if digits == [] then NaN else Int(DigitsValue(digits, radix))
  }

  /** `String(n)` for a natural number: its decimal digits without leading zeros. */
  function NatToString(n: nat): (s: string)
    ensures |s| >= 1 && '0' <= s[0] <= '9'
  {
    if n < 10 then
      [DecimalDigit(n)]
    else
      NatToString(n / 10) + [DecimalDigit(n % 10)]
  }

  /** The decimal text of a natural number is made of decimal digits only. */
  lemma {:induction false} NatToStringDigits(n: nat)
    ensures forall i :: 0 <= i < |NatToString(n)| ==> IsDigitIn(NatToString(n)[i], 10)
  {
    if n >= 10 {
      NatToStringDigits(n / 10);
      var s, high := NatToString(n), NatToString(n / 10);
      forall i | 0 <= i < |s|
        ensures IsDigitIn(s[i], 10)
      {
        if i < |high| {
          assert s[i] == high[i];
        }
      }
    }
  }

  /** The decimal text of `n` reads back as `n`, and starts with '0' only for zero. */
  lemma {:induction false} NatToStringValue(n: nat)
    ensures DigitsValue(NatToString(n), 10) == n
    ensures (NatToString(n)[0] == '0') == (n == 0)
  {
    if n >= 10 {
      NatToStringValue(n / 10);
      var high := NatToString(n / 10);
      var s := NatToString(n);
      assert s[..|s| - 1] == high;
    }
  }

  /** `String(n)` for an integer: a minus sign before the digits of a negative number. */
  function IntToString(n: int): (s: string)
    ensures |s| >= 1 && (s[0] == '-') == (n < 0)
  {
    if n < 0 then "-" + NatToString(-n) else NatToString(n)
  }

  /** After an optional minus sign, the text of an integer is made of decimal digits. */
  lemma IntToStringDigits(n: int)
    ensures n >= 0 ==> IsDigitIn(IntToString(n)[0], 10)
    ensures forall i :: 1 <= i < |IntToString(n)| ==> IsDigitIn(IntToString(n)[i], 10)
  {
    var m: nat := if n < 0 then -n else n;
    var d := NatToString(m);
    NatToStringDigits(m);
    var s := IntToString(n);
    if n < 0 {
      assert s == "-" + d;
      forall i | 1 <= i < |s|
        ensures IsDigitIn(s[i], 10)
      {
        assert s[i] == d[i - 1];
      }
    } else {
      assert s == d;
    }
  }

  /** A string of decimal digits holds no character that is not a digit. */
  lemma DigitsExclude(s: string, c: char)
    requires forall i :: 0 <= i < |s| ==> IsDigitIn(s[i], 10)
    requires !IsDigitIn(c, 10)
    ensures c !in s
  {
  }

  /** The digit prefix of all-digit `d` followed by a non-digit is `d`. */
  lemma {:induction false} DigitPrefixOfDigits(d: string, rest: string, radix: nat)
    requires forall i :: 0 <= i < |d| ==> IsDigitIn(d[i], radix)
    requires rest == [] || !IsDigitIn(rest[0], radix)
    ensures DigitPrefix(d + rest, radix) == d
  {
    if d == [] {
      assert d + rest == rest;
    } else {
      assert (d + rest)[1..] == d[1..] + rest;
      DigitPrefixOfDigits(d[1..], rest, radix);
      assert d == [d[0]] + d[1..];
    }
  }

  /** A decimal digit is neither white space nor a sign. */
  lemma DigitIsNotSpace(c: char)
    requires IsDigitIn(c, 10)
    ensures '0' <= c <= '9' && !IsJsSpace(c) && c != '-' && c != '+'
  {
  }

  /** Without a "0x"/"0X" prefix the unsigned part is read in radix 10. */
  lemma DecimalUnsigned(u: string)
    requires |u| >= 2 ==> u[0] != '0' || (u[1] != 'x' && u[1] != 'X')
    ensures ParseUnsigned(u) == if DigitPrefix(u, 10) == [] then NaN else Int(DigitsValue(DigitPrefix(u, 10), 10))
  {
  }

  /** Text starting with neither white space nor a sign is read by the unsigned part alone. */
  lemma UnsignedStart(s: string)
    requires s != [] && !IsJsSpace(s[0]) && s[0] != '-' && s[0] != '+'
    ensures ParseInt(s) == ParseUnsigned(s)
  {
  }

  /** Text starting with '-' is read as the negated unsigned part after it. */
  lemma NegativeStart(s: string)
    requires s != [] && s[0] == '-'
    ensures ParseInt(s) == Negate(ParseUnsigned(s[1..]))
  {
    assert !IsJsSpace(s[0]);
  }

  /** A digit string followed by a non-digit has no hexadecimal prefix. */
  lemma NoHexPrefix(d: string, rest: string)
    requires |d| >= 1 && forall i :: 0 <= i < |d| ==> IsDigitIn(d[i], 10)
    requires rest == [] || DigitValue(rest[0]) == NotADigit
    ensures var s := d + rest; |s| >= 2 ==> s[1] != 'x' && s[1] != 'X'
  {
    var s := d + rest;
    if |s| >= 2 {
      if |d| >= 2 {
        assert s[1] == d[1];
        DigitIsNotSpace(d[1]);
      } else {
        assert s[1] == rest[0];
        assert DigitValue('x') == 33 && DigitValue('X') == 33;
      }
    }
  }

  /** The unsigned part of `parseInt` reads a decimal digit string back as its value. */
  lemma ParseUnsignedOfDigits(d: string, rest: string)
    requires |d| >= 1 && forall i :: 0 <= i < |d| ==> IsDigitIn(d[i], 10)
    requires rest == [] || DigitValue(rest[0]) == NotADigit
    ensures ParseUnsigned(d + rest) == Int(DigitsValue(d, 10))
  {
    NoHexPrefix(d, rest);
    DigitPrefixOfDigits(d, rest, 10);
    DecimalUnsigned(d + rest);
  }

  /** `parseInt` reads a decimal digit string back as its value. */
  lemma ParseIntOfDigits(d: string, rest: string)
    requires |d| >= 1 && forall i :: 0 <= i < |d| ==> IsDigitIn(d[i], 10)
    requires rest == [] || DigitValue(rest[0]) == NotADigit
    ensures ParseInt(d + rest) == Int(DigitsValue(d, 10))
  {
    assert (d + rest)[0] == d[0];
    DigitIsNotSpace(d[0]);
    UnsignedStart(d + rest);
    ParseUnsignedOfDigits(d, rest);
  }

  /** `parseInt` reads a whole decimal digit string as its value. */
  lemma ParseIntOfDigitString(d: string)
    requires |d| >= 1 && forall i :: 0 <= i < |d| ==> IsDigitIn(d[i], 10)
    ensures ParseInt(d) == Int(DigitsValue(d, 10))
  {
    ParseIntOfDigits(d, []);
    assert d + [] == d;
  }

  /** `parseInt` of a minus sign followed by `u` negates what the unsigned part reads from `u`. */
  lemma ParseIntAfterMinus(u: string)
    ensures ParseInt("-" + u) == Negate(ParseUnsigned(u))
  {
    var s := "-" + u;
    assert s[0] == '-' && s[1..] == u;
    NegativeStart(s);
  }

  /** A minus sign before text whose unsigned reading is `v` makes `parseInt` read `-v`. */
  lemma ParseIntNegated(u: string, v: nat)
    requires ParseUnsigned(u) == Int(v)
    ensures ParseInt("-" + u) == Int(-(v as int))
  {
    ParseIntAfterMinus(u);
  }

  /** The unsigned part of `parseInt` reads a whole decimal digit string as its value. */
  lemma ParseUnsignedOfDigitString(d: string)
    requires |d| >= 1 && forall i :: 0 <= i < |d| ==> IsDigitIn(d[i], 10)
    ensures ParseUnsigned(d) == Int(DigitsValue(d, 10))
  {
    ParseUnsignedOfDigits(d, []);
    assert d + [] == d;
  }

  /** `parseInt` reads the decimal text of `n`, followed by a non-digit, as `n`. */
  lemma ParseIntOfNatText(n: nat, rest: string)
    requires rest == [] || DigitValue(rest[0]) == NotADigit
    ensures ParseInt(NatToString(n) + rest) == Int(n)
  {
    NatToStringDigits(n);
    NatToStringValue(n);
    ParseIntOfDigits(NatToString(n), rest);
  }

  /** `parseInt` reads the decimal text of `n` as `n`. */
  lemma ParseIntOfNat(n: nat)
    ensures ParseInt(NatToString(n)) == Int(n)
  {
    NatToStringDigits(n);
    NatToStringValue(n);
    ParseIntOfDigitString(NatToString(n));
  }

  /** `parseInt` reads '-' and the decimal text of `n` as `-n`. */
  lemma ParseIntOfNegatedNat(n: nat)
    ensures ParseInt("-" + NatToString(n)) == Int(-(n as int))
  {
    NatToStringDigits(n);
    NatToStringValue(n);
    ParseUnsignedOfDigitString(NatToString(n));
    ParseIntNegated(NatToString(n), n);
  }

  /** `parseInt(String(n))` is `n`. */
  lemma ParseIntRoundTrip(n: int)
    ensures ParseInt(IntToString(n)) == Int(n)
  {
    if n < 0 {
      ParseIntOfNegatedNat(-n);
    } else {
      ParseIntOfNat(n);
    }
  }

  /** `String(n)` is injective. */
  lemma IntToStringInjective(a: int, b: int)
    requires IntToString(a) == IntToString(b)
    ensures a == b
  {
    ParseIntRoundTrip(a);
    ParseIntRoundTrip(b);
  }

  /** `s.padStart(2, '0')`: zeros in front of `s` up to length two; longer strings unchanged. */
  function PadStart2(s: string): (r: string)
    ensures |r| == if |s| >= 2 then |s| else 2
  {
    if |s| >= 2 then s else if |s| == 1 then "0" + s else "00"
  }

  /** A number of ten or more has one digit more than its tenth. */
  lemma NatToStringStep(n: nat)
    requires n >= 10
    ensures |NatToString(n)| == |NatToString(n / 10)| + 1
  {
  }

  /** A number in 1000..9999 has four digits. */
  lemma FourDigits(n: nat)
    requires 1000 <= n <= 9999
    ensures |NatToString(n)| == 4
  {
    NatToStringStep(n);
    NatToStringStep(n / 10);
    NatToStringStep(n / 10 / 10);
    assert 1 <= n / 10 / 10 / 10 < 10;
  }

  /** For 0..99, `String(n).padStart(2, '0')` is the tens digit followed by the units digit. */
  lemma TwoDigitText(n: int)
    requires 0 <= n <= 99
    ensures PadStart2(IntToString(n)) == [DecimalDigit(n / 10), DecimalDigit(n % 10)]
  {
    if n < 10 {
      assert IntToString(n) == [DecimalDigit(n)];
      assert DecimalDigit(n / 10) == '0';
    } else {
      assert NatToString(n / 10) == [DecimalDigit(n / 10)];
      assert IntToString(n) == NatToString(n) == [DecimalDigit(n / 10)] + [DecimalDigit(n % 10)];
    }
  }

  /** Two numbers in 0..99 with the same two digits are equal. */
  lemma TwoDigitsInjective(a: int, b: int)
    requires 0 <= a <= 99 && 0 <= b <= 99
    requires [DecimalDigit(a / 10), DecimalDigit(a % 10)] == [DecimalDigit(b / 10), DecimalDigit(b % 10)]
    ensures a == b
  {
    assert DecimalDigit(a / 10) == DecimalDigit(b / 10) && DecimalDigit(a % 10) == DecimalDigit(b % 10);
  }
}
