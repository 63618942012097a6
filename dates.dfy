/**
 * Due dates: what `datetime.strptime(text, "%Y-%m-%d")` accepts and what
 * `strftime("%Y-%m-%d")` writes back (ex2.py:27, ex2.py:49, ex2.py:69).
 * The parser follows the regular expressions of CPython's `_strptime` for the
 * three directives, so it accepts unpadded months and days ("2025-1-5") and a
 * day written as a space and a digit ("2025-01- 5").
 */
module Dates {

  import opened Options

  /** A calendar date; `datetime` also carries a time of day, always midnight here. */
  datatype Date = Date(year: int, month: int, day: int)

  predicate IsLeapYear(y: int) {
    y % 4 == 0 && (y % 100 != 0 || y % 400 == 0)
  }

  function DaysInMonth(y: int, m: int): (n: int)
    requires 1 <= m <= 12
    ensures 28 <= n <= 31
    ensures n == 31 <==> m in {1, 3, 5, 7, 8, 10, 12}
  {
    if m == 2 then (if IsLeapYear(y) then 29 else 28)
    else if m in {4, 6, 9, 11} then 30
    else 31
  }

  /** The dates `datetime` can represent: years 1 to 9999, a real day of a real month. */
  predicate ValidDate(d: Date) {
    1 <= d.year <= 9999 && 1 <= d.month <= 12 && 1 <= d.day <= DaysInMonth(d.year, d.month)
  }

  predicate IsDigit(c: char) {
    '0' <= c <= '9'
  }

  function DigitValue(c: char): (v: nat)
    requires IsDigit(c)
    ensures v < 10
  {
    c as int - '0' as int
  }

  function Digit(v: nat): (c: char)
    requires v < 10
    ensures IsDigit(c) && DigitValue(c) == v
  {
    ('0' as int + v) as char
  }

  /** A directive matched at the front of the remaining text: its value and how many characters it took. */
  datatype Token = Token(value: int, width: nat)

  /** `%m`: the alternatives `1[0-2]`, `0[1-9]`, `[1-9]`, tried in that order. */
  function MonthToken(t: string): (r: Option<Token>)
    ensures r.Some? ==> 1 <= r.value.value <= 12 && 1 <= r.value.width <= 2 && r.value.width <= |t|
  {
    if |t| >= 2 && t[0] == '1' && '0' <= t[1] <= '2' then Some(Token(10 + DigitValue(t[1]), 2))
    else if |t| >= 2 && t[0] == '0' && '1' <= t[1] <= '9' then Some(Token(DigitValue(t[1]), 2))
    else if |t| >= 1 && '1' <= t[0] <= '9' then Some(Token(DigitValue(t[0]), 1))
    else None
  }

  /** `%d`: the alternatives `3[01]`, `[12]\d`, `0[1-9]`, `[1-9]`, ` [1-9]`, tried in that order. */
  function DayToken(t: string): (r: Option<Token>)
    ensures r.Some? ==> 1 <= r.value.value <= 31 && 1 <= r.value.width <= 2 && r.value.width <= |t|
  {
    if |t| >= 2 && t[0] == '3' && '0' <= t[1] <= '1' then Some(Token(30 + DigitValue(t[1]), 2))
    else if |t| >= 2 && '1' <= t[0] <= '2' && IsDigit(t[1]) then Some(Token(10 * DigitValue(t[0]) + DigitValue(t[1]), 2))
    else if |t| >= 2 && t[0] == '0' && '1' <= t[1] <= '9' then Some(Token(DigitValue(t[1]), 2))
    else if |t| >= 1 && '1' <= t[0] <= '9' then Some(Token(DigitValue(t[0]), 1))
    else if |t| >= 2 && t[0] == ' ' && '1' <= t[1] <= '9' then Some(Token(DigitValue(t[1]), 2))
    else None
  }

  /**
   * `datetime.strptime(s, "%Y-%m-%d")`: `None` where it raises ValueError, that is when
   * the text does not match, when text is left over after the day, when the year is 0,
   * or when the day does not exist in that month.
   */
  function ParseDate(s: string): (r: Option<Date>)
    ensures r.Some? ==> ValidDate(r.value)
  {
    if |s| < 5 || !(IsDigit(s[0]) && IsDigit(s[1]) && IsDigit(s[2]) && IsDigit(s[3])) || s[4] != '-' then None
    else
      var year := 1000 * DigitValue(s[0]) + 100 * DigitValue(s[1]) + 10 * DigitValue(s[2]) + DigitValue(s[3]);
      match MonthToken(s[5..])
      case None => None
      case Some(m) =>
        var rest := s[5 + m.width..];
        if |rest| == 0 || rest[0] != '-' then None
        else
          match DayToken(rest[1..])
          case None => None
          case Some(d) =>
            if d.width != |rest| - 1 then None
            else if ValidDate(Date(year, m.value, d.value)) then Some(Date(year, m.value, d.value))
            else None
  }

  function Pad2(n: nat): (s: string)
    requires n < 100
    ensures |s| == 2 && IsDigit(s[0]) && IsDigit(s[1])
    ensures 10 * DigitValue(s[0]) + DigitValue(s[1]) == n
  {
    [Digit(n / 10), Digit(n % 10)]
  }

  function Pad4(n: nat): (s: string)
    requires n < 10000
    ensures |s| == 4 && IsDigit(s[0]) && IsDigit(s[1]) && IsDigit(s[2]) && IsDigit(s[3])
    ensures 1000 * DigitValue(s[0]) + 100 * DigitValue(s[1]) + 10 * DigitValue(s[2]) + DigitValue(s[3]) == n
  {
    var tens := n / 10;
    var hundreds := tens / 10;
    var thousands := hundreds / 10;
    [Digit(thousands), Digit(hundreds % 10), Digit(tens % 10), Digit(n % 10)]
  }

  /** `strftime("%Y-%m-%d")`: four-digit year, two-digit month and day, zero-padded. */
  function FormatDate(d: Date): (s: string)
    requires ValidDate(d)
    ensures |s| == 10 && s[4] == '-' && s[7] == '-'
  {
    Pad4(d.year) + "-" + Pad2(d.month) + "-" + Pad2(d.day)
  }

  /** The text written is zero-padded: every position but the two dashes holds a digit. */
  lemma FormatDateDigits(d: Date)
    requires ValidDate(d)
    ensures forall i | 0 <= i < 10 && i != 4 && i != 7 :: IsDigit(FormatDate(d)[i])
  {
  }

  /**
   * A due date as the store reads it (ex2.py:27, ex2.py:67-74): no text or empty text
   * is no date, `Some(None)`; other text must parse, or the result is `None` (ValueError).
   */
  function ReadDueDate(text: Option<string>): (r: Option<Option<Date>>)
    ensures r == Some(None) <==> text.None? || text.value == ""
    ensures r.None? <==> text.Some? && text.value != "" && ParseDate(text.value).None?
    ensures r.Some? && r.value.Some? ==> ValidDate(r.value.value) && ParseDate(text.value) == r.value
  {
    if text.None? || text.value == "" then Some(None)
    else match ParseDate(text.value)
      case None => None
      case Some(d) => Some(Some(d))
  }

  /** What `strftime` writes, `strptime` reads back as the same date. */
  lemma DateRoundTrip(d: Date)
    requires ValidDate(d)
    ensures ParseDate(FormatDate(d)) == Some(d)
  {
    var s := FormatDate(d);
    var y, m, dd := Pad4(d.year), Pad2(d.month), Pad2(d.day);
    assert s[..4] == y && s[5..7] == m && s[8..] == dd;
    assert s[5..] == m + "-" + dd;
    var mt := MonthToken(s[5..]);
    assert mt == Some(Token(d.month, 2)) by {
      if d.month >= 10 {
        assert s[5] == '1';
      } else {
        assert s[5] == '0';
      }
    }
    assert s[7..] == "-" + dd;
    assert s[8..] == dd;
    assert DayToken(dd) == Some(Token(d.day, 2)) by {
      if d.day >= 30 {
        assert dd[0] == '3';
      } else if d.day >= 10 {
        assert dd[0] == '1' || dd[0] == '2';
      } else {
        assert dd[0] == '0';
      }
    }
  }

  /** strptime does not insist on zero-padding: "2025-1-5" is the fifth of January 2025. */
  lemma UnpaddedDateAccepted()
    ensures ParseDate("2025-1-5") == Some(Date(2025, 1, 5))
  {
    var s := "2025-1-5";
    assert s[5..] == "1-5";
    assert s[5 + 1..] == "-5";
    assert s[5 + 1..][1..] == "5";
  }

  /** Text that is not a date at all, and a day the month does not have, are both refused. */
  lemma InvalidDatesRefused()
    ensures ParseDate("not-a-date") == None
    ensures ParseDate("2025-02-29") == None
    ensures ParseDate("2024-02-29") == Some(Date(2024, 2, 29))
  {
    var s := "2025-02-29";
    assert s[5..] == "02-29";
    assert s[7..] == "-29";
    assert s[7..][1..] == "29";
    var t := "2024-02-29";
    assert t[5..] == "02-29";
    assert t[7..] == "-29";
    assert t[7..][1..] == "29";
  }
}
