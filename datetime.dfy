/**
 * The part of Python's `datetime` that the renderers use: `date` and `time`
 * values and their `strftime('%d/%m/%Y')` and `strftime('%H:%M')`
 * renderings as zero-padded decimal text, with the parsers that read the
 * digits back.
 */
module DateTime {
  import opened Wrappers

  /** `datetime.MINYEAR` and `datetime.MAXYEAR`. */
  const MinYear: nat := 1
  const MaxYear: nat := 9999

  datatype Date = Date(year: nat, month: nat, day: nat)

  /** A time of day to the minute; seconds are never rendered, so they are not kept. */
  datatype Time = Time(hour: nat, minute: nat)

  predicate IsLeapYear(y: nat) {
    y % 4 == 0 && (y % 100 != 0 || y % 400 == 0)
  }

  function DaysInMonth(y: nat, m: nat): nat
    requires 1 <= m <= 12
  {
    if m == 2 then (if IsLeapYear(y) then 29 else 28)
    else if m == 4 || m == 6 || m == 9 || m == 11 then 30
    else 31
  }

  /** What every `datetime.date` value satisfies (proleptic Gregorian calendar). */
  predicate ValidDate(d: Date) {
    MinYear <= d.year <= MaxYear && 1 <= d.month <= 12 && 1 <= d.day <= DaysInMonth(d.year, d.month)
  }

  /** What every `datetime.time` value satisfies, for the fields kept here. */
  predicate ValidTime(t: Time) {
    t.hour < 24 && t.minute < 60
  }

  // ---------------------------------------------------------------------
  // Decimal digits
  // ---------------------------------------------------------------------

  function Pow10(k: nat): (r: nat)
    ensures r >= 1
  {
    if k == 0 then 1 else 10 * Pow10(k - 1)
  }

  predicate IsDigit(c: char) {
    '0' <= c <= '9'
  }

  predicate AllDigits(s: string) {
    forall i :: 0 <= i < |s| ==> IsDigit(s[i])
  }

  function DigitChar(d: nat): (c: char)
    requires d < 10
    ensures IsDigit(c) && c as int - '0' as int == d
  {
    (('0' as int) + d) as char
  }

  /** The number a string of decimal digits denotes, most significant digit first. */
  function DigitsValue(s: string): nat
    requires AllDigits(s)
  {
    if s == [] then 0
    else 10 * DigitsValue(s[..|s| - 1]) + (s[|s| - 1] as int - '0' as int)
  }

  /** `n` in decimal, left-padded with zeros to exactly `width` digits. */
  function PadLeft(n: nat, width: nat): (r: string)
    requires n < Pow10(width)
    ensures |r| == width && AllDigits(r) && DigitsValue(r) == n
  {
    if width == 0 then ""
    else
      var front := PadLeft(n / 10, width - 1);
      var r := front + [DigitChar(n % 10)];
      assert r[..|r| - 1] == front;
      r
  }

  /** Appending one digit multiplies by ten and adds it; division and remainder by ten undo that. */
  lemma AppendDigit(q: nat, d: nat)
    requires d < 10
    ensures (10 * q + d) / 10 == q && (10 * q + d) % 10 == d
  {
  }

  /** A string of k digits denotes a number below 10^k. */
  lemma {:induction false} DigitsValueBound(s: string)
    requires AllDigits(s)
    ensures DigitsValue(s) < Pow10(|s|)
    decreases |s|
  {
    if s != [] {
      var front := s[..|s| - 1];
      DigitsValueBound(front);
      assert DigitsValue(front) + 1 <= Pow10(|front|);
      assert 10 * DigitsValue(front) + 10 <= 10 * Pow10(|front|);
    }
  }

  /** Reading digits and writing them back at the same width gives the same text. */
  lemma {:induction false} PadLeftOfValue(s: string)
    requires AllDigits(s)
    ensures DigitsValue(s) < Pow10(|s|)
    ensures PadLeft(DigitsValue(s), |s|) == s
    decreases |s|
  {
    DigitsValueBound(s);
    if s != [] {
      var front := s[..|s| - 1];
      var d := s[|s| - 1] as int - '0' as int;
      var n := DigitsValue(s);
      PadLeftOfValue(front);
      AppendDigit(DigitsValue(front), d);
      assert n / 10 == DigitsValue(front) && n % 10 == d;
      assert DigitChar(d) == s[|s| - 1];
      calc {
        PadLeft(n, |s|);
        PadLeft(n / 10, |s| - 1) + [DigitChar(n % 10)];
        front + [s[|s| - 1]];
        s;
      }
    }
  }

  /** Zero-padding to two digits, as `%d`, `%m`, `%H` and `%M` do. */
  function Pad2(n: nat): (r: string)
    requires n < 100
    ensures |r| == 2 && AllDigits(r) && DigitsValue(r) == n
  {
    PadLeft(n, 2)
  }

  /** Zero-padding to four digits, as `%Y` does for a four-digit year. */
  function Pad4(n: nat): (r: string)
    requires n < 10000
    ensures |r| == 4 && AllDigits(r) && DigitsValue(r) == n
  {
    PadLeft(n, 4)
  }

  // ---------------------------------------------------------------------
  // strftime
  // ---------------------------------------------------------------------

  /** A date whose `%Y` has four digits, so that its rendering is fixed-width. */
  predicate FormattableDate(d: Date) {
    ValidDate(d) && d.year >= 1000
  }

  /** `d.strftime('%d/%m/%Y')`: DD/MM/YYYY, whose digits read back to the date. */
  function FormatDate(d: Date): (r: string)
    requires FormattableDate(d)
    ensures |r| == 10 && r[2] == '/' && r[5] == '/'
    ensures forall i :: 0 <= i < 10 && i != 2 && i != 5 ==> IsDigit(r[i])
    ensures AllDigits(r[..2]) && DigitsValue(r[..2]) == d.day
    ensures AllDigits(r[3..5]) && DigitsValue(r[3..5]) == d.month
    ensures AllDigits(r[6..]) && DigitsValue(r[6..]) == d.year
  {
    var dd, mm, yyyy := Pad2(d.day), Pad2(d.month), Pad4(d.year);
    var r := dd + "/" + mm + "/" + yyyy;
    assert r[..2] == dd && r[3..5] == mm && r[6..] == yyyy;
    r
  }

  /** `t.strftime('%H:%M')`: HH:MM on the 24-hour clock, whose digits read back to the time. */
  function FormatTime(t: Time): (r: string)
    requires ValidTime(t)
    ensures |r| == 5 && r[2] == ':'
    ensures forall i :: 0 <= i < 5 && i != 2 ==> IsDigit(r[i])
    ensures AllDigits(r[..2]) && DigitsValue(r[..2]) == t.hour
    ensures AllDigits(r[3..]) && DigitsValue(r[3..]) == t.minute
  {
    var hh, mm := Pad2(t.hour), Pad2(t.minute);
    var r := hh + ":" + mm;
    assert r[..2] == hh && r[3..] == mm;
    r
  }

  /** Reads DD/MM/YYYY back; `None` for text of any other shape. */
  function ParseDate(s: string): Option<Date> {
    if |s| == 10 && s[2] == '/' && s[5] == '/' && AllDigits(s[..2]) && AllDigits(s[3..5]) && AllDigits(s[6..])
    then Some(Date(DigitsValue(s[6..]), DigitsValue(s[3..5]), DigitsValue(s[..2])))
    else None
  }

  /** Reads HH:MM back; `None` for text of any other shape. */
  function ParseTime(s: string): Option<Time> {
    if |s| == 5 && s[2] == ':' && AllDigits(s[..2]) && AllDigits(s[3..])
    then Some(Time(DigitsValue(s[..2]), DigitsValue(s[3..])))
    else None
  }

  /** Rendering a date and reading it back gives the date. */
  lemma ParseFormatDate(d: Date)
    requires FormattableDate(d)
    ensures ParseDate(FormatDate(d)) == Some(d)
  {
  }

  /** A date read from text renders back to exactly that text. */
  lemma FormatParseDate(s: string, d: Date)
    requires ParseDate(s) == Some(d) && FormattableDate(d)
    ensures FormatDate(d) == s
  {
    PadLeftOfValue(s[..2]);
    PadLeftOfValue(s[3..5]);
    PadLeftOfValue(s[6..]);
    var r := FormatDate(d);
    assert r[..2] == s[..2] && r[3..5] == s[3..5] && r[6..] == s[6..];
    assert r == r[..2] + [r[2]] + r[3..5] + [r[5]] + r[6..];
    assert s == s[..2] + [s[2]] + s[3..5] + [s[5]] + s[6..];
  }

  /** Rendering a time and reading it back gives the time. */
  lemma ParseFormatTime(t: Time)
    requires ValidTime(t)
    ensures ParseTime(FormatTime(t)) == Some(t)
  {
  }

  /** A time read from text renders back to exactly that text. */
  lemma FormatParseTime(s: string, t: Time)
    requires ParseTime(s) == Some(t) && ValidTime(t)
    ensures FormatTime(t) == s
  {
    PadLeftOfValue(s[..2]);
    PadLeftOfValue(s[3..]);
    var r := FormatTime(t);
    assert r[..2] == s[..2] && r[3..] == s[3..];
    assert r == r[..2] + [r[2]] + r[3..];
    assert s == s[..2] + [s[2]] + s[3..];
  }

  /** The year 2024 pads to itself. */
  lemma YearExample()
    ensures Pad4(2024) == "2024"
  {
    assert PadLeft(2, 1) == "2";
    assert PadLeft(20, 2) == "20";
    assert PadLeft(202, 3) == "202";
  }

  /** The day 10 and the month 5 pad to 10 and 05. */
  lemma DayMonthExample()
    ensures Pad2(10) == "10" && Pad2(5) == "05"
  {
    assert PadLeft(0, 1) == "0" && PadLeft(1, 1) == "1";
  }

  /** 10 May 2024 renders as 10/05/2024. */
  lemma DateExample()
    ensures FormattableDate(Date(2024, 5, 10)) && FormatDate(Date(2024, 5, 10)) == "10/05/2024"
  {
    assert FormattableDate(Date(2024, 5, 10));
    assert FormatDate(Date(2024, 5, 10)) == "10/05/2024" by {
      YearExample();
      DayMonthExample();
    }
  }

  /** The hour 15 and the minute 30 pad to 15 and 30. */
  lemma HourMinuteExample()
    ensures Pad2(15) == "15" && Pad2(30) == "30"
  {
    assert PadLeft(1, 1) == "1" && PadLeft(3, 1) == "3";
  }

  /** Half past three in the afternoon renders as 15:30. */
  lemma TimeExample()
    ensures ValidTime(Time(15, 30)) && FormatTime(Time(15, 30)) == "15:30"
  {
    assert ValidTime(Time(15, 30));
    assert FormatTime(Time(15, 30)) == "15:30" by {
      HourMinuteExample();
    }
  }
}
