/**
  The text JavaScript produces from numbers and dates that the calendar
  grid compares: `n.toString()` for a non-negative integer,
  `padStart(len, fill)`, and `Date.prototype.toDateString()` (the DateString
  format of ECMAScript-262, section 21.4.4.41.2: weekday, month, two-digit
  day and a year of at least four digits, separated by spaces). Each
  comes with a reader that recovers the value, so equal texts mean equal
  values.
*/
module DateText {
  import opened JsDate

  predicate IsDigit(ch: char) {
    '0' <= ch <= '9'
  }

  function DigitChar(d: int): (ch: char)
    requires 0 <= d < 10
    ensures IsDigit(ch)
  {
    (48 + d) as char
  }

  function DigitValue(ch: char): int {
    ch as int - 48
  }

  /** `n.toString()` for a non-negative integer: its decimal digits, no leading zeros. */
  function DecimalString(n: nat): (s: string)
    ensures 1 <= |s|
    ensures forall i :: 0 <= i < |s| ==> IsDigit(s[i])
    decreases n
  {
    if n < 10 then [DigitChar(n)] else DecimalString(n / 10) + [DigitChar(n % 10)]
  }

  /** The value of a string of decimal digits, read from the left. */
  function DecimalValue(s: string): int
    decreases |s|
  {
    if s == [] then 0 else 10 * DecimalValue(s[..|s| - 1]) + DigitValue(s[|s| - 1])
  }

  lemma {:induction false} DecimalRoundTrip(n: nat)
    ensures DecimalValue(DecimalString(n)) == n
    decreases n
  {
    var s := DecimalString(n);
    if n >= 10 {
      DecimalRoundTrip(n / 10);
      assert s[..|s| - 1] == DecimalString(n / 10);
    }
  }

  /** `s.padStart(len, fill)`: `fill` repeated in front of `s` up to length `len`. */
  function PadStart(s: string, len: nat, fill: char): (r: string)
    ensures |r| == if |s| < len then len else |s|
    ensures r[|r| - |s|..] == s
    ensures forall i :: 0 <= i < |r| - |s| ==> r[i] == fill
  {
    if |s| >= len then s else seq(len - |s|, _ => fill) + s
  }

  /** Leading zeros do not change the value of a digit string. */
  lemma {:induction false} LeadingZeros(z: string, s: string)
    requires forall i :: 0 <= i < |z| ==> z[i] == '0'
    ensures DecimalValue(z + s) == DecimalValue(s)
    decreases |s|
  {
    if s == [] {
      ZerosValue(z);
      assert z + s == z;
    } else {
      var t := z + s;
      assert t[..|t| - 1] == z + s[..|s| - 1];
      LeadingZeros(z, s[..|s| - 1]);
    }
  }

  lemma {:induction false} ZerosValue(z: string)
    requires forall i :: 0 <= i < |z| ==> z[i] == '0'
    ensures DecimalValue(z) == 0
    decreases |z|
  {
    if z != [] {
      ZerosValue(z[..|z| - 1]);
    }
  }

  /** A zero-padded decimal string reads back as its number. */
  lemma PaddedRoundTrip(n: nat, len: nat)
    ensures DecimalValue(PadStart(DecimalString(n), len, '0')) == n
  {
    var s := DecimalString(n);
    var r := PadStart(s, len, '0');
    var z := r[..|r| - |s|];
    assert r == z + s;
    LeadingZeros(z, s);
    DecimalRoundTrip(n);
  }

  const WeekdayNames: seq<string> := ["Sun", "Mon", "Tue", "Wed", "Thu", "Fri", "Sat"]
  const MonthNames: seq<string> := ["Jan", "Feb", "Mar", "Apr", "May", "Jun", "Jul", "Aug", "Sep", "Oct", "Nov", "Dec"]

  /** Year field of DateString: a sign for negative years, then at least four digits. */
  function YearText(y: int): string {
    (if y < 0 then "-" else "") + PadStart(DecimalString(if y < 0 then -y else y), 4, '0')
  }

  /** Numbers below 100 have at most two digits. */
  lemma ShortDecimal(n: nat)
    requires n < 100
    ensures |DecimalString(n)| <= 2
  {
    if n >= 10 {
      assert |DecimalString(n / 10)| == 1;
    }
  }

  /** Where the fields of "Www Mmm DD Y" sit. */
  lemma Fields(w: string, m: string, d: string, y: string)
    requires |w| == 3 && |m| == 3 && |d| == 2
    ensures var s := w + " " + m + " " + d + " " + y;
      s[4..7] == m && s[8..10] == d && s[11..] == y
    ensures var s := w + " " + m + " " + d + " " + y;
      s[..3] == w && s[3] == ' ' && s[7] == ' ' && s[10] == ' ' && (|y| >= 4 ==> |s| >= 15)
  {
  }

  /**
    `toDateString()` of a date whose local calendar date is `c`: the weekday
    and month names, and a year of at least four characters, separated by spaces.
  */
  function DateString(c: Civil): (s: string)
    requires c.Valid()
    ensures |s| >= 15 && s[3] == ' ' && s[7] == ' ' && s[10] == ' '
    ensures s[..3] == WeekdayNames[Weekday(c)] && s[4..7] == MonthNames[c.month]
  {
    var w, m := WeekdayNames[Weekday(c)], MonthNames[c.month];
    var d := PadStart(DecimalString(c.day), 2, '0');
    var y := YearText(c.year);
    ShortDecimal(c.day);
    assert |w| == 3 && |m| == 3 && |d| == 2;
    assert |PadStart(DecimalString(if c.year < 0 then -c.year else c.year), 4, '0')| >= 4;
    Fields(w, m, d, y);
    w + " " + m + " " + d + " " + y
  }

  /** The position of `name` in `MonthNames`, or 12 when it is not a month name. */
  function MonthIndex(name: string): (m: int)
    ensures 0 <= m <= 12
    ensures m < 12 ==> MonthNames[m] == name
  {
    if name == "Jan" then 0 else if name == "Feb" then 1 else if name == "Mar" then 2
    else if name == "Apr" then 3 else if name == "May" then 4 else if name == "Jun" then 5
    else if name == "Jul" then 6 else if name == "Aug" then 7 else if name == "Sep" then 8
    else if name == "Oct" then 9 else if name == "Nov" then 10 else if name == "Dec" then 11
    else 12
  }

  /** Reads the year field back. */
  function YearValue(t: string): int {
    if t != [] && t[0] == '-' then -DecimalValue(t[1..]) else DecimalValue(t)
  }

  /** Reads a DateString back into the calendar date it shows. */
  function ParseDateString(s: string): Civil
    requires |s| >= 11
  {
    Civil(YearValue(s[11..]), MonthIndex(s[4..7]), DecimalValue(s[8..10]))
  }

  lemma YearRoundTrip(y: int)
    ensures YearValue(YearText(y)) == y
  {
    var a := if y < 0 then -y else y;
    var p := PadStart(DecimalString(a), 4, '0');
    PaddedRoundTrip(a, 4);
    if y < 0 {
      assert YearText(y) == "-" + p;
      assert ("-" + p)[1..] == p;
    } else {
      assert YearText(y) == p;
      assert IsDigit(p[0]);
    }
  }

  /** The reader takes "Www Mmm DD Y" apart field by field. */
  lemma ParseFields(w: string, m: string, d: string, y: string)
    requires |w| == 3 && |m| == 3 && |d| == 2
    ensures ParseDateString(w + " " + m + " " + d + " " + y)
      == Civil(YearValue(y), MonthIndex(m), DecimalValue(d))
  {
    Fields(w, m, d, y);
  }

  lemma MonthIndexRoundTrip(m: int)
    requires 0 <= m < 12
    ensures MonthIndex(MonthNames[m]) == m
  {
  }

  lemma DateStringRoundTrip(c: Civil)
    requires c.Valid()
    ensures ParseDateString(DateString(c)) == c
  {
    var w, m := WeekdayNames[Weekday(c)], MonthNames[c.month];
    var d := PadStart(DecimalString(c.day), 2, '0');
    var y := YearText(c.year);
    ShortDecimal(c.day);
    assert |w| == 3 && |m| == 3 && |d| == 2;
    assert DateString(c) == w + " " + m + " " + d + " " + y;
    ParseFields(w, m, d, y);
    MonthIndexRoundTrip(c.month);
    PaddedRoundTrip(c.day, 2);
    YearRoundTrip(c.year);
  }

  /** Two valid dates print the same `toDateString()` exactly when they are the same date. */
  lemma DateStringInjective(a: Civil, b: Civil)
    requires a.Valid() && b.Valid()
    ensures DateString(a) == DateString(b) <==> a == b
  {
    DateStringRoundTrip(a);
    DateStringRoundTrip(b);
  }

  /** `padStart(2, '0')` on an hour: its two decimal digits. */
  lemma TwoDigits(h: int)
    requires 0 <= h < 100
    ensures PadStart(DecimalString(h), 2, '0') == [DigitChar(h / 10), DigitChar(h % 10)]
  {
    if h >= 10 {
      assert DecimalString(h / 10) == [DigitChar(h / 10)];
    }
  }

  /** The value of a two-character digit string. */
  lemma TwoDigitValue(p: string)
    requires |p| == 2
    ensures DecimalValue(p) == 10 * DigitValue(p[0]) + DigitValue(p[1])
  {
    assert p[..|p| - 1] == [p[0]];
    assert [p[0]][..0] == [];
    assert DecimalValue([p[0]]) == DigitValue(p[0]);
  }

  /** Two digits read as `h` exactly when they are the two digits of `h`. */
  lemma DigitPair(a: char, b: char, h: int)
    requires 0 <= h < 100
    ensures IsDigit(a) && IsDigit(b) && 10 * DigitValue(a) + DigitValue(b) == h
      <==> a == DigitChar(h / 10) && b == DigitChar(h % 10)
  {
    if IsDigit(a) && IsDigit(b) && 10 * DigitValue(a) + DigitValue(b) == h {
      var x, y := DigitValue(a), DigitValue(b);
      assert h == 10 * x + y && 0 <= y < 10;
      assert h / 10 == x && h % 10 == y;
    }
  }
}
