/** The 12-hour clock the views print: the hour labels of the day and week
    timelines ("12 AM", "1 PM") and the time-picker labels ("9:15am"), with
    decimal rendering of small numbers. */
module Clock {

  const Digits := "0123456789"

  /** `n.toString()` for a natural number. */
  function Decimal(n: nat): (s: string)
    ensures 1 <= |s|
    ensures forall i :: 0 <= i < |s| ==> s[i] in Digits
    ensures n < 10 ==> |s| == 1
    ensures 10 <= n < 100 ==> |s| == 2 && s[0] != '0'
  {
    if n < 10 then [Digits[n]] else Decimal(n / 10) + [Digits[n % 10]]
  }

  /** The value of a digit character. */
  function DigitValue(c: char): nat {
    if c == '0' then 0 else if c == '1' then 1 else if c == '2' then 2
    else if c == '3' then 3 else if c == '4' then 4 else if c == '5' then 5
    else if c == '6' then 6 else if c == '7' then 7 else if c == '8' then 8
    else if c == '9' then 9 else 0
  }

  /** Reads a string of digits back as a number. */
  function ParseDecimal(s: string): nat {
    if s == [] then 0 else ParseDecimal(s[..|s| - 1]) * 10 + DigitValue(s[|s| - 1])
  }

  /** Printing a number and reading it back gives the number. */
  lemma {:induction false} ParseDecimalOfDecimal(n: nat)
    ensures ParseDecimal(Decimal(n)) == n
  {
    var s := Decimal(n);
    if n < 10 {
      DigitValueOf(n);
    } else {
      ParseDecimalOfDecimal(n / 10);
      assert s == Decimal(n / 10) + [Digits[n % 10]];
      assert s[..|s| - 1] == Decimal(n / 10);
      DigitValueOf(n % 10);
    }
  }

  lemma DigitValueOf(d: nat)
    requires d < 10
    ensures DigitValue(Digits[d]) == d
  {
  }

  lemma DecimalInjective(a: nat, b: nat)
    requires Decimal(a) == Decimal(b)
    ensures a == b
  {
    ParseDecimalOfDecimal(a);
    ParseDecimalOfDecimal(b);
  }

  /** The hour a 12-hour clock shows for hour `h` of the day: 0 shows 12,
      13..23 show 1..11. */
  function DisplayHour(h: int): (d: int)
    requires 0 <= h < 24
    ensures 1 <= d <= 12
    ensures h == 0 ==> d == 12
    ensures 1 <= h <= 12 ==> d == h
    ensures 13 <= h ==> d == h - 12
  {
    if h == 0 then 12 else if h < 13 then h else h - 12
  }

  predicate IsPM(h: int) {
    h >= 12
  }

  /** The 24-hour hour named by a 12-hour display hour and a period. */
  function Hour24(display: int, pm: bool): int {
    if pm then (if display == 12 then 12 else display + 12)
    else (if display == 12 then 0 else display)
  }

  /** The display hour and the period determine the hour: nothing is lost by
      the 12-hour form. */
  lemma Hour24OfDisplay(h: int)
    requires 0 <= h < 24
    ensures Hour24(DisplayHour(h), IsPM(h)) == h
  {
  }

  /** The timeline's hour label: `hour === 0 ? '12 AM' : hour < 12 ?
      `${hour} AM` : hour === 12 ? '12 PM' : `${hour - 12} PM``. */
  function HourLabel(h: int): string
    requires 0 <= h < 24
  {
    if h == 0 then "12 AM"
    else if h < 12 then Decimal(h) + " AM"
    else if h == 12 then "12 PM"
    else Decimal(h - 12) + " PM"
  }

  /** The label is the 12-hour display hour with its period. */
  lemma HourLabelIsTwelveHour(h: int)
    requires 0 <= h < 24
    ensures HourLabel(h) == Decimal(DisplayHour(h)) + (if IsPM(h) then " PM" else " AM")
  {
  }

  /** Distinct hours of the day get distinct labels. */
  lemma HourLabelInjective(a: int, b: int)
    requires 0 <= a < 24 && 0 <= b < 24
    requires HourLabel(a) == HourLabel(b)
    ensures a == b
  {
    HourLabelIsTwelveHour(a);
    HourLabelIsTwelveHour(b);
    var la, lb := HourLabel(a), HourLabel(b);
    var da, db := Decimal(DisplayHour(a)), Decimal(DisplayHour(b));
    assert la[|la| - 3..] == (if IsPM(a) then " PM" else " AM");
    assert lb[|lb| - 3..] == (if IsPM(b) then " PM" else " AM");
    assert IsPM(a) == IsPM(b);
    assert la[..|la| - 3] == da && lb[..|lb| - 3] == db;
    DecimalInjective(DisplayHour(a), DisplayHour(b));
    Hour24OfDisplay(a);
    Hour24OfDisplay(b);
  }

  /** `minute.toString().padStart(2, '0')`. */
  function TwoDigits(m: nat): (s: string)
    ensures m < 100 ==> |s| == 2
  {
    if m < 10 then "0" + Decimal(m) else Decimal(m)
  }

  /** A time-picker label: `${displayHour}:00am` on the hour, otherwise
      `${displayHour}:${minuteStr}am` (`pm` from noon on). */
  function TimeLabel(h: int, m: nat): string
    requires 0 <= h < 24
  {
    var period := Period(h);
    if m == 0 then Decimal(DisplayHour(h)) + ":00" + period
    else Decimal(DisplayHour(h)) + ":" + TwoDigits(m) + period
  }

  /** A time-picker label names its hour and minute: two labels for minutes
      below 60 are equal only for the same time of day. */
  lemma TimeLabelInjective(h1: int, m1: nat, h2: int, m2: nat)
    requires 0 <= h1 < 24 && 0 <= h2 < 24 && m1 < 60 && m2 < 60
    requires TimeLabel(h1, m1) == TimeLabel(h2, m2)
    ensures h1 == h2 && m1 == m2
  {
    TimeLabelParts(h1, m1);
    TimeLabelParts(h2, m2);
    SplitLabel(Decimal(DisplayHour(h1)), TwoDigits(m1), Period(h1),
               Decimal(DisplayHour(h2)), TwoDigits(m2), Period(h2));
    DecimalInjective(DisplayHour(h1), DisplayHour(h2));
    assert IsPM(h1) == IsPM(h2);
    Hour24OfDisplay(h1);
    Hour24OfDisplay(h2);
    TwoDigitsInjective(m1, m2);
  }

  function Period(h: int): string {
    if IsPM(h) then "pm" else "am"
  }

  /** Both branches of the label print the padded minute. */
  lemma TimeLabelParts(h: int, m: nat)
    requires 0 <= h < 24
    ensures TimeLabel(h, m) == Decimal(DisplayHour(h)) + ":" + TwoDigits(m) + Period(h)
  {
    assert TwoDigits(0) == "00";
  }

  /** A label `d:tt pp` with a two-character minute and period splits back
      into its parts. */
  lemma SplitLabel(d1: string, t1: string, p1: string, d2: string, t2: string, p2: string)
    requires |t1| == 2 && |t2| == 2 && |p1| == 2 && |p2| == 2
    requires d1 + ":" + t1 + p1 == d2 + ":" + t2 + p2
    ensures d1 == d2 && t1 == t2 && p1 == p2
  {
    var l1, l2 := d1 + ":" + t1 + p1, d2 + ":" + t2 + p2;
    assert l1[|l1| - 2..] == p1 && l2[|l2| - 2..] == p2;
    assert l1[|l1| - 4..|l1| - 2] == t1 && l2[|l2| - 4..|l2| - 2] == t2;
    assert l1[..|l1| - 5] == d1 && l2[..|l2| - 5] == d2;
  }

  lemma TwoDigitsInjective(a: nat, b: nat)
    requires a < 100 && b < 100 && TwoDigits(a) == TwoDigits(b)
    ensures a == b
  {
    if a < 10 && b < 10 {
      assert TwoDigits(a)[1..] == Decimal(a) && TwoDigits(b)[1..] == Decimal(b);
      DecimalInjective(a, b);
    } else if 10 <= a && 10 <= b {
      DecimalInjective(a, b);
    }
  }
}
