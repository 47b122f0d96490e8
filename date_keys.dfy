/**
 * Calendar dates and the date keys built from them.
 *
 * The booking core identifies a day by the string `fmtKey(y, m, d)`, the year in
 * decimal and month and day zero-padded to two digits, which is the `full-date`
 * form of section 5.6 of RFC 3339 for four-digit years. The horizon guards and the
 * period walk compare those keys with JavaScript's string operators, and the walk
 * itself steps through the Gregorian calendar one day at a time, reading the
 * weekday of each date.
 */
module DateKeys {

  import opened Wrappers

  // ---------------------------------------------------------------------------
  // The proleptic Gregorian calendar (what a JavaScript Date uses)
  // ---------------------------------------------------------------------------

  /** A calendar date; the month runs from 1 to 12, as in a date key. */
  datatype Date = Date(year: int, month: int, day: int)

  predicate IsLeapYear(y: int)
  {
    y % 4 == 0 && (y % 100 != 0 || y % 400 == 0)
  }

  function DaysInMonth(y: int, m: int): int
  {
    if m == 2 then (if IsLeapYear(y) then 29 else 28)
    else if m == 4 || m == 6 || m == 9 || m == 11 then 30
    else 31
  }

  function YearLength(y: int): int
  {
    if IsLeapYear(y) then 366 else 365
  }

  predicate ValidDate(x: Date)
  {
    x.year >= 1 && 1 <= x.month <= 12 && 1 <= x.day <= DaysInMonth(x.year, x.month)
  }

  /** A date whose key has the fixed ten-character `YYYY-MM-DD` shape. */
  predicate KeyDate(x: Date)
  {
    ValidDate(x) && 1000 <= x.year <= 9999
  }

  /** Chronological order on dates. */
  predicate DateLess(a: Date, b: Date)
  {
    a.year < b.year
    || (a.year == b.year && (a.month < b.month || (a.month == b.month && a.day < b.day)))
  }

  predicate DateLe(a: Date, b: Date)
  {
    a == b || DateLess(a, b)
  }

  /** The date after `x`, as `cur.setDate(cur.getDate() + 1)` computes it. */
  function NextDay(x: Date): Date
  {
    if x.day < DaysInMonth(x.year, x.month) then Date(x.year, x.month, x.day + 1)
    else if x.month < 12 then Date(x.year, x.month + 1, 1)
    else Date(x.year + 1, 1, 1)
  }

  /** Days from 0001-01-01 to January 1st of year `y`. */
  function DaysBeforeYear(y: int): int
    requires y >= 1
  {
    if y == 1 then 0 else DaysBeforeYear(y - 1) + YearLength(y - 1)
  }

  /** Days from January 1st of year `y` to the first of month `m`. */
  function DaysBeforeMonth(y: int, m: int): int
    requires 1 <= m <= 12
  {
    [0, 31, 59, 90, 120, 151, 181, 212, 243, 273, 304, 334][m - 1]
    + (if m > 2 && IsLeapYear(y) then 1 else 0)
  }

  /** The number of days from 0001-01-01 to `x`. */
  function DayNumber(x: Date): int
    requires ValidDate(x)
  {
    DaysBeforeYear(x.year) + DaysBeforeMonth(x.year, x.month) + x.day - 1
  }

  /** `Date.prototype.getDay`: 0 is Sunday, 6 is Saturday; 0001-01-01 was a Monday. */
  function Weekday(x: Date): (w: int)
    requires ValidDate(x)
    ensures 0 <= w < 7
  {
    (DayNumber(x) + 1) % 7
  }

  /** The usual closed form: 365 days a year plus one for each leap year before `y`. */
  lemma {:induction false} DaysBeforeYearClosedForm(y: int)
    requires y >= 1
    ensures DaysBeforeYear(y) == 365 * (y - 1) + (y - 1) / 4 - (y - 1) / 100 + (y - 1) / 400
  {
    if y > 1 {
      DaysBeforeYearClosedForm(y - 1);
      LeapCountStep(y - 1);
    }
  }

  /** Counting leap years: `n` adds one to the count before it exactly when `n` is a leap year. */
  lemma LeapCountStep(n: int)
    requires n >= 1
    ensures (n / 4 - n / 100 + n / 400) - ((n - 1) / 4 - (n - 1) / 100 + (n - 1) / 400)
            == (if IsLeapYear(n) then 1 else 0)
  {
    var q4, r4 := n / 4, n % 4;
    var q100, r100 := n / 100, n % 100;
    var q400, r400 := n / 400, n % 400;
    assert (n - 1) / 4 == (if r4 == 0 then q4 - 1 else q4);
    assert (n - 1) / 100 == (if r100 == 0 then q100 - 1 else q100);
    assert (n - 1) / 400 == (if r400 == 0 then q400 - 1 else q400);
    if r400 == 0 {
      assert n == 400 * q400;
      assert r100 == 0 && r4 == 0;
    } else if r100 == 0 {
      assert n == 100 * q100;
      assert r4 == 0;
    }
  }

  lemma {:induction false} DaysBeforeYearMonotone(y: int, z: int)
    requires 1 <= y <= z
    ensures DaysBeforeYear(y) + (z - y) * 365 <= DaysBeforeYear(z)
    decreases z - y
  {
    if y < z {
      DaysBeforeYearMonotone(y, z - 1);
    }
  }

  /** A valid date lies inside its year: its day number is below that of the next January 1st. */
  lemma DayNumberWithinYear(x: Date)
    requires ValidDate(x)
    ensures DaysBeforeYear(x.year) <= DayNumber(x) < DaysBeforeYear(x.year + 1)
  {
  }

  /** Stepping one day forward moves the day number up by exactly one. */
  lemma NextDayNumber(x: Date)
    requires ValidDate(x)
    ensures ValidDate(NextDay(x)) && DateLess(x, NextDay(x))
    ensures DayNumber(NextDay(x)) == DayNumber(x) + 1
  {
    if x.day == DaysInMonth(x.year, x.month) && x.month == 12 {
      assert DaysBeforeYear(x.year + 1) == DaysBeforeYear(x.year) + YearLength(x.year);
    }
  }

  /** The weekday advances by one, Saturday wrapping round to Sunday. */
  lemma NextDayWeekday(x: Date)
    requires ValidDate(x)
    ensures Weekday(NextDay(x)) == (Weekday(x) + 1) % 7
  {
    NextDayNumber(x);
    ModSevenStep(DayNumber(x) + 1);
  }

  lemma ModSevenStep(n: int)
    ensures (n + 1) % 7 == (n % 7 + 1) % 7
  {
    var q, r := n / 7, n % 7;
    assert n == 7 * q + r && 0 <= r < 7;
    if r < 6 {
      assert n + 1 == 7 * q + (r + 1);
    } else {
      assert n + 1 == 7 * (q + 1);
    }
  }

  /** Day numbers order valid dates exactly as the calendar does. */
  lemma DayNumberOrder(a: Date, b: Date)
    requires ValidDate(a) && ValidDate(b)
    ensures DateLess(a, b) <==> DayNumber(a) < DayNumber(b)
    ensures a == b <==> DayNumber(a) == DayNumber(b)
  {
    if DateLess(a, b) {
      DayNumberBelow(a, b);
    } else if DateLess(b, a) {
      DayNumberBelow(b, a);
    }
  }

  lemma DayNumberBelow(a: Date, b: Date)
    requires ValidDate(a) && ValidDate(b) && DateLess(a, b)
    ensures DayNumber(a) < DayNumber(b)
  {
    if a.year < b.year {
      DayNumberWithinYear(a);
      DaysBeforeYearMonotone(a.year + 1, b.year);
    }
  }

  // ---------------------------------------------------------------------------
  // Decimal text: String(n), padStart(2, '0') and fmtKey
  // ---------------------------------------------------------------------------

  predicate IsDigit(c: char)
  {
    '0' <= c <= '9'
  }

  predicate AllDigits(s: string)
  {
    forall i :: 0 <= i < |s| ==> IsDigit(s[i])
  }

  function DigitChar(n: int): char
    requires 0 <= n < 10
  {
    ('0' as int + n) as char
  }

  /** The decimal text of `n` without leading zeros, as `String(n)` writes it. */
  function NatToDecimal(n: nat): string
  {
    if n < 10 then [DigitChar(n)] else NatToDecimal(n / 10) + [DigitChar(n % 10)]
  }

  /** `String(n)` for an integer `n`. */
  function IntToDecimal(n: int): string
  {
    if n < 0 then "-" + NatToDecimal(-n) else NatToDecimal(n)
  }

  /** `s.padStart(2, '0')`. */
  function PadStart2(s: string): string
  {
    if |s| >= 2 then s else seq(2 - |s|, _ => '0') + s
  }

  /** `fmtKey(y, m, d)` (src/main.ts:79-81). */
  function FmtKey(y: int, m: int, d: int): string
  {
    IntToDecimal(y) + "-" + PadStart2(IntToDecimal(m)) + "-" + PadStart2(IntToDecimal(d))
  }

  function KeyOf(x: Date): string
  {
    FmtKey(x.year, x.month, x.day)
  }

  /** `n` written in exactly `w` digits, most significant first (leading zeros kept). */
  function Digits(n: nat, w: nat): (s: string)
    ensures |s| == w
  {
    if w == 0 then [] else Digits(n / 10, w - 1) + [DigitChar(n % 10)]
  }

  /** The number a string of digits denotes. */
  function DecimalValue(s: string): nat
    requires AllDigits(s)
  {
    if s == [] then 0 else 10 * DecimalValue(s[..|s| - 1]) + (s[|s| - 1] as int - '0' as int)
  }

  function Pow10(w: nat): nat
  {
    if w == 0 then 1 else 10 * Pow10(w - 1)
  }

  lemma {:induction false} DigitsValue(n: nat, w: nat)
    requires n < Pow10(w)
    ensures AllDigits(Digits(n, w)) && DecimalValue(Digits(n, w)) == n
  {
    if w > 0 {
      DigitsValue(n / 10, w - 1);
      var s := Digits(n, w);
      assert s[..|s| - 1] == Digits(n / 10, w - 1);
    }
  }

  lemma {:induction false} ValueDigits(s: string)
    requires AllDigits(s)
    ensures DecimalValue(s) < Pow10(|s|) && Digits(DecimalValue(s), |s|) == s
  {
    if s != [] {
      var p := s[..|s| - 1];
      ValueDigits(p);
      var v := DecimalValue(s);
      assert v / 10 == DecimalValue(p) && v % 10 == s[|s| - 1] as int - '0' as int;
      assert s == p + [s[|s| - 1]];
    }
  }

  /** `String(n)` of a number with exactly `w` digits is its fixed-width form. */
  lemma {:induction false} DecimalIsDigits(n: nat, w: nat)
    requires 1 <= w && n < Pow10(w) && (w == 1 || Pow10(w - 1) <= n)
    ensures NatToDecimal(n) == Digits(n, w)
  {
    if w > 1 {
      DecimalIsDigits(n / 10, w - 1);
    }
  }

  /** Padding a one- or two-digit number gives its two-digit form. */
  lemma PaddedIsDigits(n: int)
    requires 0 <= n < 100
    ensures PadStart2(IntToDecimal(n)) == Digits(n, 2)
  {
    if n < 10 {
      DecimalIsDigits(n, 1);
    } else {
      DecimalIsDigits(n, 2);
    }
  }

  /** For a four-digit year the key is `YYYY-MM-DD`, every field at fixed width. */
  lemma KeyForm(x: Date)
    requires KeyDate(x)
    ensures KeyOf(x) == Digits(x.year, 4) + ("-" + (Digits(x.month, 2) + ("-" + Digits(x.day, 2))))
  {
    DecimalIsDigits(x.year, 4);
    PaddedIsDigits(x.month);
    PaddedIsDigits(x.day);
  }

  /** The key is ten characters long, dashes at positions 4 and 7 and digits elsewhere. */
  lemma KeyShape(x: Date)
    requires KeyDate(x)
    ensures |KeyOf(x)| == 10 && KeyOf(x)[4] == '-' && KeyOf(x)[7] == '-'
    ensures forall i :: 0 <= i < 10 && i != 4 && i != 7 ==> IsDigit(KeyOf(x)[i])
  {
    KeyForm(x);
    DigitsValue(x.year, 4);
    DigitsValue(x.month, 2);
    DigitsValue(x.day, 2);
  }

  /**
   * Reads a `YYYY-MM-DD` key back into a date, as `new Date(s)` does for the value of
   * a date input; anything else is an invalid date, here `None`.
   */
  function ParseKey(s: string): Option<Date>
  {
    if |s| == 10 && s[4] == '-' && s[7] == '-'
       && AllDigits(s[..4]) && AllDigits(s[5..7]) && AllDigits(s[8..])
    then
      var x := Date(DecimalValue(s[..4]), DecimalValue(s[5..7]), DecimalValue(s[8..]));
      if KeyDate(x) then Some(x) else None
    else None
  }

  /** Formatting and then parsing gives the date back. */
  lemma ParseKeyOf(x: Date)
    requires KeyDate(x)
    ensures ParseKey(KeyOf(x)) == Some(x)
  {
    KeyForm(x);
    JoinKey(Digits(x.year, 4), Digits(x.month, 2), Digits(x.day, 2));
    DigitsValue(x.year, 4);
    DigitsValue(x.month, 2);
    DigitsValue(x.day, 2);
  }

  /** Every key that parses is the key of the date it parses to. */
  lemma KeyOfParse(s: string)
    requires ParseKey(s).Some?
    ensures KeyDate(ParseKey(s).value) && KeyOf(ParseKey(s).value) == s
  {
    var x := ParseKey(s).value;
    var ys, ms, ds := s[..4], s[5..7], s[8..];
    assert x == Date(DecimalValue(ys), DecimalValue(ms), DecimalValue(ds));
    ValueDigits(ys);
    ValueDigits(ms);
    ValueDigits(ds);
    KeyForm(x);
    SplitKey(s);
  }

  /** The three fields of a joined key sit at their fixed positions. */
  lemma JoinKey(ys: string, ms: string, ds: string)
    requires |ys| == 4 && |ms| == 2 && |ds| == 2
    ensures var k := ys + ("-" + (ms + ("-" + ds)));
      |k| == 10 && k[4] == '-' && k[7] == '-' && k[..4] == ys && k[5..7] == ms && k[8..] == ds
  {
    var k := ys + ("-" + (ms + ("-" + ds)));
    assert k[..4] == ys;
    assert k[5..7] == ms;
    assert k[8..] == ds;
  }

  lemma SplitKey(s: string)
    requires |s| == 10 && s[4] == '-' && s[7] == '-'
    ensures s == s[..4] + ("-" + (s[5..7] + ("-" + s[8..])))
  {
    var t := s[..4] + ("-" + (s[5..7] + ("-" + s[8..])));
    assert |t| == 10;
    forall i | 0 <= i < 10 ensures s[i] == t[i] {
      if i < 4 {
      } else if i == 4 {
      } else if i < 7 {
      } else if i == 7 {
      } else {
      }
    }
  }

  /** Distinct dates have distinct keys. */
  lemma KeyOfInjective(a: Date, b: Date)
    requires KeyDate(a) && KeyDate(b)
    ensures KeyOf(a) == KeyOf(b) <==> a == b
  {
    ParseKeyOf(a);
    ParseKeyOf(b);
  }

  /** The calendar is anchored correctly: 1 January 2024 was a Monday (`getDay() == 1`). */
  lemma NewYear2024IsMonday()
    ensures Weekday(Date(2024, 1, 1)) == 1
  {
    DaysBeforeYearClosedForm(2024);
  }

  /** `fmtKey(2024, 4, 1)` pads month and day: `"2024-04-01"`. */
  lemma KeyExample()
    ensures KeyOf(Date(2024, 4, 1)) == "2024-04-01"
  {
    DecimalIsDigits(2024, 4);
  }

  // ---------------------------------------------------------------------------
  // JavaScript's relational operators on strings
  // ---------------------------------------------------------------------------

  /**
   * `a < b` on strings: the first differing character decides, and a proper prefix
   * comes first. (`a > b` is `StrLess(b, a)`, `a <= b` is `!StrLess(b, a)`.)
   */
  predicate StrLess(a: string, b: string)
    decreases |a|
  {
    |b| > 0 && (|a| == 0 || a[0] < b[0] || (a[0] == b[0] && StrLess(a[1..], b[1..])))
  }

  /** Behind a common-length prefix, the prefixes decide first. */
  lemma {:induction false} StrLessConcat(p1: string, p2: string, s1: string, s2: string)
    requires |p1| == |p2|
    ensures StrLess(p1 + s1, p2 + s2) <==> StrLess(p1, p2) || (p1 == p2 && StrLess(s1, s2))
    decreases |p1|
  {
    if |p1| > 0 {
      assert (p1 + s1)[1..] == p1[1..] + s1;
      assert (p2 + s2)[1..] == p2[1..] + s2;
      StrLessConcat(p1[1..], p2[1..], s1, s2);
      if p1[0] == p2[0] && p1[1..] == p2[1..] {
        assert p1 == p2;
      }
    } else {
      assert p1 + s1 == s1 && p2 + s2 == s2;
    }
  }

  /** On fixed-width digit strings the string order is the numeric order. */
  lemma {:induction false} StrLessDigits(n1: nat, n2: nat, w: nat)
    requires n1 < Pow10(w) && n2 < Pow10(w)
    ensures StrLess(Digits(n1, w), Digits(n2, w)) <==> n1 < n2
  {
    if w > 0 {
      StrLessDigits(n1 / 10, n2 / 10, w - 1);
      StrLessConcat(Digits(n1 / 10, w - 1), Digits(n2 / 10, w - 1),
                    [DigitChar(n1 % 10)], [DigitChar(n2 % 10)]);
      DigitsValue(n1 / 10, w - 1);
      DigitsValue(n2 / 10, w - 1);
      assert StrLess([DigitChar(n1 % 10)], [DigitChar(n2 % 10)]) <==> n1 % 10 < n2 % 10;
    }
  }

  /**
   * String order on keys agrees with date order: the horizon guards that compare
   * keys with `>` compare the dates themselves.
   */
  lemma KeyOrder(a: Date, b: Date)
    requires KeyDate(a) && KeyDate(b)
    ensures StrLess(KeyOf(a), KeyOf(b)) <==> DateLess(a, b)
  {
    KeyForm(a);
    KeyForm(b);
    var ya, yb := Digits(a.year, 4), Digits(b.year, 4);
    var ma, mb := Digits(a.month, 2), Digits(b.month, 2);
    var da, db := Digits(a.day, 2), Digits(b.day, 2);
    StrLessDigits(a.year, b.year, 4);
    StrLessDigits(a.month, b.month, 2);
    StrLessDigits(a.day, b.day, 2);
    DigitsValue(a.year, 4);
    DigitsValue(b.year, 4);
    DigitsValue(a.month, 2);
    DigitsValue(b.month, 2);
    StrLessConcat(ya, yb, "-" + (ma + ("-" + da)), "-" + (mb + ("-" + db)));
    StrLessConcat("-", "-", ma + ("-" + da), mb + ("-" + db));
    StrLessConcat(ma, mb, "-" + da, "-" + db);
    StrLessConcat("-", "-", da, db);
  }
}
