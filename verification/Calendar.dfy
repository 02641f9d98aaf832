/** Decimal texts, fixed-width and plain, and what their text order means. */
module Decimal {
  import opened Text

  function Pow10(w: nat): (p: nat)
    ensures p > 0
  {
    if w == 0 then 1 else 10 * Pow10(w - 1)
  }

  function Digit(d: nat): (c: char)
    requires d < 10
    ensures '0' <= c <= '9'
  {
    '0' + d as char
  }

  lemma DigitOrder(a: nat, b: nat)
    requires a < 10 && b < 10
    ensures Digit(a) < Digit(b) <==> a < b
    ensures Digit(a) == Digit(b) <==> a == b
  {
  }

  /** n in exactly w digits, padded with zeros: Go's %0w d. */
  function Digits(n: nat, w: nat): (s: string)
    ensures |s| == w
  {
    if w == 0 then "" else Digits(n / 10, w - 1) + [Digit(n % 10)]
  }

  /** The number of digits of n in plain decimal. */
  function Width(n: nat): (w: nat)
    ensures w > 0
  {
    if n < 10 then 1 else Width(n / 10) + 1
  }

  /** n in plain decimal: Go's %d. */
  function Dec(n: nat): string {
    Digits(n, Width(n))
  }

  lemma {:induction false} WidthBound(n: nat)
    ensures n < Pow10(Width(n))
  {
    if n >= 10 {
      WidthBound(n / 10);
    } else {
      assert Pow10(1) == 10 * Pow10(0);
    }
  }

  /** On fixed-width texts the text order is the order of the numbers. */
  lemma {:induction false} DigitsOrder(a: nat, b: nat, w: nat)
    requires a < Pow10(w) && b < Pow10(w)
    ensures Less(Digits(a, w), Digits(b, w)) <==> a < b
    ensures Digits(a, w) == Digits(b, w) <==> a == b
  {
    if w > 0 {
      var x, y := Digits(a / 10, w - 1), Digits(b / 10, w - 1);
      DigitsOrder(a / 10, b / 10, w - 1);
      DigitOrder(a % 10, b % 10);
      var c, d := [Digit(a % 10)], [Digit(b % 10)];
      assert (x + c)[..w - 1] == x && (y + d)[..w - 1] == y;
      assert (x + c)[w - 1] == c[0] && (y + d)[w - 1] == d[0];
      if x == y {
        LessCommonPrefix(x, c, d);
      } else {
        LessFixedWidth(x, c, y, d);
      }
    } else {
      assert Digits(a, w) == Digits(b, w) == "";
    }
  }

  /** The number a decimal text stands for. */
  function DecValue(s: string): int {
    if s == "" then 0 else 10 * DecValue(s[..|s| - 1]) + (s[|s| - 1] as int - '0' as int)
  }

  /** Fixed-width digits are read back as the number. */
  lemma {:induction false} DigitsValue(n: nat, w: nat)
    requires n < Pow10(w)
    ensures DecValue(Digits(n, w)) == n
  {
    if w > 0 {
      DigitsValue(n / 10, w - 1);
      assert Digits(n, w)[..w - 1] == Digits(n / 10, w - 1);
    }
  }

  /** Plain decimal is read back as the number, and has no leading zero. */
  lemma DecReadsBack(n: nat)
    ensures DecValue(Dec(n)) == n
    ensures Dec(n)[0] == '0' ==> n == 0 && Dec(n) == "0"
  {
    WidthBound(n);
    DigitsValue(n, Width(n));
    NoLeadingZero(n);
  }

  lemma {:induction false} NoLeadingZero(n: nat)
    ensures Dec(n)[0] == '0' ==> n == 0 && Dec(n) == "0"
  {
    if n >= 10 {
      NoLeadingZero(n / 10);
      assert Dec(n) == Dec(n / 10) + [Digit(n % 10)];
    } else {
      assert Digits(n / 10, 0) == "";
      assert Dec(n) == [Digit(n)];
    }
  }

  /** A leading fixed-width field decides the order, and on a tie the rest does. */
  lemma FieldOrder(a: nat, x: string, b: nat, y: string, w: nat)
    requires a < Pow10(w) && b < Pow10(w)
    ensures Less(Digits(a, w) + x, Digits(b, w) + y) <==> a < b || (a == b && Less(x, y))
  {
    DigitsOrder(a, b, w);
    if a == b {
      LessCommonPrefix(Digits(a, w), x, y);
    } else {
      LessFixedWidth(Digits(a, w), x, Digits(b, w), y);
    }
  }

  /** n without its last k digits. */
  function Cut(n: nat, k: nat): nat {
    if k == 0 then n else Cut(n / 10, k - 1)
  }

  /** Dropping the last k digits of a fixed-width text leaves the text of Cut. */
  lemma {:induction false} DigitsCut(n: nat, w: nat, k: nat)
    requires k <= w
    ensures Digits(n, w)[..w - k] == Digits(Cut(n, k), w - k)
    ensures forall i :: w - k <= i < w ==> '0' <= Digits(n, w)[i]
  {
    if k > 0 {
      DigitsCut(n / 10, w - 1, k - 1);
      var d := Digits(n / 10, w - 1);
      assert Digits(n, w) == d + [Digit(n % 10)];
      assert Digits(n, w)[..w - k] == d[..w - 1 - (k - 1)];
    } else {
      assert Digits(n, w)[..w] == Digits(n, w);
    }
  }

  lemma {:induction false} CutIsQuotient(n: nat, k: nat)
    ensures Cut(n, k) == n / Pow10(k)
  {
    if k > 0 {
      CutIsQuotient(n / 10, k - 1);
      DivTwice(n, Pow10(k - 1));
    }
  }

  lemma DivTwice(n: nat, p: nat)
    requires p > 0
    ensures n / 10 / p == n / (10 * p)
  {
    var q := n / 10 / p;
    var r := n - q * (10 * p);
    assert n == (n / 10) * 10 + n % 10;
    assert n / 10 == q * p + (n / 10) % p;
    assert q * (10 * p) == q * p * 10;
    assert r == ((n / 10) % p) * 10 + n % 10;
    QuotientUnique(n, 10 * p, q, r);
  }

  lemma QuotientUnique(n: nat, m: nat, q: nat, r: int)
    requires m > 0 && 0 <= r < m && n == q * m + r
    ensures n / m == q
  {
    var d := n / m - q;
    assert n == (n / m) * m + n % m;
    assert d * m == r - n % m;
    MultipleOutside(d, m);
  }

  lemma MultipleOutside(d: int, m: nat)
    ensures d >= 1 ==> d * m >= m
    ensures d <= -1 ==> d * m <= 0 - m
  {
  }

  lemma {:induction false} WidthCut(n: nat, k: nat)
    requires k < Width(n)
    ensures Width(Cut(n, k)) == Width(n) - k
  {
    if k > 0 {
      WidthCut(n / 10, k - 1);
    }
  }

  lemma {:induction false} WidthMonotone(a: nat, b: nat)
    requires a <= b
    ensures Width(a) <= Width(b)
  {
    if a >= 10 {
      WidthMonotone(a / 10, b / 10);
    }
  }
}

/** The Gregorian calendar, and the time stamp 20060102-150405 in UTC. */
module Calendar {
  import opened Text
  import opened Decimal

  datatype Civil = Civil(year: nat, month: nat, day: nat, hour: nat, minute: nat, second: nat)

  predicate LeapYear(y: nat) {
    y % 4 == 0 && (y % 100 != 0 || y % 400 == 0)
  }

  function DaysIn(y: nat, m: nat): nat {
    if m == 2 then (if LeapYear(y) then 29 else 28)
    else if m in {4, 6, 9, 11} then 30 else 31
  }

  predicate Valid(c: Civil) {
    && 1 <= c.month <= 12
    && 1 <= c.day <= DaysIn(c.year, c.month)
    && c.hour < 24 && c.minute < 60 && c.second < 60
  }

  /** The calendar reading one second later. */
  function NextSecond(c: Civil): Civil {
    if c.second < 59 then c.(second := c.second + 1)
    else if c.minute < 59 then c.(minute := c.minute + 1, second := 0)
    else if c.hour < 23 then c.(hour := c.hour + 1, minute := 0, second := 0)
    else if c.day < DaysIn(c.year, c.month) then Civil(c.year, c.month, c.day + 1, 0, 0, 0)
    else if c.month < 12 then Civil(c.year, c.month + 1, 1, 0, 0, 0)
    else Civil(c.year + 1, 1, 1, 0, 0, 0)
  }

  /** The reading at instant t, counted in seconds from the start of year 0. */
  function CivilAt(t: nat): (c: Civil)
    ensures Valid(c)
  {
    if t == 0 then Civil(0, 1, 1, 0, 0, 0) else NextSecond(CivilAt(t - 1))
  }

  predicate Earlier(a: Civil, b: Civil) {
    || a.year < b.year
    || (a.year == b.year && (
      || a.month < b.month
      || (a.month == b.month && (
        || a.day < b.day
        || (a.day == b.day && (
          || a.hour < b.hour
          || (a.hour == b.hour && (
            || a.minute < b.minute
            || (a.minute == b.minute && a.second < b.second)))))))))
  }

  lemma {:induction false} CivilIncreases(t: nat, u: nat)
    requires t < u
    ensures Earlier(CivilAt(t), CivilAt(u))
  {
    assert Earlier(CivilAt(u - 1), CivilAt(u));
    if t < u - 1 {
      CivilIncreases(t, u - 1);
    }
  }

  /** Chronological order of instants is lexicographic order of calendar readings. */
  lemma ChronologicalOrder(t: nat, u: nat)
    ensures t < u <==> Earlier(CivilAt(t), CivilAt(u))
  {
    if t < u {
      CivilIncreases(t, u);
    } else if u < t {
      CivilIncreases(u, t);
    }
  }

  // ---- the calendar reading is the instant --------------------------------

  /** Days from the start of year 0 to the start of year y: 365 each, and one more for
      every fourth year, but not for the hundredth, but for the four hundredth. */
  function DaysBeforeYear(y: nat): int {
    365 * y + (y + 3) / 4 - (y + 99) / 100 + (y + 399) / 400
  }

  /** Days from the start of the year to the start of month m; February takes what is
      left of the year. */
  function DaysBeforeMonth(y: nat, m: nat): int {
    var before := [0, 31, 59, 90, 120, 151, 181, 212, 243, 273, 304, 334];
    if 1 <= m <= 12 then before[m - 1] + (if m > 2 then DaysBeforeYear(y + 1) - DaysBeforeYear(y) - 365 else 0) else 0
  }

  /** The instant of a calendar reading, in seconds from the start of year 0. */
  function SecondsAt(c: Civil): int {
    ((DayNumber(c) * 24 + c.hour) * 60 + c.minute) * 60 + c.second
  }

  function DayNumber(c: Civil): int {
    DaysBeforeYear(c.year) + DaysBeforeMonth(c.year, c.month) + c.day - 1
  }

  lemma YearLength(y: nat)
    ensures DaysBeforeYear(y + 1) - DaysBeforeYear(y) == if LeapYear(y) then 366 else 365
  {
    FourthYear(y);
    HundredthYear(y);
    FourHundredthYear(y);
    CenturyIsFourth(y);
    assert DaysBeforeYear(y + 1) - DaysBeforeYear(y) ==
           365 + ((y + 4) / 4 - (y + 3) / 4) - ((y + 100) / 100 - (y + 99) / 100) + ((y + 400) / 400 - (y + 399) / 400);
  }

  lemma CenturyIsFourth(y: nat)
    ensures y % 100 == 0 ==> y % 4 == 0
    ensures y % 400 == 0 ==> y % 100 == 0
  {
    if y % 100 == 0 {
      FourDivides(25 * (y / 100));
      assert y == 4 * (25 * (y / 100));
    }
    if y % 400 == 0 {
      HundredDivides(4 * (y / 400));
      assert y == 100 * (4 * (y / 400));
    }
  }

  lemma FourDivides(k: int)
    ensures (4 * k) % 4 == 0
  {
  }

  lemma HundredDivides(k: int)
    ensures (100 * k) % 100 == 0
  {
  }

  lemma FourthYear(y: nat)
    ensures (y + 4) / 4 - (y + 3) / 4 == if y % 4 == 0 then 1 else 0
  {
  }

  lemma HundredthYear(y: nat)
    ensures (y + 100) / 100 - (y + 99) / 100 == if y % 100 == 0 then 1 else 0
  {
  }

  lemma FourHundredthYear(y: nat)
    ensures (y + 400) / 400 - (y + 399) / 400 == if y % 400 == 0 then 1 else 0
  {
  }

  lemma MonthLength(y: nat, m: nat)
    requires 1 <= m <= 12
    ensures m < 12 ==> DaysBeforeMonth(y, m + 1) == DaysBeforeMonth(y, m) + DaysIn(y, m)
    ensures m == 12 ==> DaysBeforeYear(y + 1) == DaysBeforeYear(y) + DaysBeforeMonth(y, m) + DaysIn(y, m)
  {
    YearLength(y);
  }

  lemma NextSecondIsNext(c: Civil)
    requires Valid(c)
    ensures SecondsAt(NextSecond(c)) == SecondsAt(c) + 1
  {
    if c.second == 59 && c.minute == 59 && c.hour == 23 {
      Midnight(c);
    } else {
      assert DayNumber(NextSecond(c)) == DayNumber(c);
    }
  }

  lemma Midnight(c: Civil)
    requires Valid(c) && c.second == 59 && c.minute == 59 && c.hour == 23
    ensures
      var n := NextSecond(c);
      DayNumber(n) == DayNumber(c) + 1 && n.hour == 0 && n.minute == 0 && n.second == 0
  {
    MonthLength(c.year, c.month);
  }

  /** The reading at instant t is the Gregorian date and time of t. */
  lemma {:induction false} CivilExact(t: nat)
    ensures SecondsAt(CivilAt(t)) == t
  {
    if t > 0 {
      CivilExact(t - 1);
      NextSecondIsNext(CivilAt(t - 1));
    }
  }

  function DateText(c: Civil): string {
    Digits(c.year, 4) + (Digits(c.month, 2) + (Digits(c.day, 2) + ("-" + TimeText(c))))
  }

  function TimeText(c: Civil): string {
    Digits(c.hour, 2) + (Digits(c.minute, 2) + (Digits(c.second, 2) + ""))
  }

  /** time.Format("20060102-150405") for years of at most four digits. */
  function Stamp(t: nat): (s: string)
    requires FourDigitYear(t)
    ensures |s| == 15
  {
    DateText(CivilAt(t))
  }

  predicate FourDigitYear(t: nat) {
    CivilAt(t).year < 10000
  }

  lemma SmallPowers()
    ensures Pow10(2) == 100 && Pow10(4) == 10000
  {
    assert Pow10(0) == 1 && Pow10(1) == 10 && Pow10(2) == 100 && Pow10(3) == 1000;
  }

  lemma DateTextOrder(a: Civil, b: Civil)
    requires Valid(a) && Valid(b) && a.year < 10000 && b.year < 10000
    ensures Less(DateText(a), DateText(b)) <==> Earlier(a, b)
  {
    SmallPowers();
    var second := (c: Civil) => Digits(c.second, 2) + "";
    var minute := (c: Civil) => Digits(c.minute, 2) + second(c);
    var day := (c: Civil) => Digits(c.day, 2) + ("-" + TimeText(c));
    var month := (c: Civil) => Digits(c.month, 2) + day(c);
    FieldOrder(a.year, month(a), b.year, month(b), 4);
    FieldOrder(a.month, day(a), b.month, day(b), 2);
    FieldOrder(a.day, "-" + TimeText(a), b.day, "-" + TimeText(b), 2);
    LessCommonPrefix("-", TimeText(a), TimeText(b));
    FieldOrder(a.hour, minute(a), b.hour, minute(b), 2);
    FieldOrder(a.minute, second(a), b.minute, second(b), 2);
    FieldOrder(a.second, "", b.second, "", 2);
    LessIrreflexive("");
  }

  /** The instant that a stamp's fields spell out. */
  function StampInstant(s: string): int
    requires |s| == 15 && forall i :: 0 <= i < 15 && i != 8 ==> '0' <= s[i] <= '9'
  {
    SecondsAt(Civil(Field(s, 0, 4), Field(s, 4, 6), Field(s, 6, 8), Field(s, 9, 11), Field(s, 11, 13), Field(s, 13, 15)))
  }

  function Field(s: string, lo: nat, hi: nat): nat
    requires lo <= hi <= |s| && forall i :: lo <= i < hi ==> '0' <= s[i] <= '9'
  {
    DecNonNegative(s[lo..hi]);
    DecValue(s[lo..hi])
  }

  lemma {:induction false} DecNonNegative(s: string)
    requires forall i :: 0 <= i < |s| ==> '0' <= s[i] <= '9'
    ensures DecValue(s) >= 0
  {
    if s != "" {
      DecNonNegative(s[..|s| - 1]);
    }
  }

  lemma {:induction false} DigitsAreDigits(n: nat, w: nat)
    ensures forall i :: 0 <= i < w ==> '0' <= Digits(n, w)[i] <= '9'
  {
    if w > 0 {
      DigitsAreDigits(n / 10, w - 1);
    }
  }

  lemma FieldsOfStamp(t: nat)
    requires FourDigitYear(t)
    ensures
      var s, c := Stamp(t), CivilAt(t);
      && s[0..4] == Digits(c.year, 4) && s[4..6] == Digits(c.month, 2) && s[6..8] == Digits(c.day, 2) && s[8] == '-'
      && s[9..11] == Digits(c.hour, 2) && s[11..13] == Digits(c.minute, 2) && s[13..15] == Digits(c.second, 2)
  {
  }

  lemma StampDigits(t: nat)
    requires FourDigitYear(t)
    ensures forall i :: 0 <= i < 15 && i != 8 ==> '0' <= Stamp(t)[i] <= '9'
  {
    var s, c := Stamp(t), CivilAt(t);
    FieldsOfStamp(t);
    DigitsAreDigits(c.year, 4);
    DigitsAreDigits(c.month, 2);
    DigitsAreDigits(c.day, 2);
    DigitsAreDigits(c.hour, 2);
    DigitsAreDigits(c.minute, 2);
    DigitsAreDigits(c.second, 2);
    forall i | 0 <= i < 15 && i != 8 ensures '0' <= s[i] <= '9' {
      assert i < 4 ==> s[i] == s[0..4][i];
      assert 4 <= i < 6 ==> s[i] == s[4..6][i - 4];
      assert 6 <= i < 8 ==> s[i] == s[6..8][i - 6];
      assert 9 <= i < 11 ==> s[i] == s[9..11][i - 9];
      assert 11 <= i < 13 ==> s[i] == s[11..13][i - 11];
      assert 13 <= i ==> s[i] == s[13..15][i - 13];
    }
  }

  /** A stamp spells out its instant: year, month, day, "-", hour, minute, second. */
  lemma StampReadsBack(t: nat)
    requires FourDigitYear(t)
    ensures forall i :: 0 <= i < 15 && i != 8 ==> '0' <= Stamp(t)[i] <= '9'
    ensures Stamp(t)[8] == '-' && StampInstant(Stamp(t)) == t
  {
    var c := CivilAt(t);
    StampDigits(t);
    FieldsOfStamp(t);
    SmallPowers();
    DigitsValue(c.year, 4);
    DigitsValue(c.month, 2);
    DigitsValue(c.day, 2);
    DigitsValue(c.hour, 2);
    DigitsValue(c.minute, 2);
    DigitsValue(c.second, 2);
    CivilExact(t);
  }

  /** The text order of time stamps is the order of the instants, to the second. */
  lemma StampOrder(t: nat, u: nat)
    requires FourDigitYear(t) && FourDigitYear(u)
    ensures Less(Stamp(t), Stamp(u)) <==> t < u
    ensures Stamp(t) == Stamp(u) <==> t == u
  {
    DateTextOrder(CivilAt(t), CivilAt(u));
    DateTextOrder(CivilAt(u), CivilAt(t));
    ChronologicalOrder(t, u);
    ChronologicalOrder(u, t);
    LessIrreflexive(Stamp(t));
  }
}
