/** Instants, and the UTC timestamp printer of the dedup key (RFC 3339 with
    nanoseconds, trailing zeros of the fraction trimmed). */
module Calendar {
  import opened Text

  /** Nanoseconds since 0001-01-01T00:00:00Z, so that 0 is Go's zero time. */
  type Instant = int

  const SECOND: int := 1_000_000_000
  const DAY: int := 86400 * SECOND
  /** Days in one Gregorian cycle of 400 years. */
  const CYCLE: int := 146097

  predicate IsZero(t: Instant) {
    t == 0
  }

  // ---------- Gregorian calendar ----------

  predicate IsLeap(y: int) {
    y % 4 == 0 && (y % 100 != 0 || y % 400 == 0)
  }

  /** Days from the start of year 0 to the start of year y. */
  function YearStart(y: nat): nat {
    if y == 0 then 0 else YearStart(y - 1) + if IsLeap(y - 1) then 366 else 365
  }

  lemma {:induction false} YearStartClosed(y: nat)
    ensures YearStart(y) == 365 * y + (y + 3) / 4 - (y + 99) / 100 + (y + 399) / 400
  {
    if y > 0 {
      YearStartClosed(y - 1);
      LeapStep(y - 1);
    }
  }

  lemma LeapStep(x: nat)
    ensures (x + 4) / 4 - (x + 100) / 100 + (x + 400) / 400
            == (x + 3) / 4 - (x + 99) / 100 + (x + 399) / 400 + if IsLeap(x) then 1 else 0
  {
    DivStep(x, 4);
    DivStep(x, 100);
    DivStep(x, 400);
    Multiples(x);
  }

  lemma Multiples(x: nat)
    ensures x % 400 == 0 ==> x % 100 == 0
    ensures x % 100 == 0 ==> x % 4 == 0
  {
    if x % 400 == 0 {
      QuotientIs(x, 100, 4 * (x / 400), 0);
    }
    if x % 100 == 0 {
      QuotientIs(x, 4, 25 * (x / 100), 0);
    }
  }

  lemma DivStep(x: nat, k: nat)
    requires k > 1
    ensures (x + k) / k - (x + k - 1) / k == if x % k == 0 then 1 else 0
  {
    var q, r := x / k, x % k;
    assert x == k * q + r;
    QuotientIs(x + k, k, q + 1, r);
    if r == 0 {
      QuotientIs(x + k - 1, k, q, k - 1);
    } else {
      QuotientIs(x + k - 1, k, q + 1, r - 1);
    }
  }

  lemma QuotientIs(x: int, k: nat, q: int, r: nat)
    requires k > 0 && x == k * q + r && r < k
    ensures x / k == q && x % k == r
  {
    var q', r' := x / k, x % k;
    assert x == k * q' + r';
    SmallMultiple(k, q' - q);
  }

  lemma SmallMultiple(k: nat, e: int)
    ensures e > 0 ==> k * e >= k
    ensures e < 0 ==> k * e <= -(k as int)
  {
    if e > 0 {
      assert k * (e - 1) >= 0;
    } else if e < 0 {
      assert k * (-e - 1) >= 0;
    }
  }

  /** The year containing day d (counted from the start of year 0), searching from y. */
  function YearFrom(d: nat, y: nat): (r: nat)
    requires YearStart(y) <= d
    ensures y <= r && YearStart(r) <= d < YearStart(r + 1)
    decreases d - YearStart(y)
  {
    if d < YearStart(y + 1) then y else YearFrom(d, y + 1)
  }

  function MonthStart(m: nat, leap: bool): nat
    requires m <= 12
  {
    var l := if leap then 1 else 0;
    [0, 31, 59 + l, 90 + l, 120 + l, 151 + l, 181 + l, 212 + l, 243 + l, 273 + l, 304 + l, 334 + l, 365 + l][m]
  }

  /** The zero-based month containing day d of a year, searching from m. */
  function MonthFrom(d: nat, leap: bool, m: nat): (r: nat)
    requires m < 12 && MonthStart(m, leap) <= d < MonthStart(12, leap)
    ensures m <= r < 12 && MonthStart(r, leap) <= d < MonthStart(r + 1, leap)
    decreases 12 - m
  {
    if d < MonthStart(m + 1, leap) then m else MonthFrom(d, leap, m + 1)
  }

  lemma MonthIsShort(m: nat, leap: bool)
    requires m < 12
    ensures MonthStart(m + 1, leap) - MonthStart(m, leap) <= 31
  {
  }

  datatype Date = Date(year: int, month: nat, day: nat)

  /** The Gregorian date of a day number (day 0 is 0001-01-01). */
  function DateOf(days: int): (d: Date)
    ensures 1 <= d.month <= 12 && 1 <= d.day <= 31
  {
    var n := days + 366;
    var inCycle := n % CYCLE;
    var y := YearFrom(inCycle, 0);
    var leap := IsLeap(y);
    var inYear := inCycle - YearStart(y);
    var m := MonthFrom(inYear, leap, 0);
    MonthIsShort(m, leap);
    Date(400 * (n / CYCLE) + y, m + 1, inYear - MonthStart(m, leap) + 1)
  }

  function DayNumber(d: Date): int
    requires 1 <= d.month <= 12
  {
    CYCLE * (d.year / 400) + YearStart(d.year % 400)
    + MonthStart(d.month - 1, IsLeap(d.year % 400)) + d.day - 1 - 366
  }

  lemma DateRoundTrip(days: int)
    ensures DayNumber(DateOf(days)) == days
  {
    var n := days + 366;
    var y := YearFrom(n % CYCLE, 0);
    YearStartClosed(400);
    assert y < 400 by {
      if y >= 400 {
        YearStartMonotone(400, y);
      }
    }
    assert (400 * (n / CYCLE) + y) / 400 == n / CYCLE;
    assert (400 * (n / CYCLE) + y) % 400 == y;
  }

  lemma {:induction false} YearStartMonotone(a: nat, b: nat)
    requires a <= b
    ensures YearStart(a) <= YearStart(b)
    decreases b - a
  {
    if a < b {
      YearStartMonotone(a, b - 1);
    }
  }

  // ---------- printing ----------

  /** Years are zero padded to four digits; longer and negative years keep their digits and sign. */
  function YearText(y: int): string {
    var a := if y < 0 then -y else y;
    (if y < 0 then ['-'] else []) + if a < 10000 then Pad(a, 4) else NatDec(a)
  }

  function FractionText(ns: nat): string {
    if ns == 0 then [] else ['.'] + TrimZeros(Pad(ns, 9))
  }

  function DateText(d: Date): string {
    YearText(d.year) + ['-'] + Pad(d.month, 2) + ['-'] + Pad(d.day, 2)
  }

  /** Seconds of the day, and nanoseconds of the second. */
  function ClockText(sec: nat, ns: nat): string {
    Pad(sec / 3600, 2) + [':'] + Pad(sec / 60 % 60, 2) + [':'] + Pad(sec % 60, 2) + FractionText(ns) + ['Z']
  }

  function UtcText(t: Instant): string {
    DateText(DateOf(t / DAY)) + ['T'] + ClockText(t % DAY / SECOND, t % SECOND)
  }

  // ---------- reading back ----------

  /** The year, month and day fields, counted from the right; text without them reads as a day before the first. */
  function ParseDate(s: string): (d: Date)
    ensures 1 <= d.month <= 12
  {
    var n := |s|;
    if n < 6 then Date(1, 1, 0) else
      var month := ParseDigits(s[n - 5..n - 3]);
      var day := ParseDigits(s[n - 2..]);
      if 1 <= month <= 12 && 0 <= day then Date(ParseDec(s[..n - 6]), month, day) else Date(1, 1, 0)
  }

  function ParseClock(s: string): Instant {
    if |s| < 9 then 0 else
      var fraction := s[8..|s| - 1];
      var ns := if fraction == [] then 0 else ParseDigits(ZeroFill(fraction[1..], 9));
      SECOND * (3600 * ParseDigits(s[..2]) + 60 * ParseDigits(s[3..5]) + ParseDigits(s[6..8])) + ns
  }

  function ParseUtc(s: string): Instant {
    DAY * DayNumber(ParseDate(Before(s, 'T'))) + ParseClock(After(s, 'T'))
  }

  lemma YearDigits(a: nat)
    ensures var digits := if a < 10000 then Pad(a, 4) else NatDec(a);
            AllDigits(digits) && digits != [] && ParseDigits(digits) == a
  {
    NatDecRoundTrip(a);
    if a < 10000 {
      assert Pow10(4) == 10000 by { assert Pow10(3) == 1000; }
      PadRoundTrip(a, 4);
    }
  }

  lemma YearRoundTrip(y: int)
    ensures ParseDec(YearText(y)) == y
  {
    var a := if y < 0 then -y else y;
    YearDigits(a);
    var digits := if a < 10000 then Pad(a, 4) else NatDec(a);
    assert YearText(y) == if y < 0 then ['-'] + digits else digits;
    assert y < 0 ==> YearText(y)[1..] == digits;
    assert '0' <= digits[0] <= '9';
  }

  lemma YearPlain(y: int, c: char)
    requires c != '-' && !('0' <= c <= '9')
    ensures c !in YearText(y)
  {
    YearDigits(if y < 0 then -y else y);
  }

  lemma TwoDigits(n: nat)
    requires n < 100
    ensures |Pad(n, 2)| == 2 && AllDigits(Pad(n, 2)) && ParseDigits(Pad(n, 2)) == n
  {
    assert Pow10(2) == 100 by { assert Pow10(1) == 10; }
    PadRoundTrip(n, 2);
  }

  lemma DateTextRoundTrip(d: Date)
    requires 1 <= d.month <= 12 && 0 <= d.day <= 31
    ensures ParseDate(DateText(d)) == d
  {
    YearRoundTrip(d.year);
    TwoDigits(d.month);
    TwoDigits(d.day);
    DateSlices(YearText(d.year), Pad(d.month, 2), Pad(d.day, 2));
  }

  lemma DateSlices(y: string, m: string, d: string)
    requires |m| == |d| == 2
    ensures var s := y + ['-'] + m + ['-'] + d;
            var n := |s|;
            n >= 6 && s[..n - 6] == y && s[n - 5..n - 3] == m && s[n - 2..] == d
  {
  }

  lemma DateTextPlain(d: Date, c: char)
    requires 1 <= d.month <= 12 && 0 <= d.day <= 31
    requires c != '-' && !('0' <= c <= '9')
    ensures c !in DateText(d)
  {
    YearPlain(d.year, c);
    TwoDigits(d.month);
    TwoDigits(d.day);
  }

  lemma FractionRoundTrip(ns: nat)
    requires ns < SECOND
    ensures ns > 0 ==> |FractionText(ns)| >= 1 && ParseDigits(ZeroFill(FractionText(ns)[1..], 9)) == ns
    ensures '|' !in FractionText(ns)
  {
    assert Pow10(9) == SECOND by {
      assert Pow10(3) == 1000;
      assert Pow10(6) == 1000000;
    }
    PadRoundTrip(ns, 9);
    TrimThenFill(Pad(ns, 9));
    if ns > 0 {
      assert FractionText(ns)[1..] == TrimZeros(Pad(ns, 9));
    }
  }

  lemma ClockFields(sec: nat)
    requires sec < 86400
    ensures sec / 3600 < 24 && sec / 60 % 60 < 60 && sec % 60 < 60
    ensures 3600 * (sec / 3600) + 60 * (sec / 60 % 60) + sec % 60 == sec
  {
    var h, r := sec / 3600, sec % 3600;
    var m := r / 60;
    QuotientIs(sec, 60, 60 * h + m, r % 60);
    QuotientIs(60 * h + m, 60, h, m);
  }

  lemma ClockTextRoundTrip(sec: nat, ns: nat)
    requires sec < 86400 && ns < SECOND
    ensures ParseClock(ClockText(sec, ns)) == SECOND * sec + ns
    ensures '|' !in ClockText(sec, ns)
  {
    ClockFields(sec);
    FractionRoundTrip(ns);
    var h, m, x, f := sec / 3600, sec / 60 % 60, sec % 60, FractionText(ns);
    ParseFields(h, m, x, f);
    assert f == [] <==> ns == 0;
  }

  lemma ParseFields(h: nat, m: nat, x: nat, f: string)
    requires h < 100 && m < 100 && x < 100
    ensures var s := Pad(h, 2) + [':'] + Pad(m, 2) + [':'] + Pad(x, 2) + f + ['Z'];
            ParseClock(s) == SECOND * (3600 * h + 60 * m + x) + (if f == [] then 0 else ParseDigits(ZeroFill(f[1..], 9)))
            && ('|' in s ==> '|' in f)
  {
    TwoDigits(h);
    TwoDigits(m);
    TwoDigits(x);
    var a, b, c := Pad(h, 2), Pad(m, 2), Pad(x, 2);
    FieldSlices(a, b, c, f);
  }

  lemma FieldSlices(a: string, b: string, c: string, f: string)
    requires |a| == |b| == |c| == 2
    requires AllDigits(a) && AllDigits(b) && AllDigits(c)
    ensures var s := a + [':'] + b + [':'] + c + f + ['Z'];
            |s| == 9 + |f| && s[..2] == a && s[3..5] == b && s[6..8] == c && s[8..|s| - 1] == f
            && ('|' in s ==> '|' in f)
  {
    var head := a + [':'] + b + [':'] + c;
    assert |head| == 8 && '|' !in head;
  }

  lemma SplitOfDay(t: Instant)
    ensures 0 <= t % DAY / SECOND < 86400
    ensures t == DAY * (t / DAY) + SECOND * (t % DAY / SECOND) + t % SECOND
  {
    var q, r := t / DAY, t % DAY;
    QuotientIs(t, SECOND, 86400 * q + r / SECOND, r % SECOND);
  }

  /** The printed timestamp determines the instant, for every instant, and never contains the separator. */
  lemma UtcRoundTrip(t: Instant)
    ensures ParseUtc(UtcText(t)) == t
    ensures '|' !in UtcText(t)
  {
    var d := DateOf(t / DAY);
    var sec, ns := t % DAY / SECOND, t % SECOND;
    DateTextRoundTrip(d);
    DateTextPlain(d, 'T');
    DateTextPlain(d, '|');
    ClockTextRoundTrip(sec, ns);
    SplitFirst(DateText(d), 'T', ClockText(sec, ns));
    DateRoundTrip(t / DAY);
    SplitOfDay(t);
  }
}
