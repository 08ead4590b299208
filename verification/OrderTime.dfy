/** Times as text. The projection orders refreshes by comparing formatted UTC times as strings;
    this is when that agrees with comparing the instants. */
module OrderTime {
  import opened Text

  // Instants count nanoseconds from 0000-01-01T00:00:00Z in the proleptic Gregorian calendar.

  const SECOND := 1_000_000_000
  const DAY := 86_400_000_000_000

  function Days(n: int): int
  {
    n * 86_400_000_000_000
  }

  datatype Civil = Civil(year: nat, month: nat, day: nat, hour: nat, minute: nat, second: nat, nano: nat)

  predicate Leap(year: nat)
  {
    year % 4 == 0 && (year % 100 != 0 || year % 400 == 0)
  }

  /** Days before the first of January. */
  function YearStart(year: nat): nat
  {
    365 * year + (year + 3) / 4 - (year + 99) / 100 + (year + 399) / 400
  }

  const MONTH_STARTS := [0, 31, 59, 90, 120, 151, 181, 212, 243, 273, 304, 334, 365]

  /** Days of the year before the month numbered `done + 1`. */
  function MonthStart(done: nat, leap: bool): nat
    requires done <= 12
  {
    MONTH_STARTS[done] + if leap && done >= 2 then 1 else 0
  }

  predicate Valid(c: Civil)
  {
    && 1 <= c.month <= 12
    && 1 <= c.day <= MonthStart(c.month, Leap(c.year)) - MonthStart(c.month - 1, Leap(c.year))
    && c.hour < 24 && c.minute < 60 && c.second < 60 && c.nano < SECOND
  }

  function DayNumber(c: Civil): nat
    requires Valid(c)
  {
    YearStart(c.year) + MonthStart(c.month - 1, Leap(c.year)) + c.day - 1
  }

  function SecondOfDay(c: Civil): nat
  {
    c.hour * 3600 + c.minute * 60 + c.second
  }

  function Instant(c: Civil): nat
    requires Valid(c)
  {
    Days(DayNumber(c)) + SecondOfDay(c) * 1_000_000_000 + c.nano
  }

  // ---------------------------------------------------------------------------
  // The calendar keeps order
  // ---------------------------------------------------------------------------

  // Rounding up steps exactly at the multiples.

  lemma FourthYears(year: nat)
    ensures (year + 4) / 4 == (year + 3) / 4 + if year % 4 == 0 then 1 else 0
  {
    var q, r := year / 4, year % 4;
    assert year == 4 * q + r;
    assert (year + 4) / 4 == q + 1;
    assert (year + 3) / 4 == if r == 0 then q else q + 1;
  }

  lemma Centuries(year: nat)
    ensures (year + 100) / 100 == (year + 99) / 100 + if year % 100 == 0 then 1 else 0
  {
    var q, r := year / 100, year % 100;
    assert year == 100 * q + r;
    assert (year + 100) / 100 == q + 1;
    assert (year + 99) / 100 == if r == 0 then q else q + 1;
  }

  lemma FourCenturies(year: nat)
    ensures (year + 400) / 400 == (year + 399) / 400 + if year % 400 == 0 then 1 else 0
  {
    var q, r := year / 400, year % 400;
    assert year == 400 * q + r;
    assert (year + 400) / 400 == q + 1;
    assert (year + 399) / 400 == if r == 0 then q else q + 1;
  }

  lemma CenturiesDivide(year: nat)
    ensures year % 100 == 0 ==> year % 4 == 0
    ensures year % 400 == 0 ==> year % 100 == 0
  {
    if year % 100 == 0 {
      assert year == 4 * (25 * (year / 100));
    }
    if year % 400 == 0 {
      assert year == 100 * (4 * (year / 400));
    }
  }

  lemma YearLength(year: nat)
    ensures YearStart(year + 1) == YearStart(year) + MonthStart(12, Leap(year))
  {
    FourthYears(year);
    Centuries(year);
    FourCenturies(year);
    CenturiesDivide(year);
  }

  lemma {:induction false} YearsAreOrdered(a: nat, b: nat)
    requires a < b
    ensures YearStart(a) + MonthStart(12, Leap(a)) <= YearStart(b)
    decreases b - a
  {
    YearLength(a);
    if a + 1 < b {
      YearsAreOrdered(a + 1, b);
    }
  }

  predicate DateLess(c: Civil, d: Civil)
  {
    c.year < d.year || (c.year == d.year && (c.month < d.month || (c.month == d.month && c.day < d.day)))
  }

  predicate SecondsLess(c: Civil, d: Civil)
  {
    DateLess(c, d) || (SameDate(c, d) && SecondOfDay(c) < SecondOfDay(d))
  }

  predicate SameDate(c: Civil, d: Civil)
  {
    c.year == d.year && c.month == d.month && c.day == d.day
  }

  predicate SameSeconds(c: Civil, d: Civil)
  {
    SameDate(c, d) && c.hour == d.hour && c.minute == d.minute && c.second == d.second
  }

  predicate CivilLess(c: Civil, d: Civil)
  {
    SecondsLess(c, d) || (SameSeconds(c, d) && c.nano < d.nano)
  }

  lemma DaysAreOrdered(c: Civil, d: Civil)
    requires Valid(c) && Valid(d) && DateLess(c, d)
    ensures DayNumber(c) < DayNumber(d)
  {
    if c.year < d.year {
      YearsAreOrdered(c.year, d.year);
      MonthsAreOrdered(c.month, 12, Leap(c.year));
    } else if c.month < d.month {
      MonthsAreOrdered(c.month, d.month - 1, Leap(c.year));
    }
  }

  lemma MonthsAreOrdered(a: nat, b: nat, leap: bool)
    requires a <= b <= 12
    ensures MonthStart(a, leap) <= MonthStart(b, leap)
  {
  }

  lemma InstantsAreOrdered(c: Civil, d: Civil)
    requires Valid(c) && Valid(d) && CivilLess(c, d)
    ensures Instant(c) < Instant(d)
  {
    if DateLess(c, d) {
      DaysAreOrdered(c, d);
    }
  }

  lemma EqualClocks(c: Civil, d: Civil)
    requires Valid(c) && Valid(d) && !CivilLess(c, d) && !CivilLess(d, c)
    ensures c == d
  {
    assert SameDate(c, d);
    assert SecondOfDay(c) == SecondOfDay(d);
    ClockDeterminesFields(c.hour, c.minute, c.second, d.hour, d.minute, d.second);
  }

  lemma ClockDeterminesFields(h: nat, m: nat, s: nat, h': nat, m': nat, s': nat)
    requires m < 60 && s < 60 && m' < 60 && s' < 60 && h * 3600 + m * 60 + s == h' * 3600 + m' * 60 + s'
    ensures h == h' && m == m' && s == s'
  {
    assert (h - h') * 3600 == (m' - m) * 60 + (s' - s);
    assert h == h';
    assert m == m';
  }

  /** Field by field order is the order of instants, so fields and instants determine each other. */
  lemma CivilOrderIsInstantOrder(c: Civil, d: Civil)
    requires Valid(c) && Valid(d)
    ensures CivilLess(c, d) <==> Instant(c) < Instant(d)
    ensures c == d <==> Instant(c) == Instant(d)
  {
    if CivilLess(c, d) {
      InstantsAreOrdered(c, d);
    } else if CivilLess(d, c) {
      InstantsAreOrdered(d, c);
    } else {
      EqualClocks(c, d);
    }
  }

  // ---------------------------------------------------------------------------
  // Every instant has fields
  // ---------------------------------------------------------------------------

  function YearOf(day: nat, from: nat): (year: nat)
    requires YearStart(from) <= day
    ensures YearStart(year) <= day < YearStart(year + 1)
    decreases day - YearStart(from)
  {
    YearLength(from);
    if day < YearStart(from + 1) then from else YearOf(day, from + 1)
  }

  function MonthOf(day: nat, leap: bool, from: nat): (month: nat)
    requires 1 <= from <= 12 && MonthStart(from - 1, leap) <= day < MonthStart(12, leap)
    ensures 1 <= month <= 12 && MonthStart(month - 1, leap) <= day < MonthStart(month, leap)
    decreases 12 - from
  {
    if day < MonthStart(from, leap) then from else MonthOf(day, leap, from + 1)
  }

  lemma ClockFields(second: nat)
    requires second < 86_400
    ensures second / 3600 < 24
    ensures second / 3600 * 3600 + second % 3600 / 60 * 60 + second % 60 == second
  {
  }

  /** The fields of midnight on a day. */
  function DateOf(day: nat): (c: Civil)
    ensures Valid(c) && DayNumber(c) == day
  {
    var year := YearOf(day, 0);
    YearLength(year);
    OnDay(year, day - YearStart(year))
  }

  function OnDay(year: nat, ofYear: nat): (c: Civil)
    requires ofYear < MonthStart(12, Leap(year))
    ensures Valid(c) && c.year == year && DayNumber(c) == YearStart(year) + ofYear
  {
    var month := MonthOf(ofYear, Leap(year), 1);
    Civil(year, month, ofYear - MonthStart(month - 1, Leap(year)) + 1, 0, 0, 0, 0)
  }

  lemma EveryInstantHasFields(instant: nat)
    ensures exists c :: Valid(c) && Instant(c) == instant
  {
    var day, rest := instant / 86_400_000_000_000, instant % 86_400_000_000_000;
    var c := AtClock(DateOf(day), rest / 1_000_000_000, rest % 1_000_000_000);
    assert Valid(c) && Instant(c) == instant;
  }

  /** The same day at another time of day. */
  function AtClock(date: Civil, second: nat, nano: nat): (c: Civil)
    requires Valid(date) && second < 86_400 && nano < SECOND
    ensures Valid(c) && DayNumber(c) == DayNumber(date) && SecondOfDay(c) == second && c.nano == nano
  {
    ClockFields(second);
    date.(hour := second / 3600, minute := second % 3600 / 60, second := second % 60, nano := nano)
  }

  /** The UTC fields of an instant. */
  ghost function CivilOf(instant: nat): (c: Civil)
    ensures Valid(c) && Instant(c) == instant
  {
    EveryInstantHasFields(instant);
    var c :| Valid(c) && Instant(c) == instant;
    c
  }

  lemma FieldsRoundTrip(c: Civil)
    requires Valid(c)
    ensures CivilOf(Instant(c)) == c
  {
    CivilOrderIsInstantOrder(c, CivilOf(Instant(c)));
  }

  // ---------------------------------------------------------------------------
  // Text
  // ---------------------------------------------------------------------------

  function DigitChar(n: nat): char
    requires n < 10
  {
    '0' + n as char
  }

  /** Decimal digits, zero-padded to at least `width`. */
  function Pad(n: nat, width: nat): string
    decreases n, width
  {
    if n < 10 && width <= 1 then [DigitChar(n)]
    else Pad(n / 10, if width == 0 then 0 else width - 1) + [DigitChar(n % 10)]
  }

  function Pow10(w: nat): nat
  {
    if w == 0 then 1 else 10 * Pow10(w - 1)
  }

  lemma {:induction false} PadOrder(a: nat, b: nat, width: nat, x: string, y: string)
    requires 1 <= width && a < Pow10(width) && b < Pow10(width)
    ensures Less(Pad(a, width) + x, Pad(b, width) + y) <==> a < b || (a == b && Less(x, y))
    decreases width
  {
    var p, q := [DigitChar(a % 10)] + x, [DigitChar(b % 10)] + y;
    assert p[1..] == x && q[1..] == y;
    if width == 1 {
      assert Pow10(1) == 10 * Pow10(0);
      assert Pad(a, 1) + x == p && Pad(b, 1) + y == q;
    } else {
      assert Pad(a, width) + x == Pad(a / 10, width - 1) + p;
      assert Pad(b, width) + y == Pad(b / 10, width - 1) + q;
      PadOrder(a / 10, b / 10, width - 1, p, q);
    }
  }

  lemma {:induction false} PadLength(n: nat, width: nat)
    requires 1 <= width && n < Pow10(width)
    ensures |Pad(n, width)| == width
    decreases width
  {
    if width > 1 {
      PadLength(n / 10, width - 1);
    }
  }

  lemma TwoDigits(a: nat, b: nat, c: char, x: string, y: string)
    requires a < 100 && b < 100
    ensures Less(Pad(a, 2) + ([c] + x), Pad(b, 2) + ([c] + y)) <==> a < b || (a == b && Less(x, y))
  {
    assert Pow10(2) == 10 * Pow10(1) && Pow10(1) == 10 * Pow10(0);
    PadOrder(a, b, 2, [c] + x, [c] + y);
    assert ([c] + x)[1..] == x && ([c] + y)[1..] == y;
  }

  lemma FourDigits(a: nat, b: nat, x: string, y: string)
    requires a <= 9999 && b <= 9999
    ensures Less(Pad(a, 4) + x, Pad(b, 4) + y) <==> a < b || (a == b && Less(x, y))
  {
    assert Pow10(4) == 10 * Pow10(3) && Pow10(3) == 10 * Pow10(2) && Pow10(2) == 10 * Pow10(1) &&
      Pow10(1) == 10 * Pow10(0);
    PadOrder(a, b, 4, x, y);
  }

  function Clock(c: Civil, tail: string): string
  {
    Pad(c.hour, 2) + (":" + (Pad(c.minute, 2) + (":" + (Pad(c.second, 2) + tail))))
  }

  /** `2006-01-02T15:04:05` followed by `tail`. */
  function Dated(c: Civil, tail: string): string
  {
    Pad(c.year, 4) + ("-" + (Pad(c.month, 2) + ("-" + (Pad(c.day, 2) + ("T" + Clock(c, tail))))))
  }

  lemma ClockOrder(c: Civil, d: Civil, x: string, y: string)
    requires Valid(c) && Valid(d)
    ensures Less(Clock(c, x), Clock(d, y)) <==>
              SecondOfDay(c) < SecondOfDay(d) || (SecondOfDay(c) == SecondOfDay(d) && Less(x, y))
  {
    assert Pow10(2) == 10 * Pow10(1) && Pow10(1) == 10 * Pow10(0);
    PadOrder(c.second, d.second, 2, x, y);
    TwoDigits(c.minute, d.minute, ':', Pad(c.second, 2) + x, Pad(d.second, 2) + y);
    TwoDigits(c.hour, d.hour, ':', Pad(c.minute, 2) + (":" + (Pad(c.second, 2) + x)),
      Pad(d.minute, 2) + (":" + (Pad(d.second, 2) + y)));
  }

  lemma DatedOrder(c: Civil, d: Civil, x: string, y: string)
    requires Valid(c) && Valid(d) && c.year <= 9999 && d.year <= 9999
    ensures Less(Dated(c, x), Dated(d, y)) <==> SecondsLess(c, d) || (SameSeconds(c, d) && Less(x, y))
  {
    ClockOrder(c, d, x, y);
    var p, q := Clock(c, x), Clock(d, y);
    TwoDigits(c.day, d.day, 'T', p, q);
    var p', q' := Pad(c.day, 2) + ("T" + p), Pad(d.day, 2) + ("T" + q);
    TwoDigits(c.month, d.month, '-', p', q');
    var p'', q'' := "-" + (Pad(c.month, 2) + ("-" + p')), "-" + (Pad(d.month, 2) + ("-" + q'));
    assert p''[1..] == Pad(c.month, 2) + ("-" + p') && q''[1..] == Pad(d.month, 2) + ("-" + q');
    FourDigits(c.year, d.year, p'', q'');
    assert SameDate(c, d) ==> (SameSeconds(c, d) <==> SecondOfDay(c) == SecondOfDay(d));
  }

  /** The nine-digit form sent to the script as `order_time`. */
  function OrderText(c: Civil): string
  {
    Dated(c, "." + (Pad(c.nano, 9) + "Z"))
  }

  lemma NanosHaveNineDigits()
    ensures Pow10(9) == SECOND
  {
    assert Pow10(3) == 10 * Pow10(2) && Pow10(2) == 10 * Pow10(1) && Pow10(1) == 10 * Pow10(0);
    assert Pow10(6) == 10 * Pow10(5) && Pow10(5) == 10 * Pow10(4) && Pow10(4) == 10 * Pow10(3);
    assert Pow10(9) == 10 * Pow10(8) && Pow10(8) == 10 * Pow10(7) && Pow10(7) == 10 * Pow10(6);
  }

  lemma NanosOrder(a: nat, b: nat)
    requires a < SECOND && b < SECOND
    ensures Less("." + (Pad(a, 9) + "Z"), "." + (Pad(b, 9) + "Z")) <==> a < b
  {
    NanosHaveNineDigits();
    PadOrder(a, b, 9, "Z", "Z");
    LessIrreflexive("Z");
    var x, y := "." + (Pad(a, 9) + "Z"), "." + (Pad(b, 9) + "Z");
    assert x[1..] == Pad(a, 9) + "Z" && y[1..] == Pad(b, 9) + "Z";
  }

  lemma OrderTextKeepsOrder(c: Civil, d: Civil)
    requires Valid(c) && Valid(d) && c.year <= 9999 && d.year <= 9999
    ensures Less(OrderText(c), OrderText(d)) <==> Instant(c) < Instant(d)
  {
    DatedOrder(c, d, "." + (Pad(c.nano, 9) + "Z"), "." + (Pad(d.nano, 9) + "Z"));
    NanosOrder(c.nano, d.nano);
    CivilOrderIsInstantOrder(c, d);
  }

  // ---------------------------------------------------------------------------
  // Event times
  // ---------------------------------------------------------------------------

  /** `occurred_at` as decoded: an instant and the zone it was written in. */
  datatype Stamp = Stamp(instant: int, offset: int)
  {
    function Local(): int { instant + offset }
  }

  /** Zone offsets have an hour below 24 and a minute below 60. */
  predicate OffsetOk(s: Stamp)
  {
    -DAY < s.offset < DAY
  }

  /** The envelope's check: not the zero time, and a year from 1 to 9999 in the stamp's own zone. */
  ghost predicate OwnYearOk(s: Stamp)
  {
    && OffsetOk(s)
    && s.instant != Days(YearStart(1))
    && s.Local() >= 0 && 1 <= CivilOf(s.Local()).year <= 9999
  }

  /** What JSON encoding of a UTC time demands (section 5.6 of RFC 3339): a four-digit year. */
  ghost predicate Encodable(s: Stamp)
  {
    s.instant >= 0 && CivilOf(s.instant).year <= 9999
  }

  /** An event gets to the projection only past both. */
  ghost predicate Reaches(s: Stamp)
  {
    OwnYearOk(s) && Encodable(s)
  }

  lemma YearByDay(instant: nat, year: nat)
    ensures instant < Days(YearStart(year)) <==> CivilOf(instant).year < year
  {
    var c := CivilOf(instant);
    DayWithinYears(c, year);
    DayHoldsInstant(c);
  }

  lemma DayHoldsInstant(c: Civil)
    requires Valid(c)
    ensures Days(DayNumber(c)) <= Instant(c) < Days(DayNumber(c) + 1)
  {
    assert SecondOfDay(c) <= 86_399;
  }

  lemma DayWithinYears(c: Civil, year: nat)
    requires Valid(c)
    ensures DayNumber(c) < YearStart(year) <==> c.year < year
  {
    if c.year < year {
      YearsAreOrdered(c.year, year);
      MonthsAreOrdered(c.month, 12, Leap(c.year));
    } else if year < c.year {
      YearsAreOrdered(year, c.year);
    }
  }

  /** The own-zone check leaves exactly one thing open: the UTC year 10000. */
  lemma OwnYearBoundsUtcYear(s: Stamp)
    requires OwnYearOk(s)
    ensures s.instant >= 0 && CivilOf(s.instant).year <= 10000
  {
    ShiftedYears(s, 1, 9999, CivilOf(s.Local()).year);
  }

  /** Moving by less than a day moves the year by at most one. */
  lemma ShiftedYears(s: Stamp, low: nat, high: nat, year: nat)
    requires OffsetOk(s) && s.Local() >= 0 && CivilOf(s.Local()).year == year && 1 <= low <= year <= high
    ensures s.instant >= 0 && CivilOf(s.instant).year <= high + 1
  {
    YearByDay(s.Local(), low);
    YearByDay(s.Local(), high + 1);
    YearsAreOrdered(0, low);
    YearsAreOrdered(high + 1, high + 2);
    YearByDay(s.instant, high + 2);
  }

  ghost function OrderTimeOf(s: Stamp): string
    requires s.instant >= 0
  {
    OrderText(CivilOf(s.instant))
  }

  /** For events that reach the projection, the script's string comparison is comparison of instants. */
  lemma OrderTimeAgrees(a: Stamp, b: Stamp)
    requires Reaches(a) && Reaches(b)
    ensures Less(OrderTimeOf(a), OrderTimeOf(b)) <==> a.instant < b.instant
    ensures OrderTimeOf(a) == OrderTimeOf(b) <==> a.instant == b.instant
  {
    OrderTextKeepsOrder(CivilOf(a.instant), CivilOf(b.instant));
    OrderTextKeepsOrder(CivilOf(b.instant), CivilOf(a.instant));
    LessIrreflexive(OrderTimeOf(a));
  }

  lemma FiveDigitYearSortsLow(c: Civil, d: Civil)
    requires Valid(c) && c.year == 10000 && d.year == 9999
    ensures Less(OrderText(c), OrderText(d))
  {
    assert Pad(10000, 4) == Pad(1000, 3) + "0" == Pad(100, 2) + "0" + "0" == Pad(10, 1) + "0" + "0" + "0" ==
      "1" + "0" + "0" + "0" + "0";
    assert OrderText(c)[0] == '1';
    assert Pad(9999, 4) == Pad(999, 3) + "9" == Pad(99, 2) + "9" + "9" == Pad(9, 1) + "9" + "9" + "9";
    assert OrderText(d)[0] == '9';
  }

  ghost predicate OrdersWell(a: Stamp)
    requires a.instant >= 0
  {
    forall b :: Reaches(b) ==> (Less(OrderTimeOf(a), OrderTimeOf(b)) <==> a.instant < b.instant)
  }

  /** The envelope check alone is not enough: a stamp that passes it sorts correctly against the
      events that reach the projection exactly when its UTC time has an encodable year. */
  lemma OrdersWellExactlyWhenEncodable(a: Stamp)
    requires OwnYearOk(a)
    ensures a.instant >= 0 && (OrdersWell(a) <==> Encodable(a))
  {
    OwnYearBoundsUtcYear(a);
    if Encodable(a) {
      forall b | Reaches(b) ensures Less(OrderTimeOf(a), OrderTimeOf(b)) <==> a.instant < b.instant {
        OrderTimeAgrees(a, b);
      }
    } else {
      LastYearSortsHigh(a, CivilOf(a.instant));
    }
  }

  lemma PlainUtcReaches(c: Civil)
    requires Valid(c) && 2 <= c.year <= 9999
    ensures Reaches(Stamp(Instant(c), 0))
  {
    FieldsRoundTrip(c);
    YearByDay(Instant(c), 2);
    YearsAreOrdered(1, 2);
  }

  lemma FirstOfYear(year: nat) returns (c: Civil)
    ensures Valid(c) && c.year == year
  {
    c := Civil(year, 1, 1, 0, 0, 0, 0);
  }

  lemma LastYearSortsHigh(a: Stamp, utc: Civil)
    requires a.instant >= 0 && CivilOf(a.instant) == utc && utc.year == 10000
    ensures !OrdersWell(a)
  {
    var last := FirstOfYear(9999);
    var b := Stamp(Instant(last), 0);
    PlainUtcReaches(last);
    assert OrderTimeOf(b) == OrderText(last) by {
      FieldsRoundTrip(last);
    }
    assert Less(OrderTimeOf(a), OrderTimeOf(b)) by {
      FiveDigitYearSortsLow(utc, last);
    }
    assert a.instant >= b.instant by {
      InstantsAreOrdered(last, utc);
    }
  }

  /** Half past midnight on 10000-01-01 UTC, written an hour behind. */
  lemma OwnYearDoesNotBoundUtcYear()
    ensures exists s :: OwnYearOk(s) && !Encodable(s)
  {
    var utc := Civil(10000, 1, 1, 0, 30, 0, 0);
    var own := Civil(9999, 12, 31, 23, 30, 0, 0);
    YearLength(9999);
    assert DayNumber(utc) == DayNumber(own) + 1;
    assert SecondOfDay(own) == 84_600 && SecondOfDay(utc) == 1_800;
    OneHourApart(utc, own);
  }

  lemma OneHourApart(utc: Civil, own: Civil)
    requires Valid(utc) && Valid(own) && Instant(utc) == Instant(own) + 3_600_000_000_000
    requires utc.year == 10000 && own.year == 9999
    ensures exists s :: OwnYearOk(s) && !Encodable(s)
  {
    var s := Stamp(Instant(utc), -3_600_000_000_000);
    FieldsRoundTrip(utc);
    FieldsRoundTrip(own);
    YearByDay(Instant(utc), 10000);
    YearsAreOrdered(1, 10000);
    assert s.Local() == Instant(own);
    assert OwnYearOk(s) && !Encodable(s);
  }

  // ---------------------------------------------------------------------------
  // The JSON form: fractions without trailing zeros
  // ---------------------------------------------------------------------------

  function Trimmed(digits: string): string
  {
    if digits != "" && digits[|digits| - 1] == '0' then Trimmed(digits[..|digits| - 1]) else digits
  }

  function Fraction(nano: nat): string
  {
    if nano == 0 then "" else "." + Trimmed(Pad(nano, 9))
  }

  function JsonText(c: Civil): string
  {
    Dated(c, Fraction(c.nano) + "Z")
  }

  lemma {:induction false} TrimmingLosesNothing(a: string, b: string)
    requires |a| == |b| && Trimmed(a) == Trimmed(b)
    ensures a == b
  {
    if a != "" {
      TrimmedIsShorter(a[..|a| - 1]);
      TrimmedIsShorter(b[..|b| - 1]);
      assert a == a[..|a| - 1] + [a[|a| - 1]] && b == b[..|b| - 1] + [b[|b| - 1]];
      if a[|a| - 1] == '0' && b[|b| - 1] == '0' {
        TrimmingLosesNothing(a[..|a| - 1], b[..|b| - 1]);
      }
    }
  }

  lemma {:induction false} TrimmedIsShorter(a: string)
    ensures |Trimmed(a)| <= |a|
    decreases |a|
  {
    if a != "" && a[|a| - 1] == '0' {
      TrimmedIsShorter(a[..|a| - 1]);
    }
  }

  lemma PaddedNanosDiffer(a: nat, b: nat)
    requires a < SECOND && b < SECOND && Pad(a, 9) == Pad(b, 9)
    ensures a == b
  {
    NanosOrder(a, b);
    NanosOrder(b, a);
    LessIrreflexive("." + (Pad(a, 9) + "Z"));
  }

  lemma FractionsDiffer(c: Civil, d: Civil)
    requires Valid(c) && Valid(d)
    requires Fraction(c.nano) + "Z" == Fraction(d.nano) + "Z"
    ensures c.nano == d.nano
  {
    var x, y := Fraction(c.nano), Fraction(d.nano);
    assert x == (x + "Z")[..|x|] && y == (y + "Z")[..|y|];
    if c.nano != 0 && d.nano != 0 {
      assert x[1..] == y[1..];
      NanosHaveNineDigits();
      PadLength(c.nano, 9);
      PadLength(d.nano, 9);
      TrimmingLosesNothing(Pad(c.nano, 9), Pad(d.nano, 9));
      PaddedNanosDiffer(c.nano, d.nano);
    }
  }

  /** Encoded times are equal exactly when the instants are. */
  lemma JsonTextIsExact(c: Civil, d: Civil)
    requires Valid(c) && Valid(d) && c.year <= 9999 && d.year <= 9999
    ensures JsonText(c) == JsonText(d) <==> Instant(c) == Instant(d)
  {
    CivilOrderIsInstantOrder(c, d);
    if JsonText(c) == JsonText(d) {
      var x, y := Fraction(c.nano) + "Z", Fraction(d.nano) + "Z";
      DatedOrder(c, d, x, y);
      DatedOrder(d, c, y, x);
      LessIrreflexive(JsonText(c));
      LessTotal(x, y);
      FractionsDiffer(c, d);
    }
  }
}
