/**
 Days to civil dates and back, and the timestamps of the build script (`zellij-utils/build.rs`): the
 proleptic Gregorian calendar of RFC 3339, and the order its strings have.
 */
module Calendar {
  import opened Results
  import opened Text

  datatype Date = Date(y: int, m: int, d: int)

  // ---- the calendar, from its own rules ----

  predicate IsLeap(y: int) {
    y % 4 == 0 && (y % 100 != 0 || y % 400 == 0)
  }

  function MonthLength(y: int, m: int): int {
    if m == 2 then (if IsLeap(y) then 29 else 28)
    else if m in {4, 6, 9, 11} then 30
    else 31
  }

  predicate IsDate(t: Date) {
    1 <= t.m <= 12 && 1 <= t.d <= MonthLength(t.y, t.m)
  }

  function NextDay(t: Date): Date {
    if t.d < MonthLength(t.y, t.m) then t.(d := t.d + 1)
    else if t.m < 12 then Date(t.y, t.m + 1, 1)
    else Date(t.y + 1, 1, 1)
  }

  predicate Earlier(a: Date, b: Date) {
    a.y < b.y || (a.y == b.y && (a.m < b.m || (a.m == b.m && a.d < b.d)))
  }

  /** Days from 1970-01-01 to the first of January of `y`: 365 a year, and the leap days between. */
  function YearStart(y: int): int {
    365 * (y - 1970) + (y - 1) / 4 - (y - 1) / 100 + (y - 1) / 400 - 477
  }

  function MonthStart(y: int, m: int): int
    requires 1 <= m <= 12
    decreases m
  {
    if m == 1 then 0 else MonthStart(y, m - 1) + MonthLength(y, m - 1)
  }

  function DayNumber(t: Date): int
    requires IsDate(t)
  {
    YearStart(t.y) + MonthStart(t.y, t.m) + t.d - 1
  }

  lemma YearLength(y: int)
    ensures YearStart(y + 1) == YearStart(y) + (if IsLeap(y) then 366 else 365)
  {
    Multiples(y);
    assert y / 4 - (y - 1) / 4 == if y % 4 == 0 then 1 else 0;
    assert y / 100 - (y - 1) / 100 == if y % 100 == 0 then 1 else 0;
    assert y / 400 - (y - 1) / 400 == if y % 400 == 0 then 1 else 0;
  }

  lemma Multiples(y: int)
    ensures y % 400 == 0 ==> y % 100 == 0
    ensures y % 100 == 0 ==> y % 4 == 0
  {
    if y % 400 == 0 {
      ModHundred(0, 4 * (y / 400));
    }
    if y % 100 == 0 {
      ModFour(0, 25 * (y / 100));
    }
  }

  lemma MonthStarts(y: int)
    ensures var leap := if IsLeap(y) then 1 else 0;
            && MonthStart(y, 1) == 0 && MonthStart(y, 2) == 31 && MonthStart(y, 3) == 59 + leap
            && MonthStart(y, 4) == 90 + leap && MonthStart(y, 5) == 120 + leap && MonthStart(y, 6) == 151 + leap
            && MonthStart(y, 7) == 181 + leap && MonthStart(y, 8) == 212 + leap && MonthStart(y, 9) == 243 + leap
            && MonthStart(y, 10) == 273 + leap && MonthStart(y, 11) == 304 + leap && MonthStart(y, 12) == 334 + leap
  {
    var six := MonthStart(y, 6);
    assert six == MonthStart(y, 5) + 31;
    var nine := MonthStart(y, 9);
    assert nine == MonthStart(y, 8) + 31 == MonthStart(y, 7) + 62;
    assert MonthStart(y, 12) == MonthStart(y, 11) + 30 == MonthStart(y, 10) + 61;
  }

  /** The day number counts days: it is 0 on 1970-01-01 and grows by one from each day to the next. */
  lemma DayNumberCountsDays(t: Date)
    requires IsDate(t)
    ensures IsDate(NextDay(t)) && DayNumber(NextDay(t)) == DayNumber(t) + 1
    ensures DayNumber(Date(1970, 1, 1)) == 0
  {
    YearLength(t.y);
    MonthStarts(t.y);
    MonthStarts(t.y + 1);
    MonthStarts(1970);
  }

  // ---- the conversion ----

  /** Rust's `n / 146_097` on `i64`: it rounds toward zero. */
  function WholeEras(n: int): int {
    if n >= 0 then n / 146097 else -((-n) / 146097)
  }

  /** The year of an era of 400 years that a day of it falls in, years beginning in March. */
  function YearOfEra(doe: int): int {
    (doe - doe / 1460 + doe / 36524 - doe / 146096) / 365
  }

  function DayOfYear(doe: int): int {
    var yoe := YearOfEra(doe);
    doe - (365 * yoe + yoe / 4 - yoe / 100)
  }

  /** `civil_from_days`. */
  function CivilFromDays(days: int): Date {
    var z := days + 719468;
    CivilOfEra(Era(z), DayOfEra(z))
  }

  function DayOfEra(z: int): int {
    z - Era(z) * 146097
  }

  function CivilOfEra(era: int, doe: int): Date {
    DateIn(YearOfEra(doe) + era * 400, DayOfYear(doe))
  }

  function Era(z: int): int {
    WholeEras(if z >= 0 then z else z - 146096)
  }

  /** The last lines of the conversion: month and day of a year that begins in March. */
  function DateIn(y: int, doy: int): Date {
    var mp := (5 * doy + 2) / 153;
    var d := doy - (153 * mp + 2) / 5 + 1;
    var m := if mp < 10 then mp + 3 else mp - 9;
    Date(if m <= 2 then y + 1 else y, m, d)
  }

  /** The day of an era that a day of one of its years is. */
  function DayIn(yoe: int, doy: int): int {
    365 * yoe + yoe / 4 - yoe / 100 + doy
  }

  /** The era of a day and the day of the era, for days before the epoch as well. */
  lemma EraIsFloor(z: int)
    ensures 0 <= DayOfEra(z) <= 146096 && z == Era(z) * 146097 + DayOfEra(z)
  {
    if z < 0 {
      var n := 146096 - z;
      assert n == (n / 146097) * 146097 + n % 146097;
    }
  }

  /** A day of an era by centuries, four-year cycles, years and days: the shape the correction terms undo. */
  lemma YearOfEraIs(c: int, a: int, b: int)
    requires 0 <= c <= 3 && 0 <= a <= 24 && 0 <= b <= 1460
    requires a == 24 && b == 1460 ==> c == 3
    ensures var doe, k := 36524 * c + 1461 * a + b, if b == 1460 then 3 else b / 365;
            YearOfEra(doe) == 100 * c + 4 * a + k && DayOfYear(doe) == b - 365 * k
  {
    var doe := 36524 * c + 1461 * a + b;
    var k := if b == 1460 then 3 else b / 365;
    var q := doe / 1460;
    assert q == 25 * c + a + (24 * c + a + b) / 1460;
    if a == 24 && b == 1460 {
      assert doe == 146096;
    } else {
      assert 1461 * a + b < 36524;
      assert doe / 36524 == c;
      assert doe / 146096 == 0;
      var delta := (24 * c + a + b) / 1460;
      assert delta == 0 || delta == 1;
      assert doe - q + c == 365 * (100 * c + 4 * a) + (b - delta);
      assert (b - delta) / 365 == k;
    }
    var yoe := 100 * c + 4 * a + k;
    assert YearOfEra(doe) == yoe;
    assert 4 * a + k < 100;
    assert yoe / 100 == c && yoe / 4 == 25 * c + a;
  }

  /** Every day of an era has such a shape. */
  lemma ShapeOfEra(doe: int) returns (c: int, a: int, b: int)
    requires 0 <= doe <= 146096
    ensures 0 <= c <= 3 && 0 <= a <= 24 && 0 <= b <= 1460
    ensures a == 24 && b == 1460 ==> c == 3
    ensures doe == 36524 * c + 1461 * a + b
  {
    c := if doe == 146096 then 3 else doe / 36524;
    var r := doe - 36524 * c;
    a, b := r / 1461, r % 1461;
  }

  /** The day of a year beginning in March: the first month after `mp` whole ones. */
  lemma MonthOfYear(doy: int)
    requires 0 <= doy <= 365
    ensures var mp := (5 * doy + 2) / 153;
            0 <= mp <= 11 && 0 <= doy - (153 * mp + 2) / 5 < MarchMonth(mp)
    ensures doy - (153 * ((5 * doy + 2) / 153) + 2) / 5 == 28 ==> (5 * doy + 2) / 153 != 11 || doy == 365
  {
    var mp := (5 * doy + 2) / 153;
    assert mp == 0 || mp == 1 || mp == 2 || mp == 3 || mp == 4 || mp == 5
           || mp == 6 || mp == 7 || mp == 8 || mp == 9 || mp == 10 || mp == 11;
  }

  /** Month lengths from March on, February last with its leap day. */
  function MarchMonth(mp: int): int {
    if mp == 11 then 29 else if mp in {1, 3, 6, 8} then 30 else 31
  }

  /** A year of the era has its leap day at its end exactly when the calendar's next year is a leap year. */
  lemma LeapDayAtTheEnd(c: int, a: int)
    requires 0 <= c <= 3 && 0 <= a <= 24 && (a == 24 ==> c == 3)
    ensures IsLeap(100 * c + 4 * a + 4)
  {
    var y := 100 * c + 4 * a + 4;
    assert y == 4 * (25 * c + a + 1);
    if a < 24 {
      assert y % 100 == 4 * (a + 1);
    }
  }

  lemma ModFour(y: int, n: int)
    ensures (y + 4 * n) % 4 == y % 4
  {}

  lemma ModHundred(y: int, n: int)
    ensures (y + 100 * n) % 100 == y % 100
  {}

  lemma ModFourHundred(y: int, n: int)
    ensures (y + 400 * n) % 400 == y % 400
  {}

  lemma LeapYearsRepeat(y: int, era: int)
    ensures IsLeap(y + 400 * era) == IsLeap(y)
  {
    ModFour(y, 100 * era);
    ModHundred(y, 4 * era);
    ModFourHundred(y, era);
  }

  /** The first of January after the year of an era that begins in March. */
  lemma YearStartOfEra(yoe: int, era: int)
    requires 0 <= yoe < 400
    ensures YearStart(yoe + era * 400 + 1) == 146097 * era + DayIn(yoe, 306) - 719468
  {
    var y := yoe + era * 400;
    assert y / 4 == yoe / 4 + 100 * era;
    assert y / 100 == yoe / 100 + 4 * era;
    assert y / 400 == era;
  }

  lemma YearAndDayOfEra(doe: int) returns (yoe: int, doy: int)
    requires 0 <= doe <= 146096
    ensures yoe == YearOfEra(doe) && doy == DayOfYear(doe)
    ensures 0 <= yoe < 400 && 0 <= doy <= 365 && (doy == 365 ==> IsLeap(yoe + 1))
    ensures doe == DayIn(yoe, doy)
  {
    var c, a, b := ShapeOfEra(doe);
    YearOfEraIs(c, a, b);
    yoe, doy := YearOfEra(doe), DayOfYear(doe);
    if b == 1460 {
      LeapDayAtTheEnd(c, a);
      assert 100 * c + 4 * a + 4 == yoe + 1;
    }
  }

  lemma CivilOfEraIs(era: int, doe: int)
    requires 0 <= doe <= 146096
    ensures IsDate(CivilOfEra(era, doe)) && DayNumber(CivilOfEra(era, doe)) == 146097 * era + doe - 719468
  {
    var yoe, doy := YearAndDayOfEra(doe);
    DateOfYear(era, yoe, doy);
  }

  /** The conversion yields a valid date whose day number is the one it was given, for every integer. */
  lemma CivilIsTheInverse(days: int)
    ensures IsDate(CivilFromDays(days)) && DayNumber(CivilFromDays(days)) == days
  {
    var z := days + 719468;
    EraIsFloor(z);
    CivilOfEraIs(Era(z), DayOfEra(z));
  }

  /** Where the months of a year beginning in March start, counted from January of its first or second year. */
  lemma MarchMonthStarts(y: int, mp: int)
    requires 0 <= mp <= 11
    ensures mp < 10 ==> MonthStart(y, mp + 3) == 59 + (if IsLeap(y) then 1 else 0) + (153 * mp + 2) / 5
    ensures mp >= 10 ==> MonthStart(y + 1, mp - 9) == (153 * mp + 2) / 5 - 306
    ensures mp < 10 ==> MonthLength(y, mp + 3) == MarchMonth(mp)
    ensures mp == 10 ==> MonthLength(y + 1, 1) == MarchMonth(mp)
  {
    if mp < 10 {
      MonthStarts(y);
    } else {
      MonthStarts(y + 1);
    }
    assert mp == 0 || mp == 1 || mp == 2 || mp == 3 || mp == 4 || mp == 5
           || mp == 6 || mp == 7 || mp == 8 || mp == 9 || mp == 10 || mp == 11;
  }

  /** The date of a day of a year that begins in March, against the January that follows. */
  lemma DateInMarchYear(y: int, doy: int)
    requires 0 <= doy <= 365 && (doy == 365 ==> IsLeap(y + 1))
    ensures IsDate(DateIn(y, doy)) && DayNumber(DateIn(y, doy)) == YearStart(y + 1) - 306 + doy
  {
    MonthOfYear(doy);
    var mp := (5 * doy + 2) / 153;
    MarchMonthStarts(y, mp);
    if mp < 10 {
      YearLength(y);
    }
  }

  lemma DateOfYear(era: int, yoe: int, doy: int)
    requires 0 <= yoe < 400 && 0 <= doy <= 365 && (doy == 365 ==> IsLeap(yoe + 1))
    ensures var t := DateIn(yoe + era * 400, doy);
            IsDate(t) && DayNumber(t) == 146097 * era + DayIn(yoe, doy) - 719468
  {
    LeapYearsRepeat(yoe + 1, era);
    YearStartOfEra(yoe, era);
    assert yoe + era * 400 + 1 == yoe + 1 + 400 * era;
    DateInMarchYear(yoe + era * 400, doy);
  }

  // ---- one date per day ----

  lemma {:induction false} YearsGrow(a: int, b: int)
    requires a < b
    ensures YearStart(a + 1) <= YearStart(b)
    decreases b - a
  {
    if a + 1 < b {
      YearLength(a + 1);
      YearsGrow(a + 1, b);
    }
  }

  lemma WithinYear(t: Date)
    requires IsDate(t)
    ensures YearStart(t.y) <= DayNumber(t) < YearStart(t.y + 1)
  {
    MonthStarts(t.y);
    YearLength(t.y);
  }

  lemma WithinMonth(y: int, m: int, n: int)
    requires 1 <= m < n <= 12
    ensures MonthStart(y, m) + MonthLength(y, m) <= MonthStart(y, n)
  {
    MonthStarts(y);
  }

  /** Earlier dates have smaller day numbers, so no two dates share one. */
  lemma EarlierDatesCountLess(a: Date, b: Date)
    requires IsDate(a) && IsDate(b)
    ensures Earlier(a, b) <==> DayNumber(a) < DayNumber(b)
    ensures a == b <==> DayNumber(a) == DayNumber(b)
  {
    EarlierCountsLess(a, b);
    EarlierCountsLess(b, a);
  }

  lemma EarlierCountsLess(a: Date, b: Date)
    requires IsDate(a) && IsDate(b)
    ensures Earlier(a, b) ==> DayNumber(a) < DayNumber(b)
  {
    WithinYear(a);
    WithinYear(b);
    if a.y < b.y {
      YearsGrow(a.y, b.y);
    } else if a.y == b.y && a.m < b.m {
      WithinMonth(a.y, a.m, b.m);
    }
  }

  /** Consecutive day numbers convert to consecutive dates, and later ones to later dates. */
  lemma DaysFollowDays(days: int, later: int)
    ensures CivilFromDays(days + 1) == NextDay(CivilFromDays(days))
    ensures days < later <==> Earlier(CivilFromDays(days), CivilFromDays(later))
  {
    CivilIsTheInverse(days);
    CivilIsTheInverse(days + 1);
    CivilIsTheInverse(later);
    DayNumberCountsDays(CivilFromDays(days));
    EarlierDatesCountLess(CivilFromDays(days + 1), NextDay(CivilFromDays(days)));
    EarlierDatesCountLess(CivilFromDays(days), CivilFromDays(later));
  }

  /** The conversion and the day count are inverses of each other. */
  lemma DateIsRecovered(t: Date)
    requires IsDate(t)
    ensures CivilFromDays(DayNumber(t)) == t
  {
    CivilIsTheInverse(DayNumber(t));
    EarlierDatesCountLess(CivilFromDays(DayNumber(t)), t);
  }

  // ---- timestamps ----

  /** `{:0w}`: decimal, with zeros in front up to `w` digits. */
  function Padded(n: nat, w: nat): string {
    Zeros(if |Decimal(n)| < w then w - |Decimal(n)| else 0) + Decimal(n)
  }

  function Zeros(n: nat): (r: string)
    ensures |r| == n
  {
    if n == 0 then "" else "0" + Zeros(n - 1)
  }

  /** The date and time of a number of seconds after the epoch, as `rfc3339_now` prints it. */
  function Rfc3339(secs: nat): string {
    var (days, rem) := (secs / 86400, secs % 86400);
    Stamp(CivilFromDays(days), rem)
  }

  function Stamp(t: Date, rem: nat): string {
    DateAndTime(Natural(t.y), Natural(t.m), Natural(t.d), rem / 3600, rem % 3600 / 60, rem % 60)
  }

  function Natural(n: int): nat {
    if n < 0 then 0 else n
  }

  function DateAndTime(y: nat, m: nat, d: nat, h: nat, mi: nat, s: nat): string {
    Padded(y, 4) + "-" + Padded(m, 2) + "-" + Padded(d, 2) + "T" + Padded(h, 2) + ":" + Padded(mi, 2) + ":"
    + Padded(s, 2) + "Z"
  }

  function Pow10(w: nat): (r: nat)
    ensures r > 0
  {
    if w == 0 then 1 else 10 * Pow10(w - 1)
  }

  /** Exactly `w` decimal digits. */
  function Digits(n: nat, w: nat): (r: string)
    ensures |r| == w
  {
    if w == 0 then "" else Digits(n / 10, w - 1) + [Digit(n % 10)]
  }

  lemma {:induction false} DecimalIsDigits(n: nat, w: nat)
    requires n < Pow10(w) && w > 0
    ensures |Decimal(n)| <= w && Digits(n, w) == Zeros(w - |Decimal(n)|) + Decimal(n)
  {
    if n < 10 {
      if w == 1 {
        assert Digits(n / 10, 0) == "";
      } else {
        assert Pow10(1) == 10 && n / 10 == 0;
        ZeroDigits(w - 1);
        assert Zeros(w - 1) + Decimal(n) == Digits(n, w);
      }
    } else {
      assert w > 1 by {
        assert Pow10(1) == 10 * Pow10(0);
      }
      DecimalIsDigits(n / 10, w - 1);
      assert Zeros(w - |Decimal(n)|) + Decimal(n)
          == Zeros(w - 1 - |Decimal(n / 10)|) + Decimal(n / 10) + [Digit(n % 10)];
    }
  }

  lemma {:induction false} ZeroDigits(w: nat)
    ensures Digits(0, w) == Zeros(w)
  {
    if w == 0 {
    } else {
      ZeroDigits(w - 1);
      ZerosEnd(w - 1);
    }
  }

  lemma {:induction false} ZerosEnd(n: nat)
    ensures Zeros(n) + "0" == "0" + Zeros(n)
  {
    if n == 0 {
    } else {
      ZerosEnd(n - 1);
      assert "0" + Zeros(n - 1) + "0" == "0" + (Zeros(n - 1) + "0");
    }
  }

  lemma PaddedIsDigits(n: nat, w: nat)
    requires w > 0 && n < Pow10(w)
    ensures Padded(n, w) == Digits(n, w)
  {
    DecimalIsDigits(n, w);
  }

  /** Comparing strings whose first parts have the same length: the first parts decide, then the rest. */
  lemma {:induction false} PartsDecide(a: string, b: string, u: string, v: string)
    requires |a| == |b|
    ensures Before(a + u, b + v) <==> Before(a, b) || (a == b && Before(u, v))
    decreases |a|
  {
    if a == "" {
      assert a + u == u && b + v == v;
    } else {
      PartsDecide(a[1..], b[1..], u, v);
      assert (a + u)[1..] == a[1..] + u && (b + v)[1..] == b[1..] + v;
      assert a == [a[0]] + a[1..] && b == [b[0]] + b[1..];
    }
  }

  /** Digit strings of one length sort as their numbers. */
  lemma {:induction false} DigitsSortAsNumbers(a: nat, b: nat, w: nat)
    requires a < Pow10(w) && b < Pow10(w)
    ensures Before(Digits(a, w), Digits(b, w)) <==> a < b
    ensures Digits(a, w) == Digits(b, w) <==> a == b
  {
    if w > 0 {
      DigitsSortAsNumbers(a / 10, b / 10, w - 1);
      PartsDecide(Digits(a / 10, w - 1), Digits(b / 10, w - 1), [Digit(a % 10)], [Digit(b % 10)]);
      var x, y := [Digit(a % 10)], [Digit(b % 10)];
      assert Before(x, y) <==> a % 10 < b % 10;
      assert Digits(a, w)[..w - 1] == Digits(a / 10, w - 1) && Digits(a, w)[w - 1] == x[0];
      assert Digits(b, w)[..w - 1] == Digits(b / 10, w - 1) && Digits(b, w)[w - 1] == y[0];
    } else {
      BeforeIsIrreflexive("");
    }
  }

  /** The number of digits of a number bounds it. */
  lemma {:induction false} DecimalBounds(n: nat)
    ensures n < Pow10(|Decimal(n)|)
  {
    if n < 10 {
      assert Pow10(1) == 10 * Pow10(0);
    } else {
      DecimalBounds(n / 10);
      assert n / 10 + 1 <= Pow10(|Decimal(n / 10)|);
      assert n < 10 * (n / 10 + 1);
    }
  }

  lemma PaddedYear(n: nat)
    ensures n < Pow10(|Padded(n, 4)|) && Padded(n, 4) == Digits(n, |Padded(n, 4)|)
    ensures n <= 9999 <==> |Padded(n, 4)| == 4
    ensures |Padded(n, 4)| >= 4
  {
    DecimalBounds(n);
    assert Pow10(4) == 10 * Pow10(3) && Pow10(3) == 10 * Pow10(2) && Pow10(2) == 10 * Pow10(1) && Pow10(1) == 10;
    if |Decimal(n)| <= 4 {
      PowGrows(|Decimal(n)|, 4);
      DecimalIsDigits(n, 4);
    } else {
      DecimalIsDigits(n, |Decimal(n)|);
      if n <= 9999 {
        DecimalIsDigits(n, 4);
      }
    }
  }

  lemma {:induction false} PowGrows(a: nat, b: nat)
    requires a <= b
    ensures Pow10(a) <= Pow10(b)
    decreases b - a
  {
    if a < b {
      PowGrows(a, b - 1);
    }
  }

  /** A number of fixed width, a separator, and the rest. */
  lemma FieldDecides(a: nat, b: nat, w: nat, sep: string, u: string, v: string)
    requires a < Pow10(w) && b < Pow10(w)
    ensures Before(Digits(a, w) + (sep + u), Digits(b, w) + (sep + v)) <==> a < b || (a == b && Before(u, v))
  {
    DigitsSortAsNumbers(a, b, w);
    PartsDecide(Digits(a, w), Digits(b, w), sep + u, sep + v);
    PartsDecide(sep, sep, u, v);
    BeforeIsIrreflexive(sep);
  }

  predicate IsTime(h: nat, mi: nat, s: nat) {
    h < 24 && mi < 60 && s < 60
  }

  function TimeText(h: nat, mi: nat, s: nat): string {
    Digits(h, 2) + (":" + (Digits(mi, 2) + (":" + (Digits(s, 2) + ("Z" + "")))))
  }

  function DayText(m: nat, d: nat, time: string): string {
    Digits(m, 2) + ("-" + (Digits(d, 2) + ("T" + time)))
  }

  lemma TwoDigits(n: nat)
    requires n < 100
    ensures n < Pow10(2) && Padded(n, 2) == Digits(n, 2)
  {
    assert Pow10(2) == 10 * Pow10(1) && Pow10(1) == 10;
    PaddedIsDigits(n, 2);
  }

  /** The printed parts, nested so that each field stands before the rest. */
  lemma PartsOfText(y: nat, m: nat, d: nat, h: nat, mi: nat, s: nat)
    requires m < 100 && d < 100 && IsTime(h, mi, s)
    ensures DateAndTime(y, m, d, h, mi, s) == Padded(y, 4) + ("-" + DayText(m, d, TimeText(h, mi, s)))
  {
    TwoDigits(m);
    TwoDigits(d);
    TwoDigits(h);
    TwoDigits(mi);
    TwoDigits(s);
    NestedText(Padded(y, 4), Digits(m, 2), Digits(d, 2), Digits(h, 2), Digits(mi, 2), Digits(s, 2));
  }

  lemma NestedText(y: string, m: string, d: string, h: string, mi: string, s: string)
    ensures y + "-" + m + "-" + d + "T" + h + ":" + mi + ":" + s + "Z"
            == y + ("-" + (m + ("-" + (d + ("T" + (h + (":" + (mi + (":" + (s + ("Z" + "")))))))))))
  {
    var time := h + (":" + (mi + (":" + (s + ("Z" + "")))));
    Nested(h, ":", mi, ":", s + "Z");
    var day := d + ("T" + time);
    Nested(y, "-", m, "-", day);
    assert y + "-" + m + "-" + d + "T" + h + ":" + mi + ":" + s + "Z" == y + "-" + m + "-" + day;
  }

  lemma Nested(a: string, b: string, c: string, d: string, e: string)
    ensures a + b + c + d + e == a + (b + (c + (d + e)))
  {}

  lemma TimesSort(h: nat, mi: nat, s: nat, h': nat, mi': nat, s': nat)
    requires IsTime(h, mi, s) && IsTime(h', mi', s')
    ensures Before(TimeText(h, mi, s), TimeText(h', mi', s')) <==> 3600 * h + 60 * mi + s < 3600 * h' + 60 * mi' + s'
  {
    TwoDigits(h);
    TwoDigits(mi);
    TwoDigits(s);
    TwoDigits(h');
    TwoDigits(mi');
    TwoDigits(s');
    var u, v := Digits(s, 2) + ("Z" + ""), Digits(s', 2) + ("Z" + "");
    FieldDecides(s, s', 2, "Z", "", "");
    FieldDecides(mi, mi', 2, ":", u, v);
    FieldDecides(h, h', 2, ":", Digits(mi, 2) + (":" + u), Digits(mi', 2) + (":" + v));
  }

  lemma DaysSort(m: nat, d: nat, m': nat, d': nat, u: string, v: string)
    requires m < 100 && d < 100 && m' < 100 && d' < 100
    ensures Before(DayText(m, d, u), DayText(m', d', v))
            <==> m < m' || (m == m' && (d < d' || (d == d' && Before(u, v))))
  {
    TwoDigits(m);
    TwoDigits(d);
    TwoDigits(m');
    TwoDigits(d');
    FieldDecides(d, d', 2, "T", u, v);
    FieldDecides(m, m', 2, "-", Digits(d, 2) + ("T" + u), Digits(d', 2) + ("T" + v));
  }

  function YearOf(secs: nat): nat {
    Natural(CivilFromDays(secs / 86400).y)
  }

  lemma StampParts(t: Date, rem: nat) returns (h: nat, mi: nat, s: nat)
    requires IsDate(t) && t.y >= 1970 && rem < 86400
    ensures IsTime(h, mi, s) && rem == 3600 * h + 60 * mi + s
    ensures Stamp(t, rem) == Padded(Natural(t.y), 4) + ("-" + DayText(t.m, t.d, TimeText(h, mi, s)))
  {
    h, mi, s := rem / 3600, rem % 3600 / 60, rem % 60;
    assert rem % 3600 == rem - 3600 * h;
    assert rem % 60 == rem % 3600 % 60;
    PartsOfText(t.y, t.m, t.d, h, mi, s);
  }

  /** The parts of a timestamp: a date from 1970 on and a time of day that together give the seconds. */
  lemma TimestampParts(secs: nat) returns (t: Date, h: nat, mi: nat, s: nat)
    ensures t == CivilFromDays(secs / 86400) && IsDate(t) && t.y >= 1970 && IsTime(h, mi, s)
    ensures secs == 86400 * (secs / 86400) + 3600 * h + 60 * mi + s
    ensures Rfc3339(secs) == Padded(YearOf(secs), 4) + ("-" + DayText(t.m, t.d, TimeText(h, mi, s)))
  {
    FromTheEpoch(secs / 86400);
    t := CivilFromDays(secs / 86400);
    h, mi, s := StampParts(t, secs % 86400);
  }

  lemma FromTheEpoch(days: nat)
    ensures IsDate(CivilFromDays(days)) && CivilFromDays(days).y >= 1970
  {
    CivilIsTheInverse(days);
    WithinYear(CivilFromDays(days));
    if CivilFromDays(days).y < 1970 {
      YearsGrow(CivilFromDays(days).y, 1970);
    }
  }

  // ---- reading a timestamp ----

  datatype Reading = Reading(date: Date, h: int, mi: int, s: int)

  /** The fields of a text of the form `YYYY-MM-DDThh:mm:ssZ`, the year having at least four digits. */
  function ReadTimestamp(text: string): Option<Reading> {
    var n := |text| - 16;
    if && n >= 4
       && text[n] == '-' && text[n + 3] == '-' && text[n + 6] == 'T'
       && text[n + 9] == ':' && text[n + 12] == ':' && text[n + 15] == 'Z'
    then
      ReadFields(text[..n], text[n + 1..n + 3], text[n + 4..n + 6],
                 text[n + 7..n + 9], text[n + 10..n + 12], text[n + 13..n + 15])
    else None
  }

  function ReadFields(y: string, m: string, d: string, h: string, mi: string, s: string): Option<Reading> {
    if AllDigits(y) && AllDigits(m) && AllDigits(d) && AllDigits(h) && AllDigits(mi) && AllDigits(s) then
      Some(Reading(Date(ReadDecimal(y), ReadDecimal(m), ReadDecimal(d)), ReadDecimal(h), ReadDecimal(mi), ReadDecimal(s)))
    else None
  }

  lemma {:induction false} ZerosDoNotCount(k: nat, s: string)
    requires AllDigits(s)
    ensures AllDigits(Zeros(k) + s) && ReadDecimal(Zeros(k) + s) == ReadDecimal(s)
  {
    ZerosAreDigits(k);
    var all := Zeros(k) + s;
    if s == "" {
      assert all == Zeros(k);
    } else {
      var init := s[..|s| - 1];
      ZerosDoNotCount(k, init);
      assert all[..|all| - 1] == Zeros(k) + init;
    }
  }

  lemma {:induction false} ZerosAreDigits(k: nat)
    ensures AllDigits(Zeros(k)) && ReadDecimal(Zeros(k)) == 0
    decreases k
  {
    if k == 0 {
    } else {
      ZerosAreDigits(k - 1);
      ZerosEnd(k - 1);
      assert Zeros(k)[..k - 1] == Zeros(k - 1);
    }
  }

  lemma PaddedIsReadBack(n: nat, w: nat)
    ensures AllDigits(Padded(n, w)) && ReadDecimal(Padded(n, w)) == n && |Padded(n, w)| >= w
  {
    DecimalIsReadBack(n);
    ZerosDoNotCount(if |Decimal(n)| < w then w - |Decimal(n)| else 0, Decimal(n));
  }

  lemma TwoDigitsAreReadBack(n: nat)
    requires n < 100
    ensures AllDigits(Padded(n, 2)) && ReadDecimal(Padded(n, 2)) == n && |Padded(n, 2)| == 2
  {
    PaddedIsReadBack(n, 2);
    TwoDigits(n);
  }

  /** Where the fields of a timestamp stand. */
  lemma FieldsStand(y: string, m: string, d: string, h: string, mi: string, s: string)
    requires |m| == |d| == |h| == |mi| == |s| == 2
    ensures var text, n := y + "-" + m + "-" + d + "T" + h + ":" + mi + ":" + s + "Z", |y|;
            && |text| == n + 16 && text[..n] == y
            && text[n] == '-' && text[n + 1..n + 3] == m && text[n + 3] == '-' && text[n + 4..n + 6] == d
            && text[n + 6] == 'T' && text[n + 7..n + 9] == h && text[n + 9] == ':' && text[n + 10..n + 12] == mi
            && text[n + 12] == ':' && text[n + 13..n + 15] == s && text[n + 15] == 'Z'
  {
    var date := y + "-" + m + "-" + d + "T";
    var time := h + ":" + mi + ":" + s + "Z";
    var text := y + "-" + m + "-" + d + "T" + h + ":" + mi + ":" + s + "Z";
    assert text == date + time;
    assert text[..|date|] == date && text[|date|..] == time;
  }

  lemma FieldsAreRead(y: string, m: string, d: string, h: string, mi: string, s: string)
    requires |y| >= 4 && |m| == |d| == |h| == |mi| == |s| == 2
    ensures ReadTimestamp(y + "-" + m + "-" + d + "T" + h + ":" + mi + ":" + s + "Z") == ReadFields(y, m, d, h, mi, s)
  {
    FieldsStand(y, m, d, h, mi, s);
  }

  lemma PrintedIsReadBack(y: nat, m: nat, d: nat, h: nat, mi: nat, s: nat)
    requires m < 100 && d < 100 && IsTime(h, mi, s)
    ensures ReadTimestamp(DateAndTime(y, m, d, h, mi, s)) == Some(Reading(Date(y, m, d), h, mi, s))
  {
    PaddedIsReadBack(y, 4);
    TwoDigitsAreReadBack(m);
    TwoDigitsAreReadBack(d);
    TwoDigitsAreReadBack(h);
    TwoDigitsAreReadBack(mi);
    TwoDigitsAreReadBack(s);
    FieldsAreRead(Padded(y, 4), Padded(m, 2), Padded(d, 2), Padded(h, 2), Padded(mi, 2), Padded(s, 2));
  }

  /** Every timestamp is read back as a date and a time that stand for the seconds it was made of. */
  lemma TimestampIsReadBack(secs: nat) returns (r: Reading)
    ensures ReadTimestamp(Rfc3339(secs)) == Some(r) && IsDate(r.date)
    ensures 0 <= r.h < 24 && 0 <= r.mi < 60 && 0 <= r.s < 60
    ensures secs == 86400 * DayNumber(r.date) + 3600 * r.h + 60 * r.mi + r.s
  {
    var days, rem := secs / 86400, secs % 86400;
    FromTheEpoch(days);
    CivilIsTheInverse(days);
    r := Reading(CivilFromDays(days), rem / 3600, rem % 3600 / 60, rem % 60);
    DatesAreShort(r.date);
    TimeOfDay(rem);
    PrintedIsReadBack(r.date.y, r.date.m, r.date.d, r.h, r.mi, r.s);
  }

  lemma DatesAreShort(t: Date)
    requires IsDate(t)
    ensures 0 < t.m < 100 && 0 < t.d < 100
  {}

  lemma TimeOfDay(rem: nat)
    requires rem < 86400
    ensures rem == 3600 * (rem / 3600) + 60 * (rem % 3600 / 60) + rem % 60
    ensures IsTime(rem / 3600, rem % 3600 / 60, rem % 60)
  {
    assert rem % 60 == rem % 3600 % 60;
  }

  /** While years have the same number of digits, timestamps sort exactly as their seconds. */
  lemma TimestampsSort(a: nat, b: nat)
    requires |Padded(YearOf(a), 4)| == |Padded(YearOf(b), 4)|
    ensures Before(Rfc3339(a), Rfc3339(b)) <==> a < b
  {
    var t, h, mi, s := TimestampParts(a);
    var t', h', mi', s' := TimestampParts(b);
    PaddedYear(t.y);
    PaddedYear(t'.y);
    var time, time' := TimeText(h, mi, s), TimeText(h', mi', s');
    TimesSort(h, mi, s, h', mi', s');
    DaysSort(t.m, t.d, t'.m, t'.d, time, time');
    FieldDecides(t.y, t'.y, |Padded(t.y, 4)|, "-", DayText(t.m, t.d, time), DayText(t'.m, t'.d, time'));
    DaysFollowDays(a / 86400, b / 86400);
    EarlierDatesCountLess(t, t');
    CivilIsTheInverse(a / 86400);
    CivilIsTheInverse(b / 86400);
  }

  /** In particular up to the end of the year 9999. */
  lemma TimestampsSortUntil9999(a: nat, b: nat)
    requires YearOf(a) <= 9999 && YearOf(b) <= 9999
    ensures Before(Rfc3339(a), Rfc3339(b)) <==> a < b
  {
    PaddedYear(YearOf(a));
    PaddedYear(YearOf(b));
    TimestampsSort(a, b);
  }

  lemma TenTimes(x: nat, l: nat)
    ensures (10 * x + l) / 10 == x + l / 10 && (10 * x + l) % 10 == l % 10
  {}

  lemma {:induction false} PowAdds(a: nat, b: nat)
    ensures Pow10(a + b) == Pow10(a) * Pow10(b)
  {
    if b == 0 {
    } else {
      PowAdds(a, b - 1);
      Regroup(Pow10(a), Pow10(b - 1));
    }
  }

  lemma Regroup(x: nat, y: nat)
    ensures 10 * (x * y) == x * (10 * y)
  {}

  lemma OneDigitDown(n: nat, head: nat, p: nat, last: nat)
    requires n == head * (10 * p) + last
    ensures n / 10 == head * p + last / 10 && n % 10 == last % 10
  {
    Regroup(head, p);
    TenTimes(head * p, last);
  }

  /** The digits of a number fall into those of its parts. */
  lemma {:induction false} DigitsSplit(n: nat, head: nat, last: nat, w: nat, k: nat)
    requires last < Pow10(k) && n == head * Pow10(k) + last
    ensures Digits(n, w + k) == Digits(head, w) + Digits(last, k)
  {
    if k == 0 {
      assert Digits(last, 0) == "";
    } else {
      OneDigitDown(n, head, Pow10(k - 1), last);
      DigitsSplit(n / 10, head, last / 10, w, k - 1);
      assert w + k - 1 == w + (k - 1);
      Associates(Digits(head, w), Digits(last / 10, k - 1), [Digit(last % 10)]);
    }
  }

  lemma Associates(a: string, b: string, c: string)
    ensures a + (b + c) == a + b + c
  {}

  lemma Divide(n: nat, m: nat, p: nat) returns (q: nat, l: nat)
    requires m > 0 && n < p * m
    ensures q == n / m && n == q * m + l && l < m && q < p
  {
    q, l := n / m, n % m;
    if q >= p {
      Grows(p, q, m);
    }
  }

  lemma Grows(p: nat, q: nat, m: nat)
    requires p <= q
    ensures p * m <= q * m
  {}

  lemma {:induction false} DecimalIsAtLeast(n: nat)
    ensures |Decimal(n)| > 1 ==> n >= Pow10(|Decimal(n)| - 1)
  {
    if n >= 10 {
      DecimalIsAtLeast(n / 10);
      assert 10 * (n / 10) <= n;
      if |Decimal(n / 10)| == 1 {
        assert Pow10(1) == 10 * Pow10(0);
      }
    }
  }

  /** A year with more digits is a later year. */
  lemma MoreDigitsIsLater(y: nat, y': nat)
    requires |Padded(y, 4)| < |Padded(y', 4)|
    ensures y < y'
  {
    PaddedYear(y);
    PaddedYear(y');
    DecimalIsAtLeast(y');
    PowGrows(|Padded(y, 4)|, |Padded(y', 4)| - 1);
  }

  /**
   A year printed with more digits stands, digit for digit, against the first digits of the longer one:
   it sorts before it when it is at most the number these make.
   */
  lemma YearsDecide(y: nat, y': nat, k: nat, u: string, v: string)
    requires k > 0 && |Padded(y', 4)| == |Padded(y, 4)| + k
    ensures Pow10(k) > 0
    ensures Before(Padded(y, 4) + ("-" + u), Padded(y', 4) + ("-" + v)) <==> y <= y' / Pow10(k)
  {
    var w := |Padded(y, 4)|;
    PaddedYear(y);
    PaddedYear(y');
    PowGrows(0, k);
    var first, last := SplitNumber(y', w, k);
    SplitDecides(y, first, last, w, k, u, v);
  }

  lemma DivideByPower(n: nat, w: nat, k: nat) returns (first: nat, last: nat)
    requires n < Pow10(w + k) && Pow10(k) > 0
    ensures first == n / Pow10(k) && first < Pow10(w) && last < Pow10(k)
    ensures n == first * Pow10(k) + last
  {
    PowAdds(w, k);
    first, last := Divide(n, Pow10(k), Pow10(w));
  }

  lemma SplitNumber(n: nat, w: nat, k: nat) returns (first: nat, last: nat)
    requires n < Pow10(w + k) && Pow10(k) > 0
    ensures first == n / Pow10(k) && first < Pow10(w) && last < Pow10(k)
    ensures Digits(n, w + k) == Digits(first, w) + Digits(last, k)
  {
    first, last := DivideByPower(n, w, k);
    DigitsSplit(n, first, last, w, k);
  }

  lemma SplitDecides(y: nat, first: nat, last: nat, w: nat, k: nat, u: string, v: string)
    requires k > 0 && y < Pow10(w) && first < Pow10(w) && last < Pow10(k)
    ensures Before(Digits(y, w) + ("-" + u), Digits(first, w) + Digits(last, k) + ("-" + v)) <==> y <= first
  {
    var rest := Digits(last, k) + ("-" + v);
    assert Digits(first, w) + Digits(last, k) + ("-" + v) == Digits(first, w) + rest;
    DigitsStart(last, k);
    assert rest[0] == Digits(last, k)[0] && "-"[0] < rest[0];
    assert Before("-" + u, rest);
    DigitsSortAsNumbers(y, first, w);
    PartsDecide(Digits(y, w), Digits(first, w), "-" + u, rest);
  }

  lemma {:induction false} DigitsStart(n: nat, w: nat)
    requires w > 0
    ensures |Digits(n, w)| == w && IsDigit(Digits(n, w)[0])
  {
    if w > 1 {
      DigitsStart(n / 10, w - 1);
    }
  }

  /**
   Between years of different lengths they do not always: the timestamp with the shorter year is the
   earlier one, and it sorts first exactly when its year is at most what the first digits of the longer
   year make, as many as it has itself.
   */
  lemma TimestampsSortAcrossLengths(a: nat, b: nat)
    requires |Padded(YearOf(a), 4)| < |Padded(YearOf(b), 4)|
    ensures a < b
    ensures var longer := Pow10(|Padded(YearOf(b), 4)| - |Padded(YearOf(a), 4)|);
            longer > 0 && (Before(Rfc3339(a), Rfc3339(b)) <==> YearOf(a) <= YearOf(b) / longer)
  {
    var t, h, mi, s := TimestampParts(a);
    var t', h', mi', s' := TimestampParts(b);
    YearsDecide(YearOf(a), YearOf(b), |Padded(YearOf(b), 4)| - |Padded(YearOf(a), 4)|,
                DayText(t.m, t.d, TimeText(h, mi, s)), DayText(t'.m, t'.d, TimeText(h', mi', s')));
    MoreDigitsIsLater(YearOf(a), YearOf(b));
    DaysFollowDays(a / 86400, b / 86400);
    EarlierDatesCountLess(t, t');
    CivilIsTheInverse(a / 86400);
    CivilIsTheInverse(b / 86400);
  }
}
